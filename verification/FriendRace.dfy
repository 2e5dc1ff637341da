/** The friend operations as they run when calls overlap: every SELECT and every INSERT is a step of its own,
    and nothing is locked in between.  A number stands for a call in progress. */
module FriendRace {
  import opened Friendship

  /** Where a call is: not friends as far as it knows; nothing pending when the request table had `rows` rows;
      or about to store a friendship. */
  datatype Call = NotFriends(fromUid: int, toUid: int) | NonePending(fromUid: int, toUid: int, rows: nat) | Relating(p: Pair)

  datatype State = State(tables: Tables, calls: map<nat, Call>)

  datatype Event =
    | AskFriends(call: nat, fromUid: int, toUid: int)
    | AskPending(call: nat)
    | InsertRequest(call: nat)
    | Answer(id: nat, accepted: bool)
    | AskRelation(call: nat, uid1: int, uid2: int)
    | InsertRelation(call: nat)

  predicate AreFriends(t: Tables, a: int, b: int) {
    Pair(a, b) in t.friendships || Pair(b, a) in t.friendships
  }

  function Without(calls: map<nat, Call>, c: nat): map<nat, Call> {
    calls - {c}
  }

  /** The INSERT of addFriendRequest, which the foreign keys may refuse. */
  function RequestInserted(t: Tables, f: int, u: int): Tables {
    if f !in t.users || u !in t.users then t
    else t.(requests := t.requests + [Request(|t.requests| + 1, f, u, Pending)])
  }

  /** The INSERT of addFriendRelation, which the unique key or the foreign keys may refuse. */
  function RelationInserted(t: Tables, p: Pair): Tables {
    if p in t.friendships || p.user1 !in t.users || p.user2 !in t.users then t
    else t.(friendships := t.friendships + [p])
  }

  function Step(s: State, e: Event): State {
    match e
    case AskFriends(c, f, u) =>
      if c in s.calls || AreFriends(s.tables, f, u) then s else s.(calls := s.calls[c := NotFriends(f, u)])
    case AskPending(c) =>
      if c !in s.calls || !s.calls[c].NotFriends? then s
      else
        var f, u := s.calls[c].fromUid, s.calls[c].toUid;
        if HasPending(s.tables, f, u) then s.(calls := Without(s.calls, c))
        else s.(calls := s.calls[c := NonePending(f, u, |s.tables.requests|)])
    case InsertRequest(c) =>
      if c !in s.calls || !s.calls[c].NonePending? then s
      else State(RequestInserted(s.tables, s.calls[c].fromUid, s.calls[c].toUid), Without(s.calls, c))
    case Answer(id, accepted) => s.(tables := Answered(s.tables, id, accepted))
    case AskRelation(c, a, b) =>
      if c in s.calls || Ordered(a, b) in s.tables.friendships then s else s.(calls := s.calls[c := Relating(Ordered(a, b))])
    case InsertRelation(c) =>
      if c !in s.calls || !s.calls[c].Relating? then s
      else State(RelationInserted(s.tables, s.calls[c].p), Without(s.calls, c))
  }

  function Run(users: seq<int>, es: seq<Event>): State {
    if es == [] then State(Tables(users, [], []), map[]) else Step(Run(users, es[..|es| - 1]), es[|es| - 1])
  }

  predicate PendingAt(t: Tables, k: nat, f: int, u: int) {
    k < |t.requests| && t.requests[k].fromUid == f && t.requests[k].toUid == u && t.requests[k].status == Pending
  }

  /** What a call has seen stays so: of the rows there were when it asked, none is pending for its pair.  A
      friendship about to be stored has its lower uid first. */
  ghost predicate CallOk(t: Tables, call: Call) {
    match call
    case NotFriends(_, _) => true
    case NonePending(f, u, rows) => rows <= |t.requests| && forall k: nat :: k < rows ==> !PendingAt(t, k, f, u)
    case Relating(p) => p.user1 <= p.user2
  }

  ghost predicate Inv(s: State) {
    FriendshipsOk(s.tables) && forall c :: c in s.calls ==> CallOk(s.tables, s.calls[c])
  }

  lemma RelationKeeps(t: Tables, p: Pair)
    requires FriendshipsOk(t) && p.user1 <= p.user2
    ensures FriendshipsOk(RelationInserted(t, p))
  {
    forall i | 0 <= i < |t.friendships| && p !in t.friendships ensures !SamePair(t.friendships[i], p) {
      assert t.friendships[i] in t.friendships;
    }
  }

  /** No step makes an old row pending. */
  lemma CallStaysOk(s: State, e: Event, call: Call)
    requires CallOk(s.tables, call)
    ensures CallOk(Step(s, e).tables, call)
  {
    if call.NonePending? {
      forall k: nat | k < call.rows ensures !PendingAt(Step(s, e).tables, k, call.fromUid, call.toUid) {
        assert !PendingAt(s.tables, k, call.fromUid, call.toUid);
      }
    }
  }

  lemma AskedOk(t: Tables, f: int, u: int)
    requires !HasPending(t, f, u)
    ensures CallOk(t, NonePending(f, u, |t.requests|))
  {
    forall k: nat | k < |t.requests| ensures !PendingAt(t, k, f, u) {
      assert t.requests[k] in t.requests;
    }
  }

  lemma StepKeepsInv(s: State, e: Event)
    requires Inv(s)
    ensures Inv(Step(s, e))
  {
    if e.InsertRelation? && e.call in s.calls && s.calls[e.call].Relating? {
      RelationKeeps(s.tables, s.calls[e.call].p);
    }
    var t := Step(s, e);
    forall c | c in t.calls ensures CallOk(t.tables, t.calls[c]) {
      if c in s.calls {
        CallStaysOk(s, e, s.calls[c]);
      }
      if e == AskPending(c) && c in s.calls && t.calls[c] != s.calls[c] {
        AskedOk(s.tables, t.calls[c].fromUid, t.calls[c].toUid);
      }
    }
  }

  /** However calls overlap, the unique key keeps the friendships right: lower uid first, no pair twice. */
  lemma {:induction false} FriendshipsSurvive(users: seq<int>, es: seq<Event>)
    ensures Inv(Run(users, es)) && FriendshipsOk(Run(users, es).tables)
  {
    if es != [] {
      FriendshipsSurvive(users, es[..|es| - 1]);
      StepKeepsInv(Run(users, es[..|es| - 1]), es[|es| - 1]);
    }
  }

  /** The ordered pair has two pending requests. */
  ghost predicate TwoPending(t: Tables, f: int, u: int) {
    exists k: nat, l: nat :: k < l && PendingAt(t, k, f, u) && PendingAt(t, l, f, u)
  }

  /** The requests have no such key.  In any run, an INSERT leaves its pair with two pending requests iff one
      has been inserted for the pair since the call asked, and has not been answered. */
  lemma InsertDuplicatesIff(users: seq<int>, es: seq<Event>, c: nat)
    requires var s := Run(users, es);
             && c in s.calls && s.calls[c].NonePending?
             && s.calls[c].fromUid in s.tables.users && s.calls[c].toUid in s.tables.users
    ensures var s := Run(users, es);
            var call := s.calls[c];
            (TwoPending(Step(s, InsertRequest(c)).tables, call.fromUid, call.toUid)
             <==> exists k: nat :: call.rows <= k && PendingAt(s.tables, k, call.fromUid, call.toUid))
  {
    var s := Run(users, es);
    var f, u, t := s.calls[c].fromUid, s.calls[c].toUid, Step(s, InsertRequest(c)).tables;
    FriendshipsSurvive(users, es);
    assert CallOk(s.tables, s.calls[c]);
    assert PendingAt(t, |s.tables.requests|, f, u);
    forall k: nat | k < |s.tables.requests| ensures PendingAt(t, k, f, u) <==> PendingAt(s.tables, k, f, u) {}
  }

  /** A call that nobody interrupts is the atomic operation. */
  lemma UninterruptedRequest(s: State, c: nat, f: int, u: int)
    requires c !in s.calls
    ensures Step(Step(Step(s, AskFriends(c, f, u)), AskPending(c)), InsertRequest(c)).tables == Requested(s.tables, f, u)
  {
  }

  lemma UninterruptedRelation(s: State, c: nat, a: int, b: int)
    requires c !in s.calls
    ensures Step(Step(s, AskRelation(c, a, b)), InsertRelation(c)).tables == Related(s.tables, a, b)
  {
  }

  /** Two overlapping requests from one user to another. */
  function Overlap(f: int, u: int): seq<Event> {
    [AskFriends(0, f, u), AskPending(0), AskFriends(1, f, u), AskPending(1), InsertRequest(0), InsertRequest(1)]
  }

  lemma OverlapDuplicates(s: State, f: int, u: int)
    requires s.calls == map[] && s.tables.requests == [] && s.tables.friendships == []
    requires f in s.tables.users && u in s.tables.users
    ensures var asked := Step(Step(Step(Step(s, AskFriends(0, f, u)), AskPending(0)), AskFriends(1, f, u)), AskPending(1));
            TwoPending(Step(Step(asked, InsertRequest(0)), InsertRequest(1)).tables, f, u)
  {
    var asked := Step(Step(Step(Step(s, AskFriends(0, f, u)), AskPending(0)), AskFriends(1, f, u)), AskPending(1));
    assert asked.tables == s.tables && asked.calls[0] == NonePending(f, u, 0) && asked.calls[1] == NonePending(f, u, 0);
    var t := Step(Step(asked, InsertRequest(0)), InsertRequest(1)).tables;
    assert PendingAt(t, 0, f, u) && PendingAt(t, 1, f, u);
  }

  lemma Prefixes(users: seq<int>, es: seq<Event>, m: nat)
    requires m < |es|
    ensures Run(users, es[..m + 1]) == Step(Run(users, es[..m]), es[m])
  {
    assert es[..m + 1][..m] == es[..m];
  }

  lemma SixSteps(users: seq<int>, es: seq<Event>)
    requires |es| == 6
    ensures Run(users, es) == Step(Step(Step(Step(Step(Step(Run(users, []), es[0]), es[1]), es[2]), es[3]), es[4]), es[5])
  {
    Prefixes(users, es, 0);
    Prefixes(users, es, 1);
    Prefixes(users, es, 2);
    Prefixes(users, es, 3);
    Prefixes(users, es, 4);
    Prefixes(users, es, 5);
    assert es[..6] == es && es[..0] == [];
  }

  lemma {:induction false} RequestsAreUsers(users: seq<int>, es: seq<Event>, k: nat)
    requires k < |Run(users, es).tables.requests|
    ensures Run(users, es).tables.requests[k].fromUid in users && Run(users, es).tables.requests[k].toUid in users
    ensures Run(users, es).tables.users == users
  {
    var p := es[..|es| - 1];
    UsersStay(users, p);
    if k < |Run(users, p).tables.requests| {
      RequestsAreUsers(users, p, k);
    }
  }

  lemma {:induction false} UsersStay(users: seq<int>, es: seq<Event>)
    ensures Run(users, es).tables.users == users
  {
    if es != [] {
      UsersStay(users, es[..|es| - 1]);
    }
  }

  /** So two pending requests for one ordered pair can come about for any two users. */
  lemma DuplicatesReachableIff(users: seq<int>, f: int, u: int)
    ensures (exists es :: TwoPending(Run(users, es).tables, f, u)) <==> f in users && u in users
  {
    if f in users && u in users {
      var es := Overlap(f, u);
      SixSteps(users, es);
      OverlapDuplicates(Run(users, []), f, u);
    } else {
      forall es ensures !TwoPending(Run(users, es).tables, f, u) {
        forall k: nat | PendingAt(Run(users, es).tables, k, f, u) ensures false {
          RequestsAreUsers(users, es, k);
        }
      }
    }
  }
}
