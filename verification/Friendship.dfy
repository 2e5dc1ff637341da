/** The friend tables of MySQLMgr under any sequence of its operations, each taken as one step: requests,
    answers and relations. */
module Friendship {

  datatype Status = Pending | Accepted | Rejected

  datatype Request = Request(id: nat, fromUid: int, toUid: int, status: Status)

  /** A row of `friendships`. */
  datatype Pair = Pair(user1: int, user2: int)

  /** `users` lists the primary keys of the user table; both other tables refer to it by foreign key. */
  datatype Tables = Tables(users: seq<int>, friendships: seq<Pair>, requests: seq<Request>)

  function Ordered(a: int, b: int): Pair {
    if a <= b then Pair(a, b) else Pair(b, a)
  }

  predicate HasPending(t: Tables, fromUid: int, toUid: int) {
    exists r :: r in t.requests && r.fromUid == fromUid && r.toUid == toUid && r.status == Pending
  }

  /** Whether addFriendRequest inserts: not friends in either order, nothing pending, both users exist. */
  predicate Requestable(t: Tables, fromUid: int, toUid: int) {
    && Pair(fromUid, toUid) !in t.friendships && Pair(toUid, fromUid) !in t.friendships
    && !HasPending(t, fromUid, toUid)
    && fromUid in t.users && toUid in t.users
  }

  function Requested(t: Tables, fromUid: int, toUid: int): Tables {
    if !Requestable(t, fromUid, toUid) then t
    else t.(requests := t.requests + [Request(|t.requests| + 1, fromUid, toUid, Pending)])
  }

  function Answer(r: Request, id: nat, accepted: bool): Request {
    if r.id == id then r.(status := if accepted then Accepted else Rejected) else r
  }

  function Answered(t: Tables, id: nat, accepted: bool): Tables {
    t.(requests := seq(|t.requests|, i requires 0 <= i < |t.requests| => Answer(t.requests[i], id, accepted)))
  }

  function Related(t: Tables, a: int, b: int): Tables {
    if Ordered(a, b) in t.friendships || a !in t.users || b !in t.users then t
    else t.(friendships := t.friendships + [Ordered(a, b)])
  }

  datatype Op =
    | AddFriendRequest(fromUid: int, toUid: int)
    | UpdateFriendRequestStatus(id: nat, accepted: bool)
    | AddFriendRelation(uid1: int, uid2: int)

  function Step(t: Tables, op: Op): Tables {
    match op
    case AddFriendRequest(f, u) => Requested(t, f, u)
    case UpdateFriendRequestStatus(id, accepted) => Answered(t, id, accepted)
    case AddFriendRelation(a, b) => Related(t, a, b)
  }

  function Run(users: seq<int>, ops: seq<Op>): Tables {
    if ops == [] then Tables(users, [], []) else Step(Run(users, ops[..|ops| - 1]), ops[|ops| - 1])
  }

  predicate SamePair(p: Pair, q: Pair) {
    (p.user1 == q.user1 && p.user2 == q.user2) || (p.user1 == q.user2 && p.user2 == q.user1)
  }

  ghost predicate FriendshipsOk(t: Tables) {
    && (forall i :: 0 <= i < |t.friendships| ==>
          var p := t.friendships[i]; p.user1 <= p.user2 && p.user1 in t.users && p.user2 in t.users)
    && (forall i, j :: 0 <= i < j < |t.friendships| ==> !SamePair(t.friendships[i], t.friendships[j]))
  }

  ghost predicate RequestsOk(t: Tables) {
    && (forall i :: 0 <= i < |t.requests| ==> t.requests[i].id == i + 1)
    && (forall i, j :: 0 <= i < j < |t.requests| && t.requests[i].status == Pending && t.requests[j].status == Pending ==>
          !(t.requests[i].fromUid == t.requests[j].fromUid && t.requests[i].toUid == t.requests[j].toUid))
  }

  /** In every run the lower uid of a friendship comes first, no unordered pair is stored twice, and no
      ordered pair has two pending requests. */
  lemma {:induction false} TablesInvariant(users: seq<int>, ops: seq<Op>)
    ensures Run(users, ops).users == users
    ensures FriendshipsOk(Run(users, ops)) && RequestsOk(Run(users, ops))
  {
    if ops != [] {
      TablesInvariant(users, ops[..|ops| - 1]);
      StepKeepsTables(Run(users, ops[..|ops| - 1]), ops[|ops| - 1]);
    }
  }

  lemma StepKeepsTables(t: Tables, op: Op)
    requires FriendshipsOk(t) && RequestsOk(t)
    ensures FriendshipsOk(Step(t, op)) && RequestsOk(Step(t, op)) && Step(t, op).users == t.users
  {
  }

  /** The join's condition on one friendship row. */
  predicate Touches(f: Pair, v: int, uid: int) {
    (v == f.user1 || v == f.user2) && (f.user1 == uid || f.user2 == uid) && v != uid
  }

  /** How many rows of the join pair user `v` with user `uid`. */
  function Matches(rows: seq<Pair>, v: int, uid: int): nat {
    if rows == [] then 0
    else
      Matches(rows[..|rows| - 1], v, uid) + (if Touches(rows[|rows| - 1], v, uid) then 1 else 0)
  }

  /** getFriendList: users joined with the friendships either of whose ends is theirs, restricted to those
      with an end at `uid`, without `uid` itself. */
  function FriendList(users: seq<int>, rows: seq<Pair>, uid: int): seq<int> {
    if users == [] then []
    else
      var v := users[|users| - 1];
      FriendList(users[..|users| - 1], rows, uid) + seq(Matches(rows, v, uid), _ => v)
  }

  lemma {:induction false} MatchesSymmetric(rows: seq<Pair>, u: int, v: int)
    requires u != v
    ensures Matches(rows, u, v) == Matches(rows, v, u)
  {
    if rows != [] {
      MatchesSymmetric(rows[..|rows| - 1], u, v);
    }
  }

  lemma {:induction false} MatchesAtMostOnce(rows: seq<Pair>, u: int, v: int)
    requires u != v
    requires forall i :: 0 <= i < |rows| ==> rows[i].user1 <= rows[i].user2
    requires forall i, j :: 0 <= i < j < |rows| ==> !SamePair(rows[i], rows[j])
    ensures Matches(rows, u, v) == if Ordered(u, v) in rows then 1 else 0
  {
    if rows != [] {
      var init, last := rows[..|rows| - 1], rows[|rows| - 1];
      MatchesAtMostOnce(init, u, v);
      TouchesOne(last, u, v);
      assert rows == init + [last];
      assert last !in init by {
        forall i | 0 <= i < |init| ensures init[i] != last {
          assert !SamePair(rows[i], rows[|rows| - 1]);
        }
      }
    }
  }

  lemma TouchesOne(f: Pair, u: int, v: int)
    requires u != v && f.user1 <= f.user2
    ensures Touches(f, u, v) <==> f == Ordered(u, v)
  {
  }

  lemma RepeatCount(n: nat, x: int, v: int)
    ensures multiset(seq(n, _ => x))[v] == if v == x then n else 0
  {
    if n > 0 {
      RepeatCount(n - 1, x, v);
      assert seq(n, _ => x) == seq(n - 1, _ => x) + [x];
    }
  }

  lemma {:induction false} ListCount(users: seq<int>, rows: seq<Pair>, uid: int, v: int)
    requires forall i, j :: 0 <= i < j < |users| ==> users[i] != users[j]
    ensures multiset(FriendList(users, rows, uid))[v] == if v in users then Matches(rows, v, uid) else 0
  {
    if users != [] {
      var init, last := users[..|users| - 1], users[|users| - 1];
      ListCount(init, rows, uid, v);
      RepeatCount(Matches(rows, last, uid), last, v);
      assert users == init + [last];
    }
  }

  /** Friendship is mutual: between two users of the table, after any run, each is in the other's friend
      list the same number of times, once if the pair is stored and never otherwise. */
  lemma FriendshipIsMutual(users: seq<int>, ops: seq<Op>, u: int, v: int)
    requires forall i, j :: 0 <= i < j < |users| ==> users[i] != users[j]
    requires u in users && v in users && u != v
    ensures var rows := Run(users, ops).friendships;
            && multiset(FriendList(users, rows, u))[v] == multiset(FriendList(users, rows, v))[u]
            && multiset(FriendList(users, rows, u))[v] == if Ordered(u, v) in rows then 1 else 0
  {
    var rows := Run(users, ops).friendships;
    TablesInvariant(users, ops);
    ListCount(users, rows, u, v);
    ListCount(users, rows, v, u);
    MatchesSymmetric(rows, u, v);
    MatchesAtMostOnce(rows, u, v);
  }

  predicate Relates(op: Op, u: int, v: int) {
    op.AddFriendRelation? && ((op.uid1 == u && op.uid2 == v) || (op.uid1 == v && op.uid2 == u))
  }

  /** Two users are friends iff they have been related, in either order. */
  lemma {:induction false} FriendsIffRelated(users: seq<int>, ops: seq<Op>, u: int, v: int)
    requires u in users && v in users
    ensures Ordered(u, v) in Run(users, ops).friendships <==> exists i :: 0 <= i < |ops| && Relates(ops[i], u, v)
  {
    if ops != [] {
      var p, op := ops[..|ops| - 1], ops[|ops| - 1];
      FriendsIffRelated(users, p, u, v);
      TablesInvariant(users, p);
      assert forall i :: 0 <= i < |p| ==> ops[i] == p[i];
      assert Relates(op, u, v) <==> op.AddFriendRelation? && Ordered(op.uid1, op.uid2) == Ordered(u, v);
    }
  }

  predicate Answers(op: Op, id: nat) {
    op.UpdateFriendRequestStatus? && op.id == id
  }

  /** The latest answer to request `id`, or pending if there is none. */
  function Verdict(ops: seq<Op>, id: nat): Status {
    if ops == [] then Pending
    else
      var op := ops[|ops| - 1];
      if Answers(op, id) then (if op.accepted then Accepted else Rejected) else Verdict(ops[..|ops| - 1], id)
  }

  lemma RowStep(t: Tables, op: Op, k: nat)
    requires k < |t.requests|
    ensures k < |Step(t, op).requests|
    ensures var r := t.requests[k];
            Step(t, op).requests[k]
              == if Answers(op, r.id) then r.(status := if op.accepted then Accepted else Rejected) else r
  {
  }

  /** The request that operation i makes is the next row, and its status afterwards is the latest answer to it. */
  lemma {:induction false} RequestIsAnswered(users: seq<int>, ops: seq<Op>, i: nat, id: nat)
    requires i < |ops| && ops[i].AddFriendRequest? && Requestable(Run(users, ops[..i]), ops[i].fromUid, ops[i].toUid)
    requires id == |Run(users, ops[..i]).requests| + 1
    ensures id <= |Run(users, ops).requests|
    ensures Run(users, ops).requests[id - 1] == Request(id, ops[i].fromUid, ops[i].toUid, Verdict(ops[i + 1..], id))
  {
    var p, op := ops[..|ops| - 1], ops[|ops| - 1];
    if i < |p| {
      assert p[..i] == ops[..i];
      RequestIsAnswered(users, p, i, id);
      RowStep(Run(users, p), op, id - 1);
      assert ops[i + 1..][..|ops| - i - 2] == p[i + 1..];
    }
  }

  /** MySQLMgr's friend operations.  An INSERT that would break a foreign key throws, which the method
      turns into `false`. */
  class FriendTables {
    var tables: Tables

    constructor (users: seq<int>)
      ensures tables == Run(users, [])
    {
      tables := Tables(users, [], []);
    }

    method AddFriendRequest(fromUid: int, toUid: int) returns (success: bool)
      modifies this
      ensures tables == Step(old(tables), Op.AddFriendRequest(fromUid, toUid))
      ensures success <==>
                && Pair(fromUid, toUid) !in old(tables).friendships && Pair(toUid, fromUid) !in old(tables).friendships
                && (forall r :: r in old(tables).requests ==>
                      !(r.fromUid == fromUid && r.toUid == toUid && r.status == Pending))
                && fromUid in old(tables).users && toUid in old(tables).users
      ensures !success ==> tables == old(tables)
      ensures success ==> tables == old(tables).(
                requests := old(tables).requests + [Request(|old(tables).requests| + 1, fromUid, toUid, Pending)])
    {
      if Pair(fromUid, toUid) in tables.friendships || Pair(toUid, fromUid) in tables.friendships {
        return false;
      }
      var pending := exists r :: r in tables.requests && r.fromUid == fromUid && r.toUid == toUid && r.status == Pending;
      if pending {
        return false;
      }
      if fromUid !in tables.users || toUid !in tables.users {
        return false;
      }
      tables := tables.(requests := tables.requests + [Request(|tables.requests| + 1, fromUid, toUid, Pending)]);
      success := true;
    }

    method UpdateFriendRequestStatus(id: nat, accepted: bool) returns (success: bool)
      modifies this
      ensures success && tables == Step(old(tables), Op.UpdateFriendRequestStatus(id, accepted))
      ensures tables.users == old(tables).users && tables.friendships == old(tables).friendships
      ensures |tables.requests| == |old(tables).requests|
      ensures forall i :: 0 <= i < |tables.requests| ==>
                var r, was := tables.requests[i], old(tables).requests[i];
                && r.id == was.id && r.fromUid == was.fromUid && r.toUid == was.toUid
                && (r.id == id ==> r.status != Pending && (r.status == Accepted <==> accepted))
                && (r.id != id ==> r.status == was.status)
    {
      var status := if accepted then Accepted else Rejected;
      var rows := tables.requests;
      for i := 0 to |rows|
        invariant |rows| == |tables.requests| && tables == old(tables)
        invariant forall k :: 0 <= k < i ==> rows[k] == Answer(tables.requests[k], id, accepted)
        invariant forall k :: i <= k < |rows| ==> rows[k] == tables.requests[k]
      {
        if rows[i].id == id {
          rows := rows[i := rows[i].(status := status)];
        }
      }
      assert rows == Answered(tables, id, accepted).requests;
      tables := tables.(requests := rows);
      success := true;
    }

    method AddFriendRelation(uid1: int, uid2: int) returns (success: bool)
      modifies this
      ensures tables == Step(old(tables), Op.AddFriendRelation(uid1, uid2))
      ensures success <==> Ordered(uid1, uid2) in tables.friendships
      ensures success <==>
                Ordered(uid1, uid2) in old(tables).friendships || (uid1 in old(tables).users && uid2 in old(tables).users)
      ensures tables.users == old(tables).users && tables.requests == old(tables).requests
    {
      var user1 := if uid2 < uid1 then uid2 else uid1;
      var user2 := if uid1 < uid2 then uid2 else uid1;
      assert Pair(user1, user2) == Ordered(uid1, uid2);
      if Pair(user1, user2) in tables.friendships {
        return true;
      }
      if user1 !in tables.users || user2 !in tables.users {
        return false;
      }
      tables := tables.(friendships := tables.friendships + [Pair(user1, user2)]);
      success := true;
    }
  }
}
