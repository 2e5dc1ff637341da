/** CheckToken as it runs when calls are not serialised: it reads and compares under no lock and, if the token
    matched, deletes the user's key in a second step.  Each call has a number of its own. */
module TokenRace {
  import opened Tokens

  /** `seen` are the calls that have read, `deleting` those that matched and have yet to delete, with the uid
      whose key they will delete. */
  datatype State = State(store: TokenState, seen: set<nat>, deleting: map<nat, int>)

  datatype Event =
    | IssueToken(uid: int, token: string)
    | PassTime(seconds: nat)
    | Read(call: nat, uid: int, token: string)
    | Delete(call: nat)

  function Step(s: State, e: Event): State {
    match e
    case IssueToken(uid, token) => s.(store := Inserted(s.store, uid, token))
    case PassTime(seconds) => s.(store := s.store.(now := s.store.now + seconds))
    case Read(c, uid, token) =>
      if c in s.seen then s
      else s.(seen := s.seen + {c}, deleting := if Accepts(s.store, uid, token) then s.deleting[c := uid] else s.deleting)
    case Delete(c) =>
      if c !in s.deleting then s
      else s.(store := s.store.(tokens := s.store.tokens - {s.deleting[c]}), deleting := s.deleting - {c})
  }

  function Run(h: seq<Event>): State {
    if h == [] then State(TokenState(map[], 0), {}, map[]) else Step(Run(h[..|h| - 1]), h[|h| - 1])
  }

  function NowAt(h: seq<Event>, j: nat): nat
    requires j <= |h|
  {
    Run(h[..j]).store.now
  }

  function Elapsed(h: seq<Event>): nat {
    if h == [] then 0 else Elapsed(h[..|h| - 1]) + (if h[|h| - 1].PassTime? then h[|h| - 1].seconds else 0)
  }

  lemma {:induction false} ClockShowsElapsed(h: seq<Event>)
    ensures Run(h).store.now == Elapsed(h)
  {
    if h != [] {
      ClockShowsElapsed(h[..|h| - 1]);
    }
  }

  /** Event j is the read of a call that presents `token` for `uid`, and the call succeeds iff it matches. */
  predicate Presents(h: seq<Event>, j: nat, uid: int, token: string) {
    j < |h| && h[j].Read? && h[j].uid == uid && h[j].token == token && h[j].call !in Run(h[..j]).seen
  }

  predicate Matches(h: seq<Event>, j: nat, uid: int, token: string) {
    Presents(h, j, uid, token) && Accepts(Run(h[..j]).store, uid, token)
  }

  /** Event k deletes the user's key, for a call that may have matched an earlier token. */
  predicate DeletesAt(h: seq<Event>, k: nat, uid: int) {
    k < |h| && h[k].Delete? && var s := Run(h[..k]); h[k].call in s.deleting && s.deleting[h[k].call] == uid
  }

  predicate IssuesTo(e: Event, uid: int) {
    e.IssueToken? && e.uid == uid
  }

  /** Event i issued to `uid`, and nothing has been issued to that user since. */
  predicate LastIssue(h: seq<Event>, i: nat, uid: int) {
    i < |h| && IssuesTo(h[i], uid) && forall k :: i < k < |h| ==> !IssuesTo(h[k], uid)
  }

  ghost predicate DeletedSince(h: seq<Event>, i: nat, uid: int) {
    exists k: nat :: i < k && DeletesAt(h, k, uid)
  }

  lemma DeletedStep(h: seq<Event>, p: seq<Event>, i: nat, uid: int)
    requires h != [] && p == h[..|h| - 1] && i < |p|
    ensures DeletedSince(h, i, uid) <==> DeletedSince(p, i, uid) || DeletesAt(h, |p|, uid)
  {
    forall k: nat | k < |p| ensures DeletesAt(h, k, uid) <==> DeletesAt(p, k, uid) {
      assert h[..k] == p[..k];
    }
  }

  /** The token of event i is in the store until the first delete for that user. */
  lemma {:induction false} StoredUntilDeleted(h: seq<Event>, i: nat, uid: int)
    requires LastIssue(h, i, uid)
    ensures var tokens := Run(h).store.tokens;
            if DeletedSince(h, i, uid) then uid !in tokens
            else uid in tokens && tokens[uid] == Entry(h[i].token, NowAt(h, i) + TOKEN_TTL)
  {
    var p := h[..|h| - 1];
    if i < |p| {
      StoredUntilDeleted(p, i, uid);
      DeletedStep(h, p, i, uid);
      assert h[..i] == p[..i];
    }
  }

  lemma {:induction false} TimePasses(h: seq<Event>, j: nat)
    requires j <= |h|
    ensures NowAt(h, j) <= Run(h).store.now
  {
    if j < |h| {
      var p := h[..|h| - 1];
      assert p[..j] == h[..j];
      TimePasses(p, j);
    } else {
      assert h[..j] == h;
    }
  }

  /** A call that presents the token of event i matches iff the token is younger than 300 seconds and nothing
      for the user has been deleted since it was issued. */
  lemma MatchesIff(h: seq<Event>, i: nat, j: nat, uid: int)
    requires i < j < |h| && LastIssue(h[..j], i, uid) && Presents(h, j, uid, h[i].token)
    ensures Matches(h, j, uid, h[i].token) <==> !DeletedSince(h[..j], i, uid) && NowAt(h, j) - NowAt(h, i) < TOKEN_TTL
  {
    StoredUntilDeleted(h[..j], i, uid);
    assert h[..j][..i] == h[..i];
  }

  /** Two calls succeed with one token iff both have read before the first delete for its user, and the later
      one while it was valid: reading, comparing and deleting are not one step. */
  lemma BothMatchIff(h: seq<Event>, i: nat, j: nat, k: nat, uid: int)
    requires i < j < k < |h| && LastIssue(h[..k], i, uid)
    requires Presents(h, j, uid, h[i].token) && Presents(h, k, uid, h[i].token)
    ensures Matches(h, j, uid, h[i].token) && Matches(h, k, uid, h[i].token)
       <==> !DeletedSince(h[..k], i, uid) && NowAt(h, k) - NowAt(h, i) < TOKEN_TTL
  {
    assert h[..k][..j] == h[..j];
    MatchesIff(h, i, j, uid);
    MatchesIff(h, i, k, uid);
    TimePasses(h[..k], j);
    if DeletedSince(h[..j], i, uid) {
      var l: nat :| i < l && DeletesAt(h[..j], l, uid);
      assert h[..j][..l] == h[..k][..l];
      assert DeletesAt(h[..k], l, uid);
    }
  }

  /** A call that deletes before anybody else moves is the check of the serialised service. */
  lemma SerialisedIsCheck(s: State, c: nat, uid: int, token: string)
    requires c !in s.seen && c !in s.deleting
    ensures var t := Step(Step(s, Read(c, uid, token)), Delete(c));
            t.store == Apply(s.store, Check(uid, token)) && t.deleting == s.deleting
  {
    assert s.deleting[c := uid] - {c} == s.deleting;
  }

  /** Two sessions can log in with one token. */
  lemma OneTokenTwice(uid: int, token: string)
    ensures var h := [IssueToken(uid, token), Read(0, uid, token), Read(1, uid, token)];
            Matches(h, 1, uid, token) && Matches(h, 2, uid, token)
  {
    var h := [IssueToken(uid, token), Read(0, uid, token), Read(1, uid, token)];
    assert h[..2][..1] == h[..1] && h[..1][..0] == [];
    assert Run(h[..1]).store.tokens[uid] == Entry(token, TOKEN_TTL);
    assert Run(h[..2]).store == Run(h[..1]).store;
  }

  /** And a slow delete takes whatever token the user then has, also one issued after its read. */
  lemma DeleteTakesLaterToken(s: State, c: nat, uid: int, first: string, second: string)
    requires c !in s.seen
    ensures var matched := Step(Step(s, IssueToken(uid, first)), Read(c, uid, first));
            var reissued := Step(matched, IssueToken(uid, second));
            && Accepts(reissued.store, uid, second)
            && !Accepts(Step(reissued, Delete(c)).store, uid, second)
  {
    var matched := Step(Step(s, IssueToken(uid, first)), Read(c, uid, first));
    assert c in matched.deleting;
  }
}
