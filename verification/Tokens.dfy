/** StatusServer's one-time login tokens: GetChatServer stores one under the user's key with a time to
    live, CheckToken compares and, on success, deletes.  RPCs are serialised and the store is working, as
    the service assumes. */
module Tokens {

  const TOKEN_TTL := 300

  datatype Entry = Entry(token: string, expires: nat)

  /** The token keys of the store, and its clock in seconds. */
  datatype TokenState = TokenState(tokens: map<int, Entry>, now: nat)

  datatype TokenOp = Issue(uid: int, token: string) | Check(uid: int, token: string) | Pass(seconds: nat)

  function Inserted(s: TokenState, uid: int, token: string): TokenState {
    s.(tokens := s.tokens[uid := Entry(token, s.now + TOKEN_TTL)])
  }

  /** What a read of the user's key, followed by the comparison, answers. */
  predicate Accepts(s: TokenState, uid: int, token: string) {
    uid in s.tokens && s.now < s.tokens[uid].expires && s.tokens[uid].token == token
  }

  function Checked(s: TokenState, uid: int, token: string): TokenState {
    if Accepts(s, uid, token) then s.(tokens := s.tokens - {uid}) else s
  }

  function Apply(s: TokenState, op: TokenOp): TokenState {
    match op
    case Issue(uid, token) => Inserted(s, uid, token)
    case Check(uid, token) => Checked(s, uid, token)
    case Pass(seconds) => s.(now := s.now + seconds)
  }

  function After(h: seq<TokenOp>): TokenState {
    if h == [] then TokenState(map[], 0) else Apply(After(h[..|h| - 1]), h[|h| - 1])
  }

  /** The store's clock shows the time that has passed, and nothing else moves it. */
  function Elapsed(h: seq<TokenOp>): nat {
    if h == [] then 0 else Elapsed(h[..|h| - 1]) + (if h[|h| - 1].Pass? then h[|h| - 1].seconds else 0)
  }

  lemma {:induction false} ClockShowsElapsed(h: seq<TokenOp>)
    ensures After(h).now == Elapsed(h)
  {
    if h != [] {
      ClockShowsElapsed(h[..|h| - 1]);
    }
  }

  /** The j-th operation is a CheckToken for `uid` that succeeds. */
  ghost predicate Succeeds(h: seq<TokenOp>, j: nat, uid: int) {
    j < |h| && h[j].Check? && h[j].uid == uid && Accepts(After(h[..j]), uid, h[j].token)
  }

  predicate Issues(op: TokenOp, uid: int) {
    op.Issue? && op.uid == uid
  }

  /** The i-th operation issued the token that is current for `uid`: nothing was issued to that user
      since and nothing of theirs consumed. */
  ghost predicate Current(h: seq<TokenOp>, i: nat, uid: int) {
    && i < |h| && Issues(h[i], uid)
    && forall j {:trigger h[j]} :: i < j < |h| ==> !Issues(h[j], uid) && !Succeeds(h, j, uid)
  }

  lemma CurrentStep(h: seq<TokenOp>, p: seq<TokenOp>, i: nat, uid: int)
    requires h != [] && p == h[..|h| - 1] && i < |p|
    ensures Current(h, i, uid) <==>
              Current(p, i, uid) && !Issues(h[|p|], uid) && !Succeeds(h, |p|, uid)
  {
    forall j | i < j < |p| ensures Succeeds(h, j, uid) <==> Succeeds(p, j, uid) {
      assert p[..j] == h[..j];
    }
    if Current(h, i, uid) {
      forall j | i < j < |p| ensures !Issues(p[j], uid) && !Succeeds(p, j, uid) {
        assert p[j] == h[j];
      }
      assert h[|p|] == h[|h| - 1];
    }
  }

  /** The stored entry is the current token, stamped with the time it was issued. */
  ghost predicate Stored(h: seq<TokenOp>, i: nat, uid: int) {
    && Current(h, i, uid) && uid in After(h).tokens
    && After(h).tokens[uid] == Entry(h[i].token, After(h[..i]).now + TOKEN_TTL)
  }

  lemma {:induction false} StoreIsHistory(h: seq<TokenOp>, uid: int)
    ensures uid in After(h).tokens ==> exists i: nat :: Stored(h, i, uid)
    ensures forall i: nat :: Current(h, i, uid) ==> Stored(h, i, uid)
  {
    if h != [] {
      var p := h[..|h| - 1];
      StoreIsHistory(p, uid);
      forall i: nat | Current(h, i, uid) ensures Stored(h, i, uid) {
        StoredStep(h, p, i, uid);
      }
      if uid in After(h).tokens {
        if Issues(h[|p|], uid) {
          assert Current(h, |p|, uid);
        } else {
          var i: nat :| Stored(p, i, uid);
          CurrentStep(h, p, i, uid);
          assert Current(h, i, uid);
        }
      }
    }
  }

  lemma StoredStep(h: seq<TokenOp>, p: seq<TokenOp>, i: nat, uid: int)
    requires h != [] && p == h[..|h| - 1] && Current(h, i, uid)
    requires i < |p| && Current(p, i, uid) ==> Stored(p, i, uid)
    ensures Stored(h, i, uid)
  {
    if i < |p| {
      CurrentStep(h, p, i, uid);
      assert h[..i] == p[..i];
    }
  }

  /** CheckToken after any history answers yes exactly when the token is the one latest issued to that
      user, fewer than 300 seconds ago, and has not been consumed. */
  lemma TokenIsOneTime(h: seq<TokenOp>, uid: int, token: string)
    ensures Accepts(After(h), uid, token) <==>
              exists i: nat :: Current(h, i, uid) && h[i].token == token && After(h).now - After(h[..i]).now < TOKEN_TTL
  {
    StoreIsHistory(h, uid);
    if Accepts(After(h), uid, token) {
      var i: nat :| Stored(h, i, uid);
      assert Current(h, i, uid);
    }
  }

  /** So between two successes for a user a new token was issued to that user. */
  lemma SuccessesAreSeparated(h: seq<TokenOp>, j: nat, k: nat, uid: int)
    requires j < k && Succeeds(h, j, uid) && Succeeds(h, k, uid)
    ensures exists i: nat :: j < i < k && Issues(h[i], uid)
  {
    var p := h[..k];
    StoreIsHistory(p, uid);
    var i: nat :| Stored(p, i, uid);
    assert Current(p, i, uid) && h[i] == p[i];
    assert p[..j] == h[..j] && p[j] == h[j];
    assert Succeeds(p, j, uid);
  }

  /** The token issued by operation i, nothing being issued to that user afterwards, is current until a check
      succeeds with it, and no more than one does. */
  lemma SpentAtMostOnce(h: seq<TokenOp>, i: nat, uid: int)
    requires i < |h| && Issues(h[i], uid) && forall j :: i < j < |h| ==> !Issues(h[j], uid)
    ensures Current(h, i, uid) <==> !exists j: nat :: i < j && Succeeds(h, j, uid)
    ensures forall j: nat, k: nat :: i < j && i < k && Succeeds(h, j, uid) && Succeeds(h, k, uid) ==> j == k
  {
    forall j: nat, k: nat | i < j < k && Succeeds(h, j, uid) && Succeeds(h, k, uid) ensures false {
      SuccessesAreSeparated(h, j, k, uid);
    }
  }

  function Issued(h: seq<TokenOp>, uid: int): nat {
    if h == [] then 0 else Issued(h[..|h| - 1], uid) + (if Issues(h[|h| - 1], uid) then 1 else 0)
  }

  /** Tokens that a new one for the same user has overwritten in the store. */
  function Replaced(h: seq<TokenOp>, uid: int): nat {
    if h == [] then 0
    else
      var p := h[..|h| - 1];
      Replaced(p, uid) + (if Issues(h[|p|], uid) && uid in After(p).tokens then 1 else 0)
  }

  function Spent(h: seq<TokenOp>, uid: int): nat {
    if h == [] then 0
    else
      var p, op := h[..|h| - 1], h[|h| - 1];
      Spent(p, uid) + (if op.Check? && op.uid == uid && Accepts(After(p), uid, op.token) then 1 else 0)
  }

  /** Every token issued to a user has been spent, has been replaced, or is in the store. */
  lemma {:induction false} TokensAddUp(h: seq<TokenOp>, uid: int)
    ensures Issued(h, uid) == Spent(h, uid) + Replaced(h, uid) + (if uid in After(h).tokens then 1 else 0)
  {
    if h != [] {
      TokensAddUp(h[..|h| - 1], uid);
    }
  }
}
