/** CSession::handleMessage as the gate in front of the logic queues, composed with the StatusServer's
    tokens: only a session that has presented a valid one-time token gets a message posted, and it is
    posted under the user that token was issued to. */
module LoginGate {
  import opened Framing
  import opened Wrappers
  import Tokens
  import Dispatcher
  import StatusService
  import SessionMgr

  const ID_CHAT_LOGIN: short := 1005
  const ID_CHAT_LOGIN_RSP: short := 1006
  const ID_HEARTBEAT_PING: short := 1020
  const ID_HEARTBEAT_PONG: short := 1021

  const SUCCESS := 0
  const ERROR_JSON := 1001
  const RPC_FAILED := 1002
  const TOKEN_INVALID := 1013

  /** What a login body turns out to hold: no usable JSON, no uid or token field, or both. */
  datatype Login = BadJson | NoCredentials | Credentials(uid: int, token: string)

  datatype Message = Message(msgId: short, body: string, login: Login)

  datatype Reply = Reply(id: short, error: int)

  datatype Session = Session(authenticated: bool, uid: int)

  const ANONYMOUS := Session(false, 0)

  /** The id of a refusal: one more than the request's, narrowed to a short. */
  function NextId(id: short): short {
    if id == 0x7FFF then -0x8000 else id + 1
  }

  /** What becomes of the CheckToken call: its answer arrives, it does not reach StatusServer, or it is
      carried out there and the answer is lost. */
  datatype Rpc = Answered | Unreachable | AnswerLost

  /** The token check a message causes at StatusServer, if any. */
  predicate ChecksToken(m: Message, rpc: Rpc) {
    m.msgId == ID_CHAT_LOGIN && m.login.Credentials? && rpc != Unreachable
  }

  predicate LogsIn(m: Message, rpc: Rpc, store: Tokens.TokenState) {
    ChecksToken(m, rpc) && rpc == Answered && Tokens.Accepts(store, m.login.uid, m.login.token)
  }

  predicate IsPosted(s: Session, m: Message) {
    m.msgId != ID_HEARTBEAT_PING && m.msgId != ID_CHAT_LOGIN && s.authenticated
  }

  function LoggedIn(s: Session, m: Message, rpc: Rpc, store: Tokens.TokenState): Session {
    if LogsIn(m, rpc, store) then Session(true, m.login.uid) else s
  }

  function Replies(s: Session, m: Message, rpc: Rpc, store: Tokens.TokenState): seq<Reply> {
    if m.msgId == ID_HEARTBEAT_PING then [Reply(ID_HEARTBEAT_PONG, SUCCESS)]
    else if m.msgId == ID_CHAT_LOGIN then
      match m.login
      case NoCredentials => []
      case BadJson => [Reply(ID_CHAT_LOGIN_RSP, ERROR_JSON)]
      case Credentials(_, _) =>
        [Reply(ID_CHAT_LOGIN_RSP,
           if LogsIn(m, rpc, store) then SUCCESS else if rpc == Answered then TOKEN_INVALID else RPC_FAILED)]
    else if s.authenticated then []
    else [Reply(NextId(m.msgId), TOKEN_INVALID)]
  }

  /** A node handed to postMsgToQueue, the session it came from and the shard chosen for it. */
  datatype Posted = Posted(sid: nat, node: Dispatcher.Node, shard: nat)

  /** A reply and the session it goes to. */
  datatype Sent = Sent(sid: nat, reply: Reply)

  datatype System = System(
    sessions: map<nat, Session>, store: Tokens.TokenState, posted: seq<Posted>, replied: seq<Sent>)

  /** GetChatServer for a user, time passing, and a frame arriving on a session of the chat server. */
  datatype Event =
    | Issue(uid: int, token: string)
    | Pass(seconds: nat)
    | Arrive(sid: nat, m: Message, rpc: Rpc)

  function SessionOf(y: System, sid: nat): Session {
    if sid in y.sessions then y.sessions[sid] else ANONYMOUS
  }

  function OpOf(e: Event): Tokens.TokenOp {
    match e
    case Issue(uid, token) => Tokens.Issue(uid, token)
    case Pass(seconds) => Tokens.Pass(seconds)
    case Arrive(_, m, rpc) =>
      if ChecksToken(m, rpc) then Tokens.Check(m.login.uid, m.login.token) else Tokens.Pass(0)
  }

  function PostOf(workers: nat, y: System, sid: nat, m: Message): Posted
    requires workers > 0
  {
    var uid := SessionOf(y, sid).uid;
    Posted(sid, Dispatcher.Node(uid, m.msgId, m.body), Dispatcher.ShardOf(uid, workers))
  }

  function SentTo(sid: nat, replies: seq<Reply>): seq<Sent> {
    seq(|replies|, i requires 0 <= i < |replies| => Sent(sid, replies[i]))
  }

  function Step(workers: nat, y: System, e: Event): System
    requires workers > 0
  {
    var next := y.(store := Tokens.Apply(y.store, OpOf(e)));
    if !e.Arrive? then next
    else
      var s := SessionOf(y, e.sid);
      next.(sessions := y.sessions[e.sid := LoggedIn(s, e.m, e.rpc, y.store)],
            posted := if IsPosted(s, e.m) then y.posted + [PostOf(workers, y, e.sid, e.m)] else y.posted,
            replied := y.replied + SentTo(e.sid, Replies(s, e.m, e.rpc, y.store)))
  }

  function After(workers: nat, es: seq<Event>): System
    requires workers > 0
  {
    if es == [] then System(map[], Tokens.TokenState(map[], 0), [], [])
    else Step(workers, After(workers, es[..|es| - 1]), es[|es| - 1])
  }

  /** The same run as the token service sees it, event by event. */
  ghost function View(es: seq<Event>): seq<Tokens.TokenOp> {
    seq(|es|, i requires 0 <= i < |es| => OpOf(es[i]))
  }

  lemma {:induction false} StoreIsView(workers: nat, es: seq<Event>)
    requires workers > 0
    ensures After(workers, es).store == Tokens.After(View(es))
  {
    if es != [] {
      var p := es[..|es| - 1];
      StoreIsView(workers, p);
      assert View(es)[..|es| - 1] == View(p);
    }
  }

  /** Event j is a login of session `sid` that CheckToken grants. */
  ghost predicate LoginAt(workers: nat, es: seq<Event>, j: nat, sid: nat)
    requires workers > 0
  {
    j < |es| && es[j].Arrive? && es[j].sid == sid && LogsIn(es[j].m, es[j].rpc, After(workers, es[..j]).store)
  }

  /** Event j is the latest granted login of the session, and it was as `uid`. */
  ghost predicate LatestLogin(workers: nat, es: seq<Event>, j: nat, sid: nat, uid: int)
    requires workers > 0
  {
    && LoginAt(workers, es, j, sid) && es[j].m.login.uid == uid
    && forall k :: j < k < |es| ==> !LoginAt(workers, es, k, sid)
  }

  lemma LoginAtPrefix(workers: nat, es: seq<Event>, p: seq<Event>, k: nat, sid: nat)
    requires workers > 0 && k < |p| <= |es| && p == es[..|p|]
    ensures LoginAt(workers, es, k, sid) <==> LoginAt(workers, p, k, sid)
  {
    assert es[..k] == p[..k];
  }

  /** The last event is not a granted login of the session: its logins are those before. */
  lemma SameLogins(workers: nat, es: seq<Event>, p: seq<Event>, sid: nat, uid: int)
    requires workers > 0 && es != [] && p == es[..|es| - 1] && !LoginAt(workers, es, |p|, sid)
    ensures forall j: nat :: LoginAt(workers, es, j, sid) <==> LoginAt(workers, p, j, sid)
    ensures forall j: nat :: LatestLogin(workers, es, j, sid, uid) <==> LatestLogin(workers, p, j, sid, uid)
  {
    forall k: nat | k < |p| ensures LoginAt(workers, es, k, sid) <==> LoginAt(workers, p, k, sid) {
      LoginAtPrefix(workers, es, p, k, sid);
    }
  }

  lemma SessionStep(workers: nat, es: seq<Event>, p: seq<Event>, sid: nat)
    requires workers > 0 && es != [] && p == es[..|es| - 1]
    ensures var s := SessionOf(After(workers, es), sid);
            if LoginAt(workers, es, |p|, sid) then s == Session(true, es[|p|].m.login.uid)
            else s == SessionOf(After(workers, p), sid)
  {
    assert es[..|p|] == p;
  }

  /** A session is authenticated iff it has logged in, and its uid is the one of its latest login. */
  lemma {:induction false} SessionIsHistory(workers: nat, es: seq<Event>, sid: nat)
    requires workers > 0
    ensures var s := SessionOf(After(workers, es), sid);
            s.authenticated <==> exists j: nat :: LatestLogin(workers, es, j, sid, s.uid)
    ensures forall j: nat :: LoginAt(workers, es, j, sid) ==> SessionOf(After(workers, es), sid).authenticated
  {
    if es != [] {
      var p := es[..|es| - 1];
      SessionStep(workers, es, p, sid);
      if LoginAt(workers, es, |p|, sid) {
        assert LatestLogin(workers, es, |p|, sid, es[|p|].m.login.uid);
      } else {
        SessionIsHistory(workers, p, sid);
        SameLogins(workers, es, p, sid, SessionOf(After(workers, es), sid).uid);
      }
    }
  }

  /** Event i issued the token that the login at event j consumed. */
  ghost predicate ConsumedBy(workers: nat, es: seq<Event>, i: nat, j: nat, uid: int)
    requires workers > 0
  {
    && i < j < |es| && es[i].Issue? && es[i].uid == uid
    && es[j].Arrive? && es[j].m.login == Credentials(uid, es[i].token)
    && After(workers, es[..j]).store.now - After(workers, es[..i]).store.now < Tokens.TOKEN_TTL
    && Tokens.Current(View(es[..j]), i, uid)
    && (forall n :: j < n <= |es| ==> !Tokens.Current(View(es[..n]), i, uid))
  }

  lemma ConsumedStays(h: seq<Tokens.TokenOp>, p: seq<Tokens.TokenOp>, i: nat, j: nat, uid: int, token: string)
    requires i < j == |p| < |h| && h[..j] == p && h[j] == Tokens.Check(uid, token)
    requires Tokens.Accepts(Tokens.After(p), uid, token)
    ensures !Tokens.Current(h, i, uid)
  {
    assert Tokens.Succeeds(h, j, uid);
  }

  /** The token that a granted login presents is the user's current one, issued by an earlier event. */
  lemma LoginPresentsCurrent(workers: nat, es: seq<Event>, j: nat, sid: nat) returns (i: nat)
    requires workers > 0 && LoginAt(workers, es, j, sid)
    ensures var uid := es[j].m.login.uid;
            && i < j && es[i].Issue? && es[i].uid == uid && es[j].m.login == Credentials(uid, es[i].token)
            && After(workers, es[..j]).store.now - After(workers, es[..i]).store.now < Tokens.TOKEN_TTL
            && Tokens.Current(View(es[..j]), i, uid)
  {
    var p, uid, token := es[..j], es[j].m.login.uid, es[j].m.login.token;
    StoreIsView(workers, p);
    Tokens.TokenIsOneTime(View(p), uid, token);
    i :| Tokens.Current(View(p), i, uid) && View(p)[i].token == token
         && Tokens.After(View(p)).now - Tokens.After(View(p)[..i]).now < Tokens.TOKEN_TTL;
    StoreIsView(workers, es[..i]);
    assert View(p)[..i] == View(es[..i]) && OpOf(es[i]) == View(p)[i] && es[i] == p[i];
  }

  lemma LoginConsumesToken(workers: nat, es: seq<Event>, j: nat, sid: nat)
    requires workers > 0 && LoginAt(workers, es, j, sid)
    ensures exists i: nat :: ConsumedBy(workers, es, i, j, es[j].m.login.uid)
  {
    var uid, token := es[j].m.login.uid, es[j].m.login.token;
    var i := LoginPresentsCurrent(workers, es, j, sid);
    StoreIsView(workers, es[..j]);
    forall n | j < n <= |es| ensures !Tokens.Current(View(es[..n]), i, uid) {
      assert View(es[..n])[..j] == View(es[..j]);
      ConsumedStays(View(es[..n]), View(es[..j]), i, j, uid, token);
    }
    assert ConsumedBy(workers, es, i, j, uid);
  }

  /** Event j is a login as `uid` that is granted. */
  ghost predicate GrantedAt(workers: nat, es: seq<Event>, j: nat, uid: int)
    requires workers > 0
  {
    j < |es| && es[j].Arrive? && LoginAt(workers, es, j, es[j].sid) && es[j].m.login.uid == uid
  }

  /** Event j presents a valid token of `uid`, and StatusServer's answer is lost. */
  ghost predicate WastedAt(workers: nat, es: seq<Event>, j: nat, uid: int)
    requires workers > 0
  {
    && j < |es| && es[j].Arrive? && ChecksToken(es[j].m, es[j].rpc) && es[j].rpc == AnswerLost
    && es[j].m.login.uid == uid && Tokens.Accepts(After(workers, es[..j]).store, uid, es[j].m.login.token)
  }

  ghost predicate UsedUpAt(workers: nat, es: seq<Event>, j: nat, uid: int)
    requires workers > 0
  {
    GrantedAt(workers, es, j, uid) || WastedAt(workers, es, j, uid)
  }

  lemma SpentIsUsedUp(workers: nat, es: seq<Event>, j: nat, uid: int)
    requires workers > 0
    ensures Tokens.Succeeds(View(es), j, uid) <==> UsedUpAt(workers, es, j, uid)
    ensures !(GrantedAt(workers, es, j, uid) && WastedAt(workers, es, j, uid))
  {
    if j < |es| {
      StoreIsView(workers, es[..j]);
      assert View(es)[..j] == View(es[..j]);
    }
  }

  /** The fate of a token in any run.  If nothing is issued to the user after event i, that event's token is
      current until it is used up, at most once, by a login that is granted or by one whose answer is lost; it
      is gone without a login iff there is such a lost answer. */
  lemma FateOfToken(workers: nat, es: seq<Event>, i: nat, uid: int)
    requires workers > 0 && i < |es| && es[i].Issue? && es[i].uid == uid
    requires forall j :: i < j < |es| ==> !(es[j].Issue? && es[j].uid == uid)
    ensures Tokens.Current(View(es), i, uid) <==> !exists j: nat :: i < j && UsedUpAt(workers, es, j, uid)
    ensures forall j: nat, k: nat ::
              i < j && i < k && UsedUpAt(workers, es, j, uid) && UsedUpAt(workers, es, k, uid) ==> j == k
    ensures (!Tokens.Current(View(es), i, uid) && forall j: nat :: i < j ==> !GrantedAt(workers, es, j, uid))
       <==> exists j: nat :: i < j && WastedAt(workers, es, j, uid)
  {
    Tokens.SpentAtMostOnce(View(es), i, uid);
    forall j: nat
      ensures Tokens.Succeeds(View(es), j, uid) <==> UsedUpAt(workers, es, j, uid)
      ensures !(GrantedAt(workers, es, j, uid) && WastedAt(workers, es, j, uid))
    {
      SpentIsUsedUp(workers, es, j, uid);
    }
    if j: nat :| i < j && WastedAt(workers, es, j, uid) {
      assert UsedUpAt(workers, es, j, uid);
    }
  }

  /** How many logins as `uid` a run grants, and how many of its tokens a lost answer wastes. */
  ghost function Granted(workers: nat, es: seq<Event>, uid: int): nat
    requires workers > 0
  {
    if es == [] then 0
    else Granted(workers, es[..|es| - 1], uid) + (if GrantedAt(workers, es, |es| - 1, uid) then 1 else 0)
  }

  ghost function Wasted(workers: nat, es: seq<Event>, uid: int): nat
    requires workers > 0
  {
    if es == [] then 0
    else Wasted(workers, es[..|es| - 1], uid) + (if WastedAt(workers, es, |es| - 1, uid) then 1 else 0)
  }

  lemma {:induction false} SpentIsGrantedAndWasted(workers: nat, es: seq<Event>, uid: int)
    requires workers > 0
    ensures Tokens.Spent(View(es), uid) == Granted(workers, es, uid) + Wasted(workers, es, uid)
  {
    if es != [] {
      var p := es[..|es| - 1];
      SpentIsGrantedAndWasted(workers, p, uid);
      SpentIsUsedUp(workers, es, |p|, uid);
      assert View(es)[..|p|] == View(p);
    }
  }

  /** Every token issued to a user has let one login in, has been wasted by a lost answer, has been replaced,
      or is still in the store; so there are never more logins than tokens. */
  lemma TokensAreAccountedFor(workers: nat, es: seq<Event>, uid: int)
    requires workers > 0
    ensures Tokens.Issued(View(es), uid)
         == Granted(workers, es, uid) + Wasted(workers, es, uid) + Tokens.Replaced(View(es), uid)
            + (if uid in After(workers, es).store.tokens then 1 else 0)
  {
    Tokens.TokensAddUp(View(es), uid);
    SpentIsGrantedAndWasted(workers, es, uid);
    StoreIsView(workers, es);
  }

  /** A post in the run: event k, arriving on an authenticated session. */
  ghost predicate PostAt(workers: nat, es: seq<Event>, k: nat, post: Posted)
    requires workers > 0
  {
    && k < |es| && es[k].Arrive?
    && IsPosted(SessionOf(After(workers, es[..k]), es[k].sid), es[k].m)
    && post == PostOf(workers, After(workers, es[..k]), es[k].sid, es[k].m)
  }

  lemma {:induction false} PostsComeFromEvents(workers: nat, es: seq<Event>, post: Posted)
    requires workers > 0 && post in After(workers, es).posted
    ensures exists k: nat :: PostAt(workers, es, k, post)
  {
    var p, n := es[..|es| - 1], |es| - 1;
    if post in After(workers, p).posted {
      PostsComeFromEvents(workers, p, post);
      var k: nat :| PostAt(workers, p, k, post);
      assert es[..k] == p[..k];
      assert PostAt(workers, es, k, post);
    } else {
      assert PostAt(workers, es, n, post);
    }
  }

  /** Event k is a post by a session whose latest granted login before, event j, was as the node's user and
      consumed the token that event i had issued. */
  ghost predicate SentByTokenHolder(workers: nat, es: seq<Event>, post: Posted)
    requires workers > 0
  {
    exists i: nat, j: nat, k: nat :: SentAfter(workers, es, post, i, j, k)
  }

  ghost predicate SentAfter(workers: nat, es: seq<Event>, post: Posted, i: nat, j: nat, k: nat)
    requires workers > 0
  {
    && PostAt(workers, es, k, post) && j < k
    && LatestLogin(workers, es[..k], j, post.sid, post.node.uid)
    && ConsumedBy(workers, es, i, j, post.node.uid)
  }

  /** The gate, in every run: a node reaches a logic queue only from a session that, before, was granted a
      login with a token issued to the node's uid less than 300 seconds earlier, that login being the
      session's latest and having consumed the token; and the shard is the one of that uid. */
  lemma OnlyTokenHoldersPost(workers: nat, es: seq<Event>, post: Posted)
    requires workers > 0 && post in After(workers, es).posted
    ensures SentByTokenHolder(workers, es, post)
    ensures post.shard == Dispatcher.ShardOf(post.node.uid, workers)
  {
    PostsComeFromEvents(workers, es, post);
    var k: nat :| PostAt(workers, es, k, post);
    var j := PosterLoggedIn(workers, es, k, post);
    LoginAtPrefix(workers, es, es[..k], j, post.sid);
    LoginConsumesToken(workers, es, j, post.sid);
    var i: nat :| ConsumedBy(workers, es, i, j, post.node.uid);
    assert SentAfter(workers, es, post, i, j, k);
  }

  lemma PosterLoggedIn(workers: nat, es: seq<Event>, k: nat, post: Posted) returns (j: nat)
    requires workers > 0 && PostAt(workers, es, k, post)
    ensures j < k && LatestLogin(workers, es[..k], j, post.sid, post.node.uid) && es[j].m.login.uid == post.node.uid
  {
    SessionIsHistory(workers, es[..k], post.sid);
    j :| LatestLogin(workers, es[..k], j, post.sid, post.node.uid);
  }

  /** The gate is open to whoever has logged in.  In every run a message that is neither a ping nor a login is
      posted, under the uid of its session's latest granted login, with its id and body unchanged; if there has
      been no such login it is not, and the session alone is told that its token is invalid. */
  lemma MessageIsPostedOrRefused(workers: nat, es: seq<Event>, sid: nat, m: Message, rpc: Rpc)
    requires workers > 0 && m.msgId != 1005 && m.msgId != 1020
    ensures var y, z := After(workers, es), Step(workers, After(workers, es), Arrive(sid, m, rpc));
            && (forall j: nat, uid :: LatestLogin(workers, es, j, sid, uid) ==>
                  && z.posted == y.posted
                       + [Posted(sid, Dispatcher.Node(uid, m.msgId, m.body), Dispatcher.ShardOf(uid, workers))]
                  && z.replied == y.replied)
            && ((forall j: nat :: !LoginAt(workers, es, j, sid)) ==>
                  && z.posted == y.posted
                  && z.replied == y.replied + [Sent(sid, Reply(if m.msgId == 32767 then -32768 else m.msgId + 1, 1013))])
            && SessionOf(z, sid) == SessionOf(y, sid) && z.store == y.store
  {
    SessionIsHistory(workers, es, sid);
    var y := After(workers, es);
    forall j: nat, uid | LatestLogin(workers, es, j, sid, uid) ensures SessionOf(y, sid) == Session(true, uid) {
      var k: nat :| LatestLogin(workers, es, k, sid, SessionOf(y, sid).uid);
    }
    assert y.replied + [] == y.replied;
  }

  /** `token` is the user's latest one, not used up, and was issued less than 300 seconds ago. */
  ghost predicate IsValid(workers: nat, es: seq<Event>, uid: int, token: string)
    requires workers > 0
  {
    exists i: nat :: Tokens.Current(View(es), i, uid) && View(es)[i].token == token
                     && After(workers, es).store.now - After(workers, es[..i]).store.now < 300
  }

  lemma AcceptedIffValid(workers: nat, es: seq<Event>, uid: int, token: string)
    requires workers > 0
    ensures Tokens.Accepts(After(workers, es).store, uid, token) <==> IsValid(workers, es, uid, token)
  {
    StoreIsView(workers, es);
    Tokens.TokenIsOneTime(View(es), uid, token);
    forall i: nat | i < |es| ensures Tokens.After(View(es)[..i]) == After(workers, es[..i]).store {
      StoreIsView(workers, es[..i]);
      assert View(es)[..i] == View(es[..i]);
    }
  }

  /** A login is granted iff the answer arrives and the token is the user's current one, younger than 300 s; the
      session gets the answer, an RPC or a parsing error, or nothing if it named no user or token. */
  lemma LoginIsAnswered(workers: nat, es: seq<Event>, sid: nat, m: Message, rpc: Rpc)
    requires workers > 0 && m.msgId == 1005
    ensures var y, z := After(workers, es), Step(workers, After(workers, es), Arrive(sid, m, rpc));
            && z.posted == y.posted
            && match m.login
               case NoCredentials => z.replied == y.replied && SessionOf(z, sid) == SessionOf(y, sid)
               case BadJson =>
                 z.replied == y.replied + [Sent(sid, Reply(1006, 1001))] && SessionOf(z, sid) == SessionOf(y, sid)
               case Credentials(uid, token) =>
                 var valid := IsValid(workers, es, uid, token);
                 && SessionOf(z, sid) == (if rpc == Answered && valid then Session(true, uid) else SessionOf(y, sid))
                 && z.replied == y.replied
                      + [Sent(sid, Reply(1006, if rpc != Answered then 1002 else if valid then 0 else 1013))]
                 && (uid in z.store.tokens <==> uid in y.store.tokens && !(rpc != Unreachable && valid))
  {
    var y := After(workers, es);
    assert y.replied + [] == y.replied;
    if m.login.Credentials? {
      AcceptedIffValid(workers, es, m.login.uid, m.login.token);
    }
  }

  /** A ping is answered whatever the session's state, and does nothing else. */
  lemma PingIsAnswered(workers: nat, es: seq<Event>, sid: nat, m: Message, rpc: Rpc)
    requires workers > 0 && m.msgId == 1020
    ensures var y, z := After(workers, es), Step(workers, After(workers, es), Arrive(sid, m, rpc));
            && z.replied == y.replied + [Sent(sid, Reply(1021, 0))] && z.posted == y.posted && z.store == y.store
            && SessionOf(z, sid) == SessionOf(y, sid)
  {
  }

  /** Once a session is authenticated it stays so. */
  lemma {:induction false} AuthenticationIsMonotone(workers: nat, es: seq<Event>, n: nat, sid: nat)
    requires workers > 0 && n <= |es| && SessionOf(After(workers, es[..n]), sid).authenticated
    ensures SessionOf(After(workers, es), sid).authenticated
  {
    if n < |es| {
      var p := es[..|es| - 1];
      assert p[..n] == es[..n];
      AuthenticationIsMonotone(workers, p, n, sid);
    } else {
      assert es[..n] == es;
    }
  }

  /** The fields of CSession that handleMessage reads and writes. */
  class Gate {
    var isAuthenticated: bool
    var uid: int
    var sent: seq<Reply>

    function Current(): Session
      reads this
    {
      Session(isAuthenticated, uid)
    }

    constructor ()
      ensures Current() == ANONYMOUS && sent == []
    {
      isAuthenticated, uid, sent := false, 0, [];
    }

    /** The branch of a login. */
    method HandleLogin(status: StatusService.StatusServiceImpl, mgr: SessionMgr.SessionMgr, sid: nat, m: Message,
                       rpc: Rpc)
      returns (channel: Option<int>)
      requires mgr.Valid() && m.msgId == ID_CHAT_LOGIN
      modifies this, status`store, mgr
      ensures mgr.Valid()
      ensures Current() == LoggedIn(old(Current()), m, rpc, old(status.store))
      ensures sent == old(sent) + Replies(old(Current()), m, rpc, old(status.store))
      ensures status.store == Tokens.Apply(old(status.store),
                if ChecksToken(m, rpc) then Tokens.Check(m.login.uid, m.login.token) else Tokens.Pass(0))
      ensures mgr.history == old(mgr.history)
                + (if LogsIn(m, rpc, old(status.store)) then [SessionMgr.Add(m.login.uid, sid)] else [])
      ensures channel == if LogsIn(m, rpc, old(status.store)) then Some(m.login.uid) else None
    {
      channel := None;
      assert mgr.history + [] == mgr.history && sent + [] == sent;
      match m.login {
        case BadJson =>
          sent := sent + [Reply(ID_CHAT_LOGIN_RSP, ERROR_JSON)];
        case NoCredentials =>
        case Credentials(claimed, token) =>
          var error := AskStatusServer(status, claimed, token, rpc);
          if error == SUCCESS {
            isAuthenticated := true;
            uid := claimed;
            mgr.AddSession(claimed, sid);
            channel := Some(claimed);
          }
          sent := sent + [Reply(ID_CHAT_LOGIN_RSP, error)];
      }
    }

    /** The node returned is the one posted, `channel` the uid whose channel is subscribed to. */
    method HandleMessage(status: StatusService.StatusServiceImpl, mgr: SessionMgr.SessionMgr, sid: nat, m: Message,
                         rpc: Rpc)
      returns (node: Option<Dispatcher.Node>, channel: Option<int>)
      requires mgr.Valid()
      modifies this, status`store, mgr
      ensures mgr.Valid()
      ensures Current() == LoggedIn(old(Current()), m, rpc, old(status.store))
      ensures sent == old(sent) + Replies(old(Current()), m, rpc, old(status.store))
      ensures status.store == Tokens.Apply(old(status.store),
                if ChecksToken(m, rpc) then Tokens.Check(m.login.uid, m.login.token) else Tokens.Pass(0))
      ensures node == if IsPosted(old(Current()), m) then Some(Dispatcher.Node(old(uid), m.msgId, m.body)) else None
      ensures mgr.history == old(mgr.history)
                + (if LogsIn(m, rpc, old(status.store)) then [SessionMgr.Add(m.login.uid, sid)] else [])
      ensures channel == if LogsIn(m, rpc, old(status.store)) then Some(m.login.uid) else None
      ensures m.msgId == 1005 || m.msgId == 1020 ==> node == None
      ensures m.msgId != 1005 && m.msgId != 1020 ==>
                && Current() == old(Current())
                && if old(isAuthenticated) then
                     node == Some(Dispatcher.Node(old(uid), m.msgId, m.body)) && sent == old(sent)
                   else
                     && node == None
                     && sent == old(sent) + [Reply(if m.msgId == 32767 then -32768 else m.msgId + 1, 1013)]
      ensures m.msgId == 1005 && m.login.Credentials? ==>
                var valid := Tokens.Accepts(old(status.store), m.login.uid, m.login.token);
                && sent == old(sent) + [Reply(1006, if rpc != Answered then 1002 else if valid then 0 else 1013)]
                && (isAuthenticated <==> old(isAuthenticated) || (rpc == Answered && valid))
                && uid == if rpc == Answered && valid then m.login.uid else old(uid)
    {
      node, channel := None, None;
      assert mgr.history + [] == mgr.history && sent + [] == sent;
      if m.msgId == ID_HEARTBEAT_PING {
        sent := sent + [Reply(ID_HEARTBEAT_PONG, SUCCESS)];
        return;
      }
      if m.msgId == ID_CHAT_LOGIN {
        channel := HandleLogin(status, mgr, sid, m, rpc);
        return;
      }
      if !isAuthenticated {
        sent := sent + [Reply(NextId(m.msgId), TOKEN_INVALID)];
        return;
      }
      node := Some(Dispatcher.Node(uid, m.msgId, m.body));
    }
  }

  /** StatusGrpcClient's checkToken: anything but an answer is RPC_FAILED, whatever StatusServer has done. */
  method AskStatusServer(status: StatusService.StatusServiceImpl, uid: int, token: string, rpc: Rpc) returns (error: int)
    modifies status`store
    ensures error == if rpc != Answered then RPC_FAILED
                     else if Tokens.Accepts(old(status.store), uid, token) then SUCCESS else TOKEN_INVALID
    ensures status.store == Tokens.Apply(old(status.store),
              if rpc == Unreachable then Tokens.Pass(0) else Tokens.Check(uid, token))
  {
    if rpc == Unreachable {
      return RPC_FAILED;
    }
    var success := status.CheckToken(uid, token);
    if rpc == AnswerLost {
      return RPC_FAILED;
    }
    error := if success then SUCCESS else TOKEN_INVALID;
  }
}
