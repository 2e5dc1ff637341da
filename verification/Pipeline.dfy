/** The login gate in front of the dispatcher.  A session's handleMessage hands its node to
    postMsgToQueue, which may wait for the shard's lock or drop the node; the session reads its next frame
    only when that call has returned.  Sessions, posts and workers interleave freely. */
module Pipeline {
  import opened Wrappers
  import opened LoginGate
  import D = Dispatcher

  /** `inCall` are the sessions inside postMsgToQueue with what they post, `pushed` the posts that have been
      queued, in the order in which they were. */
  datatype State = State(gate: System, logic: D.State, inCall: map<nat, Posted>, pushed: seq<Posted>)

  datatype Move = Gate(e: LoginGate.Event) | Push(sid: nat) | Logic(d: D.Event)

  function Reached(workers: nat, s: State, e: LoginGate.Event): State
    requires workers > 0
  {
    if e.Arrive? && e.sid in s.inCall then s
    else
      var t := s.(gate := LoginGate.Step(workers, s.gate, e));
      if e.Arrive? && IsPosted(SessionOf(s.gate, e.sid), e.m)
      then t.(inCall := s.inCall[e.sid := PostOf(workers, s.gate, e.sid, e.m)]) else t
  }

  function Returned(workers: nat, s: State, sid: nat): State
    requires workers > 0 && |s.logic.lanes| == workers && sid in s.inCall
  {
    var post := s.inCall[sid];
    var lane := s.logic.lanes[D.ShardOf(post.node.uid, workers)];
    if D.LockHeld(lane) then s
    else
      s.(logic := D.Step(s.logic, D.Post(post.node)), inCall := s.inCall - {sid},
         pushed := if D.Takes(lane) then s.pushed + [post] else s.pushed)
  }

  function Next(workers: nat, s: State, m: Move): (t: State)
    requires workers > 0 && |s.logic.lanes| == workers
    ensures |t.logic.lanes| == workers
  {
    match m
    case Gate(e) => Reached(workers, s, e)
    case Push(sid) => if sid in s.inCall then Returned(workers, s, sid) else s
    case Logic(d) => if d.Post? then s else s.(logic := D.Step(s.logic, d))
  }

  function Run(workers: nat, ms: seq<Move>): (s: State)
    requires workers > 0
    ensures |s.logic.lanes| == workers
  {
    if ms == [] then
      State(LoginGate.After(workers, []), D.State(false, seq(workers, _ => D.IDLE), [], []), map[], [])
    else Next(workers, Run(workers, ms[..|ms| - 1]), ms[|ms| - 1])
  }

  /** The run as the gate sees it. */
  ghost function GateRun(workers: nat, ms: seq<Move>): (es: seq<LoginGate.Event>)
    requires workers > 0
    ensures LoginGate.After(workers, es) == Run(workers, ms).gate
  {
    if ms == [] then []
    else
      var before, s, m := GateRun(workers, ms[..|ms| - 1]), Run(workers, ms[..|ms| - 1]), ms[|ms| - 1];
      if m.Gate? && !(m.e.Arrive? && m.e.sid in s.inCall) then
        assert (before + [m.e])[..|before|] == before;
        before + [m.e]
      else before
  }

  /** The run as the dispatcher sees it. */
  ghost function LogicRun(workers: nat, ms: seq<Move>): (es: seq<D.Event>)
    requires workers > 0
    ensures D.Run(workers, es) == Run(workers, ms).logic
  {
    if ms == [] then []
    else
      var before, s, m := LogicRun(workers, ms[..|ms| - 1]), Run(workers, ms[..|ms| - 1]), ms[|ms| - 1];
      match m
      case Gate(_) => before
      case Push(sid) =>
        if sid !in s.inCall || D.LockHeld(s.logic.lanes[D.ShardOf(s.inCall[sid].node.uid, workers)]) then before
        else
          var e := D.Post(s.inCall[sid].node);
          assert (before + [e])[..|before|] == before;
          before + [e]
      case Logic(d) =>
        if d.Post? then before
        else
          assert (before + [d])[..|before|] == before;
          before + [d]
  }

  function NodesOf(posts: seq<Posted>): seq<D.Node> {
    seq(|posts|, i requires 0 <= i < |posts| => posts[i].node)
  }

  /** What was queued is what the dispatcher accepted. */
  lemma {:induction false} PushedIsAccepted(workers: nat, ms: seq<Move>)
    requires workers > 0
    ensures Run(workers, ms).logic.accepted == NodesOf(Run(workers, ms).pushed)
  {
    if ms != [] {
      var s, m := Run(workers, ms[..|ms| - 1]), ms[|ms| - 1];
      PushedIsAccepted(workers, ms[..|ms| - 1]);
      if m.Push? && m.sid in s.inCall {
        var post := s.inCall[m.sid];
        assert NodesOf(s.pushed + [post]) == NodesOf(s.pushed) + [post.node];
      }
    }
  }

  function OfSession(posts: seq<Posted>, sid: nat): seq<Posted> {
    if posts == [] then []
    else
      var last := posts[|posts| - 1];
      OfSession(posts[..|posts| - 1], sid) + (if last.sid == sid then [last] else [])
  }

  lemma OfSessionSnoc(posts: seq<Posted>, post: Posted, sid: nat)
    ensures OfSession(posts + [post], sid) == OfSession(posts, sid) + (if post.sid == sid then [post] else [])
  {
    assert (posts + [post])[..|posts|] == posts;
  }

  /** `a` is `b` with some elements left out. */
  predicate Thinned(a: seq<Posted>, b: seq<Posted>)
    decreases |b|
  {
    if b == [] then a == []
    else
      || Thinned(a, b[..|b| - 1])
      || (a != [] && a[|a| - 1] == b[|b| - 1] && Thinned(a[..|a| - 1], b[..|b| - 1]))
  }

  function LastOf(posts: seq<Posted>): Posted
    requires posts != []
  {
    posts[|posts| - 1]
  }

  /** What has been queued for a session is what it sent except for drops, the post it is in the middle of
      being the last it sent. */
  predicate Orderly(sent: seq<Posted>, queued: seq<Posted>, call: Option<Posted>) {
    if call.Some? then sent != [] && LastOf(sent) == call.value && Thinned(queued, sent[..|sent| - 1])
    else Thinned(queued, sent)
  }

  lemma CallOrderly(sent: seq<Posted>, queued: seq<Posted>, post: Posted)
    requires Orderly(sent, queued, None)
    ensures Orderly(sent + [post], queued, Some(post))
  {
    assert (sent + [post])[..|sent|] == sent;
  }

  lemma ReturnOrderly(sent: seq<Posted>, queued: seq<Posted>, post: Posted)
    requires Orderly(sent, queued, Some(post))
    ensures Orderly(sent, queued + [post], None) && Orderly(sent, queued, None)
  {
    assert (queued + [post])[..|queued|] == queued;
  }

  function CallOf(s: State, sid: nat): Option<Posted> {
    if sid in s.inCall then Some(s.inCall[sid]) else None
  }

  ghost predicate InOrder(s: State, sid: nat) {
    Orderly(OfSession(s.gate.posted, sid), OfSession(s.pushed, sid), CallOf(s, sid))
  }

  predicate Posts(y: System, e: LoginGate.Event) {
    e.Arrive? && IsPosted(SessionOf(y, e.sid), e.m)
  }

  lemma GatePosts(workers: nat, y: System, e: LoginGate.Event)
    requires workers > 0
    ensures LoginGate.Step(workers, y, e).posted
         == if Posts(y, e) then y.posted + [PostOf(workers, y, e.sid, e.m)] else y.posted
  {
  }

  ghost predicate AllPosted(s: State) {
    && (forall post :: post in s.pushed ==> post in s.gate.posted)
    && (forall sid :: sid in s.inCall ==> s.inCall[sid] in s.gate.posted && s.inCall[sid].sid == sid)
  }

  lemma NextAllPosted(workers: nat, s: State, m: Move)
    requires workers > 0 && |s.logic.lanes| == workers && AllPosted(s)
    ensures AllPosted(Next(workers, s, m))
  {
    if m.Gate? {
      GatePosts(workers, s.gate, m.e);
    }
  }

  lemma {:induction false} PushedWasPosted(workers: nat, ms: seq<Move>)
    requires workers > 0
    ensures AllPosted(Run(workers, ms))
  {
    if ms != [] {
      PushedWasPosted(workers, ms[..|ms| - 1]);
      NextAllPosted(workers, Run(workers, ms[..|ms| - 1]), ms[|ms| - 1]);
    }
  }

  lemma ReachedKeepsOrder(workers: nat, s: State, e: LoginGate.Event, sid: nat)
    requires workers > 0 && InOrder(s, sid)
    ensures InOrder(Reached(workers, s, e), sid)
  {
    GatePosts(workers, s.gate, e);
    if Posts(s.gate, e) && e.sid !in s.inCall {
      var post, sent := PostOf(workers, s.gate, e.sid, e.m), OfSession(s.gate.posted, sid);
      OfSessionSnoc(s.gate.posted, post, sid);
      if e.sid == sid {
        CallOrderly(sent, OfSession(s.pushed, sid), post);
      } else {
        assert sent + [] == sent;
      }
    } else {
      assert Reached(workers, s, e).gate.posted == s.gate.posted;
    }
  }

  lemma ReturnedKeepsOrder(workers: nat, s: State, sid: nat, other: nat)
    requires workers > 0 && |s.logic.lanes| == workers && sid in s.inCall && AllPosted(s) && InOrder(s, other)
    ensures InOrder(Returned(workers, s, sid), other)
  {
    var sent, queued, post := OfSession(s.gate.posted, other), OfSession(s.pushed, other), s.inCall[sid];
    OfSessionSnoc(s.pushed, post, other);
    if other == sid {
      ReturnOrderly(sent, queued, post);
    } else {
      assert queued + [] == queued;
      assert CallOf(Returned(workers, s, sid), other) == CallOf(s, other);
    }
  }

  lemma NextKeepsOrder(workers: nat, s: State, m: Move, sid: nat)
    requires workers > 0 && |s.logic.lanes| == workers && AllPosted(s) && InOrder(s, sid)
    ensures InOrder(Next(workers, s, m), sid)
  {
    match m
    case Gate(e) => ReachedKeepsOrder(workers, s, e, sid);
    case Push(o) => if o in s.inCall { ReturnedKeepsOrder(workers, s, o, sid); }
    case Logic(_) =>
  }

  lemma {:induction false} SessionIsInOrder(workers: nat, ms: seq<Move>, sid: nat)
    requires workers > 0
    ensures InOrder(Run(workers, ms), sid)
  {
    if ms != [] {
      SessionIsInOrder(workers, ms[..|ms| - 1], sid);
      PushedWasPosted(workers, ms[..|ms| - 1]);
      NextKeepsOrder(workers, Run(workers, ms[..|ms| - 1]), ms[|ms| - 1], sid);
    }
  }

  /** A session that is not in a call handles what arrives, and if that posts something it enters the call with
      it; a session in a call reads nothing. */
  lemma ArrivalIsHandled(workers: nat, s: State, e: LoginGate.Event)
    requires workers > 0 && |s.logic.lanes| == workers
    ensures var t := Next(workers, s, Gate(e));
            && t.logic == s.logic && t.pushed == s.pushed
            && (e.Arrive? && e.sid in s.inCall ==> t == s)
            && (!(e.Arrive? && e.sid in s.inCall) ==>
                  && t.gate == LoginGate.Step(workers, s.gate, e)
                  && t.inCall == if t.gate.posted == s.gate.posted then s.inCall
                                 else s.inCall[e.sid := t.gate.posted[|s.gate.posted|]])
  {
    GatePosts(workers, s.gate, e);
  }

  /** Whether the shard of `post` has more than 1000 messages waiting. */
  predicate IsFull(workers: nat, s: State, post: Posted)
    requires workers > 0 && |s.logic.lanes| == workers
  {
    D.Waiting(s.logic, D.ShardOf(post.node.uid, workers)) > 1000
  }

  predicate IsLocked(workers: nat, s: State, post: Posted)
    requires workers > 0 && |s.logic.lanes| == workers
  {
    s.logic.lanes[D.ShardOf(post.node.uid, workers)].phase in {D.Deciding, D.Draining}
  }

  /** A session's call returns as soon as the shard's lock is free, and its post has been queued then, behind all
      others, iff at most 1000 messages of the shard were waiting. */
  lemma ReturnedIsQueuedIff(workers: nat, ms: seq<Move>, sid: nat)
    requires workers > 0 && sid in Run(workers, ms).inCall
    ensures var s := Run(workers, ms);
            var t, post := Next(workers, s, Push(sid)), s.inCall[sid];
            && (IsLocked(workers, s, post) ==> t == s)
            && (!IsLocked(workers, s, post) ==>
                  && t.inCall == s.inCall - {sid} && t.gate == s.gate
                  && t.pushed == if IsFull(workers, s, post) then s.pushed else s.pushed + [post])
  {
    var s := Run(workers, ms);
    D.PostIsAcceptedIff(workers, LogicRun(workers, ms), s.inCall[sid].node);
    QueueIsWaiting(workers, ms, D.ShardOf(s.inCall[sid].node.uid, workers));
  }

  lemma QueueIsWaiting(workers: nat, ms: seq<Move>, i: nat)
    requires i < workers
    ensures D.Waiting(Run(workers, ms).logic, i) == |Run(workers, ms).logic.lanes[i].queue|
  {
    D.RunKeepsInv(workers, LogicRun(workers, ms));
    var s := Run(workers, ms).logic;
    assert D.LaneInv(s.isStop, s.lanes[i]) && D.Sharded(s, i);
  }

  /** The session's move is the return of a call that finds its shard full. */
  predicate Drops(workers: nat, s: State, m: Move, sid: nat)
    requires workers > 0 && |s.logic.lanes| == workers
  {
    m == Push(sid) && sid in s.inCall && !IsLocked(workers, s, s.inCall[sid]) && IsFull(workers, s, s.inCall[sid])
  }

  /** How many posts of a session have come to a shard with more than 1000 messages waiting. */
  function Dropped(workers: nat, ms: seq<Move>, sid: nat): nat
    requires workers > 0
  {
    if ms == [] then 0
    else
      var p := ms[..|ms| - 1];
      Dropped(workers, p, sid) + (if Drops(workers, Run(workers, p), ms[|p|], sid) then 1 else 0)
  }

  /** What a session has sent and not got queued, apart from what it is in the middle of handing over. */
  function Missing(s: State, sid: nat): int {
    |OfSession(s.gate.posted, sid)| - |OfSession(s.pushed, sid)| - (if sid in s.inCall then 1 else 0)
  }

  lemma ReachedMisses(workers: nat, s: State, e: LoginGate.Event, sid: nat)
    requires workers > 0
    ensures Missing(Reached(workers, s, e), sid) == Missing(s, sid)
  {
    GatePosts(workers, s.gate, e);
    if Posts(s.gate, e) && e.sid !in s.inCall {
      OfSessionSnoc(s.gate.posted, PostOf(workers, s.gate, e.sid, e.m), sid);
    } else {
      assert Reached(workers, s, e).gate.posted == s.gate.posted;
    }
  }

  lemma ReturnedMisses(workers: nat, ms: seq<Move>, o: nat, sid: nat)
    requires workers > 0 && o in Run(workers, ms).inCall
    ensures var s := Run(workers, ms);
            Missing(Next(workers, s, Push(o)), sid) == Missing(s, sid) + (if Drops(workers, s, Push(o), sid) then 1 else 0)
  {
    var s := Run(workers, ms);
    PushedWasPosted(workers, ms);
    ReturnedIsQueuedIff(workers, ms, o);
    OfSessionSnoc(s.pushed, s.inCall[o], sid);
  }

  /** Nothing else is lost: in every run what a session has sent is what has been queued for it, what has been
      dropped at a full shard, and what it is in the middle of handing over. */
  lemma {:induction false} OnlyFullShardsDrop(workers: nat, ms: seq<Move>, sid: nat)
    requires workers > 0
    ensures Missing(Run(workers, ms), sid) == Dropped(workers, ms, sid)
  {
    if ms != [] {
      var p, m := ms[..|ms| - 1], ms[|ms| - 1];
      OnlyFullShardsDrop(workers, p, sid);
      match m
      case Gate(e) => ReachedMisses(workers, Run(workers, p), e, sid);
      case Push(o) => if o in Run(workers, p).inCall { ReturnedMisses(workers, p, o, sid); }
      case Logic(_) =>
    }
  }

  /** End to end, over every interleaving and any number of workers: what has been handled for a user is, in
      order and without repeats, a prefix of what was queued under that user; every queued message was
      posted by a session that had logged in as that user with a token issued to it; and of each session's
      posts the queued ones come in the order in which the session sent them. */
  lemma HandledWasSentByTokenHolders(workers: nat, ms: seq<Move>, uid: int)
    requires workers > 0
    ensures var s := Run(workers, ms);
            && D.OfUid(s.logic.handled, uid) <= D.OfUid(NodesOf(s.pushed), uid)
            && (forall post :: post in s.pushed ==> SentByTokenHolder(workers, GateRun(workers, ms), post))
            && (forall sid: nat :: Thinned(OfSession(s.pushed, sid), OfSession(s.gate.posted, sid)))
  {
    var s := Run(workers, ms);
    D.PerUserOrder(workers, LogicRun(workers, ms), uid);
    PushedIsAccepted(workers, ms);
    PushedWasPosted(workers, ms);
    forall post | post in s.pushed ensures SentByTokenHolder(workers, GateRun(workers, ms), post) {
      OnlyTokenHoldersPost(workers, GateRun(workers, ms), post);
    }
    forall sid: nat ensures Thinned(OfSession(s.pushed, sid), OfSession(s.gate.posted, sid)) {
      SessionIsInOrder(workers, ms, sid);
      if sid in s.inCall {
        ReturnOrderly(OfSession(s.gate.posted, sid), OfSession(s.pushed, sid), s.inCall[sid]);
      }
    }
  }
}
