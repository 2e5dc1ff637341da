/** LogicSystem's sharded dispatcher: a message is queued on the shard of its sender's uid, one worker
    serves each shard, a full queue drops, and close() asks the workers to drain and exit.  Workers,
    posters and the closing thread interleave freely; each event below is one region of the code that
    no other thread can observe half-way. */
module Dispatcher {
  import opened Limits

  datatype Node = Node(uid: int, msgId: int, body: string)

  function ShardOf(uid: int, workers: nat): (i: nat)
    requires workers > 0
    ensures i < workers
  {
    if uid <= 0 then 0 else uid % workers
  }

  /** Users are dealt out to the workers in turn; uids that are not positive all go to the first. */
  lemma ShardIsRemainder(uid: int, workers: nat)
    requires workers > 0
    ensures uid <= 0 ==> ShardOf(uid, workers) == 0
    ensures uid > 0 ==> exists k: nat :: uid == ShardOf(uid, workers) + k * workers
  {
    if uid > 0 {
      var k: nat := uid / workers;
      assert uid == ShardOf(uid, workers) + k * workers;
    }
  }

  /** Where a worker is in workerThread.
      Top: about to test `!_isStop`.            Ready: about to lock the queue and test the wait predicate.
      Deciding: predicate false, lock held,     Blocked: asleep on the condition variable, lock released.
      about to sleep.                           Handling: in handleMsg, no lock held.
      StopSeen: left the loop.                  Draining: holds the lock for the final loop. */
  datatype Phase = Top | Ready | Deciding | Blocked | Handling(node: Node) | StopSeen | Draining | Exited

  /** One shard.  `pendingOne` counts notify_one calls still to come from posts already queued,
      `stopNotice` says close() has yet to notify this shard, `missed` that it did so while the worker
      was Deciding.  `accepted` and `handled` are the shard's queued posts and finished handler calls;
      `cut` is how many it had accepted when its worker took the drain lock. */
  datatype Lane = Lane(
    phase: Phase, queue: seq<Node>, pendingOne: nat, stopNotice: bool, missed: bool,
    accepted: seq<Node>, handled: seq<Node>, cut: nat)

  const IDLE := Lane(Top, [], 0, false, false, [], [], 0)

  /** The two logs of the whole system are in global order. */
  datatype State = State(isStop: bool, lanes: seq<Lane>, accepted: seq<Node>, handled: seq<Node>)

  datatype Event = Post(node: Node) | NotifyOne(i: nat) | Wake(i: nat) | Work(i: nat) | Stop | NotifyAll(i: nat)

  predicate LockHeld(l: Lane) {
    l.phase == Deciding || l.phase == Draining
  }

  function InHand(l: Lane): seq<Node> {
    if l.phase.Handling? then [l.phase.node] else []
  }

  predicate Takes(l: Lane) {
    !LockHeld(l) && |l.queue| <= QUEUE_MAX_SIZE
  }

  /** The posting thread pushes under the lock and notifies after releasing it. */
  function Pushed(l: Lane, node: Node): Lane {
    l.(queue := l.queue + [node], accepted := l.accepted + [node], pendingOne := l.pendingOne + 1)
  }

  function Awake(l: Lane): Lane {
    if l.phase == Blocked then l.(phase := Ready) else l
  }

  function NotifiedOne(l: Lane): Lane {
    if l.pendingOne == 0 then l else Awake(l).(pendingOne := l.pendingOne - 1)
  }

  function NotifiedAll(l: Lane): Lane {
    if !l.stopNotice then l else Awake(l).(stopNotice := false, missed := l.phase == Deciding)
  }

  /** The handler call that ends with the worker's next step, if any. */
  function Finished(l: Lane): seq<Node> {
    if l.phase == Draining && l.queue != [] then [l.queue[0]] else InHand(l)
  }

  /** The worker's next step. */
  function Worked(l: Lane, isStop: bool): Lane {
    match l.phase
    case Top => l.(phase := if isStop then StopSeen else Ready)
    case Ready =>
      if isStop then l.(phase := StopSeen)
      else if l.queue != [] then l.(phase := Handling(l.queue[0]), queue := l.queue[1..])
      else l.(phase := Deciding)
    case Deciding => l.(phase := Blocked)
    case Handling(node) => l.(phase := Top, handled := l.handled + [node])
    case StopSeen => l.(phase := Draining, cut := |l.accepted|)
    case Draining =>
      if l.queue != [] then l.(queue := l.queue[1..], handled := l.handled + [l.queue[0]])
      else l.(phase := Exited)
    case _ => l
  }

  function Step(s: State, e: Event): (t: State)
    requires |s.lanes| > 0
    ensures |t.lanes| == |s.lanes|
  {
    match e
    case Post(node) =>
      var i := ShardOf(node.uid, |s.lanes|);
      if !Takes(s.lanes[i]) then s
      else s.(lanes := s.lanes[i := Pushed(s.lanes[i], node)], accepted := s.accepted + [node])
    case NotifyOne(i) =>
      if i >= |s.lanes| then s else s.(lanes := s.lanes[i := NotifiedOne(s.lanes[i])])
    case Wake(i) =>
      if i >= |s.lanes| then s else s.(lanes := s.lanes[i := Awake(s.lanes[i])])
    case Work(i) =>
      if i >= |s.lanes| then s
      else s.(lanes := s.lanes[i := Worked(s.lanes[i], s.isStop)], handled := s.handled + Finished(s.lanes[i]))
    case Stop =>
      if s.isStop then s
      else s.(isStop := true, lanes := seq(|s.lanes|, i requires 0 <= i < |s.lanes| => s.lanes[i].(stopNotice := true)))
    case NotifyAll(i) =>
      if i >= |s.lanes| then s else s.(lanes := s.lanes[i := NotifiedAll(s.lanes[i])])
  }

  /** What every step keeps of one shard. */
  ghost predicate LaneInv(isStop: bool, l: Lane) {
    && l.handled + InHand(l) + l.queue == l.accepted
    && |l.queue| <= QUEUE_MAX_SIZE + 1
    && (l.phase == Deciding ==> l.queue == [])
    // a queued message never sleeps: its notification is still to come
    && (l.phase == Blocked && l.queue != [] ==> l.pendingOne > 0)
    && (l.phase in {StopSeen, Draining, Exited} ==> isStop)
    && (!isStop ==> !l.stopNotice)
    // only a notification that met the worker between test and sleep can be lost
    && (l.phase in {Blocked, Deciding} && isStop ==> l.stopNotice || l.missed)
    && (l.missed ==> isStop && !l.stopNotice)
    && (l.phase == Draining ==> l.cut == |l.accepted|)
    && (l.phase == Exited ==> l.cut == |l.handled|)
  }

  lemma PushedKeeps(isStop: bool, l: Lane, node: Node)
    requires LaneInv(isStop, l) && Takes(l)
    ensures LaneInv(isStop, Pushed(l, node))
  {
  }

  lemma WorkedKeeps(isStop: bool, l: Lane)
    requires LaneInv(isStop, l)
    ensures LaneInv(isStop, Worked(l, isStop))
    ensures Worked(l, isStop).accepted == l.accepted && Worked(l, isStop).handled == l.handled + Finished(l)
  {
    match l.phase
    case Ready =>
      if l.queue != [] {
        assert l.handled + [] + l.queue == l.handled + [l.queue[0]] + l.queue[1..];
      }
    case Handling(node) =>
      assert l.handled + [node] + [] + l.queue == l.handled + [node] + l.queue;
    case Draining =>
      if l.queue != [] {
        assert l.handled + [] + l.queue == l.handled + [l.queue[0]] + [] + l.queue[1..];
      }
    case _ =>
  }

  /** The shard's messages all belong to it and its logs are its share of the global ones. */
  ghost predicate Sharded(s: State, i: nat)
    requires i < |s.lanes|
  {
    var l, w := s.lanes[i], |s.lanes|;
    && (forall k :: 0 <= k < |l.accepted| ==> ShardOf(l.accepted[k].uid, w) == i)
    && Of(s.accepted, i, w) == l.accepted && Of(s.handled, i, w) == l.handled
  }

  ghost predicate Inv(s: State) {
    && |s.lanes| > 0
    && (forall i :: 0 <= i < |s.lanes| ==> LaneInv(s.isStop, s.lanes[i]))
    && (forall i :: 0 <= i < |s.lanes| ==> Sharded(s, i))
  }

  /** The part of a log that belongs to shard i. */
  function Of(log: seq<Node>, i: nat, workers: nat): seq<Node>
    requires workers > 0
  {
    if log == [] then []
    else
      var last := log[|log| - 1];
      Of(log[..|log| - 1], i, workers) + (if ShardOf(last.uid, workers) == i then [last] else [])
  }

  lemma OfSnoc(log: seq<Node>, node: Node, i: nat, workers: nat)
    requires workers > 0
    ensures Of(log + [node], i, workers)
         == Of(log, i, workers) + (if ShardOf(node.uid, workers) == i then [node] else [])
  {
  }

  lemma FinishedIsOwn(isStop: bool, l: Lane)
    requires LaneInv(isStop, l) && Finished(l) != []
    ensures |l.handled| < |l.accepted| && Finished(l) == [l.accepted[|l.handled|]]
  {
  }

  lemma PostKeeps(s: State, node: Node, j: nat)
    requires j < |s.lanes| && Sharded(s, j)
    ensures Sharded(Step(s, Post(node)), j)
  {
  }

  lemma WorkKeeps(s: State, i: nat, j: nat)
    requires i < |s.lanes| && j < |s.lanes| && Sharded(s, i) && Sharded(s, j) && LaneInv(s.isStop, s.lanes[i])
    ensures Sharded(Step(s, Work(i)), j)
  {
    var f := Finished(s.lanes[i]);
    WorkedKeeps(s.isStop, s.lanes[i]);
    if f == [] {
      assert s.handled + f == s.handled;
    } else {
      FinishedIsOwn(s.isStop, s.lanes[i]);
      OfSnoc(s.handled, f[0], j, |s.lanes|);
    }
  }

  lemma LaneStep(s: State, e: Event, j: nat)
    requires j < |s.lanes| && LaneInv(s.isStop, s.lanes[j])
    ensures LaneInv(Step(s, e).isStop, Step(s, e).lanes[j])
  {
    match e
    case Post(node) => if Takes(s.lanes[j]) { PushedKeeps(s.isStop, s.lanes[j], node); }
    case Work(i) => WorkedKeeps(s.isStop, s.lanes[j]);
    case _ =>
  }

  lemma ShardStep(s: State, e: Event, j: nat)
    requires j < |s.lanes| && Inv(s)
    ensures Sharded(Step(s, e), j)
  {
    assert Sharded(s, j);
    match e
    case Post(node) => PostKeeps(s, node, j);
    case Work(i) => if i < |s.lanes| { assert Sharded(s, i); WorkKeeps(s, i, j); }
    case _ =>
      assert Step(s, e).lanes[j].accepted == s.lanes[j].accepted;
  }

  lemma StepKeepsInv(s: State, e: Event)
    requires Inv(s)
    ensures Inv(Step(s, e))
  {
    forall j | 0 <= j < |s.lanes|
      ensures LaneInv(Step(s, e).isStop, Step(s, e).lanes[j]) && Sharded(Step(s, e), j)
    {
      LaneStep(s, e, j);
      ShardStep(s, e, j);
    }
  }

  /** All interleavings: a run is any list of events, an event that is not enabled being skipped. */
  function Run(workers: nat, es: seq<Event>): (s: State)
    requires workers > 0
    ensures |s.lanes| == workers
  {
    if es == [] then State(false, seq(workers, _ => IDLE), [], [])
    else Step(Run(workers, es[..|es| - 1]), es[|es| - 1])
  }

  lemma {:induction false} RunKeepsInv(workers: nat, es: seq<Event>)
    requires workers > 0
    ensures Inv(Run(workers, es))
  {
    if es != [] {
      RunKeepsInv(workers, es[..|es| - 1]);
      StepKeepsInv(Run(workers, es[..|es| - 1]), es[|es| - 1]);
    }
  }

  /** Messages a shard has accepted and not handled, apart from the one its worker has in hand. */
  function Waiting(s: State, i: nat): int
    requires i < |s.lanes|
  {
    var accepted, handled := |Of(s.accepted, i, |s.lanes|)|, |Of(s.handled, i, |s.lanes|)|;
    accepted - handled - (if s.lanes[i].phase.Handling? then 1 else 0)
  }

  /** In any run, while the shard's lock is free, a post is accepted iff at most 1000 messages of the shard wait,
      and then behind everything accepted before; else it leaves no trace.  While the lock is held nothing is
      posted. */
  lemma PostIsAcceptedIff(workers: nat, es: seq<Event>, node: Node)
    requires workers > 0
    ensures var s, t := Run(workers, es), Step(Run(workers, es), Post(node));
            var i := ShardOf(node.uid, workers);
            && (s.lanes[i].phase in {Deciding, Draining} ==> t == s)
            && (s.lanes[i].phase !in {Deciding, Draining} ==>
                  && (t.accepted == s.accepted + [node] <==> Waiting(s, i) <= 1000)
                  && (Waiting(s, i) > 1000 ==> t == s))
            && t.handled == s.handled && t.isStop == s.isStop
  {
    RunKeepsInv(workers, es);
    var s, i := Run(workers, es), ShardOf(node.uid, workers);
    assert LaneInv(s.isStop, s.lanes[i]) && Sharded(s, i);
    assert Waiting(s, i) == |s.lanes[i].queue|;
  }

  function OfUid(log: seq<Node>, uid: int): seq<Node> {
    if log == [] then []
    else
      var last := log[|log| - 1];
      OfUid(log[..|log| - 1], uid) + (if last.uid == uid then [last] else [])
  }

  lemma {:induction false} OfUidConcat(a: seq<Node>, b: seq<Node>, uid: int)
    ensures OfUid(a + b, uid) == OfUid(a, uid) + OfUid(b, uid)
  {
    if b == [] {
      assert a + b == a;
    } else {
      OfUidConcat(a, b[..|b| - 1], uid);
      assert (a + b)[..|a + b| - 1] == a + b[..|b| - 1];
    }
  }

  lemma {:induction false} OfUidOfShard(log: seq<Node>, uid: int, workers: nat)
    requires workers > 0
    ensures OfUid(Of(log, ShardOf(uid, workers), workers), uid) == OfUid(log, uid)
  {
    if log != [] {
      var i, p, last := ShardOf(uid, workers), log[..|log| - 1], log[|log| - 1];
      OfUidOfShard(p, uid, workers);
      OfUidConcat(Of(p, i, workers), if ShardOf(last.uid, workers) == i then [last] else [], uid);
      assert [last][..0] == [];
    }
  }

  /** Order and exactly-once per user, for any worker count and any interleaving: what has been handled
      for a user, then what its shard's worker has in hand, then what is queued, is what was accepted. */
  lemma PerUserOrder(workers: nat, es: seq<Event>, uid: int)
    requires workers > 0
    ensures var s := Run(workers, es);
            var l := s.lanes[ShardOf(uid, workers)];
            && OfUid(s.handled, uid) + OfUid(InHand(l), uid) + OfUid(l.queue, uid) == OfUid(s.accepted, uid)
            && OfUid(s.handled, uid) <= OfUid(s.accepted, uid)
            && |l.queue| <= QUEUE_MAX_SIZE + 1
  {
    var s := Run(workers, es);
    var i := ShardOf(uid, workers);
    var l := s.lanes[i];
    RunKeepsInv(workers, es);
    assert Sharded(s, i);
    OfUidOfShard(s.accepted, uid, workers);
    OfUidOfShard(s.handled, uid, workers);
    LaneOrder(s.isStop, l, uid);
  }

  lemma LaneOrder(isStop: bool, l: Lane, uid: int)
    requires LaneInv(isStop, l)
    ensures OfUid(l.handled, uid) + OfUid(InHand(l), uid) + OfUid(l.queue, uid) == OfUid(l.accepted, uid)
    ensures OfUid(l.handled, uid) <= OfUid(l.accepted, uid) && |l.queue| <= QUEUE_MAX_SIZE + 1
  {
    OfUidConcat(l.handled + InHand(l), l.queue, uid);
    OfUidConcat(l.handled, InHand(l), uid);
    assert OfUid(l.handled, uid) + (OfUid(InHand(l), uid) + OfUid(l.queue, uid)) == OfUid(l.accepted, uid);
  }
}
