/** LogicSystem::close and the drain at the end of workerThread, over every interleaving: what shutdown
    loses, that it cannot run forever, and the one way in which it can hang. */
module Shutdown {
  import opened Limits
  import opened Dispatcher

  lemma RunSnoc(workers: nat, es: seq<Event>, e: Event)
    requires workers > 0
    ensures Run(workers, es + [e]) == Step(Run(workers, es), e)
  {
    assert (es + [e])[..|es|] == es;
  }

  ghost function LaneOf(workers: nat, es: seq<Event>, i: nat): (l: Lane)
    requires i < workers
    ensures LaneInv(Run(workers, es).isStop, l)
    ensures l.accepted == Of(Run(workers, es).accepted, i, workers)
    ensures l.handled == Of(Run(workers, es).handled, i, workers)
  {
    var s := Run(workers, es);
    RunKeepsInv(workers, es);
    assert Sharded(s, i);
    s.lanes[i]
  }

  /** Event n is the worker of shard i taking the drain lock. */
  ghost predicate TakesDrainLock(workers: nat, es: seq<Event>, n: nat, i: nat)
    requires i < workers
  {
    n < |es| && es[n] == Work(i) && LaneOf(workers, es[..n], i).phase == StopSeen
  }

  predicate PastDrainLock(l: Lane) {
    l.phase == Draining || l.phase == Exited
  }

  /** What any event does to the drain bookkeeping of one shard. */
  lemma CutStays(s: State, e: Event, i: nat)
    requires i < |s.lanes|
    ensures var l, m := s.lanes[i], Step(s, e).lanes[i];
            && l.accepted <= m.accepted
            && (PastDrainLock(l) ==> PastDrainLock(m) && m.cut == l.cut)
            && (PastDrainLock(m) && !PastDrainLock(l) ==>
                  e == Work(i) && l.phase == StopSeen && m.cut == |l.accepted| && m.accepted == l.accepted)
  {
    if e == Work(i) {
      WorkedCut(s.lanes[i], s.isStop);
    }
  }

  lemma WorkedCut(l: Lane, isStop: bool)
    ensures var m := Worked(l, isStop);
            && m.accepted == l.accepted
            && (PastDrainLock(l) ==> PastDrainLock(m) && m.cut == l.cut)
            && (PastDrainLock(m) && !PastDrainLock(l) ==> l.phase == StopSeen && m.cut == |l.accepted|)
  {
  }

  /** One more event: the drain lock has been taken before, or the event takes it. */
  lemma DrainStep(workers: nat, p: seq<Event>, e: Event, i: nat)
    requires i < workers && PastDrainLock(LaneOf(workers, p + [e], i))
    ensures var l, m := LaneOf(workers, p, i), LaneOf(workers, p + [e], i);
            && l.accepted <= m.accepted
            && if PastDrainLock(l) then m.cut == l.cut
               else e == Work(i) && l.phase == StopSeen && m.cut == |l.accepted|
  {
    RunSnoc(workers, p, e);
    CutStays(Run(workers, p), e, i);
  }

  lemma {:induction false} DrainPoint(workers: nat, es: seq<Event>, i: nat) returns (n: nat)
    requires i < workers && PastDrainLock(LaneOf(workers, es, i))
    ensures TakesDrainLock(workers, es, n, i)
    ensures var before, l := LaneOf(workers, es[..n], i), LaneOf(workers, es, i);
            before.accepted <= l.accepted && |before.accepted| == l.cut
  {
    NotPastAtFirst(workers, es, i);
    var p, e := es[..|es| - 1], es[|es| - 1];
    assert es == p + [e];
    DrainStep(workers, p, e, i);
    if PastDrainLock(LaneOf(workers, p, i)) {
      n := DrainPoint(workers, p, i);
      assert es[..n] == p[..n];
    } else {
      n := |p|;
    }
  }

  lemma NotPastAtFirst(workers: nat, es: seq<Event>, i: nat)
    requires i < workers && PastDrainLock(LaneOf(workers, es, i))
    ensures es != []
  {
  }

  /** Lossless shutdown, wherever the worker was when stop was raised: once it has exited it has handled,
      in order, exactly the messages its shard had accepted when it took the drain lock; what was accepted
      later sits in the queue and is never handled. */
  lemma LosslessShutdown(workers: nat, es: seq<Event>, i: nat) returns (n: nat)
    requires i < workers && LaneOf(workers, es, i).phase == Exited
    ensures TakesDrainLock(workers, es, n, i)
    ensures Of(Run(workers, es).handled, i, workers) == Of(Run(workers, es[..n]).accepted, i, workers)
    ensures Of(Run(workers, es).accepted, i, workers)
         == Of(Run(workers, es).handled, i, workers) + LaneOf(workers, es, i).queue
  {
    n := DrainPoint(workers, es, i);
    ExitedLane(Run(workers, es).isStop, LaneOf(workers, es, i), LaneOf(workers, es[..n], i).accepted);
  }

  lemma ExitedLane(isStop: bool, l: Lane, atLock: seq<Node>)
    requires LaneInv(isStop, l) && l.phase == Exited
    requires atLock <= l.accepted && |atLock| == l.cut
    ensures l.handled == atLock && l.accepted == l.handled + l.queue
  {
  }

  /** How far a worker is from its exit once stop is set. */
  function Left(l: Lane): nat {
    var perPhase := QUEUE_MAX_SIZE + 2;
    match l.phase
    case Deciding => 7 * perPhase
    case Blocked => 6 * perPhase
    case Handling(_) => 5 * perPhase
    case Top => 4 * perPhase
    case Ready => 3 * perPhase
    case StopSeen => 2 * perPhase
    case Draining => 1 + |l.queue|
    case Exited => 0
  }

  /** After stop no event whatever takes a worker away from its exit, however much is still posted, and
      every step of its own that it can take brings it nearer; so each worker takes boundedly many. */
  lemma ShutdownDescends(s: State, e: Event, i: nat)
    requires Inv(s) && s.isStop && i < |s.lanes|
    ensures Step(s, e).isStop && Left(Step(s, e).lanes[i]) <= Left(s.lanes[i])
    ensures e == Work(i) && s.lanes[i].phase != Blocked && s.lanes[i].phase != Exited ==>
              Left(Step(s, e).lanes[i]) < Left(s.lanes[i])
  {
  }

  /** Asleep, with nobody left who is bound to wake it. */
  predicate Hung(l: Lane) {
    l.phase == Blocked && !l.stopNotice && l.pendingOne == 0
  }

  predicate DueFor(e: Event, i: nat) {
    e == Work(i) || e == NotifyOne(i) || e == NotifyAll(i)
  }

  /** A worker that has not exited can always be brought nearer to its exit, by its own step or by a
      notification that is still to come, unless it sleeps with every such notification spent, close()'s
      while it was between its test of the wait predicate and its sleep. */
  lemma StuckIffHung(s: State, i: nat)
    requires Inv(s) && s.isStop && i < |s.lanes|
    ensures (forall e | DueFor(e, i) :: Step(s, e).lanes[i].phase == s.lanes[i].phase
                                        && Left(Step(s, e).lanes[i]) == Left(s.lanes[i]))
       <==> s.lanes[i].phase == Exited || Hung(s.lanes[i])
    ensures Hung(s.lanes[i]) <==> s.lanes[i].phase == Blocked && s.lanes[i].missed && s.lanes[i].pendingOne == 0
  {
    var l := s.lanes[i];
    assert LaneInv(s.isStop, l);
    assert DueFor(Work(i), i) && DueFor(NotifyOne(i), i) && DueFor(NotifyAll(i), i);
    if l.phase != Exited && !Hung(l) {
      if l.phase != Blocked {
        ShutdownDescends(s, Work(i), i);
        assert Left(Step(s, Work(i)).lanes[i]) != Left(l);
      } else if l.pendingOne > 0 {
        assert Step(s, NotifyOne(i)).lanes[i].phase == Ready;
      } else {
        assert Step(s, NotifyAll(i)).lanes[i].phase == Ready;
      }
    }
  }

  /** The events that could still wake a hung worker: a spurious wake-up, or a later post to its shard. */
  predicate Rescues(e: Event, i: nat, workers: nat)
    requires workers > 0
  {
    e == Wake(i) || (e.Post? && ShardOf(e.node.uid, workers) == i)
  }

  lemma HungStep(s: State, e: Event, i: nat)
    requires i < |s.lanes| && s.isStop && Hung(s.lanes[i]) && !Rescues(e, i, |s.lanes|)
    ensures Step(s, e).isStop && Hung(Step(s, e).lanes[i])
  {
  }

  lemma {:induction false} HungStaysHung(workers: nat, es: seq<Event>, n: nat, i: nat)
    requires i < workers && n <= |es| && Run(workers, es[..n]).isStop && Hung(Run(workers, es[..n]).lanes[i])
    requires forall k :: n <= k < |es| ==> !Rescues(es[k], i, workers)
    ensures Hung(Run(workers, es).lanes[i]) && Run(workers, es).isStop
  {
    if n < |es| {
      var p := es[..|es| - 1];
      assert p[..n] == es[..n];
      HungStaysHung(workers, p, n, i);
      HungStep(Run(workers, p), es[|es| - 1], i);
    } else {
      assert es[..n] == es;
    }
  }

  /** The state after further events. */
  function Onward(s: State, es: seq<Event>): (t: State)
    requires |s.lanes| > 0
    ensures |t.lanes| == |s.lanes|
    decreases |es|
  {
    if es == [] then s else Onward(Step(s, es[0]), es[1..])
  }

  lemma {:induction false} OnwardConcat(s: State, es: seq<Event>, more: seq<Event>)
    requires |s.lanes| > 0
    ensures Onward(s, es + more) == Onward(Onward(s, es), more)
    decreases |es|
  {
    if es == [] {
      assert es + more == more;
    } else {
      OnwardConcat(Step(s, es[0]), es[1..], more);
      assert (es + more)[1..] == es[1..] + more;
    }
  }

  /** Runs are what follows the initial state, so what is shown of a state that satisfies the invariant
      holds at every moment of every run. */
  lemma {:induction false} RunIsOnward(workers: nat, es: seq<Event>, more: seq<Event>)
    requires workers > 0
    ensures Run(workers, es + more) == Onward(Run(workers, es), more)
    decreases |more|
  {
    if more == [] {
      assert es + more == es;
    } else {
      var e, rest := more[0], more[1..];
      RunSnoc(workers, es, e);
      RunIsOnward(workers, es + [e], rest);
      assert es + more == es + [e] + rest;
    }
  }

  /** The invariant and the flag stay. */
  lemma {:induction false} OnwardKeeps(s: State, es: seq<Event>)
    requires Inv(s) && s.isStop
    ensures Inv(Onward(s, es)) && Onward(s, es).isStop
    decreases |es|
  {
    if es != [] {
      StepKeepsInv(s, es[0]);
      StopStays(s, es[0]);
      OnwardKeeps(Step(s, es[0]), es[1..]);
    }
  }

  lemma StopStays(s: State, e: Event)
    requires |s.lanes| > 0 && s.isStop
    ensures Step(s, e).isStop
  {
  }

  /** Not about to sleep, and not asleep unless close() has yet to notify. */
  predicate Heedful(l: Lane) {
    l.phase != Deciding && (l.phase == Blocked ==> l.stopNotice)
  }

  lemma HeedfulStep(s: State, e: Event, i: nat)
    requires i < |s.lanes| && s.isStop && Heedful(s.lanes[i])
    ensures Step(s, e).isStop && Heedful(Step(s, e).lanes[i])
    ensures s.lanes[i].phase == Exited ==> Step(s, e).lanes[i].phase == Exited
  {
  }

  lemma {:induction false} HeedfulOnward(s: State, es: seq<Event>, i: nat)
    requires i < |s.lanes| && s.isStop && Heedful(s.lanes[i])
    ensures Heedful(Onward(s, es).lanes[i])
    ensures s.lanes[i].phase == Exited ==> Onward(s, es).lanes[i].phase == Exited
    decreases |es|
  {
    if es != [] {
      HeedfulStep(s, es[0], i);
      HeedfulOnward(Step(s, es[0]), es[1..], i);
    }
  }

  /** Only events the program owes: worker steps and notifications of posts and of close(). */
  predicate Due(es: seq<Event>) {
    forall k :: 0 <= k < |es| ==> es[k].Work? || es[k].NotifyOne? || es[k].NotifyAll?
  }

  lemma {:induction false} WorkerExits(s: State, i: nat) returns (es: seq<Event>)
    requires Inv(s) && s.isStop && i < |s.lanes| && Heedful(s.lanes[i])
    ensures Due(es) && Onward(s, es).lanes[i].phase == Exited
    decreases Left(s.lanes[i])
  {
    if s.lanes[i].phase == Exited {
      es := [];
    } else {
      var e := if s.lanes[i].phase == Blocked then NotifyAll(i) else Work(i);
      StepKeepsInv(s, e);
      HeedfulStep(s, e, i);
      NearerToExit(s, i);
      var rest := WorkerExits(Step(s, e), i);
      es := [e] + rest;
    }
  }

  lemma NearerToExit(s: State, i: nat)
    requires Inv(s) && s.isStop && i < |s.lanes| && Heedful(s.lanes[i]) && s.lanes[i].phase != Exited
    ensures var e := if s.lanes[i].phase == Blocked then NotifyAll(i) else Work(i);
            Left(Step(s, e).lanes[i]) < Left(s.lanes[i])
  {
    if s.lanes[i].phase != Blocked {
      ShutdownDescends(s, Work(i), i);
    }
  }

  ghost predicate AllHeedful(s: State) {
    forall i :: 0 <= i < |s.lanes| ==> Heedful(s.lanes[i])
  }

  ghost predicate Exit(s: State, m: nat)
    requires m <= |s.lanes|
  {
    forall i :: 0 <= i < m ==> s.lanes[i].phase == Exited
  }

  lemma AllHeedfulOnward(s: State, es: seq<Event>, m: nat)
    requires |s.lanes| > 0 && s.isStop && AllHeedful(s) && m <= |s.lanes| && Exit(s, m)
    ensures AllHeedful(Onward(s, es)) && Exit(Onward(s, es), m)
  {
    forall i | 0 <= i < |s.lanes|
      ensures Heedful(Onward(s, es).lanes[i]) && (i < m ==> Onward(s, es).lanes[i].phase == Exited)
    {
      HeedfulOnward(s, es, i);
    }
  }

  /** Due events bring the first m workers to their exits. */
  lemma {:induction false} WorkersExit(s: State, m: nat) returns (es: seq<Event>)
    requires Inv(s) && s.isStop && AllHeedful(s) && m <= |s.lanes|
    ensures Due(es) && Exit(Onward(s, es), m)
  {
    if m == 0 {
      es := [];
    } else {
      var first := WorkersExit(s, m - 1);
      OnwardKeeps(s, first);
      AllHeedfulOnward(s, first, 0);
      var rest := OneMoreExits(Onward(s, first), m - 1);
      OnwardConcat(s, first, rest);
      es := first + rest;
    }
  }

  lemma OneMoreExits(s: State, m: nat) returns (es: seq<Event>)
    requires Inv(s) && s.isStop && AllHeedful(s) && m < |s.lanes| && Exit(s, m)
    ensures Due(es) && Exit(Onward(s, es), m + 1)
  {
    es := WorkerExits(s, m);
    AllHeedfulOnward(s, es, m);
  }

  predicate Unrescued(es: seq<Event>, i: nat, workers: nat)
    requires workers > 0
  {
    forall k :: 0 <= k < |es| ==> !Rescues(es[k], i, workers)
  }

  /** A worker between test and sleep outlasts every notification it is due, and then goes to sleep. */
  lemma {:induction false} CatchWorker(s: State, i: nat) returns (es: seq<Event>)
    requires s.isStop && i < |s.lanes| && s.lanes[i].phase == Deciding
    ensures Unrescued(es, i, |s.lanes|) && Hung(Onward(s, es).lanes[i])
    decreases s.lanes[i].pendingOne, s.lanes[i].stopNotice
  {
    var l := s.lanes[i];
    if l.pendingOne == 0 && !l.stopNotice {
      es := [Work(i)];
      assert Onward(s, es) == Onward(Step(s, Work(i)), []);
    } else {
      var e := if l.pendingOne > 0 then NotifyOne(i) else NotifyAll(i);
      var rest := CatchWorker(Step(s, e), i);
      es := [e] + rest;
    }
  }

  /** Whether close() can strand a worker is settled when it raises the flag: a continuation without a
      rescue leaves the worker hung iff at that moment it is between its test of the wait predicate and its
      sleep, holding the lock that close() does not take. */
  lemma HangsIffDeciding(s: State, i: nat)
    requires Inv(s) && !s.isStop && i < |s.lanes|
    ensures (exists es :: Unrescued(es, i, |s.lanes|) && Hung(Onward(Step(s, Stop), es).lanes[i]))
       <==> s.lanes[i].phase == Deciding
  {
    var stopped := Step(s, Stop);
    if s.lanes[i].phase == Deciding {
      var es := CatchWorker(stopped, i);
    } else {
      forall es ensures !Hung(Onward(stopped, es).lanes[i]) {
        HeedfulOnward(stopped, es, i);
      }
    }
  }

  /** Due events alone can bring every worker to its exit, so that close() can join them all. */
  ghost predicate CanFinish(s: State)
    requires |s.lanes| > 0
  {
    exists es :: Due(es) && Exit(Onward(s, es), |s.lanes|)
  }

  /** Shutdown can be completed from wherever it has got to, whatever is posted meanwhile, iff no worker is
      between test and sleep when close() raises the flag. */
  lemma ShutdownCompletesIff(s: State)
    requires Inv(s) && !s.isStop
    ensures (forall es :: CanFinish(Onward(Step(s, Stop), es)))
       <==> forall i :: 0 <= i < |s.lanes| ==> s.lanes[i].phase != Deciding
  {
    var stopped := Step(s, Stop);
    StepKeepsInv(s, Stop);
    if i :| 0 <= i < |s.lanes| && s.lanes[i].phase == Deciding {
      var es := CatchWorker(stopped, i);
      OnwardKeeps(stopped, es);
      HungCannotFinish(Onward(stopped, es), i);
    } else {
      assert AllHeedful(stopped);
      forall es ensures CanFinish(Onward(stopped, es)) {
        OnwardKeeps(stopped, es);
        AllHeedfulOnward(stopped, es, 0);
        var rest := WorkersExit(Onward(stopped, es), |s.lanes|);
      }
    }
  }

  lemma HungCannotFinish(s: State, i: nat)
    requires i < |s.lanes| && s.isStop && Hung(s.lanes[i])
    ensures !CanFinish(s)
  {
    forall es | Due(es) ensures !Exit(Onward(s, es), |s.lanes|) {
      HungOnward(s, es, i);
    }
  }

  lemma {:induction false} HungOnward(s: State, es: seq<Event>, i: nat)
    requires i < |s.lanes| && s.isStop && Hung(s.lanes[i]) && Unrescued(es, i, |s.lanes|)
    ensures Hung(Onward(s, es).lanes[i])
    decreases |es|
  {
    if es != [] {
      HungStep(s, es[0], i);
      HungOnward(Step(s, es[0]), es[1..], i);
    }
  }

  lemma DecidingIsReachable(workers: nat, i: nat) returns (es: seq<Event>)
    requires i < workers
    ensures !Run(workers, es).isStop && Run(workers, es).lanes[i].phase == Deciding
  {
    es := [Work(i), Work(i)];
    assert es[..1] == [Work(i)] && es[..1][..0] == [];
    assert Run(workers, es[..1]).lanes[i].phase == Ready;
  }

  /** And it can happen to any worker of any number. */
  lemma ShutdownCanHang(workers: nat, i: nat)
    requires i < workers
    ensures exists es :: Run(workers, es).isStop && Hung(Run(workers, es).lanes[i])
  {
    var before := DecidingIsReachable(workers, i);
    var s := Run(workers, before);
    RunKeepsInv(workers, before);
    StepKeepsInv(s, Stop);
    var more := CatchWorker(Step(s, Stop), i);
    OnwardKeeps(Step(s, Stop), more);
    RunIsOnward(workers, before, [Stop] + more);
    assert Onward(s, [Stop] + more) == Onward(Step(s, Stop), more);
    assert Run(workers, before + ([Stop] + more)).isStop;
  }

  /** The hypothesis of DrainPoint and LosslessShutdown is met: stopped at once, any worker exits. */
  lemma SomeRunExits(workers: nat, i: nat)
    requires i < workers
    ensures exists es :: LaneOf(workers, es, i).phase == Exited
  {
    var s := Run(workers, []);
    RunKeepsInv(workers, []);
    StepKeepsInv(s, Stop);
    var more := WorkerExits(Step(s, Stop), i);
    RunIsOnward(workers, [], [Stop] + more);
    assert [] + ([Stop] + more) == [Stop] + more;
    assert LaneOf(workers, [Stop] + more, i).phase == Exited;
  }
}
