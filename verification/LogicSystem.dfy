/** The regions of LogicSystem that run under a queue mutex, in the source's own form, each tied to the
    event of the interleaving model it is. */
module LogicSystem {
  import opened Wrappers
  import opened Limits
  import opened Dispatcher

  class LogicSystem {
    var isStop: bool
    var queues: seq<seq<Node>>
    var handled: seq<Node>  // calls of handleMsg, in the order they finish
    ghost var state: State

    ghost predicate Valid()
      reads this
    {
      && Inv(state)
      && isStop == state.isStop && handled == state.handled
      && |queues| == |state.lanes|
      && forall i :: 0 <= i < |queues| ==> queues[i] == state.lanes[i].queue
    }

    constructor (hardwareConcurrency: nat)
      ensures Valid()
      ensures |queues| == if hardwareConcurrency > 0 then hardwareConcurrency else 4
      ensures state == Run(|queues|, [])
    {
      var workerCount := hardwareConcurrency;
      if workerCount == 0 {
        workerCount := 4;
      }
      isStop, handled := false, [];
      queues := seq(workerCount, _ => []);
      state := Run(workerCount, []);
      RunKeepsInv(workerCount, []);
    }

    method GetQueueIndex(uid: int) returns (index: nat)
      requires Valid()
      ensures index == ShardOf(uid, |queues|) && index < |queues|
    {
      if uid <= 0 {
        return 0;
      }
      return uid % |queues|;
    }

    method PostMsgToQueue(node: Node)
      requires Valid() && !LockHeld(state.lanes[ShardOf(node.uid, |state.lanes|)])
      modifies this
      ensures Valid() && state == Step(old(state), Post(node)) && handled == old(handled)
      ensures var index := ShardOf(node.uid, |queues|);
              if |old(queues)[index]| <= 1000 then
                && queues == old(queues)[index := old(queues)[index] + [node]]
                && state.accepted == old(state).accepted + [node]
              else queues == old(queues) && state == old(state)
    {
      StepKeepsInv(state, Post(node));
      var index := GetQueueIndex(node.uid);
      if |queues[index]| > QUEUE_MAX_SIZE {
        return;
      }
      queues := queues[index := queues[index] + [node]];
      state := Step(state, Post(node));
    }

    /** workerThread from locking the queue to leaving the locked block, or to deciding to sleep. */
    method Take(index: nat) returns (node: Option<Node>)
      requires Valid() && index < |queues| && state.lanes[index].phase == Ready
      modifies this
      ensures Valid() && state == Step(old(state), Work(index)) && handled == old(handled)
      ensures isStop == old(isStop) && state.accepted == old(state).accepted
      ensures node.Some? <==> !isStop && old(queues)[index] != []
      ensures node.Some? ==> node.value == old(queues)[index][0] && queues == old(queues)[index := old(queues)[index][1..]]
      ensures node.None? ==> queues == old(queues)
      ensures node.Some? <==> state.lanes[index].phase.Handling?
      ensures node.Some? ==> state.lanes[index].phase == Handling(node.value)
    {
      StepKeepsInv(state, Work(index));
      assert state.handled + [] == state.handled;
      state := Step(state, Work(index));
      if isStop || |queues[index]| == 0 {
        return None;
      }
      node := Some(queues[index][0]);
      queues := queues[index := queues[index][1..]];
    }

    /** The end of workerThread: everything still queued is handled once, in order, and nothing else
        changes. */
    method DrainAndExit(index: nat)
      requires Valid() && index < |queues| && state.lanes[index].phase == StopSeen
      modifies this
      ensures Valid() && isStop == old(isStop) && state.accepted == old(state.accepted)
      ensures handled == old(handled) + old(queues[index]) && queues == old(queues)[index := []]
      ensures state.lanes == old(state.lanes)[index := state.lanes[index]] && state.lanes[index].phase == Exited
    {
      Advance(index);
      while |queues[index]| != 0
        invariant Valid() && |queues| == old(|queues|) && isStop == old(isStop)
        invariant state.accepted == old(state.accepted)
        invariant handled + queues[index] == old(handled) + old(queues[index])
        invariant queues == old(queues)[index := queues[index]]
        invariant state.lanes == old(state.lanes)[index := state.lanes[index]]
        invariant state.lanes[index].phase == Draining
        decreases |queues[index]|
      {
        HandleFront(index);
      }
      Advance(index);
    }

    method HandleFront(index: nat)
      requires Valid() && index < |queues| && state.lanes[index].phase == Draining && |queues[index]| != 0
      modifies this
      ensures Valid() && state == Step(old(state), Work(index)) && isStop == old(isStop)
      ensures queues == old(queues)[index := old(queues[index])[1..]]
      ensures handled == old(handled) + [old(queues[index])[0]]
      ensures handled + queues[index] == old(handled) + old(queues[index])
    {
      handled := handled + [queues[index][0]];
      queues := queues[index := queues[index][1..]];
      StepKeepsInv(state, Work(index));
      state := Step(state, Work(index));
    }

    /** A worker step that moves only the worker. */
    ghost method Advance(index: nat)
      requires Valid() && index < |queues|
      requires var l := state.lanes[index]; l.phase == StopSeen || (l.phase == Draining && l.queue == [])
      modifies `state
      ensures Valid() && state == Step(old(state), Work(index)) && state.handled == old(state.handled)
    {
      StepKeepsInv(state, Work(index));
      assert state.handled + [] == state.handled;
      state := Step(state, Work(index));
    }
  }
}
