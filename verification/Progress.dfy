/** The dispatcher in normal operation: no message is forgotten, because no notification of a post is lost. */
module Progress {
  import opened Dispatcher
  import opened Shutdown

  /** Everything the shard has accepted is handled. */
  predicate Drained(l: Lane) {
    l.queue == [] && !l.phase.Handling?
  }

  /** Steps that worker i owes, and notifications that posts to it owe. */
  predicate DueOn(es: seq<Event>, i: nat) {
    forall k :: 0 <= k < |es| ==> es[k] == Work(i) || es[k] == NotifyOne(i)
  }

  /** How far the worker is from having handled what is queued. */
  function ToHandle(l: Lane): nat {
    4 * |l.queue| + match l.phase
                    case Handling(_) => 3
                    case Top => 2
                    case Blocked => 2
                    case _ => 1
  }

  /** The next event on the way: the worker's step or, if it sleeps, the notification that is still to come. */
  function NextOn(l: Lane, i: nat): Event {
    if l.phase == Blocked then NotifyOne(i) else Work(i)
  }

  lemma NextOnHelps(s: State, i: nat)
    requires Inv(s) && !s.isStop && i < |s.lanes| && !Drained(s.lanes[i])
    ensures var t := Step(s, NextOn(s.lanes[i], i));
            Inv(t) && !t.isStop && ToHandle(t.lanes[i]) < ToHandle(s.lanes[i])
  {
    assert LaneInv(s.isStop, s.lanes[i]);
    StepKeepsInv(s, NextOn(s.lanes[i], i));
  }

  lemma OthersStay(s: State, e: Event, i: nat)
    requires i < |s.lanes| && (e == Work(i) || e == NotifyOne(i))
    ensures var t := Step(s, e);
            && t.accepted == s.accepted && t.isStop == s.isStop
            && forall j :: 0 <= j < |s.lanes| && j != i ==> t.lanes[j] == s.lanes[j]
  {
  }

  lemma {:induction false} LaneDrains(s: State, i: nat) returns (es: seq<Event>)
    requires Inv(s) && !s.isStop && i < |s.lanes|
    ensures DueOn(es, i)
    ensures var t := Onward(s, es);
            && Inv(t) && !t.isStop && t.accepted == s.accepted && Drained(t.lanes[i])
            && forall j :: 0 <= j < |s.lanes| && j != i ==> t.lanes[j] == s.lanes[j]
    decreases ToHandle(s.lanes[i])
  {
    if Drained(s.lanes[i]) {
      es := [];
    } else {
      var e := NextOn(s.lanes[i], i);
      NextOnHelps(s, i);
      OthersStay(s, e, i);
      var rest := LaneDrains(Step(s, e), i);
      es := [e] + rest;
    }
  }

  lemma {:induction false} LanesDrain(s: State, m: nat) returns (es: seq<Event>)
    requires Inv(s) && !s.isStop && m <= |s.lanes|
    ensures Due(es)
    ensures var t := Onward(s, es);
            Inv(t) && !t.isStop && t.accepted == s.accepted && forall i :: 0 <= i < m ==> Drained(t.lanes[i])
  {
    if m == 0 {
      es := [];
    } else {
      var first := LanesDrain(s, m - 1);
      var rest := LaneDrains(Onward(s, first), m - 1);
      OnwardConcat(s, first, rest);
      es := first + rest;
    }
  }

  /** From wherever an unstopped dispatcher is, its workers' steps and the notifications of posts already made
      can bring it to have handled everything accepted, shard by shard in order: no wake-up is ever lost. */
  lemma EverythingCanBeHandled(s: State) returns (es: seq<Event>)
    requires Inv(s) && !s.isStop
    ensures Due(es)
    ensures var t := Onward(s, es);
            && t.accepted == s.accepted
            && forall i :: 0 <= i < |s.lanes| ==> Of(t.handled, i, |s.lanes|) == Of(s.accepted, i, |s.lanes|)
  {
    es := LanesDrain(s, |s.lanes|);
    var t := Onward(s, es);
    forall i | 0 <= i < |s.lanes| ensures Of(t.handled, i, |s.lanes|) == Of(s.accepted, i, |s.lanes|) {
      assert LaneInv(t.isStop, t.lanes[i]) && Sharded(t, i);
      assert t.lanes[i].handled + [] + [] == t.lanes[i].handled;
    }
  }
}
