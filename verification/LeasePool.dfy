/** The MySQL session pool under nested leases.  createGroup keeps its own session while addGroupMember
    takes a second one from the same pool; the other queries that ChatServer's handlers make hold one session
    at a time.  (The account functions nest in the same way, and count as Nested where they are called.)
    Callers run concurrently and a caller that finds the pool empty waits for a session to come back. */
module LeasePool {
  import opened Wrappers

  datatype Kind = Simple | Nested

  /** Waiting: about to lease, holding nothing.   Outer: holds one session, query running.
      InnerWait: createGroup holding its session and waiting for addGroupMember's.
      Both: holds both.   Last: addGroupMember's session is back.   Done: everything returned. */
  datatype Phase = Waiting | Outer | InnerWait | Both | Last | Done

  datatype State = State(free: nat, phases: seq<Phase>)

  /** Caller i takes its next step; `ok` is whether its INSERT produced a new group id. */
  datatype Event = Move(i: nat, ok: bool)

  predicate Blocked(s: State, i: nat)
    requires i < |s.phases|
  {
    (s.phases[i] == Waiting || s.phases[i] == InnerWait) && s.free == 0
  }

  function Next(kind: Kind, p: Phase, ok: bool): Phase {
    match p
    case Waiting => Outer
    case Outer => if kind == Nested && ok then InnerWait else Done
    case InnerWait => Both
    case Both => Last
    case Last => Done
    case Done => Done
  }

  function Leases(p: Phase): nat {
    match p
    case Outer => 1
    case InnerWait => 1
    case Both => 2
    case Last => 1
    case _ => 0
  }

  function Step(kinds: seq<Kind>, s: State, e: Event): State
    requires |s.phases| == |kinds|
  {
    if e.i >= |kinds| || Blocked(s, e.i) then s
    else
      var q := Next(kinds[e.i], s.phases[e.i], e.ok);
      State(s.free + Leases(s.phases[e.i]) - Leases(q), s.phases[e.i := q])
  }

  function Run(kinds: seq<Kind>, pool: nat, es: seq<Event>): (s: State)
    ensures |s.phases| == |kinds|
  {
    if es == [] then State(pool, seq(|kinds|, _ => Waiting))
    else Step(kinds, Run(kinds, pool, es[..|es| - 1]), es[|es| - 1])
  }

  function Sum(f: Phase -> nat, ps: seq<Phase>): nat {
    if ps == [] then 0 else Sum(f, ps[..|ps| - 1]) + f(ps[|ps| - 1])
  }

  lemma {:induction false} SumUpdate(f: Phase -> nat, ps: seq<Phase>, i: nat, q: Phase)
    requires i < |ps|
    ensures Sum(f, ps[i := q]) == Sum(f, ps) - f(ps[i]) + f(q)
  {
    var init := ps[..|ps| - 1];
    if i < |init| {
      SumUpdate(f, init, i, q);
      assert ps[i := q][..|ps| - 1] == init[i := q];
    } else {
      assert ps[i := q][..|ps| - 1] == init;
    }
  }

  function NestedCount(kinds: seq<Kind>): nat {
    if kinds == [] then 0
    else NestedCount(kinds[..|kinds| - 1]) + (if kinds[|kinds| - 1] == Nested then 1 else 0)
  }

  ghost predicate Inv(kinds: seq<Kind>, pool: nat, s: State) {
    && |s.phases| == |kinds|
    && s.free + Sum(Leases, s.phases) == pool
    && forall i :: 0 <= i < |kinds| && kinds[i] == Simple ==> s.phases[i] in {Waiting, Outer, Done}
  }

  lemma StepKeepsInv(kinds: seq<Kind>, pool: nat, s: State, e: Event)
    requires Inv(kinds, pool, s)
    ensures Inv(kinds, pool, Step(kinds, s, e))
  {
    if e.i < |kinds| && !Blocked(s, e.i) {
      SumUpdate(Leases, s.phases, e.i, Next(kinds[e.i], s.phases[e.i], e.ok));
    }
  }

  lemma {:induction false} RunKeepsInv(kinds: seq<Kind>, pool: nat, es: seq<Event>)
    ensures Inv(kinds, pool, Run(kinds, pool, es))
  {
    if es == [] {
      NobodyHolds(seq(|kinds|, _ => Waiting));
    } else {
      RunKeepsInv(kinds, pool, es[..|es| - 1]);
      StepKeepsInv(kinds, pool, Run(kinds, pool, es[..|es| - 1]), es[|es| - 1]);
    }
  }

  lemma {:induction false} NobodyHolds(ps: seq<Phase>)
    requires forall i :: 0 <= i < |ps| ==> ps[i] == Waiting
    ensures Sum(Leases, ps) == 0
  {
    if ps != [] {
      NobodyHolds(ps[..|ps| - 1]);
    }
  }

  predicate AllDone(s: State) {
    forall i :: 0 <= i < |s.phases| ==> s.phases[i] == Done
  }

  predicate Stuck(s: State) {
    !AllDone(s) && forall i :: 0 <= i < |s.phases| ==> s.phases[i] == Done || Blocked(s, i)
  }

  /** In a stuck state every session is held by a createGroup waiting for its second one. */
  lemma {:induction false} WaitersHoldAtMost(kinds: seq<Kind>, ps: seq<Phase>)
    requires |ps| == |kinds|
    requires forall i :: 0 <= i < |ps| ==> ps[i] in {Waiting, InnerWait, Done}
    requires forall i :: 0 <= i < |ps| && kinds[i] == Simple ==> ps[i] != InnerWait
    ensures Sum(Leases, ps) <= NestedCount(kinds)
  {
    if ps != [] {
      WaitersHoldAtMost(kinds[..|kinds| - 1], ps[..|ps| - 1]);
    }
  }

  /** With more sessions than concurrent createGroup calls no reachable state is stuck, however many
      single-lease callers there are. */
  lemma EnoughSessions(kinds: seq<Kind>, pool: nat, es: seq<Event>)
    requires pool > NestedCount(kinds)
    ensures !Stuck(Run(kinds, pool, es))
  {
    var s := Run(kinds, pool, es);
    RunKeepsInv(kinds, pool, es);
    if Stuck(s) {
      WaitersHoldAtMost(kinds, s.phases);
    }
  }

  /** The state in which, among the first m callers, createGroup calls have grabbed what sessions they can
      and nobody has got further. */
  function Grabbed(kinds: seq<Kind>, pool: nat, m: nat): (s: State)
    requires m <= |kinds|
    ensures |s.phases| == |kinds|
    ensures forall i :: m <= i < |kinds| ==> s.phases[i] == Waiting
  {
    if m == 0 then State(pool, seq(|kinds|, _ => Waiting))
    else
      var s := Grabbed(kinds, pool, m - 1);
      if kinds[m - 1] == Nested && s.free > 0 then State(s.free - 1, s.phases[m - 1 := InnerWait]) else s
  }

  lemma {:induction false} GrabbedShape(kinds: seq<Kind>, pool: nat, m: nat)
    requires m <= |kinds|
    ensures var s := Grabbed(kinds, pool, m);
            && (forall i :: 0 <= i < |kinds| ==> s.phases[i] in {Waiting, InnerWait})
            && s.free == if NestedCount(kinds[..m]) <= pool then pool - NestedCount(kinds[..m]) else 0
  {
    if m > 0 {
      GrabbedShape(kinds, pool, m - 1);
      assert kinds[..m][..m - 1] == kinds[..m - 1];
    }
  }

  function Grabbing(kinds: seq<Kind>, pool: nat, m: nat): seq<Event>
    requires m <= |kinds|
  {
    if m == 0 then []
    else
      var es := Grabbing(kinds, pool, m - 1);
      if kinds[m - 1] == Nested && Grabbed(kinds, pool, m - 1).free > 0
      then es + [Move(m - 1, true)] + [Move(m - 1, true)] else es
  }

  lemma TwoMoves(kinds: seq<Kind>, pool: nat, es: seq<Event>, i: nat)
    requires i < |kinds| && kinds[i] == Nested
    requires Run(kinds, pool, es).phases[i] == Waiting && Run(kinds, pool, es).free > 0
    ensures var s := Run(kinds, pool, es);
            Run(kinds, pool, es + [Move(i, true)] + [Move(i, true)]) == State(s.free - 1, s.phases[i := InnerWait])
  {
  }

  lemma {:induction false} GrabbingGrabs(kinds: seq<Kind>, pool: nat, m: nat)
    requires m <= |kinds|
    ensures Run(kinds, pool, Grabbing(kinds, pool, m)) == Grabbed(kinds, pool, m)
  {
    if m > 0 {
      GrabbingGrabs(kinds, pool, m - 1);
      if kinds[m - 1] == Nested && Grabbed(kinds, pool, m - 1).free > 0 {
        TwoMoves(kinds, pool, Grabbing(kinds, pool, m - 1), m - 1);
      }
    }
  }

  /** The bound is tight: callers can reach a state from which none of them can ever move exactly when
      there are at least as many concurrent createGroup calls as sessions. */
  lemma DeadlockIff(kinds: seq<Kind>, pool: nat)
    requires pool > 0
    ensures (exists es :: Stuck(Run(kinds, pool, es))) <==> pool <= NestedCount(kinds)
  {
    if pool > NestedCount(kinds) {
      forall es ensures !Stuck(Run(kinds, pool, es)) {
        EnoughSessions(kinds, pool, es);
      }
    } else {
      var n := |kinds|;
      GrabbingGrabs(kinds, pool, n);
      GrabbedShape(kinds, pool, n);
      assert kinds[..n] == kinds;
      var s := Grabbed(kinds, pool, n);
      assert s.free == 0 && n > 0 && s.phases[0] != Done;
      assert Stuck(Run(kinds, pool, Grabbing(kinds, pool, n)));
    }
  }

  function ToGo(p: Phase): nat {
    match p
    case Waiting => 5
    case Outer => 4
    case InnerWait => 3
    case Both => 2
    case Last => 1
    case Done => 0
  }

  /** Every step a caller takes uses up some of a fixed budget, so every run terminates; and unless all are
      done or the state is stuck, somebody can take one. */
  lemma RunsTerminate(kinds: seq<Kind>, s: State, e: Event)
    requires |s.phases| == |kinds| && e.i < |kinds| && s.phases[e.i] != Done && !Blocked(s, e.i)
    ensures Sum(ToGo, Step(kinds, s, e).phases) < Sum(ToGo, s.phases)
  {
    SumUpdate(ToGo, s.phases, e.i, Next(kinds[e.i], s.phases[e.i], e.ok));
  }

  lemma CanMove(kinds: seq<Kind>, pool: nat, es: seq<Event>) returns (e: Event)
    requires pool > NestedCount(kinds) && !AllDone(Run(kinds, pool, es))
    ensures Sum(ToGo, Run(kinds, pool, es + [e]).phases) < Sum(ToGo, Run(kinds, pool, es).phases)
  {
    var s := Run(kinds, pool, es);
    EnoughSessions(kinds, pool, es);
    var i :| 0 <= i < |s.phases| && s.phases[i] != Done && !Blocked(s, i);
    e := Move(i, true);
    RunsTerminate(kinds, s, e);
    assert (es + [e])[..|es|] == es;
  }

  /** So with more sessions than concurrent createGroup calls, from wherever a run has got to, every caller
      can be brought to its end. */
  lemma {:induction false} EverybodyFinishes(kinds: seq<Kind>, pool: nat, es: seq<Event>) returns (more: seq<Event>)
    requires pool > NestedCount(kinds)
    ensures AllDone(Run(kinds, pool, es + more))
    decreases Sum(ToGo, Run(kinds, pool, es).phases)
  {
    if AllDone(Run(kinds, pool, es)) {
      more := [];
      assert es + [] == es;
    } else {
      var e := CanMove(kinds, pool, es);
      var rest := EverybodyFinishes(kinds, pool, es + [e]);
      more := [e] + rest;
      assert es + more == es + [e] + rest;
    }
  }

  /** The server sizes both its pool and its worker threads to the hardware concurrency, so one createGroup
      per worker can deadlock them all. */
  lemma HardwareSizedPoolCanDeadlock(kinds: seq<Kind>)
    requires kinds != [] && forall i :: 0 <= i < |kinds| ==> kinds[i] == Nested
    ensures exists es :: Stuck(Run(kinds, |kinds|, es))
  {
    AllNested(kinds);
    DeadlockIff(kinds, |kinds|);
  }

  lemma {:induction false} AllNested(kinds: seq<Kind>)
    requires forall i :: 0 <= i < |kinds| ==> kinds[i] == Nested
    ensures NestedCount(kinds) == |kinds|
  {
    if kinds != [] {
      AllNested(kinds[..|kinds| - 1]);
    }
  }

  lemma RunSnoc(kinds: seq<Kind>, pool: nat, es: seq<Event>, e: Event)
    ensures Run(kinds, pool, es + [e]) == Step(kinds, Run(kinds, pool, es), e)
  {
    assert (es + [e])[..|es|] == es;
  }

  /** The pool object, serving the callers of a run of the model.  A session is named by a number; one that
      fails its check when it comes back is lost. */
  class MySQLConnectPool {
    var sessions: seq<nat>
    var isStop: bool
    ghost var kinds: seq<Kind>
    ghost var size: nat
    ghost var events: seq<Event>
    ghost var state: State
    ghost var lost: nat

    ghost predicate Valid()
      reads this
    {
      state == Run(kinds, size, events) && (!isStop ==> |sessions| + lost == state.free)
    }

    /** Caller i takes its next step. */
    ghost method Advance(i: nat, ok: bool)
      requires state == Run(kinds, size, events) && i < |kinds| && !Blocked(state, i)
      modifies `events, `state
      ensures state == Run(kinds, size, events) && events == old(events) + [Move(i, ok)]
      ensures state.phases == old(state).phases[i := Next(kinds[i], old(state).phases[i], ok)]
      ensures state.free == old(state).free + Leases(old(state).phases[i]) - Leases(state.phases[i])
    {
      RunSnoc(kinds, size, events, Move(i, ok));
      events := events + [Move(i, ok)];
      state := Step(kinds, state, Move(i, ok));
    }

    /** getSession for caller i, from the moment its wait is over. */
    method GetSession(ghost i: nat) returns (session: Option<nat>)
      requires Valid() && i < |kinds| && state.phases[i] in {Waiting, InnerWait}
      requires isStop || sessions != []
      modifies `sessions, `events, `state
      ensures Valid()
      ensures isStop ==> session == None && sessions == old(sessions) && events == old(events)
      ensures !isStop ==> session.Some? && sessions + [session.value] == old(sessions)
      ensures !isStop ==> events == old(events) + [Move(i, true)]
      ensures !isStop ==> state.phases == old(state).phases[i := Next(kinds[i], old(state).phases[i], true)]
    {
      if isStop {
        return None;
      }
      session := Some(sessions[|sessions| - 1]);
      sessions := sessions[..|sessions| - 1];
      Advance(i, true);
    }

    /** returnSession; a null session asks for a reconnect instead. */
    method ReturnSession(session: Option<nat>, healthy: bool, ghost i: nat, ghost ok: bool) returns (reconnects: bool)
      requires Valid()
      requires session.Some? ==> i < |kinds| && Leases(state.phases[i]) == Leases(Next(kinds[i], state.phases[i], ok)) + 1
      modifies `sessions, `events, `state, `lost
      ensures Valid() && (reconnects <==> !isStop && session.None?)
      ensures isStop || session.None? ==> sessions == old(sessions) && events == old(events) && lost == old(lost)
      ensures !isStop && session.Some? ==>
                && sessions == old(sessions) + (if healthy then [session.value] else [])
                && lost == old(lost) + (if healthy then 0 else 1)
                && events == old(events) + [Move(i, ok)]
                && state.phases == old(state).phases[i := Next(kinds[i], old(state).phases[i], ok)]
    {
      if isStop {
        return false;
      }
      if session.None? {
        return true;
      }
      Advance(i, ok);
      if !healthy {
        lost := lost + 1;
        assert sessions + [] == sessions;
        return false;
      }
      sessions := sessions + [session.value];
      reconnects := false;
    }
  }

  /** addGroupMember called by caller i's createGroup: its guard gives the session back on the path that
      returns and on the one that catches the INSERT's exception. */
  method AddGroupMember(pool: MySQLConnectPool, throws: bool, ghost i: nat) returns (success: bool)
    requires pool.Valid() && i < |pool.kinds| && pool.state.phases[i] == InnerWait
    requires pool.isStop || pool.sessions != []
    modifies pool`sessions, pool`events, pool`state, pool`lost
    ensures pool.Valid() && pool.sessions == old(pool.sessions) && pool.lost == old(pool.lost)
    ensures success <==> !pool.isStop && !throws
    ensures !pool.isStop ==> pool.events == old(pool.events) + [Move(i, true), Move(i, true)]
    ensures !pool.isStop ==> pool.state.phases == old(pool.state).phases[i := Last]
  {
    var session := pool.GetSession(i);
    if session.None? {
      return false;
    }
    if throws {
      var _ := pool.ReturnSession(session, true, i, true);
      return false;
    }
    var _ := pool.ReturnSession(session, true, i, true);
    success := true;
  }

  /** The steps createGroup takes: with a group id it leases, goes on to lease again and returns both. */
  function Moves(i: nat, ok: bool): seq<Event> {
    if ok then [Move(i, true), Move(i, true), Move(i, true), Move(i, true), Move(i, true)]
    else [Move(i, true), Move(i, false)]
  }

  /** createGroup as caller i, on healthy sessions.  `inserted` is None if the INSERT throws, else the new id.
      Given a second session it takes exactly the model's steps to its end and leaves the pool as it found it;
      the group id does not depend on whether the owner could be added. */
  method CreateGroup(pool: MySQLConnectPool, inserted: Option<int>, addThrows: bool, ghost i: nat) returns (groupId: int)
    requires pool.Valid() && i < |pool.kinds| && pool.kinds[i] == Nested && pool.state.phases[i] == Waiting
    requires pool.isStop || |pool.sessions| >= 2
    modifies pool`sessions, pool`events, pool`state, pool`lost
    ensures pool.Valid() && pool.sessions == old(pool.sessions) && pool.lost == old(pool.lost)
    ensures groupId == if pool.isStop || inserted.None? then 0 else inserted.value
    ensures !pool.isStop ==> pool.events == old(pool.events) + Moves(i, groupId > 0)
    ensures !pool.isStop ==> pool.state.phases == old(pool.state).phases[i := Done]
  {
    groupId := 0;
    ghost var events, phases := pool.events, pool.state.phases;
    var session := pool.GetSession(i);
    if session.None? {
      return;
    }
    if inserted.Some? {
      groupId := inserted.value;
      if groupId > 0 {
        pool.Advance(i, true);
        var _ := AddGroupMember(pool, addThrows, i);
      }
    }
    var _ := pool.ReturnSession(session, true, i, groupId > 0);
    AllMoves(events, phases, i);
  }

  lemma AllMoves(es: seq<Event>, phases: seq<Phase>, i: nat)
    requires i < |phases|
    ensures var m := Move(i, true);
            && es + [m] + [m] + [m, m] + [m] == es + Moves(i, true)
            && es + [m] + [Move(i, false)] == es + Moves(i, false)
    ensures phases[i := Outer][i := InnerWait][i := Last][i := Done] == phases[i := Done]
    ensures phases[i := Outer][i := Done] == phases[i := Done]
  {
  }
}
