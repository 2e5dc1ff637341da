/** The callers waiting in the Redis pool's getConnection.  A returned or reopened connection is pushed with a
    notify_one and close() notifies all, but the constructor's top-up thread pushes without notifying. */
module PoolWaiters {
  import opened RedisPool

  /** `asleep` callers wait on the condition variable, `woken` ones have been notified and have yet to test the
      wait predicate again. */
  datatype State = State(pool: Pool, asleep: nat, woken: nat)

  /** A caller enters getConnection, a woken one tests again, one wakes by itself, or the pool moves. */
  datatype Step = Enter | Resume | WakeUp | Moves(e: Event)

  /** Whether the pool's event ends in notify_one. */
  predicate Notifies(p: Pool, e: Event) {
    match e
    case Return(c, broken) => c in p.lent && !broken && !p.isStop
    case Reconnected => p.reconnecting > 0
    case _ => false
  }

  /** The caller holding the lock: nothing once stopped, else the front connection or sleep. */
  function Tested(s: State): State {
    if s.pool.isStop then s
    else if s.pool.idle == [] then s.(asleep := s.asleep + 1)
    else s.(pool := RedisPool.Step(s.pool, Get))
  }

  function WokenOne(s: State): State {
    if s.asleep == 0 then s else s.(asleep := s.asleep - 1, woken := s.woken + 1)
  }

  function Next(s: State, t: Step): State {
    match t
    case Enter => Tested(s)
    case Resume => if s.woken == 0 then s else Tested(s.(woken := s.woken - 1))
    case WakeUp => WokenOne(s)
    case Moves(e) =>
      if e == Get then s
      else
        var moved := s.(pool := RedisPool.Step(s.pool, e));
        if e == Close then moved.(asleep := 0, woken := s.woken + s.asleep)
        else if Notifies(s.pool, e) then WokenOne(moved) else moved
  }

  /** Who is where after a step: a caller that enters or resumes takes the front connection, sleeps, or leaves
      with nothing once the pool is stopped; a returned or reopened connection wakes one sleeper, close() all. */
  lemma CallersMove(s: State, t: Step)
    ensures var p, next := s.pool, Next(s, t);
            match t
            case Enter =>
              && next.woken == s.woken && next.asleep == s.asleep + (if !p.isStop && p.idle == [] then 1 else 0)
              && next.pool.lent == p.lent + (if p.isStop || p.idle == [] then {} else {p.idle[0]})
            case Resume =>
              s.woken > 0 ==>
                && next.woken == s.woken - 1 && next.asleep == s.asleep + (if !p.isStop && p.idle == [] then 1 else 0)
                && next.pool.lent == p.lent + (if p.isStop || p.idle == [] then {} else {p.idle[0]})
            case WakeUp => next.pool == p && next.asleep + next.woken == s.asleep + s.woken
            case Moves(e) =>
              && next.asleep + next.woken == s.asleep + s.woken
              && (e == Close ==> next.asleep == 0)
              && (e.TopUp? ==> next.asleep == s.asleep)
              && ((e.Reconnected? && p.reconnecting > 0) || (e.Return? && e.c in p.lent && !e.broken && !p.isStop) ==>
                    next.asleep == if s.asleep == 0 then 0 else s.asleep - 1)
  {
  }

  function After(attempts: seq<bool>, ts: seq<Step>): State {
    if ts == [] then State(Constructed(attempts), 0, 0) else Next(After(attempts, ts[..|ts| - 1]), ts[|ts| - 1])
  }

  /** A caller sleeps although a connection is idle, and nobody has been notified. */
  predicate Stranded(s: State) {
    s.asleep > 0 && s.pool.idle != [] && s.woken == 0
  }

  /** Nobody sleeps in a stopped pool.  Without a top-up to come, every idle connection has a woken caller
      coming for it if anybody sleeps; a pool of one whose only connection is still to come is stopped. */
  predicate Served(s: State) {
    var p := s.pool;
    && (p.isStop ==> s.asleep == 0)
    && (|| (p.topUps == 0 && (s.asleep > 0 ==> |p.idle| <= s.woken))
        || (p.topUps == 1 && p.isStop && p.idle == [] && p.lent == {} && p.reconnecting == 0))
  }

  lemma NextServed(s: State, t: Step)
    requires Served(s)
    ensures Served(Next(s, t))
  {
  }

  predicate AllOpened(attempts: seq<bool>) {
    forall i :: 0 <= i < |attempts| ==> attempts[i]
  }

  lemma {:induction false} TopUpsToCome(attempts: seq<bool>)
    ensures Attempted(attempts).topUps == 0 <==> AllOpened(attempts)
    ensures Attempted(attempts).topUps + |Attempted(attempts).idle| == |attempts|
  {
    if attempts != [] {
      TopUpsToCome(attempts[..|attempts| - 1]);
    }
  }

  lemma {:induction false} AlwaysServed(attempts: seq<bool>, ts: seq<Step>)
    requires AllOpened(attempts) || |attempts| == 1
    ensures Served(After(attempts, ts))
  {
    if ts == [] {
      TopUpsToCome(attempts);
      AttemptedInv(attempts);
    } else {
      AlwaysServed(attempts, ts[..|ts| - 1]);
      NextServed(After(attempts, ts[..|ts| - 1]), ts[|ts| - 1]);
    }
  }

  lemma Snoc(attempts: seq<bool>, ts: seq<Step>, t: Step)
    ensures After(attempts, ts + [t]) == Next(After(attempts, ts), t)
  {
    assert (ts + [t])[..|ts|] == ts;
  }

  /** Callers take everything that is idle. */
  lemma {:induction false} TakeAll(attempts: seq<bool>, ts: seq<Step>) returns (us: seq<Step>)
    requires var s := After(attempts, ts); !s.pool.isStop && s.woken == 0
    ensures var s, t := After(attempts, ts), After(attempts, us);
            t.pool.idle == [] && !t.pool.isStop && t.pool.topUps == s.pool.topUps && t.woken == 0
    decreases |After(attempts, ts).pool.idle|
  {
    if After(attempts, ts).pool.idle == [] {
      us := ts;
    } else {
      Snoc(attempts, ts, Enter);
      us := TakeAll(attempts, ts + [Enter]);
    }
  }

  /** With a top-up to come and connections to lend, one caller too many is enough. */
  lemma Strand(attempts: seq<bool>, ts: seq<Step>) returns (us: seq<Step>)
    requires var s := After(attempts, ts); !s.pool.isStop && s.woken == 0 && s.pool.topUps > 0
    ensures Stranded(After(attempts, us))
  {
    var taken := TakeAll(attempts, ts);
    Snoc(attempts, taken, Enter);
    Snoc(attempts, taken + [Enter], Moves(TopUp(true)));
    us := taken + [Enter] + [Moves(TopUp(true))];
  }

  /** A caller can be left asleep beside an idle connection iff not every connection could be opened at the
      start and there is more than one place: the top-up does not wake it. */
  lemma StrandedIff(attempts: seq<bool>)
    ensures (exists ts :: Stranded(After(attempts, ts))) <==> !AllOpened(attempts) && |attempts| > 1
  {
    TopUpsToCome(attempts);
    if AllOpened(attempts) || |attempts| <= 1 {
      assert |attempts| == 0 ==> AllOpened(attempts);
      forall ts ensures !Stranded(After(attempts, ts)) {
        AlwaysServed(attempts, ts);
      }
    } else {
      StrandFromStart(attempts);
    }
  }

  lemma StrandFromStart(attempts: seq<bool>)
    requires !AllOpened(attempts) && |attempts| > 1
    ensures exists ts :: Stranded(After(attempts, ts))
  {
    TopUpsToCome(attempts);
    if Attempted(attempts).idle == [] {
      Snoc(attempts, [], Moves(TopUp(true)));
      var us := Strand(attempts, [] + [Moves(TopUp(true))]);
    } else {
      var us := Strand(attempts, []);
    }
  }

  /** Such a caller sleeps on until a connection comes back, the pool is closed or it wakes by itself; other
      callers and further top-ups do not help it. */
  lemma SleepsOn(s: State, t: Step)
    requires s.asleep > 0 && s.woken == 0
    requires t != WakeUp && !(t.Moves? && (t.e == Close || Notifies(s.pool, t.e)))
    ensures Next(s, t).asleep >= s.asleep && Next(s, t).woken == 0
  {
  }
}
