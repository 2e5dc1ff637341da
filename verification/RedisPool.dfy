/** The Redis connection pool as a resource allocator: where every connection is, over any run of leases,
    returns, reconnects, top-up attempts and close. */
module RedisPool {
  import opened Wrappers

  type Conn = nat

  /** `idle` is the pool's queue, `lent` what callers hold, `reconnecting` the reconnect threads at work,
      `topUps` the attempts the constructor's background thread has left, `abandoned` the ones that failed,
      `dropped` how many connections were freed by close or returned after it.  Connections are numbered as
      they are opened; `nextConn` is the next number. */
  datatype Pool = Pool(
    idle: seq<Conn>, lent: set<Conn>, reconnecting: nat, topUps: nat, abandoned: nat, dropped: nat, nextConn: nat,
    isStop: bool)

  datatype Event = Get | Return(c: Conn, broken: bool) | Reconnected | TopUp(connected: bool) | Close

  /** The constructor's loop: one attempt per place; what failed is left to the top-up thread. */
  function Attempted(attempts: seq<bool>): Pool {
    if attempts == [] then Pool([], {}, 0, 0, 0, 0, 0, false)
    else
      var p := Attempted(attempts[..|attempts| - 1]);
      if attempts[|attempts| - 1] then Connected(p) else p.(topUps := p.topUps + 1)
  }

  /** A pool without a connection starts stopped, so that nobody waits for one. */
  function Constructed(attempts: seq<bool>): Pool {
    Attempted(attempts).(isStop := Attempted(attempts).idle == [])
  }

  function Connected(p: Pool): Pool {
    p.(idle := p.idle + [p.nextConn], nextConn := p.nextConn + 1)
  }

  /** A top-up that connects lifts the stop, a reconnect does not. */
  function Step(p: Pool, e: Event): Pool {
    match e
    case Get => if p.isStop || p.idle == [] then p else p.(idle := p.idle[1..], lent := p.lent + {p.idle[0]})
    case Return(c, broken) =>
      if c !in p.lent then p
      else if broken then p.(lent := p.lent - {c}, reconnecting := p.reconnecting + 1)
      else if p.isStop then p.(lent := p.lent - {c}, dropped := p.dropped + 1)
      else p.(lent := p.lent - {c}, idle := p.idle + [c])
    case Reconnected => if p.reconnecting == 0 then p else Connected(p).(reconnecting := p.reconnecting - 1)
    case TopUp(connected) =>
      if p.topUps == 0 then p
      else if connected then Connected(p).(topUps := p.topUps - 1, isStop := false)
      else p.(topUps := p.topUps - 1, abandoned := p.abandoned + 1)
    case Close => p.(isStop := true, idle := [], dropped := p.dropped + |p.idle|)
  }

  /** No connection is in two places, and every place the pool was built for is accounted for. */
  ghost predicate Inv(p: Pool, size: nat) {
    && (forall i :: 0 <= i < |p.idle| ==> p.idle[i] < p.nextConn && p.idle[i] !in p.lent)
    && (forall i, j :: 0 <= i < j < |p.idle| ==> p.idle[i] != p.idle[j])
    && (forall c :: c in p.lent ==> c < p.nextConn)
    && |p.idle| + |p.lent| + p.reconnecting + p.topUps + p.abandoned + p.dropped == size
  }

  lemma {:induction false} AttemptedInv(attempts: seq<bool>)
    ensures Inv(Attempted(attempts), |attempts|)
    ensures Attempted(attempts).lent == {} && Attempted(attempts).reconnecting == 0 && Attempted(attempts).dropped == 0
  {
    if attempts != [] {
      AttemptedInv(attempts[..|attempts| - 1]);
    }
  }

  lemma ConstructedInv(attempts: seq<bool>)
    ensures Inv(Constructed(attempts), |attempts|)
  {
    AttemptedInv(attempts);
  }

  lemma GetKeepsInv(p: Pool, size: nat)
    requires Inv(p, size) && p.idle != []
    ensures Inv(p.(idle := p.idle[1..], lent := p.lent + {p.idle[0]}), size)
  {
    assert p.idle[0] !in p.lent;
    forall i | 0 <= i < |p.idle| - 1 ensures p.idle[1..][i] == p.idle[i + 1] && p.idle[i + 1] != p.idle[0] {}
  }

  lemma ConnectedKeeps(p: Pool, size: nat)
    requires Inv(p, size)
    ensures Inv(Connected(p), size + 1)
  {
  }

  lemma StepKeepsInv(p: Pool, e: Event, size: nat)
    requires Inv(p, size)
    ensures Inv(Step(p, e), size)
  {
    match e
    case Get => if p.idle != [] { GetKeepsInv(p, size); }
    case Reconnected => ConnectedKeeps(p, size);
    case TopUp(_) => ConnectedKeeps(p, size);
    case _ =>
  }

  function Run(attempts: seq<bool>, es: seq<Event>): Pool {
    if es == [] then Constructed(attempts) else Step(Run(attempts, es[..|es| - 1]), es[|es| - 1])
  }

  lemma {:induction false} RunKeepsInv(attempts: seq<bool>, es: seq<Event>)
    ensures Inv(Run(attempts, es), |attempts|)
  {
    if es == [] {
      ConstructedInv(attempts);
    } else {
      RunKeepsInv(attempts, es[..|es| - 1]);
      StepKeepsInv(Run(attempts, es[..|es| - 1]), es[|es| - 1], |attempts|);
    }
  }

  function Live(p: Pool): nat {
    |p.idle| + |p.lent| + p.reconnecting
  }

  /** The pool never grows beyond its size, closed or not, and once the top-up thread is done the number of
      connections that are idle, lent, being reopened or dropped never changes again. */
  lemma PoolConservation(attempts: seq<bool>, es: seq<Event>, n: nat)
    requires n <= |es|
    ensures Live(Run(attempts, es)) + Run(attempts, es).topUps <= |attempts|
    ensures Run(attempts, es[..n]).topUps == 0 ==>
              && Live(Run(attempts, es)) + Run(attempts, es).dropped
                 == Live(Run(attempts, es[..n])) + Run(attempts, es[..n]).dropped
              && Run(attempts, es).topUps == 0
  {
    RunKeepsInv(attempts, es);
    if Run(attempts, es[..n]).topUps == 0 {
      ConservedSince(attempts, es, n);
    }
  }

  lemma {:induction false} ConservedSince(attempts: seq<bool>, es: seq<Event>, n: nat)
    requires n <= |es| && Run(attempts, es[..n]).topUps == 0
    ensures Run(attempts, es).topUps == 0
    ensures Live(Run(attempts, es)) + Run(attempts, es).dropped
         == Live(Run(attempts, es[..n])) + Run(attempts, es[..n]).dropped
  {
    if n < |es| {
      var p := es[..|es| - 1];
      assert p[..n] == es[..n];
      ConservedSince(attempts, p, n);
      RunKeepsInv(attempts, p);
      TopUpsEnd(Run(attempts, p), es[|es| - 1], |attempts|);
    } else {
      assert es[..n] == es;
    }
  }

  lemma TopUpsEnd(p: Pool, e: Event, size: nat)
    requires Inv(p, size) && p.topUps == 0
    ensures Step(p, e).topUps == 0 && Live(Step(p, e)) + Step(p, e).dropped == Live(p) + p.dropped
  {
    StepKeepsInv(p, e, size);
    assert Step(p, e).abandoned == p.abandoned;
  }

  predicate Unclosed(p: Pool) {
    p.dropped == 0 && (p.isStop ==> p.idle == [] && p.lent == {} && p.reconnecting == 0)
  }

  lemma UnclosedStep(p: Pool, e: Event)
    requires Unclosed(p) && e != Close
    ensures Unclosed(Step(p, e))
  {
  }

  /** Before close nothing is dropped: while the pool is stopped for want of connections it has none to lend
      and so none comes back. */
  lemma {:induction false} NothingDroppedBeforeClose(attempts: seq<bool>, es: seq<Event>)
    requires Close !in es
    ensures Unclosed(Run(attempts, es))
  {
    if es == [] {
      AttemptedInv(attempts);
    } else {
      NothingDroppedBeforeClose(attempts, es[..|es| - 1]);
      assert es[|es| - 1] in es;
      UnclosedStep(Run(attempts, es[..|es| - 1]), es[|es| - 1]);
    }
  }

  /** So before close the connections are conserved exactly. */
  lemma LiveIsConstantBeforeClose(attempts: seq<bool>, es: seq<Event>, n: nat)
    requires n <= |es| && Close !in es && Run(attempts, es[..n]).topUps == 0
    ensures Live(Run(attempts, es)) == Live(Run(attempts, es[..n]))
  {
    PoolConservation(attempts, es, n);
    NothingDroppedBeforeClose(attempts, es);
    NothingDroppedBeforeClose(attempts, es[..n]);
  }

  /** A lease that is returned leaves as many connections as before, and none of them with the caller. */
  lemma LeaseReturned(p: Pool, size: nat, broken: bool)
    requires Inv(p, size) && !p.isStop && p.idle != []
    ensures var q := Step(Step(p, Get), Return(p.idle[0], broken));
            q.lent == p.lent && Live(q) == Live(p)
  {
    assert p.idle[0] !in p.lent;
    assert p.lent + {p.idle[0]} - {p.idle[0]} == p.lent;
  }

  /** redisReply, as far as the command methods look at it; None is a null reply. */
  datatype Reply = Str(value: string) | Status(text: string) | Integer(n: int) | Nil | Error

  datatype Command =
    | GET | SET | AUTH | LPUSH | RPUSH | LPOP | RPOP | DEL | EXISTS | HGET | HSET | HSETBYTES
    | PUBLISH | HINCRBY | HDECRBY | HDEL

  predicate ReadsString(c: Command) {
    c.GET? || c.LPOP? || c.RPOP? || c.HGET?
  }

  predicate NeedsPositive(c: Command) {
    c.LPUSH? || c.RPUSH? || c.DEL? || c.EXISTS? || c.HSET? || c.HSETBYTES?
  }

  /** The reply each command takes for success. */
  predicate Accepts(c: Command, reply: Option<Reply>) {
    match reply
    case None => false
    case Some(Str(_)) => ReadsString(c) || c.AUTH?
    case Some(Status(text)) => c.AUTH? || (c.SET? && text == "OK")
    case Some(Integer(n)) => !ReadsString(c) && !c.SET? && (NeedsPositive(c) ==> n > 0)
    case Some(Nil) => c.AUTH?
    case Some(Error) => false
  }

  /** The commands by what they take: a string, "OK", anything but an error, a positive number, any number. */
  lemma AcceptedReplies(c: Command, reply: Option<Reply>)
    ensures c in {GET, LPOP, RPOP, HGET} ==> (Accepts(c, reply) <==> reply.Some? && reply.value.Str?)
    ensures c == SET ==> (Accepts(c, reply) <==> reply == Some(Status("OK")))
    ensures c == AUTH ==> (Accepts(c, reply) <==> reply.Some? && reply.value != Error)
    ensures c in {LPUSH, RPUSH, DEL, EXISTS, HSET, HSETBYTES} ==>
              (Accepts(c, reply) <==> reply.Some? && reply.value.Integer? && reply.value.n > 0)
    ensures c in {PUBLISH, HINCRBY, HDECRBY, HDEL} ==> (Accepts(c, reply) <==> reply.Some? && reply.value.Integer?)
  {
  }

  class RedisConnectPool {
    var connects: seq<Conn>
    var isStop: bool
    ghost var attempts: seq<bool>
    ghost var events: seq<Event>
    ghost var pool: Pool

    ghost predicate Valid()
      reads this
    {
      pool == Run(attempts, events) && Inv(pool, |attempts|) && connects == pool.idle && isStop == pool.isStop
    }

    /** `attempts[i]` is whether the i-th redisConnect and auth succeed. */
    constructor (attempts: seq<bool>)
      ensures Valid() && this.attempts == attempts && events == []
      ensures isStop <==> forall i :: 0 <= i < |attempts| ==> !attempts[i]
    {
      var nextConn: nat := 0;
      var queue: seq<Conn> := [];
      for i := 0 to |attempts|
        invariant queue == Attempted(attempts[..i]).idle && nextConn == Attempted(attempts[..i]).nextConn
        invariant queue == [] <==> forall k :: 0 <= k < i ==> !attempts[k]
      {
        assert attempts[..i + 1][..i] == attempts[..i];
        if attempts[i] {
          queue := queue + [nextConn];
          nextConn := nextConn + 1;
        }
      }
      assert attempts[..|attempts|] == attempts;
      connects, isStop := queue, queue == [];
      this.attempts, events, pool := attempts, [], Run(attempts, []);
      ConstructedInv(attempts);
    }

    ghost method Record(e: Event)
      requires pool == Run(attempts, events) && Inv(pool, |attempts|)
      modifies `events, `pool
      ensures events == old(events) + [e] && pool == Step(old(pool), e)
      ensures pool == Run(attempts, events) && Inv(pool, |attempts|)
    {
      StepKeepsInv(pool, e, |attempts|);
      events := events + [e];
      pool := Step(pool, e);
    }

    /** getConnection, from the moment its wait is over. */
    method GetConnection() returns (connect: Option<Conn>)
      requires Valid() && (isStop || connects != [])
      modifies this
      ensures Valid() && attempts == old(attempts) && isStop == old(isStop)
      ensures isStop ==> connect == None && events == old(events) && pool == old(pool)
      ensures !isStop ==> connect.Some? && events == old(events) + [Get] && pool == Step(old(pool), Get)
      ensures !isStop ==> connect.value !in old(pool).lent && pool.lent == old(pool).lent + {connect.value}
      ensures !isStop ==> connect.value == old(connects)[0] && connects == old(connects)[1..]
    {
      if isStop {
        return None;
      }
      connect := Some(connects[0]);
      connects := connects[1..];
      Record(Get);
    }

    method ReturnConnection(connect: Conn, broken: bool)
      requires Valid() && connect in pool.lent
      modifies this
      ensures Valid() && attempts == old(attempts) && isStop == old(isStop)
      ensures events == old(events) + [Return(connect, broken)] && pool == Step(old(pool), Return(connect, broken))
      ensures connects == old(connects) + (if broken || isStop then [] else [connect])
      ensures pool.lent == old(pool).lent - {connect}
      ensures pool.reconnecting == old(pool).reconnecting + (if broken then 1 else 0)
    {
      Record(Return(connect, broken));
      assert connects + [] == connects;
      if broken || isStop {
        return;
      }
      connects := connects + [connect];
    }

    /** One attempt of the constructor's background thread; `connect` is the connection it opened. */
    method TopUpAttempt(connected: bool, connect: Conn)
      requires Valid() && pool.topUps > 0 && connect == pool.nextConn
      modifies this
      ensures Valid() && attempts == old(attempts) && events == old(events) + [TopUp(connected)]
      ensures pool == Step(old(pool), TopUp(connected)) && (isStop <==> old(isStop) && !connected)
      ensures connects == old(connects) + (if connected then [connect] else [])
    {
      Record(TopUp(connected));
      assert connects + [] == connects;
      if connected {
        connects := connects + [connect];
        if isStop {
          isStop := false;
        }
      }
    }

    /** A reconnect thread that has got through. */
    method FinishReconnect(connect: Conn)
      requires Valid() && pool.reconnecting > 0 && connect == pool.nextConn
      modifies this
      ensures Valid() && attempts == old(attempts) && isStop == old(isStop)
      ensures events == old(events) + [Reconnected] && pool == Step(old(pool), Reconnected)
      ensures connects == old(connects) + [connect]
    {
      Record(Reconnected);
      connects := connects + [connect];
    }

    method CloseAll()
      requires Valid()
      modifies this
      ensures Valid() && attempts == old(attempts) && events == old(events) + [Event.Close]
      ensures isStop && connects == [] && pool.lent == old(pool).lent
    {
      isStop := true;
      while connects != []
        invariant attempts == old(attempts) && events == old(events) && pool == old(pool)
        invariant isStop
        decreases |connects|
      {
        connects := connects[1..];
      }
      Record(Event.Close);
    }

    /** The command methods.  They differ in the replies they take for success; each returns its lease exactly
        once on every path, whatever the reply, and `broken` says what became of the connection. */
    method Execute(command: Command, reply: Option<Reply>, broken: bool) returns (success: bool, value: Option<string>)
      requires Valid() && (isStop || connects != [])
      modifies this
      ensures Valid() && attempts == old(attempts) && isStop == old(isStop)
      ensures events == old(events) + (if isStop then [] else [Get, Return(old(connects)[0], broken)])
      ensures pool.lent == old(pool).lent && Live(pool) == Live(old(pool))
      ensures success <==> !isStop && Accepts(command, reply)
      ensures value.Some? <==> success && ReadsString(command)
      ensures value.Some? ==> reply == Some(Str(value.value))
    {
      ghost var log := events;
      if !isStop {
        LeaseReturned(pool, |attempts|, broken);
      }
      var connect := GetConnection();
      if connect.None? {
        assert log + [] == log;
        return false, None;
      }
      assert log + [Get] + [Return(connect.value, broken)] == log + [Get, Return(connect.value, broken)];
      if !Accepts(command, reply) {
        ReturnConnection(connect.value, broken);
        return false, None;
      }
      value := if ReadsString(command) then Some(reply.value.value) else None;
      ReturnConnection(connect.value, broken);
      success := true;
    }
  }
}
