/** StatusServer's table of chat servers against its history: what RegisterChatServer, Heartbeat and the
    health check leave in `chatServers` is what the sequence of calls and ticks says should be there. */
module Registry {

  /** A server is evicted on the tick that finds it with this many silent ticks behind it, that is on the
      sixth. */
  const MAX_MISSED := 5

  datatype Server = Server(name: string, host: string, port: string, missed: nat)

  type Table = map<string, Server>

  datatype Op = Register(name: string, host: string, port: string) | Heartbeat(name: string) | Tick | Choose

  function Apply(t: Table, op: Op): Table {
    match op
    case Register(name, host, port) => t[name := Server(name, host, port, 0)]
    case Heartbeat(name) => if name in t then t[name := t[name].(missed := 0)] else t
    case Tick => Checked(t)
    case Choose => t
  }

  /** The table after one health check. */
  function Checked(t: Table): Table {
    map n | n in t && t[n].missed < MAX_MISSED :: t[n].(missed := t[n].missed + 1)
  }

  function Evicted(t: Table): set<string> {
    set n | n in t && t[n].missed >= MAX_MISSED
  }

  function After(start: Table, h: seq<Op>): Table {
    if h == [] then start else Apply(After(start, h[..|h| - 1]), h[|h| - 1])
  }

  /** The configured servers: named by their keys, with no silent tick yet. */
  predicate StartUp(t: Table) {
    forall n :: n in t ==> t[n].name == n && t[n].missed == 0
  }

  predicate Renews(op: Op, name: string) {
    match op
    case Register(n, _, _) => n == name
    case Heartbeat(n) => n == name
    case _ => false
  }

  function TicksIn(h: seq<Op>, a: nat, b: nat): nat
    requires a <= b <= |h|
  {
    if a == b then 0 else TicksIn(h, a, b - 1) + (if h[b - 1].Tick? then 1 else 0)
  }

  /** No renewal of `name` among h[a..b]. */
  predicate Silent(h: seq<Op>, a: nat, b: nat, name: string)
    requires a <= b <= |h|
  {
    forall k :: a <= k < b ==> !Renews(h[k], name)
  }

  /** The position just after the last renewal of `name`, 0 if there is none. */
  function LastRenewal(h: seq<Op>, name: string): (r: nat)
    ensures r <= |h| && Silent(h, r, |h|, name)
    ensures r > 0 ==> Renews(h[r - 1], name)
  {
    if h == [] then 0
    else if Renews(h[|h| - 1], name) then |h|
    else LastRenewal(h[..|h| - 1], name)
  }

  /** `name` was put in the table at position i: by the configuration or by a registration. */
  predicate Anchored(start: Table, h: seq<Op>, i: nat, name: string) {
    (i == 0 && name in start) || (0 < i <= |h| && h[i - 1].Register? && h[i - 1].name == name)
  }

  /** From position i on, no silence of `name` has lasted six ticks. */
  ghost predicate KeptAlive(h: seq<Op>, i: nat, name: string) {
    forall a: nat, b: nat {:trigger TicksIn(h, a, b)} ::
      i <= a <= b <= |h| && Silent(h, a, b, name) ==> TicksIn(h, a, b) <= MAX_MISSED
  }

  lemma {:induction b} TicksAgree(h: seq<Op>, p: seq<Op>, a: nat, b: nat)
    requires a <= b <= |p| <= |h| && p == h[..|p|]
    ensures TicksIn(h, a, b) == TicksIn(p, a, b)
  {
  }

  lemma {:induction b} TicksShrink(h: seq<Op>, r: nat, a: nat, b: nat)
    requires r <= a <= b <= |h|
    ensures TicksIn(h, a, b) <= TicksIn(h, r, b)
  {
  }

  lemma KeptAliveBefore(h: seq<Op>, p: seq<Op>, i: nat, name: string)
    requires h != [] && p == h[..|h| - 1]
    ensures KeptAlive(h, i, name) ==> KeptAlive(p, i, name)
  {
    forall a: nat, b: nat | i <= a <= b <= |p| && Silent(p, a, b, name) && KeptAlive(h, i, name)
      ensures TicksIn(p, a, b) <= MAX_MISSED
    {
      TicksAgree(h, p, a, b);
      assert Silent(h, a, b, name);
    }
  }

  /** Being kept alive up to now and not silent too long at the end is being kept alive. */
  lemma KeptAliveAfter(h: seq<Op>, p: seq<Op>, i: nat, name: string)
    requires h != [] && p == h[..|h| - 1] && KeptAlive(p, i, name)
    requires SilentTicks(h, name) <= MAX_MISSED
    ensures KeptAlive(h, i, name)
  {
    forall a: nat, b: nat | i <= a <= b <= |h| && Silent(h, a, b, name)
      ensures TicksIn(h, a, b) <= MAX_MISSED
    {
      var r := LastRenewal(h, name);
      if b == |h| {
        TicksShrink(h, r, a, b);
      } else {
        assert Silent(p, a, b, name);
        TicksAgree(h, p, a, b);
      }
    }
  }

  /** The silence of `name` at the end of the history. */
  function SilentTicks(h: seq<Op>, name: string): nat {
    TicksIn(h, LastRenewal(h, name), |h|)
  }

  lemma SilenceStep(p: seq<Op>, op: Op, name: string)
    ensures SilentTicks(p + [op], name)
         == if Renews(op, name) then 0 else SilentTicks(p, name) + (if op.Tick? then 1 else 0)
  {
    var h, r := p + [op], LastRenewal(p, name);
    assert h[..|p|] == p;
    TicksAgree(h, p, r, |p|);
  }

  /** The registry equals its history: a name is in the table iff, since some registration of it, its
      renewals never left six ticks between them; its counter is then the number of ticks since its last
      renewal, never more than five. */
  lemma {:induction false} RegistryIsHistory(start: Table, h: seq<Op>, name: string)
    requires StartUp(start)
    ensures name in After(start, h) <==> exists i: nat :: Anchored(start, h, i, name) && KeptAlive(h, i, name)
    ensures name in After(start, h) ==>
              && After(start, h)[name].missed == SilentTicks(h, name)
              && After(start, h)[name].missed <= MAX_MISSED
  {
    if h == [] {
      if name in start {
        assert Anchored(start, h, 0, name);
      }
    } else {
      var p, op := h[..|h| - 1], h[|h| - 1];
      RegistryIsHistory(start, p, name);
      assert h == p + [op];
      SilenceStep(p, op, name);
      if name in After(start, h) { HistoryForward(start, h, p, name); }
      else {
        forall i: nat | Anchored(start, h, i, name) ensures !KeptAlive(h, i, name) {
          HistoryBack(start, h, p, i, name);
        }
      }
    }
  }

  lemma HistoryForward(start: Table, h: seq<Op>, p: seq<Op>, name: string)
    requires h != [] && p == h[..|h| - 1] && name in After(start, h)
    requires name in After(start, p) ==> exists i: nat :: Anchored(start, p, i, name) && KeptAlive(p, i, name)
    requires SilentTicks(h, name) <= MAX_MISSED
    ensures exists i: nat :: Anchored(start, h, i, name) && KeptAlive(h, i, name)
  {
    if name in After(start, p) {
      var i: nat :| Anchored(start, p, i, name) && KeptAlive(p, i, name);
      KeptAliveAfter(h, p, i, name);
      assert Anchored(start, h, i, name);
    } else {
      assert Anchored(start, h, |h|, name) && KeptAlive(h, |h|, name);
    }
  }

  lemma HistoryBack(start: Table, h: seq<Op>, p: seq<Op>, i: nat, name: string)
    requires h != [] && p == h[..|h| - 1] && name !in After(start, h) && Anchored(start, h, i, name)
    requires KeptAlive(p, i, name) && Anchored(start, p, i, name) ==> name in After(start, p)
    requires name in After(start, p) && h[|h| - 1].Tick? && After(start, p)[name].missed >= MAX_MISSED ==>
               SilentTicks(h, name) > MAX_MISSED
    ensures !KeptAlive(h, i, name)
  {
    KeptAliveBefore(h, p, i, name);
    var r := LastRenewal(h, name);
    assert i <= r;
    assert SilentTicks(h, name) == TicksIn(h, r, |h|);
  }

  predicate Registers(op: Op, name: string) {
    op.Register? && op.name == name
  }

  /** The configuration (i == 0) or the i-th operation put `name` in the table and nothing has registered
      it since. */
  ghost predicate LatestRegistration(start: Table, h: seq<Op>, i: nat, name: string) {
    Anchored(start, h, i, name) && forall k :: i <= k < |h| ==> !Registers(h[k], name)
  }

  predicate AddressFrom(s: Server, start: Table, h: seq<Op>, i: nat) {
    if i == 0 then s.name in start && s.host == start[s.name].host && s.port == start[s.name].port
    else i <= |h| && h[i - 1].Register? && s.host == h[i - 1].host && s.port == h[i - 1].port
  }

  /** A server in the table has the address of its latest registration, or the configured one if it never
      registered. */
  lemma {:induction false} AddressIsLatest(start: Table, h: seq<Op>, name: string)
    requires StartUp(start) && name in After(start, h)
    ensures var s := After(start, h)[name];
            s.name == name && exists i: nat :: LatestRegistration(start, h, i, name) && AddressFrom(s, start, h, i)
  {
    if h == [] {
      assert LatestRegistration(start, h, 0, name);
    } else {
      var p, op := h[..|h| - 1], h[|h| - 1];
      if Registers(op, name) {
        assert LatestRegistration(start, h, |h|, name);
      } else {
        AddressIsLatest(start, p, name);
        var s := After(start, p)[name];
        var i: nat :| LatestRegistration(start, p, i, name) && AddressFrom(s, start, p, i);
        assert LatestRegistration(start, h, i, name) && AddressFrom(s, start, h, i);
      }
    }
  }
}
