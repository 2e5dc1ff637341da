/** The send half of CSession as a protocol: callers append frames to a mutex-guarded queue, and the
    completion handler of each asynchronous write starts the next one.  `writes` counts the async_write
    operations outstanding on the socket; that it never exceeds one is a result, not an assumption. */
module WriteChain {
  import opened Limits
  import opened Framing

  /** `sent` is how much of the front frame the current write has put on the wire. */
  datatype Chain = Chain(
    queue: seq<Frame>, writes: nat, sent: nat, failed: bool,
    accepted: seq<Frame>, written: seq<Frame>, wire: seq<byte>)

  const FRESH := Chain([], 0, 0, false, [], [], [])

  datatype Event = Send(f: Frame) | Transmit(n: nat) | Complete | Fail

  predicate Sends(e: Event) {
    e.Send? ==> Sendable(e.f)
  }

  predicate AllSends(es: seq<Event>) {
    forall i :: 0 <= i < |es| ==> Sends(es[i])
  }

  predicate Wellformed(c: Chain) {
    && AllSendable(c.queue) && AllSendable(c.accepted) && AllSendable(c.written)
    && (c.writes > 0 ==> c.queue != [])
    && (c.queue != [] ==> c.sent <= |Encode(c.queue[0])|)
  }

  /** CSession::send once it holds the mutex. */
  function SendStep(c: Chain, f: Frame): Chain {
    if |c.queue| > QUEUE_MAX_SIZE then c
    else
      var d := c.(queue := c.queue + [f], accepted := c.accepted + [f]);
      if |c.queue| > 0 then d else d.(writes := d.writes + 1, sent := 0)
  }

  /** The socket takes up to `n` more bytes of the buffer being written. */
  function TransmitStep(c: Chain, n: nat): Chain
    requires Wellformed(c)
  {
    if c.writes == 0 then c
    else
      var left := Encode(c.queue[0])[c.sent..];
      var k := if n <= |left| then n else |left|;
      c.(wire := c.wire + left[..k], sent := c.sent + k)
  }

  /** handle_async_write without an error, once the whole buffer has been written. */
  function CompleteStep(c: Chain): Chain
    requires Wellformed(c)
  {
    if c.writes == 0 || c.sent < |Encode(c.queue[0])| then c
    else c.(queue := c.queue[1..], written := c.written + [c.queue[0]], sent := 0,
            writes := if |c.queue| > 1 then c.writes else c.writes - 1)
  }

  /** handle_async_write with an error: the session is closed and the queue is left as it is. */
  function FailStep(c: Chain): Chain {
    if c.writes == 0 then c else c.(writes := c.writes - 1, failed := true)
  }

  function Step(c: Chain, e: Event): Chain
    requires Wellformed(c)
  {
    match e
    case Send(f) => SendStep(c, f)
    case Transmit(n) => TransmitStep(c, n)
    case Complete => CompleteStep(c)
    case Fail => FailStep(c)
  }

  /** What every step keeps. */
  ghost predicate Inv(c: Chain) {
    && Wellformed(c)
    && c.written + c.queue == c.accepted
    && c.writes <= 1
    && (c.queue != [] <==> c.writes == 1 || c.failed)
    && (c.failed ==> c.writes == 0)
    && |c.queue| <= QUEUE_MAX_SIZE + 1
    && c.wire == EncodeAll(c.written) + (if c.queue == [] then [] else Encode(c.queue[0])[..c.sent])
  }

  lemma SendKeepsInv(c: Chain, f: Frame)
    requires Inv(c) && Sendable(f)
    ensures Inv(SendStep(c, f))
  {
  }

  lemma TransmitKeepsInv(c: Chain, n: nat)
    requires Inv(c)
    ensures Inv(TransmitStep(c, n))
  {
  }

  lemma CompleteKeepsInv(c: Chain)
    requires Inv(c)
    ensures Inv(CompleteStep(c))
  {
    if c.writes > 0 && c.sent >= |Encode(c.queue[0])| {
      var f, d := c.queue[0], CompleteStep(c);
      assert c.queue == [f] + d.queue;
      assert c.written + ([f] + d.queue) == d.written + d.queue;
      EncodeAllSnoc(c.written, f);
      assert Encode(f)[..c.sent] == Encode(f);
      if d.queue != [] {
        assert Encode(d.queue[0])[..0] == [];
      }
    }
  }

  lemma StepKeepsInv(c: Chain, e: Event)
    requires Inv(c) && Sends(e)
    ensures Inv(Step(c, e))
  {
    match e
    case Send(f) => SendKeepsInv(c, f);
    case Transmit(n) => TransmitKeepsInv(c, n);
    case Complete => CompleteKeepsInv(c);
    case Fail =>
  }

  /** Every interleaving of sends, partial transmissions and completions is a list of events. */
  ghost function Run(es: seq<Event>): (c: Chain)
    requires AllSends(es)
    ensures Inv(c)
  {
    if es == [] then FRESH
    else
      var c := Run(es[..|es| - 1]);
      StepKeepsInv(c, es[|es| - 1]);
      Step(c, es[|es| - 1])
  }

  lemma RunSnoc(es: seq<Event>, e: Event)
    requires AllSends(es) && Sends(e)
    ensures AllSends(es + [e])
    ensures Run(es + [e]) == Step(Run(es), e)
  {
    assert (es + [e])[..|es|] == es;
  }

  /** In any run a send is accepted, behind everything accepted before, iff at most 1000 accepted frames are not
      yet written; else it leaves no trace.  It starts a write iff none of the others is left. */
  lemma SendIsAcceptedIff(es: seq<Event>, f: Frame)
    requires AllSends(es) && Sendable(f)
    ensures var c, d := Run(es), Step(Run(es), Send(f));
            var waiting := |c.accepted| - |c.written|;
            && (d.accepted == c.accepted + [f] <==> waiting <= 1000) && (waiting > 1000 ==> d == c)
            && d.written == c.written && d.wire == c.wire && d.failed == c.failed
            && (waiting == 0 ==> d.writes == 1) && (waiting > 0 ==> d.writes == c.writes)
  {
    var c := Run(es);
    assert |c.accepted| == |c.written| + |c.queue|;
  }

  /** A failing write fails the chain, and one that has put its whole frame on the wire counts it as written
      and starts the next. */
  lemma WriteEnds(es: seq<Event>)
    requires AllSends(es)
    requires Run(es).writes > 0
    ensures var c, d := Run(es), Step(Run(es), Fail);
            d.failed && d.writes == 0 && d.accepted == c.accepted && d.written == c.written && d.wire == c.wire
    ensures var c, d := Run(es), Step(Run(es), Complete);
            c.wire == EncodeAll(c.accepted[..|c.written| + 1]) ==>
              && d.written == c.accepted[..|c.written| + 1] && d.accepted == c.accepted && d.wire == c.wire
              && !d.failed && d.writes == if |d.written| < |d.accepted| then 1 else 0
  {
    var c := Run(es);
    var f := c.queue[0];
    assert c.accepted[..|c.written| + 1] == c.written + [f];
    EncodeAllSnoc(c.written, f);
  }

  lemma FrontGetsWritten(c: Chain)
    requires Inv(c) && !c.failed && c.queue != []
    ensures var sent := TransmitStep(c, |Encode(c.queue[0])|);
            var d := CompleteStep(sent);
            Inv(sent) && !d.failed && d.queue == c.queue[1..] && d.accepted == c.accepted
  {
    TransmitKeepsInv(c, |Encode(c.queue[0])|);
  }

  /** `all` continues `es` by what the socket does when nothing fails. */
  predicate Continues(all: seq<Event>, es: seq<Event>) {
    es <= all && forall i :: |es| <= i < |all| ==> all[i].Transmit? || all[i].Complete?
  }

  lemma FrontOfRun(es: seq<Event>) returns (fs: seq<Event>)
    requires AllSends(es) && !Run(es).failed && Run(es).queue != []
    ensures AllSends(fs) && Continues(fs, es) && !Run(fs).failed
    ensures Run(fs).queue == Run(es).queue[1..] && Run(fs).accepted == Run(es).accepted
  {
    var n := |Encode(Run(es).queue[0])|;
    FrontGetsWritten(Run(es));
    RunSnoc(es, Transmit(n));
    RunSnoc(es + [Transmit(n)], Complete);
    fs := es + [Transmit(n)] + [Complete];
  }

  lemma NothingWaits(es: seq<Event>)
    requires AllSends(es) && Run(es).queue == []
    ensures Run(es).written == Run(es).accepted && Run(es).wire == EncodeAll(Run(es).accepted)
  {
    WireIsPrefix(Run(es));
    assert Run(es).written + [] == Run(es).written;
  }

  /** Unless a write fails, the socket can bring everything accepted on the wire: some continuation in which it
      only takes bytes and completes writes does. */
  lemma {:induction false} AllGetsWritten(es: seq<Event>) returns (all: seq<Event>)
    requires AllSends(es) && !Run(es).failed
    ensures AllSends(all) && Continues(all, es)
    ensures Run(all).accepted == Run(es).accepted
    ensures Run(all).written == Run(es).accepted && Run(all).wire == EncodeAll(Run(es).accepted)
    decreases |Run(es).queue|
  {
    if Run(es).queue == [] {
      all := es;
      NothingWaits(es);
    } else {
      var fs := FrontOfRun(es);
      all := AllGetsWritten(fs);
    }
  }

  lemma FailedStep(c: Chain, e: Event)
    requires Wellformed(c) && c.failed && c.writes == 0 && c.queue != []
    ensures var d := Step(c, e); d.failed && d.writes == 0 && d.wire == c.wire && d.written == c.written
  {
  }

  /** Once a write has failed no later event starts another one or puts a byte on the wire. */
  lemma {:induction false} FailureIsFinal(es: seq<Event>, n: nat)
    requires AllSends(es)
    requires n <= |es| && Run(es[..n]).failed
    ensures Run(es).failed && Run(es).writes == 0
    ensures Run(es).wire == Run(es[..n]).wire && Run(es).written == Run(es[..n]).written
  {
    if n < |es| {
      var p := es[..|es| - 1];
      assert p[..n] == es[..n];
      FailureIsFinal(p, n);
      FailedStep(Run(p), es[|es| - 1]);
    } else {
      assert es[..n] == es;
    }
  }

  lemma WireIsPrefix(c: Chain)
    requires Inv(c)
    ensures c.wire <= EncodeAll(c.accepted) && EncodeAll(c.written) <= c.wire
    ensures c.queue == [] ==> c.wire == EncodeAll(c.accepted)
  {
    EncodeAllConcat(c.written, c.queue);
    if c.queue == [] {
      assert c.wire == EncodeAll(c.written) && c.written == c.accepted;
    } else {
      var f := Encode(c.queue[0]);
      assert f[..c.sent] + (f[c.sent..] + EncodeAll(c.queue[1..])) == EncodeAll(c.queue);
    }
  }

  /** End to end: at any moment of any run, whatever prefix of the wire the peer has received decodes to
      a prefix of the accepted frames, in order; every completed frame short enough to be received has
      been put there whole; and the peer can reject only a frame that is too long. */
  lemma EndToEnd(es: seq<Event>, n: nat)
    requires AllSends(es)
    requires n <= |Run(es).wire|
    ensures var c := Run(es);
            && c.wire <= EncodeAll(c.accepted)
            && Parse(c.wire[..n]).frames <= Parse(c.wire).frames <= ReceivablePrefix(c.accepted)
            && ReceivablePrefix(c.written) <= Parse(c.wire).frames
            && (Parse(c.wire).rejected ==> !AllReceivable(c.accepted))
            && (c.writes == 0 && !c.failed ==> c.wire == EncodeAll(c.accepted))
  {
    var c := Run(es);
    WireIsPrefix(c);
    PrefixParses(c.wire[..n], c.wire);
    PrefixParses(c.wire, EncodeAll(c.accepted));
    PrefixParses(EncodeAll(c.written), c.wire);
    ParseOfSent(c.accepted);
    ParseOfSent(c.written);
  }

  lemma PrefixParses(s: seq<byte>, t: seq<byte>)
    requires s <= t
    ensures Parse(s).frames <= Parse(t).frames
    ensures Parse(s).rejected ==> Parse(t).rejected
  {
    assert t == s + t[|s|..];
    ParseMonotone(s, t[|s|..]);
  }
}
