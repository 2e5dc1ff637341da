/** The chat wire format of ChatServer: a 2-byte message id, a 2-byte body length (both big-endian,
    both C++ `short`), then the body.  `Encode` is the printer used by CSession::send, `Parse` is what
    a chain of readHead/readBody callbacks makes of a whole byte stream. */
module Framing {
  import opened Limits

  type byte = x: int | 0 <= x < 256
  type short = x: int | -0x8000 <= x < 0x8000

  /** The largest body for which `totalLen + 4` still fits the `short` stored in a SendNode. */
  const SEND_MAX_LEN := 32763

  datatype Frame = Frame(id: short, body: seq<byte>)

  /** The two bytes that htons leaves in memory. */
  function EncodeShort(v: short): (s: seq<byte>)
    ensures |s| == 2
  {
    var u := v % 0x10000;
    [u / 0x100, u % 0x100]
  }

  /** ntohs, read back into a signed `short`. */
  function DecodeShort(hi: byte, lo: byte): short {
    var u := hi * 0x100 + lo;
    if u < 0x8000 then u else u - 0x10000
  }

  lemma ShortRoundTrip(v: short)
    ensures var s := EncodeShort(v); DecodeShort(s[0], s[1]) == v
  {
  }

  /** Network order: the first byte counts 256s, and a negative value is written as its complement to 65536. */
  lemma ShortIsBigEndian(v: short)
    ensures var s := EncodeShort(v);
            s[0] as int * 256 + s[1] as int == if v >= 0 then v else v + 65536
  {
  }

  lemma ShortCanonical(hi: byte, lo: byte)
    ensures EncodeShort(DecodeShort(hi, lo)) == [hi, lo]
  {
  }

  predicate Sendable(f: Frame) {
    |f.body| <= SEND_MAX_LEN
  }

  predicate Receivable(f: Frame) {
    |f.body| <= MSG_MAX_LEN
  }

  function Encode(f: Frame): (s: seq<byte>)
    requires Sendable(f)
    ensures |s| == MSG_HEAD_SIZE + |f.body|
  {
    EncodeShort(f.id) + EncodeShort(|f.body|) + f.body
  }

  predicate AllSendable(fs: seq<Frame>) {
    forall i :: 0 <= i < |fs| ==> Sendable(fs[i])
  }

  predicate AllReceivable(fs: seq<Frame>) {
    forall i :: 0 <= i < |fs| ==> Receivable(fs[i])
  }

  function EncodeAll(fs: seq<Frame>): seq<byte>
    requires AllSendable(fs)
  {
    if fs == [] then [] else Encode(fs[0]) + EncodeAll(fs[1..])
  }

  lemma {:induction false} EncodeAllConcat(fs: seq<Frame>, gs: seq<Frame>)
    requires AllSendable(fs) && AllSendable(gs)
    ensures AllSendable(fs + gs)
    ensures EncodeAll(fs + gs) == EncodeAll(fs) + EncodeAll(gs)
  {
    if fs == [] {
      assert fs + gs == gs;
    } else {
      EncodeAllConcat(fs[1..], gs);
      var all := fs + gs;
      assert all[0] == fs[0] && all[1..] == fs[1..] + gs;
      assert EncodeAll(all) == Encode(fs[0]) + (EncodeAll(fs[1..]) + EncodeAll(gs));
    }
  }

  lemma EncodeAllSnoc(fs: seq<Frame>, f: Frame)
    requires AllSendable(fs) && Sendable(f)
    ensures AllSendable(fs + [f])
    ensures EncodeAll(fs + [f]) == EncodeAll(fs) + Encode(f)
  {
    EncodeAllConcat(fs, [f]);
    assert EncodeAll([f]) == Encode(f) + [];
  }

  function HeadId(s: seq<byte>): short
    requires |s| >= MSG_HEAD_SIZE
  {
    DecodeShort(s[0], s[1])
  }

  function HeadLen(s: seq<byte>): short
    requires |s| >= MSG_HEAD_SIZE
  {
    DecodeShort(s[2], s[3])
  }

  predicate BadHead(s: seq<byte>) {
    |s| >= MSG_HEAD_SIZE && !(0 <= HeadLen(s) <= MSG_MAX_LEN)
  }

  predicate Incomplete(s: seq<byte>) {
    |s| < MSG_HEAD_SIZE || (0 <= HeadLen(s) <= MSG_MAX_LEN && |s| < MSG_HEAD_SIZE + HeadLen(s))
  }

  /** The outcome of reading a whole stream: the frames handed to handleMessage, the bytes never
      dispatched, and whether the session was closed on a bad length. */
  datatype Parsed = Parsed(frames: seq<Frame>, rest: seq<byte>, rejected: bool)

  function Parse(s: seq<byte>): Parsed {
    if Incomplete(s) then Parsed([], s, false)
    else if BadHead(s) then Parsed([], s, true)
    else
      var n := MSG_HEAD_SIZE + HeadLen(s);
      var tail := Parse(s[n..]);
      tail.(frames := [First(s)] + tail.frames)
  }

  /** A decomposition of a stream into receivable frames and a tail no further frame can be taken from. */
  ghost predicate Decomposes(s: seq<byte>, p: Parsed) {
    && AllReceivable(p.frames)
    && s == EncodeAll(p.frames) + p.rest
    && (p.rejected <==> BadHead(p.rest))
    && (p.rejected || Incomplete(p.rest))
  }

  lemma HeadOfEncoding(f: Frame, t: seq<byte>)
    requires Receivable(f)
    ensures var s := Encode(f) + t;
            && HeadId(s) == f.id && HeadLen(s) == |f.body|
            && s[MSG_HEAD_SIZE..MSG_HEAD_SIZE + |f.body|] == f.body
            && s[MSG_HEAD_SIZE + |f.body|..] == t
            && !Incomplete(s) && !BadHead(s)
  {
    ShortRoundTrip(f.id);
    ShortRoundTrip(|f.body|);
    var s := Encode(f) + t;
    assert s[..2] == EncodeShort(f.id);
    assert s[2..4] == EncodeShort(|f.body|);
    assert s[2] == s[2..4][0] && s[3] == s[2..4][1] && s[0] == s[..2][0] && s[1] == s[..2][1];
  }

  /** The frame at the front of a stream that starts with a complete one. */
  function First(s: seq<byte>): (f: Frame)
    requires !Incomplete(s) && !BadHead(s)
    ensures Receivable(f)
  {
    Frame(HeadId(s), s[MSG_HEAD_SIZE..MSG_HEAD_SIZE + HeadLen(s)])
  }

  lemma SplitFirst(s: seq<byte>)
    requires !Incomplete(s) && !BadHead(s)
    ensures s == Encode(First(s)) + s[MSG_HEAD_SIZE + HeadLen(s)..]
  {
  }

  /** Canonicity: re-encoding what was dispatched gives exactly the consumed bytes, and the reader stops
      only at an incomplete frame or, iff the signed length is outside 0..8192, at a rejected header. */
  lemma {:induction false} ParseCanonical(s: seq<byte>)
    ensures Decomposes(s, Parse(s))
    decreases |s|
  {
    if !Incomplete(s) && !BadHead(s) {
      var f, t := First(s), s[MSG_HEAD_SIZE + HeadLen(s)..];
      SplitFirst(s);
      ParseCanonical(t);
      PrependDecomposes(f, t, Parse(t));
      assert Parse(s) == Parse(t).(frames := [f] + Parse(t).frames);
    } else {
      assert s == EncodeAll([]) + s;
    }
  }

  lemma PrependDecomposes(f: Frame, t: seq<byte>, p: Parsed)
    requires Receivable(f) && Decomposes(t, p)
    ensures Decomposes(Encode(f) + t, p.(frames := [f] + p.frames))
  {
  }

  /** The decomposition is unique, so Parse is the only reader with that property; in particular it
      inverts the printer. */
  lemma {:induction false} ParseUnique(s: seq<byte>, p: Parsed)
    requires Decomposes(s, p)
    ensures Parse(s) == p
    decreases |p.frames|
  {
    if p.frames == [] {
      assert s == p.rest;
    } else {
      var f, t := p.frames[0], EncodeAll(p.frames[1..]) + p.rest;
      assert s == Encode(f) + t;
      HeadOfEncoding(f, t);
      ParseUnique(t, p.(frames := p.frames[1..]));
      assert p.frames == [f] + p.frames[1..];
    }
  }

  lemma ParseOfPrint(fs: seq<Frame>)
    requires AllReceivable(fs)
    ensures Parse(EncodeAll(fs)) == Parsed(fs, [], false)
  {
    assert EncodeAll(fs) == EncodeAll(fs) + [];
    ParseUnique(EncodeAll(fs), Parsed(fs, [], false));
  }

  lemma FirstOfLonger(s: seq<byte>, t: seq<byte>)
    requires |s| >= MSG_HEAD_SIZE
    ensures HeadId(s + t) == HeadId(s) && HeadLen(s + t) == HeadLen(s)
    ensures !Incomplete(s) && !BadHead(s) ==>
              var n := MSG_HEAD_SIZE + HeadLen(s);
              !Incomplete(s + t) && !BadHead(s + t) && First(s + t) == First(s) && (s + t)[n..] == s[n..] + t
  {
  }

  /** A reader that has seen only a prefix of the stream has dispatched a prefix of the frames, and a
      rejection is final. */
  lemma {:induction false} ParseMonotone(s: seq<byte>, t: seq<byte>)
    ensures Parse(s).frames <= Parse(s + t).frames
    ensures Parse(s).rejected ==> Parse(s + t).rejected && Parse(s + t).frames == Parse(s).frames
    decreases |s|
  {
    if |s| >= MSG_HEAD_SIZE {
      FirstOfLonger(s, t);
      if !BadHead(s) && !Incomplete(s) {
        var tail := s[MSG_HEAD_SIZE + HeadLen(s)..];
        ParseMonotone(tail, t);
        var u := s + t;
        assert Parse(u) == Parse(tail + t).(frames := [First(s)] + Parse(tail + t).frames);
      }
    }
  }

  /** The frames before the first one that is too long to be received. */
  function ReceivablePrefix(fs: seq<Frame>): (r: seq<Frame>)
    ensures r <= fs && AllReceivable(r)
    ensures |r| < |fs| ==> !Receivable(fs[|r|])
  {
    if fs == [] || !Receivable(fs[0]) then [] else [fs[0]] + ReceivablePrefix(fs[1..])
  }

  /** A sendable frame longer than 8192 bytes is rejected and never mistaken for something else: the
      receiver dispatches exactly the frames before it. */
  lemma {:induction false} ParseOfSent(fs: seq<Frame>)
    requires AllSendable(fs)
    ensures Parse(EncodeAll(fs)).frames == ReceivablePrefix(fs)
    ensures Parse(EncodeAll(fs)).rejected <==> !AllReceivable(fs)
  {
    if fs != [] {
      var f, t := fs[0], EncodeAll(fs[1..]);
      ParseOfSent(fs[1..]);
      if Receivable(f) {
        HeadOfEncoding(f, t);
        assert First(Encode(f) + t) == f;
        AllReceivableCons(fs);
      } else {
        LongFrameRejected(f, t);
      }
    }
  }

  lemma AllReceivableCons(fs: seq<Frame>)
    requires fs != []
    ensures AllReceivable(fs) <==> Receivable(fs[0]) && AllReceivable(fs[1..])
  {
  }

  lemma LongFrameRejected(f: Frame, t: seq<byte>)
    requires Sendable(f) && !Receivable(f)
    ensures Parse(Encode(f) + t) == Parsed([], Encode(f) + t, true)
  {
  }
}
