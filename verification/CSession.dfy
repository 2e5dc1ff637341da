/** CSession's two buffers in the source's own form: the send queue of owned, framed nodes, and the
    two-state reader whose callbacks fill `_msgId`, `_msgLen` and `_bodyBuf`. */
module CSession {
  import opened Limits
  import opened Framing
  import opened WriteChain

  /** The owned buffer of SendNode together with the id and the 16-bit total length kept beside it. */
  datatype SendNode = SendNode(data: seq<byte>, id: short, totalLen: short)

  function NodeOf(f: Frame): SendNode
    requires Sendable(f)
  {
    SendNode(Encode(f), f.id, MSG_HEAD_SIZE + |f.body|)
  }

  /** The buffer CSession::send allocates and fills: id, length, then totalLen bytes copied from `data`. */
  method MakeNode(data: seq<byte>, totalLen: short, id: short) returns (node: SendNode)
    requires 0 <= totalLen <= SEND_MAX_LEN && totalLen <= |data|
    ensures node == NodeOf(Frame(id, data[..totalLen]))
  {
    var buffer := new byte[totalLen + MSG_HEAD_SIZE](_ => 0);
    var networkId, networkLen := EncodeShort(id), EncodeShort(totalLen);
    buffer[0], buffer[1] := networkId[0], networkId[1];
    buffer[2], buffer[3] := networkLen[0], networkLen[1];
    for i := 0 to totalLen
      invariant buffer[..MSG_HEAD_SIZE] == networkId + networkLen
      invariant forall j :: 0 <= j < i ==> buffer[MSG_HEAD_SIZE + j] == data[j]
    {
      buffer[MSG_HEAD_SIZE + i] := data[i];
    }
    assert buffer[..] == buffer[..MSG_HEAD_SIZE] + data[..totalLen];
    node := SendNode(buffer[..], id, totalLen + MSG_HEAD_SIZE);
  }

  class SendSide {
    var sendQueue: seq<SendNode>
    var outstanding: nat  // async_write operations started and not yet completed
    var closed: bool
    ghost var chain: Chain

    ghost predicate Valid()
      reads this
    {
      && Inv(chain)
      && outstanding == chain.writes && closed == chain.failed
      && |sendQueue| == |chain.queue|
      && forall i :: 0 <= i < |sendQueue| ==> sendQueue[i] == NodeOf(chain.queue[i])
    }

    constructor ()
      ensures Valid() && chain == FRESH
    {
      sendQueue, outstanding, closed := [], 0, false;
      chain := FRESH;
    }

    method Send(data: seq<byte>, totalLen: short, id: short)
      requires Valid() && 0 <= totalLen <= SEND_MAX_LEN && totalLen <= |data|
      modifies this
      ensures Valid() && chain == SendStep(old(chain), Frame(id, data[..totalLen]))
      ensures |old(sendQueue)| <= 1000 ==>
                && chain.accepted == old(chain).accepted + [Frame(id, data[..totalLen])]
                && sendQueue == old(sendQueue) + [NodeOf(Frame(id, data[..totalLen]))]
                && outstanding == if old(sendQueue) == [] then 1 else old(outstanding)
      ensures |old(sendQueue)| > 1000 ==>
                chain == old(chain) && sendQueue == old(sendQueue) && outstanding == old(outstanding)
    {
      ghost var f := Frame(id, data[..totalLen]);
      SendKeepsInv(chain, f);
      var queueSize := |sendQueue|;
      if queueSize > QUEUE_MAX_SIZE {
        return;
      }
      var node := MakeNode(data, totalLen, id);
      sendQueue := sendQueue + [node];
      chain := SendStep(chain, f);
      if queueSize > 0 {
        return;
      }
      outstanding := outstanding + 1;
    }

    /** handle_async_write; without an error the socket reports it only once the buffer is written. */
    method HandleAsyncWrite(failed: bool)
      requires Valid() && outstanding > 0
      requires !failed ==> chain.sent == |sendQueue[0].data|
      modifies this
      ensures Valid() && chain == (if failed then FailStep(old(chain)) else CompleteStep(old(chain)))
      ensures failed ==> closed && outstanding == 0 && sendQueue == old(sendQueue)
      ensures !failed ==> closed == old(closed) && sendQueue == old(sendQueue)[1..]
      ensures !failed ==> outstanding == if sendQueue == [] then 0 else 1
    {
      if failed {
        closed := true;
        outstanding := outstanding - 1;
        chain := FailStep(chain);
        return;
      }
      CompleteKeepsInv(chain);
      outstanding := outstanding - 1;
      sendQueue := sendQueue[1..];
      chain := CompleteStep(chain);
      if |sendQueue| != 0 {
        outstanding := outstanding + 1;
      }
    }
  }

  datatype ReadState = ReadHead | ReadBody | Closed

  class ReadSide {
    var state: ReadState
    var msgId: short
    var msgLen: short
    var bodyBuf: seq<byte>
    var socket: seq<byte>        // bytes that have arrived and that no async_read has taken
    var dispatched: seq<Frame>   // calls of handleMessage, in order
    ghost var received: seq<byte>

    /** Header bytes already taken from the socket for a frame that has not been dispatched. */
    ghost function Taken(): seq<byte>
      reads this
    {
      if state == ReadHead then [] else EncodeShort(msgId) + EncodeShort(msgLen)
    }

    ghost predicate Consistent()
      reads this
    {
      && AllReceivable(dispatched)
      && received == EncodeAll(dispatched) + (Taken() + socket)
      && (state == ReadBody ==> 0 < msgLen <= MSG_MAX_LEN)
      && (state == Closed ==> !(0 <= msgLen <= MSG_MAX_LEN))
    }

    /** Between arrivals the reader waits with fewer bytes than it asked for, or is closed. */
    ghost predicate Waiting()
      reads this
    {
      && Consistent()
      && (state == ReadHead ==> |socket| < MSG_HEAD_SIZE)
      && (state == ReadBody ==> |socket| < msgLen)
    }

    constructor ()
      ensures Waiting() && received == [] && dispatched == []
    {
      state, msgId, msgLen, bodyBuf, socket, dispatched := ReadHead, 0, 0, [], [], [];
      received := [];
    }

    /** The completion handler of readHead. */
    method OnHead()
      requires Consistent() && state == ReadHead && |socket| >= MSG_HEAD_SIZE
      modifies this
      ensures Consistent() && received == old(received) && socket == old(socket)[MSG_HEAD_SIZE..]
      ensures msgId == HeadId(old(socket)) && msgLen == HeadLen(old(socket))
      ensures state == if BadHead(old(socket)) then Closed else if msgLen == 0 then ReadHead else ReadBody
      ensures dispatched == old(dispatched) + (if msgLen == 0 then [Frame(msgId, [])] else [])
    {
      ghost var s := socket;
      msgId := DecodeShort(socket[0], socket[1]);
      msgLen := DecodeShort(socket[2], socket[3]);
      socket := socket[MSG_HEAD_SIZE..];
      SplitHead(s);
      assert [] + s == EncodeShort(msgId) + EncodeShort(msgLen) + socket;
      assert dispatched + [] == dispatched;
      if msgLen < 0 || msgLen > MSG_MAX_LEN {
        state := Closed;
        return;
      }
      if msgLen == 0 {
        var f := Frame(msgId, []);
        BodyCompletes(msgId, msgLen, socket, dispatched);
        dispatched := dispatched + [f];
        return;
      }
      state := ReadBody;
    }

    /** The completion handler of readBody. */
    method OnBody()
      requires Consistent() && state == ReadBody && |socket| >= msgLen
      modifies this
      ensures Consistent() && state == ReadHead && received == old(received)
      ensures dispatched == old(dispatched) + [Frame(old(msgId), old(socket)[..old(msgLen)])]
      ensures socket == old(socket)[old(msgLen)..]
    {
      bodyBuf := socket[..msgLen];
      BodyCompletes(msgId, msgLen, socket, dispatched);
      socket := socket[msgLen..];
      dispatched := dispatched + [Frame(msgId, bodyBuf)];
      state := ReadHead;
    }

    /** However the stream is cut into arrivals, what has been dispatched is what one pass over all the
        bytes received would dispatch, and the session is closed iff that pass rejects a header. */
    method Arrive(chunk: seq<byte>)
      requires Waiting()
      modifies this
      ensures Waiting() && received == old(received) + chunk
      ensures old(dispatched) <= dispatched
      ensures dispatched == Parse(received).frames
      ensures state == Closed <==> Parse(received).rejected
    {
      assert received + chunk == EncodeAll(dispatched) + (Taken() + (socket + chunk));
      socket := socket + chunk;
      received := received + chunk;
      while (state == ReadHead && |socket| >= MSG_HEAD_SIZE) || (state == ReadBody && |socket| >= msgLen)
        invariant Consistent() && received == old(received) + chunk && old(dispatched) <= dispatched
        decreases |socket|
      {
        if state == ReadHead {
          OnHead();
        } else {
          OnBody();
        }
      }
      Settled();
    }

    lemma Settled()
      requires Waiting()
      ensures Parse(received) == Parsed(dispatched, Taken() + socket, state == Closed)
    {
      if state != ReadHead {
        ShortRoundTrip(msgLen);
        var rest := Taken() + socket;
        assert rest[2] == EncodeShort(msgLen)[0] && rest[3] == EncodeShort(msgLen)[1];
      }
      ParseUnique(received, Parsed(dispatched, Taken() + socket, state == Closed));
    }
  }

  lemma SplitHead(s: seq<byte>)
    requires |s| >= MSG_HEAD_SIZE
    ensures s == EncodeShort(HeadId(s)) + EncodeShort(HeadLen(s)) + s[MSG_HEAD_SIZE..]
  {
    ShortCanonical(s[0], s[1]);
    ShortCanonical(s[2], s[3]);
    assert s == [s[0], s[1]] + [s[2], s[3]] + s[MSG_HEAD_SIZE..];
  }

  /** The announced header and the body that follows it are one encoded frame. */
  lemma BodyCompletes(id: short, len: short, s: seq<byte>, done: seq<Frame>)
    requires 0 <= len <= MSG_MAX_LEN && len <= |s| && AllReceivable(done)
    ensures var f := Frame(id, s[..len]);
            && AllReceivable(done + [f])
            && EncodeAll(done) + (EncodeShort(id) + EncodeShort(len) + s) == EncodeAll(done + [f]) + ([] + s[len..])
  {
    var f := Frame(id, s[..len]);
    Deliver(f, done, s[len..]);
    assert [] + s[len..] == s[len..];
    assert EncodeShort(id) + EncodeShort(len) + s == Encode(f) + s[len..];
  }

  /** Moving one frame from the undelivered bytes to the dispatched ones keeps the stream. */
  lemma Deliver(f: Frame, done: seq<Frame>, t: seq<byte>)
    requires Receivable(f) && AllReceivable(done)
    ensures EncodeAll(done) + (Encode(f) + t) == EncodeAll(done + [f]) + t
    ensures AllReceivable(done + [f])
  {
    EncodeAllSnoc(done, f);
  }
}
