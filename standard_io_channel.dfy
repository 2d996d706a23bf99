/**
 * NodeStandardIoRpcChannel: the framing and routing rules of the channel that
 * speaks over the process's standard streams.
 *
 * Outbound, every message (request or response alike) is framed as its byte
 * length, a little-endian uint32, followed by the bytes; the model appends the
 * frame to `stdout`, the sequence of everything written. Inbound, one pass of
 * the read loop takes a 4-byte length, then a body of that many bytes when
 * that many are available, and routes the body by its first byte. The streams
 * themselves, and the loop that blocks on them, are not modelled; `ReadMessage`
 * takes the bytes one pass finds waiting.
 */
module StandardIoChannel {
  import opened Wrappers
  import opened Wire
  import opened Reader
  import opened Channel

  /** The frame written for `data`: its length as LE uint32, then the data. */
  function Frame(data: seq<Byte>): (f: seq<Byte>)
    requires |data| < 0x1_0000_0000
    ensures |f| == 4 + |data|
    ensures DecodeUint32(f[..4]) == |data| && f[4..] == data
  {
    Uint32RoundTrip(|data|);
    EncodeUint32(|data|) + data
  }

  /**
   * One pass of the read loop as written, over the bytes `input` holds: the
   * length prefix is always consumed; the body is returned when its length is
   * positive and that many bytes follow (`stdin.read(n)` returns null for n = 0
   * and for a body not yet available), together with what is left to read.
   */
  function ReadFrame(input: seq<Byte>): (r: (Option<seq<Byte>>, seq<Byte>))
    requires |input| >= 4
    ensures var n := DecodeUint32(input[..4]);
      && (r.0.Some? <==> 0 < n <= |input| - 4)
      && (r.0.Some? ==> input == input[..4] + r.0.value + r.1 && |r.0.value| == n)
      && (r.0.None? ==> r.1 == input[4..])
  {
    var n := DecodeUint32(input[..4]);
    if 0 < n <= |input| - 4 then
      assert input == input[..4] + input[4..4 + n] + input[4 + n..];
      (Some(input[4..4 + n]), input[4 + n..])
    else (None, input[4..])
  }

  /**
   * As written, a frame whose body has only partly arrived loses its length
   * prefix: what the next pass starts from is the body's own bytes, which it
   * takes for a length.
   */
  lemma PartialBodyDropsPrefix(data: seq<Byte>, k: nat)
    requires 0 < |data| < 0x1_0000_0000 && 4 <= k < 4 + |data|
    ensures ReadFrame(Frame(data)[..k]) == (None, data[..k - 4])
    ensures ReadFrame(Frame(data)[..k]).1 + Frame(data)[k..] == data
  {
    var f := Frame(data);
    assert f[..k][..4] == f[..4];
    assert f[..k][4..] == data[..k - 4];
    assert data[..k - 4] + f[k..] == data;
  }

  /**
   * One pass of the read loop as evidently intended: nothing is consumed until
   * the length and the whole body have arrived; a zero length is skipped.
   */
  function ReadFrameBuffered(input: seq<Byte>): (r: (Option<seq<Byte>>, seq<Byte>))
    ensures r.0.Some? <==> |input| >= 4 && 0 < DecodeUint32(input[..4]) <= |input| - 4
    ensures r.0.Some? ==> input == input[..4] + r.0.value + r.1 && |r.0.value| == DecodeUint32(input[..4])
    ensures r.0.None? ==> r.1 == input || (|input| >= 4 && DecodeUint32(input[..4]) == 0 && r.1 == input[4..])
  {
    if |input| < 4 then (None, input)
    else
      var n := DecodeUint32(input[..4]);
      if n == 0 then (None, input[4..])
      else if n > |input| - 4 then (None, input)
      else ReadFrame(input)
  }

  /** A frame that has partly arrived is left in place, whole, for a later pass. */
  lemma PartialFrameWaits(data: seq<Byte>, k: nat)
    requires 0 < |data| < 0x1_0000_0000 && k < 4 + |data|
    ensures ReadFrameBuffered(Frame(data)[..k]) == (None, Frame(data)[..k])
  {
    var f := Frame(data);
    if k >= 4 {
      assert f[..k][..4] == f[..4];
    }
  }

  /**
   * The handler a body goes to: byte 0 equal to REQUEST selects the request
   * slot, RESPONSE the response slot; any other tag, or an empty slot, drops it.
   */
  function Route(body: seq<Byte>, requestHandler: Option<Callback>, responseHandler: Option<Callback>): (d: Option<Delivery>)
    requires |body| > 0
    ensures d.Some? <==> (body[0] == REQUEST && requestHandler.Some?) || (body[0] == RESPONSE && responseHandler.Some?)
    ensures d.Some? ==> d.value.reader == NanoBufReader(body)
    ensures d.Some? && body[0] == REQUEST ==> d.value.callback == requestHandler.value
    ensures d.Some? && body[0] == RESPONSE ==> d.value.callback == responseHandler.value
  {
    var reader := NanoBufReader(body);
    match reader.ReadUint8(0)
    case Some(msgType) =>
      if msgType == REQUEST then
        (match requestHandler case Some(h) => Some(Delivery(h, reader)) case None => None)
      else if msgType == RESPONSE then
        (match responseHandler case Some(h) => Some(Delivery(h, reader)) case None => None)
      else None
  }

  /** A framed message, followed by anything, is read back whole, leaving exactly what follows it. */
  lemma ReadFrameOfFrame(data: seq<Byte>, more: seq<Byte>)
    requires 0 < |data| < 0x1_0000_0000
    ensures ReadFrameBuffered(Frame(data) + more) == (Some(data), more)
  {
    var input := Frame(data) + more;
    assert input[..4] == Frame(data)[..4];
    assert input[4..4 + |data|] == data;
    assert input[4 + |data|..] == more;
  }

  /** A frame for an empty message is skipped: its prefix is consumed and nothing is dispatched. */
  lemma EmptyFrameNotDelivered(more: seq<Byte>)
    ensures ReadFrameBuffered(Frame([]) + more) == (None, more)
  {
    var input := Frame([]) + more;
    assert input[..4] == Frame([])[..4];
    assert input[4..] == more;
  }

  class NodeStandardIoRpcChannel {
    var requestHandler: Option<Callback>
    var responseHandler: Option<Callback>
    var isClosed: bool
    /** Everything written to the standard output, in order. */
    var stdout: seq<Byte>

    constructor()
      ensures requestHandler == None && responseHandler == None
      ensures !isClosed && stdout == []
    {
      requestHandler := None;
      responseHandler := None;
      isClosed := false;
      stdout := [];
    }

    /** Whether the read loop goes on to its next pass. */
    predicate ReadLoopRuns()
      reads this
    {
      !isClosed
    }

    method SendRequestData(data: seq<Byte>)
      requires |data| < 0x1_0000_0000
      modifies this
      ensures stdout == old(stdout) + Frame(data)
      ensures requestHandler == old(requestHandler) && responseHandler == old(responseHandler)
      ensures isClosed == old(isClosed)
    {
      var sizeBuf := EncodeUint32(|data|);
      stdout := stdout + sizeBuf;
      stdout := stdout + data;
    }

    method OnResponse(handler: Callback)
      modifies this
      ensures responseHandler == Some(handler)
      ensures requestHandler == old(requestHandler) && isClosed == old(isClosed) && stdout == old(stdout)
    {
      responseHandler := Some(handler);
    }

    method SendResponseData(data: seq<Byte>)
      requires |data| < 0x1_0000_0000
      modifies this
      ensures stdout == old(stdout) + Frame(data)
      ensures requestHandler == old(requestHandler) && responseHandler == old(responseHandler)
      ensures isClosed == old(isClosed)
    {
      var sizeBuf := EncodeUint32(|data|);
      stdout := stdout + sizeBuf;
      stdout := stdout + data;
    }

    method OnRequest(handler: Callback)
      modifies this
      ensures requestHandler == Some(handler)
      ensures responseHandler == old(responseHandler) && isClosed == old(isClosed) && stdout == old(stdout)
    {
      requestHandler := Some(handler);
    }

    /** `open()` clears the closed flag before the read loop starts. */
    method Open()
      modifies this
      ensures ReadLoopRuns()
      ensures requestHandler == old(requestHandler) && responseHandler == old(responseHandler) && stdout == old(stdout)
    {
      isClosed := false;
    }

    /** `close()` as written: it stores false, so the read loop keeps running. */
    method Close()
      modifies this
      ensures ReadLoopRuns()
      ensures requestHandler == old(requestHandler) && responseHandler == old(responseHandler) && stdout == old(stdout)
    {
      isClosed := false;
    }

    /** `close()` as evidently intended: the read loop stops before its next pass. */
    method CloseIntended()
      modifies this
      ensures !ReadLoopRuns()
      ensures requestHandler == old(requestHandler) && responseHandler == old(responseHandler) && stdout == old(stdout)
    {
      isClosed := true;
    }

    /**
     * One pass of the read loop, corrected as `ReadFrameBuffered` is, over the
     * bytes waiting on the input: the handler call it makes, if any, and the
     * bytes left for the next pass. A frame whose body has not fully arrived
     * is left whole; the as-written pass is `ReadFrame`.
     */
    method ReadMessage(input: seq<Byte>) returns (delivery: Option<Delivery>, rest: seq<Byte>)
      ensures rest == ReadFrameBuffered(input).1
      ensures delivery == match ReadFrameBuffered(input).0
        case None => None
        case Some(body) => Route(body, requestHandler, responseHandler)
    {
      if |input| < 4 {
        return None, input;
      }
      var msgSize := DecodeUint32(input[..4]);
      if msgSize == 0 {
        return None, input[4..];
      }
      if msgSize > |input| - 4 {
        return None, input;
      }
      var msgData := input[4..4 + msgSize];
      rest := input[4 + msgSize..];
      var reader := FromBytes(msgData);
      var msgType := reader.ReadUint8(0);
      delivery := None;
      if msgType == Some(REQUEST) && requestHandler.Some? {
        delivery := Some(Delivery(requestHandler.value, reader));
      } else if msgType == Some(RESPONSE) && responseHandler.Some? {
        delivery := Some(Delivery(responseHandler.value, reader));
      }
    }
  }

  /** What a sequence of sends writes: the frames of the messages, one after another. */
  function Frames(msgs: seq<seq<Byte>>): (out: seq<Byte>)
    requires forall i :: 0 <= i < |msgs| ==> |msgs[i]| < 0x1_0000_0000
  {
    if msgs == [] then [] else Frame(msgs[0]) + Frames(msgs[1..])
  }

  /**
   * The bodies the corrected read loop (`ReadFrameBuffered`) dispatches, pass
   * after pass, until it has to wait for more input.
   */
  function ReadAll(input: seq<Byte>): (bodies: seq<seq<Byte>>)
    ensures forall i :: 0 <= i < |bodies| ==> |bodies[i]| > 0
    decreases |input|
  {
    var (body, rest) := ReadFrameBuffered(input);
    match body
    case Some(b) => [b] + ReadAll(rest)
    case None => if rest == input then [] else ReadAll(rest)
  }

  /** A peer that reads by the same rule receives every non-empty message sent, in order and intact. */
  lemma {:induction false} ReadAllFrames(msgs: seq<seq<Byte>>)
    requires forall i :: 0 <= i < |msgs| ==> 0 < |msgs[i]| < 0x1_0000_0000
    ensures ReadAll(Frames(msgs)) == msgs
  {
    if msgs != [] {
      ReadFrameOfFrame(msgs[0], Frames(msgs[1..]));
      ReadAllFrames(msgs[1..]);
    }
  }

  /** A cut that falls inside the first of two parts keeps only the first part's bytes. */
  lemma CutWithin(a: seq<Byte>, b: seq<Byte>, k: nat)
    requires k < |a|
    ensures (a + b)[..k] == a[..k]
  {
  }

  /** A cut past the first of two parts keeps all of it and a prefix of the second. */
  lemma CutPast(a: seq<Byte>, b: seq<Byte>, k: nat)
    requires |a| <= k <= |a| + |b|
    ensures (a + b)[..k] == a + b[..k - |a|]
  {
  }

  /** A whole frame at the front is dispatched, and reading goes on from what follows it. */
  lemma ReadAllAfterFrame(data: seq<Byte>, more: seq<Byte>)
    requires 0 < |data| < 0x1_0000_0000
    ensures ReadAll(Frame(data) + more) == [data] + ReadAll(more)
  {
    ReadFrameOfFrame(data, more);
  }

  /** A frame that has partly arrived dispatches nothing. */
  lemma ReadAllPartialFrame(data: seq<Byte>, k: nat)
    requires 0 < |data| < 0x1_0000_0000 && k < 4 + |data|
    ensures ReadAll(Frame(data)[..k]) == []
  {
    PartialFrameWaits(data, k);
  }

  /**
   * Whatever part of the stream has arrived, the messages dispatched so far are
   * the first messages sent, in order and intact: a frame cut short is never
   * dispatched, and nothing after it is lost.
   */
  lemma {:induction false} ReadAllPrefix(msgs: seq<seq<Byte>>, k: nat)
    requires forall i :: 0 <= i < |msgs| ==> 0 < |msgs[i]| < 0x1_0000_0000
    requires k <= |Frames(msgs)|
    ensures ReadAll(Frames(msgs)[..k]) <= msgs
  {
    if msgs != [] {
      var first := Frame(msgs[0]);
      var later := Frames(msgs[1..]);
      if k < |first| {
        CutWithin(first, later, k);
        ReadAllPartialFrame(msgs[0], k);
      } else {
        CutPast(first, later, k);
        ReadAllAfterFrame(msgs[0], later[..k - |first|]);
        ReadAllPrefix(msgs[1..], k - |first|);
        assert msgs == [msgs[0]] + msgs[1..];
      }
    }
  }
}
