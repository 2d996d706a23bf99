/**
 * A client and a server wired through one InMemoryRpcChannel, the way the RPC
 * test sets them up: the client registers its response callback with the
 * channel, the server its request callback, and a call runs to completion in
 * one call stack.
 *
 * The test's `add` service is modelled on top: the client side builds the
 * request and reads the result with the writer and reader, the server side is
 * a handler function, and `AddEndToEnd` proves that `add(4, 6)` resolves to 10.
 * All of this is corrected behaviour: it needs the fix to src/writer.ts:62
 * (`AppendStringAndSize`); as written, `appendStringAndSize` leaves the name
 * bytes unwritten, the server finds no handler and the call never resolves.
 */
module Loopback {
  import opened Wrappers
  import opened Wire
  import opened Reader
  import opened Writer
  import opened Channel
  import opened InMemoryChannel
  import opened Client
  import opened Server
  import Utf8

  /** The tokens under which the client and the server register their callbacks. */
  const ClientCallback: Callback := Callback(0)
  const ServerCallback: Callback := Callback(1)

  /**
   * The client state after one call over the loopback: the request is
   * registered, then dispatched; a response frame, if any, is received before
   * the call returns.
   */
  function LoopbackCall(st: ClientState, handlers: map<string, RpcCallHandler>, msgId: Uint32, data: seq<Byte>, resolve: Resolver): (r: ClientState)
    ensures !Dispatch(handlers, NanoBufReader(data)).Response? ==> r == Register(st, msgId, resolve)
    ensures Dispatch(handlers, NanoBufReader(data)).Response? ==>
      var response := NanoBufReader(Dispatch(handlers, NanoBufReader(data)).frame);
      ResponseMsgId(response) == Some(msgId) ==>
        r == ClientState(st.pending - {msgId}, st.resolutions + [Resolution(resolve, response)])
  {
    var registered := Register(st, msgId, resolve);
    match Dispatch(handlers, NanoBufReader(data))
    case Response(frame) => Receive(registered, NanoBufReader(frame))
    case _ => registered
  }

  class LoopbackRpc {
    const channel: InMemoryRpcChannel
    const client: RpcClient
    const server: RpcServer

    ghost predicate Valid()
      reads this, channel
    {
      channel.requestHandler == Some(ServerCallback) && channel.responseHandler == Some(ClientCallback)
    }

    /** `new RpcClient(channel)` then `new RpcServer(channel)`: each constructor registers its callback. */
    constructor()
      ensures Valid() && fresh(channel) && fresh(client) && fresh(server)
      ensures client.State() == ClientState(map[], []) && server.callHandlers == map[]
    {
      var ch := new InMemoryRpcChannel();
      client := new RpcClient();
      ch.OnResponse(ClientCallback);
      server := new RpcServer();
      ch.OnRequest(ServerCallback);
      channel := ch;
    }

    /**
     * `client.sendRequestData(msgId, data)`: registers the caller, sends the
     * request through the channel to the server, and carries the server's
     * response, if any, back through the channel to the client.
     */
    method Call(msgId: Uint32, data: seq<Byte>, resolve: Resolver)
      requires Valid()
      modifies client
      ensures Valid()
      ensures client.State() == LoopbackCall(old(client.State()), server.callHandlers, msgId, data, resolve)
    {
      var outbound := client.SendRequestData(msgId, data, resolve);
      var request := channel.SendRequestData(outbound);
      if request.Some? && request.value.callback == ServerCallback {
        var outcome := server.OnRequestData(request.value.reader);
        if outcome.Response? {
          var response := channel.SendResponseData(outcome.frame);
          if response.Some? && response.value.callback == ClientCallback {
            client.OnResponseReceived(response.value.reader);
          }
        }
      }
    }
  }

  // ---------------------------------------------------------------------------
  // The `add` service of the RPC test

  /** The response of `add`: RESPONSE tag, the request's id, error flag 0, the int32 sum. */
  function AddResponse(msgId: Uint32, sum: Int32): seq<Byte>
  {
    [RESPONSE] + EncodeUint32(msgId) + [0] + EncodeInt32(sum)
  }

  /**
   * The server's `add` handler: reads two int32 arguments from the offset it is
   * given and answers with their sum. A read past the end throws; so does a
   * sum outside the int32 range, which `appendInt32` rejects.
   */
  function AddHandler(reader: NanoBufReader, offset: int, msgId: Uint32): (r: HandlerResult)
    ensures r.Respond? || r.Throws?
    ensures r.Respond? <==>
      && reader.ReadInt32(offset).Some? && reader.ReadInt32(offset + 4).Some?
      && -0x8000_0000 <= reader.ReadInt32(offset).value + reader.ReadInt32(offset + 4).value < 0x8000_0000
    ensures r.Respond? ==>
      r.bytes == AddResponse(msgId, reader.ReadInt32(offset).value + reader.ReadInt32(offset + 4).value)
  {
    match (reader.ReadInt32(offset), reader.ReadInt32(offset + 4))
    case (Some(a), Some(b)) =>
      if -0x8000_0000 <= a + b < 0x8000_0000 then Respond(AddResponse(msgId, a + b)) else Throws
    case _ => Throws
  }

  /** The client's reading of an `add` response: None where it throws (a short frame, or a set error flag). */
  function AddResult(response: NanoBufReader): (r: Option<Int32>)
    ensures r.Some? <==> |response.buffer| >= 10 && response.buffer[5] == 0
    ensures r.Some? ==> EncodeInt32(r.value) == response.buffer[6..10]
  {
    match response.ReadUint8(5)
    case Some(errFlag) => if errFlag != 0 then None else response.ReadInt32(6)
    case None => None
  }

  /**
   * The request the test client builds for `add(a, b)` with a 16-byte writer,
   * for any method name: tag, id, the name with its int32 length, then `a` and `b`.
   * Corrected: it needs the src/writer.ts:62 fix (`AppendStringAndSize`).
   */
  method BuildAddRequest(msgId: Uint32, methodName: string, a: Int32, b: Int32) returns (data: seq<Byte>)
    requires |Utf8.Encode(methodName)| < 0x8000_0000
    ensures data == RequestFrame(msgId, methodName, EncodeInt32(a) + EncodeInt32(b))
  {
    var writer := new NanoBufWriter.Empty(16);
    writer.AppendUint8(REQUEST);
    writer.AppendUint32(msgId);
    var len := writer.AppendStringAndSize(methodName);
    writer.AppendInt32(a);
    writer.AppendInt32(b);
    data := writer.Bytes();
    assert data == [REQUEST] + EncodeUint32(msgId) + EncodeInt32(len) + Utf8.Encode(methodName) + EncodeInt32(a) + EncodeInt32(b);
    AddRequestLayout(msgId, methodName, len, a, b);
  }

  /** Appending the name with its int32 length lays the request out as `RequestFrame` does. */
  lemma AddRequestLayout(msgId: Uint32, methodName: string, len: Int32, a: Int32, b: Int32)
    requires len == |Utf8.Encode(methodName)|
    ensures [REQUEST] + EncodeUint32(msgId) + EncodeInt32(len) + Utf8.Encode(methodName) + EncodeInt32(a) + EncodeInt32(b)
         == RequestFrame(msgId, methodName, EncodeInt32(a) + EncodeInt32(b))
  {
    assert EncodeInt32(len) == EncodeUint32(len);
  }

  /** The response the test server builds for a sum, with a 10-byte writer. */
  method BuildAddResponse(msgId: Uint32, sum: Int32) returns (data: seq<Byte>)
    ensures data == AddResponse(msgId, sum)
  {
    var writer := new NanoBufWriter.Empty(10);
    writer.AppendUint8(RESPONSE);
    writer.AppendUint32(msgId);
    writer.AppendUint8(0);
    writer.AppendInt32(sum);
    data := writer.Bytes();
  }

  /** The method name's three ASCII bytes. */
  lemma AddNameBytes()
    ensures Utf8.Encode("add") == [0x61, 0x64, 0x64]
  {
  }

  /** The handler reads two int32 arguments placed at its offset and answers with their sum. */
  lemma AddHandlerOnArgs(request: NanoBufReader, offset: nat, msgId: Uint32, a: Int32, b: Int32)
    requires -0x8000_0000 <= a + b < 0x8000_0000
    requires offset <= |request.buffer| && request.buffer[offset..] == EncodeInt32(a) + EncodeInt32(b)
    ensures AddHandler(request, offset, msgId) == Respond(AddResponse(msgId, a + b))
  {
    var f, args := request.buffer, EncodeInt32(a) + EncodeInt32(b);
    assert f[offset..offset + 4] == EncodeInt32(a) by {
      assert f[offset..offset + 4] == f[offset..][..4] && args[..4] == EncodeInt32(a);
    }
    assert f[offset + 4..offset + 8] == EncodeInt32(b) by {
      assert f[offset + 4..offset + 8] == f[offset..][4..] && args[4..] == EncodeInt32(b);
    }
    ReadInt32OfSlice(request, offset, a);
    ReadInt32OfSlice(request, offset + 4, b);
  }

  /** The server reads the two arguments where the client wrote them. */
  lemma AddHandlerOnRequest(msgId: Uint32, a: Int32, b: Int32)
    requires -0x8000_0000 <= a + b < 0x8000_0000
    ensures var request := NanoBufReader(RequestFrame(msgId, "add", EncodeInt32(a) + EncodeInt32(b)));
      AddHandler(request, 9 + |Utf8.Encode("add")|, msgId) == Respond(AddResponse(msgId, a + b))
  {
    AddNameBytes();
    var f := RequestFrame(msgId, "add", EncodeInt32(a) + EncodeInt32(b));
    AddHandlerOnArgs(NanoBufReader(f), 12, msgId, a, b);
  }

  /** The client reads the sum back from the server's response. */
  lemma AddResultOfResponse(msgId: Uint32, sum: Int32)
    ensures AddResult(NanoBufReader(AddResponse(msgId, sum))) == Some(sum)
  {
    var f := AddResponse(msgId, sum);
    ReadUint8At([RESPONSE] + EncodeUint32(msgId), 0, EncodeInt32(sum));
    ReadInt32At([RESPONSE] + EncodeUint32(msgId) + [0], sum, []);
    assert f + [] == f;
  }

  /** The server answers an `add` request with the sum. */
  lemma AddDispatch(handlers: map<string, RpcCallHandler>, msgId: Uint32, a: Int32, b: Int32)
    requires "add" in handlers && handlers["add"] == AddHandler
    requires -0x8000_0000 <= a + b < 0x8000_0000
    ensures Dispatch(handlers, NanoBufReader(RequestFrame(msgId, "add", EncodeInt32(a) + EncodeInt32(b))))
         == Response(AddResponse(msgId, a + b))
  {
    AddNameBytes();
    ParseRequestFrame(msgId, "add", EncodeInt32(a) + EncodeInt32(b));
    AddHandlerOnRequest(msgId, a, b);
    DispatchResponds(handlers, NanoBufReader(RequestFrame(msgId, "add", EncodeInt32(a) + EncodeInt32(b))),
      RequestHeader(msgId, 3, "add"), AddResponse(msgId, a + b));
  }

  /**
   * `add(a, b)` over the loopback resolves the caller, and only the caller,
   * with a response that reads back as `a + b`; its id is no longer pending.
   * Corrected: the request comes from `BuildAddRequest`, which needs the
   * src/writer.ts:62 fix.
   */
  lemma AddOverLoopback(st: ClientState, handlers: map<string, RpcCallHandler>, msgId: Uint32, a: Int32, b: Int32, resolve: Resolver)
    requires "add" in handlers && handlers["add"] == AddHandler
    requires -0x8000_0000 <= a + b < 0x8000_0000
    ensures var after := LoopbackCall(st, handlers, msgId, RequestFrame(msgId, "add", EncodeInt32(a) + EncodeInt32(b)), resolve);
      && after.pending == st.pending - {msgId}
      && |after.resolutions| == |st.resolutions| + 1
      && after.resolutions[..|st.resolutions|] == st.resolutions
      && after.resolutions[|st.resolutions|].resolver == resolve
      && AddResult(after.resolutions[|st.resolutions|].response) == Some(a + b)
  {
    var data := RequestFrame(msgId, "add", EncodeInt32(a) + EncodeInt32(b));
    var frame := AddResponse(msgId, a + b);
    AddDispatch(handlers, msgId, a, b);
    assert ResponseMsgId(NanoBufReader(frame)) == Some(msgId) by {
      assert frame == [RESPONSE] + EncodeUint32(msgId) + ([0] + EncodeInt32(a + b));
      ReadUint32At([RESPONSE], msgId, [0] + EncodeInt32(a + b));
    }
    SynchronousReplyResolves(st, msgId, resolve, NanoBufReader(frame));
    AddResultOfResponse(msgId, a + b);
  }

  /**
   * The RPC test: a fresh client and server on one channel, `add(4, 6)`, and the
   * result read by the client is 10. Corrected: it needs the src/writer.ts:62 fix.
   */
  method AddEndToEnd(draws: seq<Uint32>) returns (result: Option<Int32>)
    ensures result == Some(10)
  {
    var rpc := new LoopbackRpc();
    rpc.server.On("add", AddHandler);
    var msgId := rpc.client.NewMessageId(draws);
    AddNameBytes();
    var request := BuildAddRequest(msgId, "add", 4, 6);
    var caller := Resolver(0);
    rpc.Call(msgId, request, caller);
    AddOverLoopback(ClientState(map[], []), rpc.server.callHandlers, msgId, 4, 6, caller);
    result := AddResult(rpc.client.resolutions[0].response);
  }
}
