/**
 * RpcServer: a table from method name to call handler, and the dispatch of one
 * request frame onto it.
 *
 * A request frame is the tag byte, the message id (LE uint32 at offset 1), the
 * byte length of the method name (LE uint32 at offset 5), the name's UTF-8
 * bytes from offset 9, then the serialized arguments. The server never looks
 * at the tag byte. A handler answers with the bytes of a writer, with `null`
 * when it cannot decode the arguments, or with an exception; for `null` the
 * server synthesizes a 6-byte error frame.
 */
module Server {
  import opened Wrappers
  import opened Wire
  import opened Reader
  import opened Channel
  import opened Writer
  import Utf8

  /** What an `RpcCallHandler` does: return a writer (its bytes), return null, or throw. */
  datatype HandlerResult = Respond(bytes: seq<Byte>) | Undecodable | Throws

  /** `(requestReader, offset, msgId) => NanoBufWriter | null`; the offset is where the arguments start. */
  type RpcCallHandler = (NanoBufReader, int, Uint32) -> HandlerResult

  /** What one request makes the server do: send nothing, send one response frame, or throw out of `onRequestData`. */
  datatype Outcome = NoResponse | Response(frame: seq<Byte>) | Exception

  datatype RequestHeader = RequestHeader(msgId: Uint32, methodNameLen: Uint32, methodName: string)

  /** The header of a request, or None where `readUint32(1)` or `readUint32(5)` throws. */
  function ParseRequest(request: NanoBufReader): (h: Option<RequestHeader>)
    ensures h.Some? <==> |request.buffer| >= 9
    ensures h.Some? ==> EncodeUint32(h.value.msgId) == request.buffer[1..5]
    ensures h.Some? ==> EncodeUint32(h.value.methodNameLen) == request.buffer[5..9]
    ensures h.Some? && 9 + h.value.methodNameLen <= |request.buffer| ==>
      h.value.methodName == Utf8.Decode(request.buffer[9..9 + h.value.methodNameLen])
  {
    match (request.ReadUint32(1), request.ReadUint32(5))
    case (Some(msgId), Some(methodNameLen)) =>
      Some(RequestHeader(msgId, methodNameLen, request.ReadString(9, methodNameLen)))
    case _ => None
  }

  /**
   * A request frame as a generated client lays it out: the tag, the id and the
   * name's byte length at offsets 1 and 5, the name's bytes from offset 9, then
   * the arguments.
   */
  function RequestFrame(msgId: Uint32, methodName: string, args: seq<Byte>): (f: seq<Byte>)
    requires |Utf8.Encode(methodName)| < 0x1_0000_0000
    ensures |f| == 9 + |Utf8.Encode(methodName)| + |args|
    ensures f[0] == REQUEST && f[1..5] == EncodeUint32(msgId) && f[5..9] == EncodeUint32(|Utf8.Encode(methodName)|)
    ensures f[9..9 + |Utf8.Encode(methodName)|] == Utf8.Encode(methodName)
    ensures f[9 + |Utf8.Encode(methodName)|..] == args
  {
    var name := Utf8.Encode(methodName);
    var f := [REQUEST] + EncodeUint32(msgId) + EncodeUint32(|name|) + name + args;
    assert f[9..9 + |name|] == name;
    assert f[9 + |name|..] == args;
    f
  }

  /** Any request laid out as `RequestFrame` lays it out parses to its id, the name's byte length, and the decoded name. */
  lemma ParseRequestLayout(request: NanoBufReader, msgId: Uint32, name: seq<Byte>)
    requires 9 + |name| <= |request.buffer| && |name| < 0x1_0000_0000
    requires request.buffer[1..5] == EncodeUint32(msgId) && request.buffer[5..9] == EncodeUint32(|name|)
    requires request.buffer[9..9 + |name|] == name
    ensures ParseRequest(request) == Some(RequestHeader(msgId, |name|, Utf8.Decode(name)))
  {
    Uint32RoundTrip(msgId);
    Uint32RoundTrip(|name|);
  }

  /** Parsing a request frame gives back the id and the name it was built from. */
  lemma ParseRequestFrame(msgId: Uint32, methodName: string, args: seq<Byte>)
    requires |Utf8.Encode(methodName)| < 0x1_0000_0000
    ensures ParseRequest(NanoBufReader(RequestFrame(msgId, methodName, args)))
         == Some(RequestHeader(msgId, |Utf8.Encode(methodName)|, methodName))
  {
    ParseRequestLayout(NanoBufReader(RequestFrame(msgId, methodName, args)), msgId, Utf8.Encode(methodName));
    Utf8.DecodeEncode(methodName);
  }

  /** The frame sent when a handler returns null: RESPONSE tag, the request's id, error flag 1. */
  function ErrorFrame(msgId: Uint32): (f: seq<Byte>)
    ensures |f| == 6
    ensures NanoBufReader(f).ReadUint8(0) == Some(RESPONSE)
    ensures NanoBufReader(f).ReadUint32(1) == Some(msgId)
    ensures NanoBufReader(f).ReadUint8(5) == Some(1)
  {
    ReadUint32At([RESPONSE], msgId, [1]);
    [RESPONSE] + EncodeUint32(msgId) + [1]
  }

  /**
   * `onRequestData` as a function of the handler table and the request. A
   * request that cannot be parsed throws; an unknown method sends nothing;
   * otherwise the handler is called with the arguments' offset `9 + len` and
   * the parsed id, and at most one frame is sent: the handler's own bytes, or
   * the error frame for that id.
   */
  function Dispatch(handlers: map<string, RpcCallHandler>, request: NanoBufReader): (o: Outcome)
    ensures ParseRequest(request).None? ==> o == Exception
    ensures ParseRequest(request).Some? && ParseRequest(request).value.methodName !in handlers ==> o == NoResponse
    ensures ParseRequest(request).Some? && ParseRequest(request).value.methodName in handlers ==>
      var h := ParseRequest(request).value;
      o == match handlers[h.methodName](request, 9 + h.methodNameLen, h.msgId)
           case Respond(bytes) => Response(bytes)
           case Undecodable => Response(ErrorFrame(h.msgId))
           case Throws => Exception
  {
    match ParseRequest(request)
    case None => Exception
    case Some(h) =>
      if h.methodName !in handlers then NoResponse
      else
        match handlers[h.methodName](request, 9 + h.methodNameLen, h.msgId)
        case Respond(bytes) => Response(bytes)
        case Undecodable => Response(ErrorFrame(h.msgId))
        case Throws => Exception
  }

  /** A request built by `RequestFrame` reaches the handler registered under its name, with its id and the arguments' offset. */
  lemma DispatchRequestFrame(handlers: map<string, RpcCallHandler>, msgId: Uint32, methodName: string, args: seq<Byte>)
    requires |Utf8.Encode(methodName)| < 0x1_0000_0000
    ensures var request := NanoBufReader(RequestFrame(msgId, methodName, args));
      if methodName !in handlers then Dispatch(handlers, request) == NoResponse
      else
        match handlers[methodName](request, 9 + |Utf8.Encode(methodName)|, msgId)
        case Respond(bytes) => Dispatch(handlers, request) == Response(bytes)
        case Undecodable => Dispatch(handlers, request) == Response(ErrorFrame(msgId))
        case Throws => Dispatch(handlers, request) == Exception
  {
    ParseRequestFrame(msgId, methodName, args);
  }

  /** A parsed request whose handler returns bytes is answered with exactly those bytes. */
  lemma DispatchResponds(handlers: map<string, RpcCallHandler>, request: NanoBufReader, h: RequestHeader, bytes: seq<Byte>)
    requires ParseRequest(request) == Some(h) && h.methodName in handlers
    requires handlers[h.methodName](request, 9 + h.methodNameLen, h.msgId) == Respond(bytes)
    ensures Dispatch(handlers, request) == Response(bytes)
  {
  }

  /** The error response as the server writes it, with a 6-byte writer. */
  method WriteErrorFrame(msgId: Uint32) returns (frame: seq<Byte>)
    ensures frame == ErrorFrame(msgId)
  {
    var writer := new NanoBufWriter.Empty(6);
    writer.AppendUint8(RESPONSE);
    writer.AppendUint32(msgId);
    writer.AppendUint8(1);
    frame := writer.Bytes();
    assert frame == [RESPONSE] + EncodeUint32(msgId) + [1];
  }

  class RpcServer {
    var callHandlers: map<string, RpcCallHandler>

    constructor()
      ensures callHandlers == map[]
    {
      callHandlers := map[];
    }

    /** Maps `methodName` to `callHandler`, replacing an earlier handler for it; other names keep theirs. */
    method On(methodName: string, callHandler: RpcCallHandler)
      modifies this
      ensures callHandlers == old(callHandlers)[methodName := callHandler]
    {
      callHandlers := callHandlers[methodName := callHandler];
    }

    /**
     * Handles one request; the returned outcome is what is handed to
     * `channel.sendResponseData`, if anything. The handler table is not changed.
     */
    method OnRequestData(request: NanoBufReader) returns (outcome: Outcome)
      ensures outcome == Dispatch(callHandlers, request)
    {
      var msgId := request.ReadUint32(1);
      var methodNameLen := request.ReadUint32(5);
      if msgId.None? || methodNameLen.None? {
        return Exception;
      }
      var methodName := request.ReadString(9, methodNameLen.value);
      if methodName !in callHandlers {
        return NoResponse;
      }
      var handler := callHandlers[methodName];
      var nameLen: int := methodNameLen.value;
      var argsOffset := 9 + nameLen;
      var responseData := handler(request, argsOffset, msgId.value);
      if responseData.Respond? {
        outcome := Response(responseData.bytes);
      } else if responseData.Undecodable? {
        var frame := WriteErrorFrame(msgId.value);
        outcome := Response(frame);
      } else {
        outcome := Exception;
      }
    }
  }
}
