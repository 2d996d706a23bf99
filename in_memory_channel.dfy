/**
 * InMemoryRpcChannel: a synchronous loopback. Each direction has one handler
 * slot; sending copies the bytes into a fresh reader and calls the handler of
 * the matching slot in the same call stack, or does nothing when the slot is
 * empty. Sending never changes the channel: only `onRequest`/`onResponse` do.
 *
 * A call is returned as a `Delivery`; whoever wired the handlers (the
 * `Loopback` module) carries it out.
 */
module InMemoryChannel {
  import opened Wrappers
  import opened Wire
  import opened Reader
  import opened Channel

  class InMemoryRpcChannel {
    var requestHandler: Option<Callback>
    var responseHandler: Option<Callback>

    constructor()
      ensures requestHandler == None && responseHandler == None
    {
      requestHandler := None;
      responseHandler := None;
    }

    /** Calls the request handler, if set, once, with a reader over a copy of exactly `data`. */
    method SendRequestData(data: seq<Byte>) returns (delivery: Option<Delivery>)
      ensures delivery.Some? <==> requestHandler.Some?
      ensures delivery.Some? ==> delivery.value == Delivery(requestHandler.value, NanoBufReader(data))
    {
      var reader := FromBytes(data);
      match requestHandler {
        case None => delivery := None;
        case Some(handler) => delivery := Some(Delivery(handler, reader));
      }
    }

    method OnResponse(handler: Callback)
      modifies this
      ensures responseHandler == Some(handler) && requestHandler == old(requestHandler)
    {
      responseHandler := Some(handler);
    }

    /** Calls the response handler, if set, once, with a reader over a copy of exactly `data`. */
    method SendResponseData(data: seq<Byte>) returns (delivery: Option<Delivery>)
      ensures delivery.Some? <==> responseHandler.Some?
      ensures delivery.Some? ==> delivery.value == Delivery(responseHandler.value, NanoBufReader(data))
    {
      var reader := FromBytes(data);
      match responseHandler {
        case None => delivery := None;
        case Some(handler) => delivery := Some(Delivery(handler, reader));
      }
    }

    method OnRequest(handler: Callback)
      modifies this
      ensures requestHandler == Some(handler) && responseHandler == old(responseHandler)
    {
      requestHandler := Some(handler);
    }
  }
}
