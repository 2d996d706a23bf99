/**
 * What the client, the server and both channels share: the tag byte that
 * starts every RPC frame, and the single-slot inbound callbacks of the two
 * channel interfaces in src/rpc/rpc-channel.ts (`onRequest`, `onResponse`).
 */
module Channel {
  import opened Wire
  import opened Reader

  /**
   * The values of RpcMessageType. The file that defines them is not part of
   * this model; these follow the frame layout of the protocol (request tag 0,
   * response tag 1). What the model relies on is that they are two distinct bytes.
   */
  const REQUEST: Byte := 0
  const RESPONSE: Byte := 1

  /**
   * A `(reader: NanoBufReader) => void` registered with a channel, as an opaque
   * token: the channel stores and calls it but never looks inside.
   */
  datatype Callback = Callback(id: nat)

  /** One synchronous call of a registered callback with the reader it is given. */
  datatype Delivery = Delivery(callback: Callback, reader: NanoBufReader)
}
