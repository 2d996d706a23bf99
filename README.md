# NanoPack (TypeScript runtime): a verified model

NanoPack is a binary record codec with a small RPC layer on top. This project
models its TypeScript runtime in Dafny and proves properties of the model.

- **Codec.** `NanoBufReader` decodes fixed-width little-endian values and UTF-8
  text at absolute offsets of a byte buffer. `NanoBufWriter` patches a type id and
  a table of field sizes into a header, and appends values at a cursor. Before an
  append that reaches the capacity, the buffer is replaced by a larger copy.
- **RPC.** An `RpcClient` keeps a table of pending requests keyed by a 32-bit
  message id and resolves each caller when the response with that id arrives. An
  `RpcServer` parses a request frame and dispatches it to the handler registered
  under its method name. When a handler cannot decode its arguments, the server
  answers with a 6-byte error frame.
- **Channels.** Two channels carry the frames. `InMemoryRpcChannel` is a
  synchronous loopback. `NodeStandardIoRpcChannel` speaks over the standard
  streams: each frame is prefixed with its length, and inbound frames are routed
  by their first byte.

Modules, one per source file, plus shared definitions:

| file | module | models |
|---|---|---|
| wrappers.dfy | `Wrappers` | `Option` |
| wire.dfy | `Wire` | byte and integer types, little-endian and two's-complement encodings, in-place patching |
| utf8.dfy | `Utf8` | the UTF-8 encoder and replacing decoder that Node's `Buffer` uses |
| reader.dfy | `Reader` | src/reader.ts, a datatype (the reader copies its input and never changes it) |
| writer.dfy | `Writer` | src/writer.ts, a class over an `array<Byte>` with the cursor `endPtr` |
| rpc_channel.dfy | `Channel` | src/rpc/rpc-channel.ts: the message tags, callback tokens, one callback call |
| rpc_client.dfy | `Client` | src/rpc/rpc-client.ts, a class whose state is specified by `Register`/`Receive` |
| rpc_server.dfy | `Server` | src/rpc/rpc-server.ts, a class whose dispatch is specified by `Dispatch` |
| in_memory_channel.dfy | `InMemoryChannel` | src/rpc/in-memory-channel.ts |
| standard_io_channel.dfy | `StandardIoChannel` | src/rpc/standard-io-channel.ts: framing, routing, slots, `open`/`close` |
| loopback.dfy | `Loopback` | the RPC test: client and server over one in-memory channel, `add(4, 6) = 10` |

Conventions:

- Every numeric read or write of Node's `Buffer` throws a `RangeError` when it
  would leave the buffer.
  - Reads return `None` in that case.
  - `writeTypeId` and `writeFieldSize` return `ok = false` and change nothing.
- An exception thrown by a call handler or by the server is an explicit outcome.
- Callbacks and promise resolvers are opaque tokens. Each call of one is recorded
  as a value: a `Delivery` for a channel callback, a `Resolution` for a resolver.
- `Math.random` becomes the parameter `draws`.
- Standard output becomes the field `stdout`, the sequence of bytes written.

Where the code differs from what its names, comments or tests suggest, the model follows the code:

- Growth replaces a capacity `c` by `2c + (n - c)`. It happens when the new end
  `n` reaches the capacity (`>=`, src/writer.ts:75), not only when it exceeds it.
- The one-argument writer constructor starts the cursor at the capacity
  (src/writer.ts:10-13). No reserved-prefix parameter exists.
- The server never checks the tag byte of a request (src/rpc/rpc-server.ts:56-59).
- src/reader.ts has no `slice`, `newReaderAt` or 64-bit accessors, and the model has none either.
- The read loop of the standard-io channel does not buffer a partly arrived
  frame: it drops the frame's length prefix. That pass is modelled as written
  (`StandardIoChannel.ReadFrame`) and logged under Findings. The channel's
  `ReadMessage` and the stream-level `ReadAll` follow the corrected rule
  (`StandardIoChannel.ReadFrameBuffered`), which keeps a partial frame whole.

## Model

| member | source | states |
|---|---|---|
| Wire.DecodeLE | src/reader.ts:24-26 | a little-endian value of `k` bytes is below 256^k |
| Wire.DecodeEncodeLE | src/reader.ts:24-26 | decoding the `k`-byte little-endian encoding of `n < 256^k` gives `n` |
| Wire.EncodeDecodeLE | src/writer.ts:37-41 | encoding a decoded byte sequence at its own width gives the same bytes |
| Wire.Int32Bits | src/writer.ts:37-41 | the two's-complement bit pattern of an int32: `v` itself when non-negative, `v + 2^32` otherwise |
| Wire.DecodeUint32 | src/rpc/standard-io-channel.ts:49 | the uint32 whose 4-byte LE encoding is the given bytes |
| Wire.DecodeInt32 | src/reader.ts:24-26 | the int32 whose 4-byte LE two's-complement encoding is the given bytes |
| Wire.DecodeInt8 | src/reader.ts:20-22 | the int8 whose one-byte two's-complement encoding is the given byte |
| Wire.EncodeUint8 | src/rpc/rpc-server.ts:69 | the one byte `appendUint8` stores is the value itself |
| Wire.EncodeUint32 | src/rpc/rpc-server.ts:70 | `writeUint32LE` stores four bytes |
| Wire.EncodeUint32Bytes | src/rpc/rpc-server.ts:70 | those four bytes are the value's base-256 digits, least significant first |
| Wire.EncodeInt32 | src/writer.ts:40 | `writeInt32LE` stores four bytes: the uint32 encoding of the two's-complement pattern |
| Wire.Int32SignByte | src/writer.ts:40 | the top bit of the last stored byte is set iff the int32 is negative |
| Wire.EncodeInt8 | src/writer.ts:34 | `writeInt8` stores one byte |
| Wire.Uint32RoundTrip | src/rpc/standard-io-channel.ts:15 | uint32 decode after encode is the identity |
| Wire.Int32RoundTrip | src/reader.ts:24-26 | int32 decode after encode is the identity |
| Wire.Int8RoundTrip | src/reader.ts:20-22 | int8 decode after encode is the identity |
| Wire.Patch | src/writer.ts:20 | a random-access write: same length, `w` at the offset, every other byte unchanged |
| Wire.FieldSlotsDisjoint | src/writer.ts:23-25 | the 4-byte slots of two different field numbers, and of the type id, do not overlap |
| Utf8.Encode | src/writer.ts:50 | UTF-8 uses one to four bytes per character |
| Utf8.EncodeAscii | src/__tests__/writer.test.ts:78-88 | ASCII text encodes to its code points, one byte each |
| Utf8.EncodeAsciiChar | src/writer.ts:50 | a single ASCII character encodes to its code point |
| Utf8.EncodeAsciiText | src/writer.ts:50 | ASCII bytes read as text and encoded again come back unchanged |
| Utf8.DecodeAscii | src/reader.ts:32-34 | ASCII bytes at the front decode one character per byte, and decoding carries on with what follows |
| Utf8.DecodeStepTwoBytes | src/reader.ts:32-34 | the encoder's two bytes for U+0080..U+07FF decode back to the character |
| Utf8.DecodeStepThreeBytes | src/reader.ts:32-34 | the encoder's three bytes for U+0800..U+FFFF decode back to the character |
| Utf8.DecodeStepFourBytes | src/reader.ts:32-34 | the encoder's four bytes for U+10000..U+10FFFF decode back to the character |
| Utf8.DecodeStepEncodeChar | src/reader.ts:32-34 | one decoding step over the encoding of a character, followed by anything, reads that character and consumes exactly its bytes |
| Utf8.Decode | src/reader.ts:32-34 | decoding never fails and yields at most one character per byte (ill-formed bytes become U+FFFD) |
| Utf8.DecodeEncode | src/reader.ts:32-34 | decoding the encoding of any text gives back the text |
| Reader.FromBytes | src/reader.ts:4-6 | the reader holds exactly the bytes it was given |
| Reader.NanoBufReader.ReadTypeId | src/reader.ts:8-10 | defined iff the buffer has 4 bytes; the value is the int32 whose LE encoding is bytes 0..4 |
| Reader.NanoBufReader.ReadFieldSize | src/reader.ts:12-14 | defined iff slot `4(i+1)..4(i+1)+4` is in the buffer; the int32 encoded there |
| Reader.NanoBufReader.ReadBoolean | src/reader.ts:16-18 | defined iff the offset is in the buffer; true iff that byte is exactly 1 |
| Reader.NanoBufReader.ReadInt8 | src/reader.ts:20-22 | defined iff the offset is in the buffer; the int8 encoded by that byte |
| Reader.NanoBufReader.ReadUint8 | src/rpc/standard-io-channel.ts:54 | defined iff the offset is in the buffer; that byte |
| Reader.NanoBufReader.ReadInt32 | src/reader.ts:24-26 | defined iff the 4 bytes are in the buffer; the int32 they encode |
| Reader.NanoBufReader.ReadUint32 | src/rpc/rpc-server.ts:57-58 | defined iff the 4 bytes are in the buffer; the uint32 they encode |
| Reader.NanoBufReader.StringRange | src/reader.ts:32-34 | the clamped range lies in the buffer, is the requested range when that fits, and is empty past the end or for a non-positive size |
| Reader.NanoBufReader.ReadString | src/reader.ts:32-34 | in range, the UTF-8 decoding of bytes `[offset, offset+size)`; empty past the end or for a non-positive size |
| Reader.ReadUint8At | src/rpc/standard-io-channel.ts:54 | a byte placed at offset `p` reads back at `p`, whatever surrounds it |
| Reader.ReadInt8At | src/reader.ts:20-22 | an encoded int8 reads back at its offset |
| Reader.ReadBooleanAt | src/reader.ts:16-18 | a boolean written as int8 1/0 reads back at its offset |
| Reader.ReadInt32At | src/reader.ts:24-26 | an encoded int32 reads back at its offset |
| Reader.ReadInt32OfSlice | src/reader.ts:24-26 | wherever the four bytes at an offset encode an int32, `readInt32` there returns it |
| Reader.ReadUint32At | src/rpc/rpc-client.ts:60 | an encoded uint32 reads back at its offset |
| Reader.ReadStringAt | src/reader.ts:32-34 | encoded text reads back from its offset and byte length |
| Reader.ReadStringOfSlice | src/reader.ts:32-34 | a string read in range is the decoding of exactly the bytes of that range |
| Reader.TypeIdPatched | src/writer.ts:19-21 | after patching a type id into a buffer, `readTypeId` returns it |
| Reader.FieldSizePatched | src/writer.ts:23-25 | after patching field size `i`, `readFieldSize(i)` returns it and every other slot reads as before |
| Reader.TypeIdExample | src/__tests__/reader.test.ts:9-13 | the test's buffer has type id 1 |
| Reader.FieldSizeExample | src/__tests__/reader.test.ts:15-20 | the test's field sizes are 770 and 9 |
| Reader.BooleanExample | src/__tests__/reader.test.ts:22-27 | byte 4 reads true, byte 3 false |
| Reader.Int8Example | src/__tests__/reader.test.ts:29-34 | 245 reads as -11, 96 as 96 |
| Reader.Int32Example | src/__tests__/reader.test.ts:36-41 | the test's int32 values 1284 and -2147483647 |
| Reader.DecodeExample | src/__tests__/reader.test.ts:51-57 | the test's 10 bytes decode to "bread " followed by U+1F44D |
| Reader.StringExample | src/__tests__/reader.test.ts:51-57 | 10 bytes at offset 2 decode to "bread " followed by U+1F44D |
| Writer.NanoBufWriter.constructor | src/writer.ts:10-13 | a fresh buffer of the given capacity, with the cursor at the capacity |
| Writer.NanoBufWriter.Empty | src/rpc/rpc-server.ts:68 | the `(n, false)` form: capacity `n`, cursor 0, no bytes written |
| Writer.NanoBufWriter.Bytes | src/writer.ts:15-17 | exactly the bytes before the cursor |
| Writer.NanoBufWriter.WriteInt32Slot | src/writer.ts:19-25 | `writeInt32LE` at an offset: succeeds iff the 4 bytes fit the capacity; then the buffer is patched there and the cursor is untouched; otherwise nothing changes |
| Writer.NanoBufWriter.WriteTypeId | src/writer.ts:19-21 | succeeds iff the capacity is at least 4; then bytes 0..4 hold the int32 encoding and nothing else changes; otherwise nothing changes |
| Writer.NanoBufWriter.WriteFieldSize | src/writer.ts:23-25 | succeeds iff slot `4(i+1)` fits the capacity; then that slot holds the encoding and nothing else changes; otherwise nothing changes |
| Writer.NanoBufWriter.MoveEndPtrAndResizeIfNecessary | src/writer.ts:73-82 | the cursor moves to the new end; at or past the capacity the buffer becomes a fresh one of `2c + (n - c)` bytes holding the old contents as a prefix |
| Writer.NanoBufWriter.AppendEncoding | src/writer.ts:31-41 | remember the cursor, move it past `w`, write `w` there: the written bytes grow by `w`, and every other byte of the old buffer keeps its value, even after a resize |
| Writer.NanoBufWriter.AppendBoolean | src/writer.ts:27-29 | the written bytes grow by the byte 1 or 0 |
| Writer.NanoBufWriter.AppendInt8 | src/writer.ts:31-35 | the written bytes grow by the int8's encoding; bytes outside it keep their values |
| Writer.NanoBufWriter.AppendUint8 | src/rpc/rpc-server.ts:69 | the written bytes grow by the byte |
| Writer.NanoBufWriter.AppendInt32 | src/writer.ts:37-41 | the written bytes grow by the 4-byte LE encoding; bytes outside it keep their values |
| Writer.NanoBufWriter.AppendUint32 | src/rpc/rpc-server.ts:70 | the written bytes grow by the 4-byte LE encoding |
| Writer.NanoBufWriter.AppendString | src/writer.ts:49-55 | corrected form: the written bytes grow by the text's UTF-8 encoding; returns its length |
| Writer.WrittenTwice | src/writer.ts:57-64 | two writes at adjacent positions are one write of their concatenation |
| Writer.NanoBufWriter.AppendStringAndSize | src/writer.ts:57-64 | corrected form: the written bytes grow by the int32 byte length, then the UTF-8 encoding |
| Writer.NanoBufWriter.AppendBytes | src/writer.ts:66-71 | corrected form: the written bytes grow by exactly the given bytes |
| Writer.NanoBufWriter.AppendStringAsWritten | src/writer.ts:49-55 | as written: the cursor advances by the encoded length, yet every byte of the old buffer is unchanged |
| Writer.NanoBufWriter.AppendStringAndSizeAsWritten | src/writer.ts:57-64 | as written: the int32 length lands at the cursor and the cursor moves past the text, yet no other byte of the old buffer changes |
| Writer.NanoBufWriter.AppendBytesAsWritten | src/writer.ts:66-71 | as written: the cursor moves past the bytes, yet every byte of the old buffer is unchanged |
| Writer.ZeroWhereTextBelongs | src/writer.ts:49-55 | an int32 zero followed by a zero byte is `[0,0,0,0,0]`, whose last byte is not the encoding of "a" |
| Writer.AsWrittenAppendLosesText | src/writer.ts:49-55 | as written, appending "a" after four zero bytes yields `[0,0,0,0,0]`, not the text |
| Writer.AppendStringWritesText | src/writer.ts:49-55 | corrected, the same steps yield `[0,0,0,0,0x61]` |
| Writer.TypeIdOnOneByteWriter | src/__tests__/writer.test.ts:5-9 | a writer built with capacity 1 cannot take a type id |
| Writer.BooleanAfterTenByteStart | src/__tests__/writer.test.ts:17-31 | with the cursor starting at 10, the test's first append yields 11 bytes with `true` at offset 10 |
| Writer.WriterEncodingExamples | src/__tests__/writer.test.ts:49-64 | the test's expected encodings of 4, -1, 78, -45, 2345 and -128 |
| InMemoryChannel.InMemoryRpcChannel.constructor | src/rpc/in-memory-channel.ts:5-7 | both slots start empty |
| InMemoryChannel.InMemoryRpcChannel.SendRequestData | src/rpc/in-memory-channel.ts:9-13 | one call of the request handler with a reader over exactly the data iff that slot is set; the channel is unchanged |
| InMemoryChannel.InMemoryRpcChannel.OnResponse | src/rpc/in-memory-channel.ts:15-17 | the response slot holds the new handler; the request slot is unchanged |
| InMemoryChannel.InMemoryRpcChannel.SendResponseData | src/rpc/in-memory-channel.ts:19-23 | one call of the response handler with a reader over exactly the data iff that slot is set; the channel is unchanged |
| InMemoryChannel.InMemoryRpcChannel.OnRequest | src/rpc/in-memory-channel.ts:25-27 | the request slot holds the new handler; the response slot is unchanged |
| Client.ResponseMsgId | src/rpc/rpc-client.ts:60 | a response's id is the LE uint32 at offset 1, defined iff the response has 5 bytes |
| Client.Register | src/rpc/rpc-client.ts:43 | the id maps to the new resolver, other entries are unchanged, nobody is resolved |
| Client.Receive | src/rpc/rpc-client.ts:59-66 | a response whose id is pending removes that entry and appends one resolution of its resolver with the response; a response with an unknown id, or too short to carry one, changes nothing; the table only shrinks |
| Client.FirstFresh | src/rpc/rpc-client.ts:51-57 | the first draw not pending: a draw that is not a pending id, every earlier draw being pending; none iff every draw is pending |
| Client.RpcClient.constructor | src/rpc/rpc-client.ts:15-18 | no request is pending and nobody has been resolved |
| Client.RpcClient.SendRequestData | src/rpc/rpc-client.ts:38-46 | the state becomes `Register(state, id, resolve)` before exactly `data` is handed to the channel |
| Client.RpcClient.NewMessageId | src/rpc/rpc-client.ts:51-57 | the id is not pending, it is the first free draw when there is one, and the table is unchanged |
| Client.RpcClient.OnResponseReceived | src/rpc/rpc-client.ts:59-66 | the state becomes `Receive(state, response)` |
| Client.FreshIdExists | src/rpc/rpc-client.ts:53-55 | with fewer than 2^32 ids pending, some uint32 is free |
| Client.SynchronousReplyResolves | src/rpc/rpc-client.ts:42-45 | a reply received right after registration removes the entry and resolves this caller with it |
| Client.ReplyBeforeRegistrationIsLost | src/rpc/rpc-client.ts:42-45 | had the reply come before registration, it would be dropped and the caller would stay pending |
| Client.DuplicateResponseDropped | src/rpc/rpc-client.ts:62 | receiving the same response twice equals receiving it once |
| Client.ResponsesInEitherOrder | src/rpc/rpc-client.ts:59-66 | two pending calls answered in either order each get their own response and both entries go |
| Client.RegisterKeepsSingleShot | src/rpc/rpc-client.ts:43 | registering a new resolver keeps the invariant that every caller is resolved at most once |
| Client.ReceiveKeepsSingleShot | src/rpc/rpc-client.ts:61-65 | receiving any response keeps that invariant |
| Server.ParseRequest | src/rpc/rpc-server.ts:57-59 | defined iff the request has 9 bytes; id and name length are the LE uint32s at 1 and 5, and the name is the UTF-8 of `[9, 9+len)` |
| Server.RequestFrame | src/__tests__/rpc.test.ts:11-17 | tag REQUEST, the id at offset 1 and the name's byte length at offset 5 (LE uint32s), the name's UTF-8 bytes from 9, then the arguments from `9 + len` |
| Server.ParseRequestLayout | src/rpc/rpc-server.ts:57-59 | any request with an id at 1, a length at 5 and that many name bytes from 9 parses to that id, length and decoded name |
| Server.ParseRequestFrame | src/rpc/rpc-server.ts:57-59 | parsing a request frame gives back its id, name length and name |
| Server.ErrorFrame | src/rpc/rpc-server.ts:68-72 | 6 bytes that read back as tag RESPONSE, the request's id and error flag 1 |
| Server.Dispatch | src/rpc/rpc-server.ts:56-74 | an unparsable request throws and an unknown name sends nothing; for a registered name, a handler returning a writer sends exactly its bytes, one returning null sends the error frame for the request's id, and one that throws makes the server throw |
| Server.DispatchRequestFrame | src/rpc/rpc-server.ts:60-64 | a built request reaches the handler for its name with its id and offset `9 + len`, and the handler's answer decides the outcome |
| Server.DispatchResponds | src/rpc/rpc-server.ts:60-66 | a parsed request whose handler returns a writer is answered with exactly that writer's bytes |
| Server.WriteErrorFrame | src/rpc/rpc-server.ts:68-71 | the 6-byte writer the server fills for a null answer holds `ErrorFrame(id)` |
| Server.RpcServer.constructor | src/rpc/rpc-server.ts:33 | no handler is registered |
| Server.RpcServer.On | src/rpc/rpc-server.ts:52-54 | the name maps to the new handler; other names are unchanged |
| Server.RpcServer.OnRequestData | src/rpc/rpc-server.ts:56-74 | the outcome is `Dispatch(handlers, request)`, with the error frame built by a writer; the table is unchanged |
| StandardIoChannel.Frame | src/rpc/standard-io-channel.ts:13-18 | 4 more bytes than the data; the first 4 decode to its length and the rest is the data |
| StandardIoChannel.ReadFrame | src/rpc/standard-io-channel.ts:47-51 | as written: a body iff its length is positive and that many bytes follow; the prefix is consumed either way |
| StandardIoChannel.PartialBodyDropsPrefix | src/rpc/standard-io-channel.ts:47-51 | as written, a partly arrived frame loses its prefix, so the next pass starts inside the body |
| StandardIoChannel.ReadFrameBuffered | src/rpc/standard-io-channel.ts:47-51 | corrected: a body under the same condition; otherwise the input is kept whole, except that a zero-length frame is skipped |
| StandardIoChannel.PartialFrameWaits | src/rpc/standard-io-channel.ts:47-51 | corrected, a partly arrived frame is left whole for a later pass |
| StandardIoChannel.ReadFrameOfFrame | src/rpc/standard-io-channel.ts:47-53 | a framed non-empty message, followed by anything, reads back whole and leaves exactly what follows |
| StandardIoChannel.EmptyFrameNotDelivered | src/rpc/standard-io-channel.ts:50-51 | the frame of an empty message is skipped without a dispatch |
| StandardIoChannel.Route | src/rpc/standard-io-channel.ts:53-64 | a call happens iff the tag is REQUEST with the request slot set or RESPONSE with the response slot set, with that slot's handler and the body |
| StandardIoChannel.ReadAll | src/rpc/standard-io-channel.ts:44-66 | corrected: every body that repeated `ReadFrameBuffered` passes dispatch is non-empty |
| StandardIoChannel.ReadAllAfterFrame | src/rpc/standard-io-channel.ts:47-53 | a whole frame at the front is dispatched, and reading goes on from what follows |
| StandardIoChannel.ReadAllPartialFrame | src/rpc/standard-io-channel.ts:47-51 | corrected, a frame that has only partly arrived dispatches nothing |
| StandardIoChannel.ReadAllFrames | src/rpc/standard-io-channel.ts:13-18 | a stream of frames of non-empty messages reads back as exactly those messages, in order |
| StandardIoChannel.ReadAllPrefix | src/rpc/standard-io-channel.ts:44-66 | from any prefix of that stream, the messages read are a prefix of those sent |
| StandardIoChannel.NodeStandardIoRpcChannel.constructor | src/rpc/standard-io-channel.ts:7-11 | slots empty, not closed, nothing written |
| StandardIoChannel.NodeStandardIoRpcChannel.SendRequestData | src/rpc/standard-io-channel.ts:13-18 | the output grows by `Frame(data)`; nothing else changes |
| StandardIoChannel.NodeStandardIoRpcChannel.OnResponse | src/rpc/standard-io-channel.ts:20-22 | the response slot holds the new handler; nothing else changes |
| StandardIoChannel.NodeStandardIoRpcChannel.SendResponseData | src/rpc/standard-io-channel.ts:24-29 | the output grows by the same `Frame(data)` as a request would |
| StandardIoChannel.NodeStandardIoRpcChannel.OnRequest | src/rpc/standard-io-channel.ts:31-33 | the request slot holds the new handler; nothing else changes |
| StandardIoChannel.NodeStandardIoRpcChannel.Open | src/rpc/standard-io-channel.ts:35-38 | the read loop is set to run |
| StandardIoChannel.NodeStandardIoRpcChannel.Close | src/rpc/standard-io-channel.ts:40-42 | as written: the read loop still runs afterwards |
| StandardIoChannel.NodeStandardIoRpcChannel.CloseIntended | src/rpc/standard-io-channel.ts:40-42 | corrected: the read loop stops before its next pass |
| StandardIoChannel.NodeStandardIoRpcChannel.ReadMessage | src/rpc/standard-io-channel.ts:46-65 | corrected: one pass takes the body that `ReadFrameBuffered` finds and routes it by `Route`; the rest, a partial frame whole, is left for the next pass |
| Loopback.LoopbackRpc.constructor | src/__tests__/rpc.test.ts:53-55 | the client's callback is in the response slot and the server's in the request slot; nothing pending, no handlers |
| Loopback.LoopbackCall | src/rpc/rpc-client.ts:42-45 | synchronously: without a response the caller is only registered; a response carrying the request's id removes the entry and resolves this caller with it |
| Loopback.LoopbackRpc.Call | src/rpc/rpc-client.ts:42-45 | the client ends as: registered, then the server's response frame (if any) received, in the same call |
| Loopback.AddHandler | src/__tests__/rpc.test.ts:34-47 | responds iff both int32 arguments can be read and their sum fits an int32, with that sum; otherwise throws |
| Loopback.AddResult | src/__tests__/rpc.test.ts:19-26 | a result iff the response has 10 bytes and error flag 0; the int32 at offset 6 |
| Loopback.BuildAddRequest | src/__tests__/rpc.test.ts:11-17 | corrected (needs the src/writer.ts:62 fix): for any method name, the writer steps build `RequestFrame(id, name, a ++ b)`: the int32 length that `appendStringAndSize` writes is the uint32 the server reads |
| Loopback.AddRequestLayout | src/writer.ts:57-64 | tag, id, int32 name length, name and two int32s are, byte for byte, `RequestFrame` of those arguments |
| Loopback.BuildAddResponse | src/__tests__/rpc.test.ts:41-46 | the writer steps build tag, id, flag 0, sum |
| Loopback.AddNameBytes | src/__tests__/rpc.test.ts:15 | "add" encodes to three ASCII bytes |
| Loopback.AddHandlerOnArgs | src/__tests__/rpc.test.ts:34-47 | with two encoded int32s at its offset, the handler answers with their sum |
| Loopback.AddHandlerOnRequest | src/__tests__/rpc.test.ts:35-39 | the handler reads the arguments where the client wrote them and answers with their sum |
| Loopback.AddResultOfResponse | src/__tests__/rpc.test.ts:19-26 | the client reads the sum back from the server's response |
| Loopback.AddDispatch | src/rpc/rpc-server.ts:56-66 | the server answers an `add` request with the response carrying the sum |
| Loopback.AddOverLoopback | src/__tests__/rpc.test.ts:52-59 | corrected (needs the src/writer.ts:62 fix): `add(a, b)` over the loopback clears the id and resolves exactly this caller, with a response reading `a + b` |
| Loopback.AddEndToEnd | src/__tests__/rpc.test.ts:52-59 | corrected (needs the src/writer.ts:62 fix): a fresh client and server on one channel: `add(4, 6)` reads back 10 |

## Left out

- `readDouble` and `appendDouble` (src/reader.ts:28-30, src/writer.ts:43-47): floating point, with no IEEE-754 encoding in the model.
- src/message.ts: an interface with no behaviour.
- The type and value of `RpcMessageType`: its defining file is not part of this model. REQUEST is 0 and RESPONSE is 1, after the protocol's frame layout; only their distinctness is used.
- Value-range errors: `writeInt32LE`, `writeInt8` and `writeUint32LE` throw on out-of-range values and `Buffer.allocUnsafe` throws on a negative size; non-integral values are undefined behaviour and `allocUnsafe` truncates a fractional size. The model's parameter types (`Int32`, `Int8`, `Byte`, `Uint32`, `nat`) exclude both instead of modelling them.
- Writer.NanoBufWriter.Bytes: `bytes` returns a view that shares storage with the writer (`subarray`), so a later write through the writer would show in an earlier view. The model returns a copy.
- Text that is not Unicode scalar values (JavaScript strings with lone surrogates): Dafny's `char` cannot hold them. The replacement of invalid UTF-8 follows the maximal-subpart rule of the Unicode Standard.
- Storage from `Buffer.allocUnsafe` holds arbitrary bytes. No contract says anything about a byte nobody wrote.
- Promises and `await`: a resolver is a token, and resolving it appends to a log.
- Exceptions across the RPC layer. A server exception during a loopback call would reject the caller's promise; `Loopback.LoopbackCall` leaves that caller pending and records nothing. A response shorter than 5 bytes makes `readUint32` throw in the client; `Client.Receive` leaves the state unchanged, which is what the throw leaves, and does not propagate the exception.
- Call handlers are pure functions of `(reader, offset, msgId)`. Their own side effects and asynchrony are not modelled.
- Client.RpcClient.NewMessageId: requires fewer than 2^32 pending ids. With every id pending, the source loops forever. Past the given `draws` the model picks some free id, so the loop's termination, which is only probabilistic, is not modelled.
- StandardIoChannel.NodeStandardIoRpcChannel.SendRequestData: requires data shorter than 2^32 bytes. For longer data `writeUint32LE` throws, which the model does not represent (likewise `SendResponseData` and `Frame`).
- Stream plumbing of src/rpc/standard-io-channel.ts is not modelled:
  - `process.stdout.write` (the model appends to a byte sequence);
  - `fs.readSync` reading the 4-byte prefix straight from the file descriptor, including short reads that leave stale bytes in the reused length buffer;
  - `process.stdin.read` taking the body from the stream's own buffer, and its short final chunk at end of stream;
  - the blocking `while (!this.isClosed)` loop that `open` starts.

  The model reads both the prefix and the body from one sequence of waiting bytes, one pass per `ReadMessage` call. `Open` and `Close` only set the flag the loop tests.
- The writer tests at src/__tests__/writer.test.ts:5-31 and later expect lengths the constructor does not produce: the cursor starts at the capacity. `Writer.TypeIdOnOneByteWriter` and `Writer.BooleanAfterTenByteStart` state what the code does. The other writer tests are stated as encodings (`Writer.WriterEncodingExamples`, and `Utf8.EncodeAscii` for the "hello world" test), not as whole-buffer contents.

## Findings

| source | as written | input that shows it | evidently intended | confidence | as-written member | corrected member |
|---|---|---|---|---|---|---|
| src/writer.ts:49-55 | `this.buffer.copy(buf, offset)` copies the writer's buffer into the temporary, because Node's signature is `source.copy(target, targetStart)`. The writer's bytes never change, and the cursor moves past bytes that keep whatever they held. The same reversal is at src/writer.ts:62 and src/writer.ts:70, modelled as written by `Writer.NanoBufWriter.AppendStringAndSizeAsWritten` and `Writer.NanoBufWriter.AppendBytesAsWritten`, whose corrected forms are `AppendStringAndSize` and `AppendBytes`. As written, the RPC test at src/__tests__/rpc.test.ts:52-59 therefore sends a method name of whatever bytes the fresh buffer held, the server finds no handler (src/rpc/rpc-server.ts:60-62) and sends nothing, so the call never resolves; `Loopback.BuildAddRequest`, `Loopback.AddOverLoopback` and `Loopback.AddEndToEnd` model the corrected writer. | A writer of capacity 8 with cursor 0: write field size 0 as 0, `appendInt32(0)`, then `appendString("a")`. The bytes are `[0,0,0,0,0]` instead of `[0,0,0,0,0x61]` (`Writer.AsWrittenAppendLosesText`). | `buf.copy(this.buffer, offset)`: the text's bytes land at the cursor (`Writer.AppendStringWritesText`). | not executed | Writer.NanoBufWriter.AppendStringAsWritten | Writer.NanoBufWriter.AppendString |
| src/rpc/standard-io-channel.ts:40-42 | `close()` stores `false` in `isClosed`, the value it already has after `open()`, so the read loop never stops. | `open()` then `close()`: the loop condition `!this.isClosed` still holds. | `close()` stores `true`, and the loop ends before its next pass. | not executed | StandardIoChannel.NodeStandardIoRpcChannel.Close | StandardIoChannel.NodeStandardIoRpcChannel.CloseIntended |
| src/rpc/standard-io-channel.ts:47-51 | When the body has not fully arrived, `read(msgSize)` returns null and the loop continues, but the 4-byte length has already been consumed. The next pass reads body bytes as a length. | The frame `[2,0,0,0,1,7]` with only its first 5 bytes arrived. The pass leaves `[1]`, and once `7` arrives the stream continues `[1,7]` with no length prefix (`StandardIoChannel.PartialBodyDropsPrefix`). | Keep the prefix until the whole body is there, so the frame is read once it completes (`StandardIoChannel.PartialFrameWaits`, `StandardIoChannel.ReadAllPrefix`). | not executed | StandardIoChannel.ReadFrame | StandardIoChannel.ReadFrameBuffered |
