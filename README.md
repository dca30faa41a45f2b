# rosgo topic subscription, modelled in Dafny

This project models the subscriber side of rosgo's topic transport and the two generated message codecs it carries.

- **The subscription coordinator** (`defaultSubscriber`). It tracks:
  - the publisher list the master reported;
  - one connection worker per accepted publisher;
  - the registered callbacks.

  Each of the five arms of its event loop is a method of the class `Subscriber.DefaultSubscriber`:
  - publisher-list update;
  - add callback;
  - inbound message;
  - disconnection notice;
  - shutdown.

  The dispatch job enqueued for each inbound message is `Subscriber.RunJob`.
- **The connection worker** (`startRemotePublisherConn`). It dials, writes the four-pair request header, folds the response header into a map and checks its `type` and `md5sum`. It then deframes the TCPROS stream: a 4-byte little-endian `uint32` length, followed by exactly that many bytes. Each payload is forwarded with an envelope carrying the response's `callerid`. The stream's end decides whether a disconnection notice follows.
- **The generated codecs** `std_msgs/Int16` and `std_msgs/Int32`, with their names, checksums and `NewMessage`:
  - `Serialize` appends the two's-complement value, low byte first, to a byte buffer;
  - `Deserialize` reads exactly 2 or 4 bytes from a reader that keeps a position into an array.

## How the model is built

- Modules follow the program:
  - `Bytes`: the little-endian codec and two's complement;
  - `BytesIo`: `bytes.Buffer`, `bytes.Reader` and `io.ReadFull`;
  - `StdMsgsInt16` and `StdMsgsInt32`;
  - `PublisherConn`;
  - `Subscriber`.
- Channels become method calls:
  - spawning a worker inserts a map entry;
  - sending on and closing a worker's quit channel is recorded in the ghost log `signals` (`Cancel` = send then close, `Close` = close only);
  - calls of `requestTopic` are recorded in the ghost log `requested`;
  - the job channel is the `JobQueue` class.
- `callRosApi(pub, "requestTopic", …)` is a function parameter `string -> TopicReply`. It is total and gives the same reply for the same publisher URI.
- The socket of a worker is a `Link` value. It holds whether the dial and the header write succeed, the response header (or a read failure), and a `Stream`: the bytes the publisher sends, then the error `io.ReadFull` meets after the last byte:
  - `EOF`: the peer closed the connection;
  - `Timeout`: the deadline set after quit passed;
  - `NetFault`: any other error.
- The asynchronous `quit` flag is the input `quitAfter`: the number of frames forwarded before the loop sees the flag at its top. `None` means it is never set.
- `io.ReadFull` is modelled exactly:
  - a read of 0 bytes always succeeds;
  - a read of n > 0 bytes with nothing left returns the stream's own error;
  - a partial read turns `EOF` into `ErrUnexpectedEOF`;
  - a failed read on a `bytes.Reader` drains it.
- `binary.Read` has no effect on the target when the read fails.
- A Go map lookup of a missing key gives `""`.
- `range` over the connections map in the shutdown arm has no specified order. The model picks keys with `:|`, and its contract holds for every order.
- Callbacks are tagged with their arity (`Arity0`, `Arity1`, `Arity2`, `ArityMore`), in place of reflection, so a job's output is the sequence of `Invocation`s it makes.
- `setDifference` is defined outside `ros/subscriber.go` and is not modelled from its code. The model reads it as "the elements of `a` not in `b`, each once, in the order they first appear in `a`".
- `writeConnectionHeader` and `readConnectionHeader` are defined outside `ros/subscriber.go` and are not modelled. Their effect is the `Link` fields `writeOk` and `response`.
- The coordinator is modelled only with the two message types `std_msgs/Int16` and `std_msgs/Int32` (`MessageType`). In the program, `msgType` can be any generated message type.
- `Valid()` is what every arm of the program keeps: at least one callback, and entries only for listed publishers.
- The worker record `ConnState` also holds the string the worker's disconnection notices carry. The class spawns workers with the corrected `Spawn`, whose notices carry the publisher's key. The program as written hands the worker its dial address instead (see Findings).

`ros/subscriber.go:246-247` treats the plain `io.EOF` that `io.ReadFull` returns before any body byte as a quiet end. So a frame cut right after its length prefix is not reported (`PublisherConn.TruncatedBody`).

## Model

| member | source | states |
|---|---|---|
| Bytes.DecodeEncodeLE | ros/subscriber.go:227 | decoding the little-endian bytes of u gives back u, for every u the width can hold |
| Bytes.EncodeDecodeLE | ros/subscriber.go:227 | every byte sequence is the little-endian encoding of the number it decodes to |
| Bytes.SignedRoundTrip | internal/std_msgs/Int32.go:53 | the two's-complement pattern of a signed value maps back to that value |
| BytesIo.Buffer.Write | internal/std_msgs/Int16.go:54 | the buffer afterwards is its old contents followed by the written bytes |
| BytesIo.Reader.constructor | ros/subscriber.go:112 | a new reader holds the given bytes, positioned at the start |
| BytesIo.ReadFullOutcome | ros/subscriber.go:227-241 | what io.ReadFull returns: n bytes exactly when n are available (an empty read always succeeds); otherwise the source's own error when nothing was read, and ErrUnexpectedEOF in place of EOF after a partial read |
| BytesIo.Reader.ReadFull | internal/std_msgs/Int16.go:60 | io.ReadFull on a bytes.Reader: n bytes available gives exactly the next n and advances by n; otherwise the reader is drained and the error is EOF when nothing was left and ErrUnexpectedEOF when some was |
| StdMsgsInt16.Encode | internal/std_msgs/Int16.go:54 | two bytes, low byte first, whose value is x taken modulo 2^16 |
| StdMsgsInt16.Decode | internal/std_msgs/Int16.go:60 | the int16 whose 16-bit two's-complement pattern is the two bytes, low byte first |
| StdMsgsInt16.DecodeEncode | internal/std_msgs/Int16.go:52-63 | deserializing what Serialize writes gives back the original data |
| StdMsgsInt16.EncodeDecode | internal/std_msgs/Int16.go:52-63 | every two bytes are the serialization of exactly the value they deserialize to |
| StdMsgsInt16.Int16.NewMessage | internal/std_msgs/Int16.go:29-33 | a new message holds 0 |
| StdMsgsInt16.Int16.Serialize | internal/std_msgs/Int16.go:52-56 | appends exactly the 2-byte encoding of data, leaves earlier buffer contents alone, and returns nil |
| StdMsgsInt16.Int16.Deserialize | internal/std_msgs/Int16.go:58-64 | with 2 or more bytes left, consumes exactly 2, sets data to their value and returns nil; with fewer, returns EOF (none left) or ErrUnexpectedEOF (one left) and leaves data as it was |
| StdMsgsInt32.Encode | internal/std_msgs/Int32.go:53 | four bytes, low byte first, whose value is x taken modulo 2^32 |
| StdMsgsInt32.Decode | internal/std_msgs/Int32.go:59 | the int32 whose 32-bit two's-complement pattern is the four bytes, low byte first |
| StdMsgsInt32.DecodeEncode | internal/std_msgs/Int32.go:51-62 | deserializing what Serialize writes gives back the original data, for every int32 |
| StdMsgsInt32.EncodeDecode | internal/std_msgs/Int32.go:51-62 | every four bytes are the serialization of exactly the value they deserialize to |
| StdMsgsInt32.Int32.NewMessage | internal/std_msgs/Int32.go:29-33 | a new message holds 0 |
| StdMsgsInt32.Int32.Serialize | internal/std_msgs/Int32.go:51-55 | appends exactly the 4-byte encoding of data, leaves earlier buffer contents alone, and returns nil |
| StdMsgsInt32.Int32.Deserialize | internal/std_msgs/Int32.go:57-63 | with 4 or more bytes left, consumes exactly 4 and sets data to their value; with fewer, returns EOF or ErrUnexpectedEOF and leaves data as it was |
| PublisherConn.RequestHeader | ros/subscriber.go:169-173 | four pairs whose keys are topic, md5sum, type and callerid, each once, carrying the given values |
| PublisherConn.HeaderMap | ros/subscriber.go:194-198 | every key of the folded map comes from some response pair; HeaderMapKeys and HeaderMapLastWins give the rest |
| PublisherConn.Compatible | ros/subscriber.go:199 | a passing response carries the local type and md5sum whenever they are non-empty; a response with neither key passes only empty local values, since a missing key reads as "" |
| PublisherConn.EventOf | ros/subscriber.go:205-208 | the envelope carries the whole response map, with the response callerid as publisher name, or "" when it has none |
| PublisherConn.HeaderMapKeys | ros/subscriber.go:194-198 | a key is in the folded response map iff some response pair carries it |
| PublisherConn.HeaderMapLastWins | ros/subscriber.go:194-198 | a key maps to the value of the last response pair carrying it |
| PublisherConn.FoldHeaders | ros/subscriber.go:194-198 | the loop builds exactly the folded response map |
| PublisherConn.ReadFrame | ros/subscriber.go:227-252 | reading one frame consumes input: what remains after a frame is shorter than what was there |
| PublisherConn.Deframe | ros/subscriber.go:222-255 | the reference reading of the read loop; its meaning is fixed by DeframeBounds, DeframeFrames, FramedStream, TruncatedLength, TruncatedBody and QuitStops |
| PublisherConn.DeframeBounds | ros/subscriber.go:222-225 | the loop forwards no more payloads than there are bytes, and none beyond the first quitAfter once quit is set |
| PublisherConn.ReadMessage | ros/subscriber.go:227-252 | one pass of the loop body reads a length, then exactly that many bytes, and yields the body and the rest or the loop's end, as ReadFrame says |
| PublisherConn.ReadLoop | ros/subscriber.go:219-255 | the read loop returns exactly the payloads and the end given by deframing the stream under the quit input |
| PublisherConn.Frame | ros/subscriber.go:227-241 | a frame is 4 bytes of length followed by the payload itself |
| PublisherConn.FramesAppend | ros/subscriber.go:222-255 | framing two payload sequences one after the other is framing their concatenation |
| PublisherConn.ReadFrameOf | ros/subscriber.go:227-241 | a frame at the head of the data reads back as exactly its payload, whatever follows it, including a length of 0 |
| PublisherConn.DeframeFrames | ros/subscriber.go:222-255 | a stream that starts with well-formed frames yields their payloads in stream order, then whatever the rest yields |
| PublisherConn.FramedStream | ros/subscriber.go:222-255 | a stream of whole frames yields all their payloads in order; it then ends quietly on EOF or timeout and with a disconnection on any other error |
| PublisherConn.TruncatedLength | ros/subscriber.go:227-237 | a stream cut inside a length prefix yields the whole frames before it and then disconnects, unless the deadline passed |
| PublisherConn.TruncatedBody | ros/subscriber.go:239-252 | a stream cut inside a body yields the whole frames before it; EOF with no body byte or a timeout ends quietly, anything else disconnects |
| PublisherConn.QuitStops | ros/subscriber.go:222-225 | once quit is seen after j payloads, exactly the first j payloads are forwarded and the loop ends quietly |
| PublisherConn.StartRemotePublisherConn | ros/subscriber.go:148-256 | dial, write or read failure and a type or md5sum mismatch each give one notice and no payload; the request header is exactly topic, md5sum, type, callerid; after the handshake every payload is forwarded in stream order with the response callerid as publisher, and one notice follows iff the loop ended with a disconnection |
| Subscriber.MessageType.Name | internal/std_msgs/Int16.go:21-23 | the std_msgs name of the type: std_msgs/Int16 or std_msgs/Int32 (Int16.go:39, Int32.go:38) |
| Subscriber.MessageType.MD5Sum | internal/std_msgs/Int16.go:25-27 | the type's checksum, 32 lower-case hexadecimal digits (Int16.go:40, Int32.go:39) |
| Subscriber.Decoded | ros/subscriber.go:111-115 | the decoded message has the subscriber's type; with enough bytes, its value serializes back to the payload's first bytes; with too few, it is the zero value |
| Subscriber.DistinctTypesIncompatible | internal/std_msgs/Int16.go:39-40 | a response of the other message type fails the handshake of this one, since the type names differ |
| Subscriber.DecodedEncoding | ros/subscriber.go:111-115 | a job on a payload starting with the Int32 encoding of x decodes x, whatever bytes follow |
| Subscriber.DecodedEncoding16 | ros/subscriber.go:111-115 | a job on a payload starting with the Int16 encoding of x decodes x, whatever bytes follow |
| Subscriber.DecodedShortPayload | ros/subscriber.go:111-115 | a payload too short for the type leaves the job's message at the zero value NewMessage gave it |
| Subscriber.Invocations | ros/subscriber.go:116-123 | at most one call per snapshotted callback; InvocationsSound, InvocationsComplete and InvocationsInOrder give the rest |
| Subscriber.InvocationsAppend | ros/subscriber.go:117-123 | the calls for a + b are the calls for a followed by the calls for b |
| Subscriber.InvocationsSound | ros/subscriber.go:116-123 | every call goes to a snapshotted callback of arity at most 2, with the first arity-many of (message, event) |
| Subscriber.InvocationsComplete | ros/subscriber.go:117-123 | every snapshotted callback of arity at most 2 is called |
| Subscriber.InvocationsInOrder | ros/subscriber.go:117-123 | when no callback needs more than 2 arguments, the calls follow the snapshot one to one, in registration order |
| Subscriber.LateCallbackNotInvoked | ros/subscriber.go:108-109 | a callback missing from the snapshot is never called by the job |
| Subscriber.DecodePayload | ros/subscriber.go:111-115 | NewMessage, a reader over the payload and Deserialize give the message Decoded says, also when Deserialize fails |
| Subscriber.CallAll | ros/subscriber.go:116-123 | the loop over the snapshot makes exactly the calls Invocations gives, in snapshot order |
| Subscriber.RunJob | ros/subscriber.go:110-124 | the job makes exactly the calls given by the snapshot, the message its payload decodes to and the envelope; a Deserialize error does not stop it |
| Subscriber.ShortPayloadStillDispatched | ros/subscriber.go:113-122 | after a Deserialize error, every callback of arity at most 2 is still called, with the zero message |
| Subscriber.PublishedInt32Delivered | integration_test.go:55-90 | one framed Int32 value x reaches a one-argument callback exactly once, carrying x |
| Subscriber.SetDifference | ros/subscriber.go:60-61 | an element is in the result iff it is in a and not in b, and no element appears twice |
| Subscriber.DialAddress | ros/subscriber.go:88 | the address, a colon, then a minus sign exactly when the port is negative, then a decimal numeral without leading zeros whose value is the port's magnitude |
| Subscriber.Digits | ros/subscriber.go:88 | the `%d` form of n: digits only, no leading zero, "0" exactly for 0 |
| Subscriber.DigitsValue | ros/subscriber.go:88 | the digits of n read back, most significant first, as n |
| Subscriber.Spawn | ros/subscriber.go:86-92 | the worker dials the negotiated address; corrected: its notices carry the publisher's own key |
| Subscriber.SpawnAsWritten | ros/subscriber.go:88-97 | as written, the worker is given the dial address, so its notices carry that address |
| Subscriber.DisconnectNoticeMissesAsWritten | ros/subscriber.go:126-131 | as written, a worker's notice leaves its entry in place whenever the publisher's URI differs from the dial address |
| Subscriber.DisconnectNoticeMissesExample | ros/subscriber.go:88-131 | the dial address of host talker and port 40002 is the string talker:40002, and the entry for http://talker:40001/ survives its worker's notice |
| Subscriber.Connect | ros/subscriber.go:73-101 | the second loop keeps every existing entry and adds one only for a listed new publisher with a TCPROS reply |
| Subscriber.ConnectEntries | ros/subscriber.go:73-101 | after the second loop a publisher has an entry iff it had one or it is new with a TCPROS reply; new entries come from the reply and others are untouched |
| Subscriber.CancelSignals | ros/subscriber.go:64-72 | every signal the first loop sends is a cancel for a dead publisher that had an entry, at most one per dead publisher |
| Subscriber.CancelledOnce | ros/subscriber.go:64-72 | a dead publisher with an entry gets exactly one cancel signal, even when listed twice; every other publisher gets none |
| Subscriber.AfterUpdate | ros/subscriber.go:58-101 | an entry outside the new list is one that was already outside the old list, and a new entry belongs to a listed new publisher with a TCPROS reply |
| Subscriber.UpdateEntries | ros/subscriber.go:58-101 | after an update, exactly the listed publishers that kept an entry or are new with a TCPROS reply have one; a failed or non-TCPROS reply skips that publisher only |
| Subscriber.UpdateKeepsKeysListed | ros/subscriber.go:58-101 | an update keeps every connection key in the new list |
| Subscriber.UpdateKeepsNoticeIds | ros/subscriber.go:58-101 | corrected: with the corrected spawn, an update keeps every entry's notices naming its own key |
| Subscriber.WorkerNoticeRemovesEntry | ros/subscriber.go:88-131 | a worker spawned by an update for a new TCPROS publisher reports under that publisher's key, so its notice removes exactly its entry |
| Subscriber.DroppedButListedStaysDisconnected | ros/subscriber.go:126-131 | a publisher whose connection dropped but which stays listed is not reconnected by the next update |
| Subscriber.KeysWithinList | ros/subscriber.go:262-264 | with keys within the list, there are no more connections than listed publishers |
| Subscriber.DefaultSubscriber.constructor | ros/subscriber.go:34-46 | one callback, no publishers, no connections; Valid() holds |
| Subscriber.DefaultSubscriber.OnPublisherList | ros/subscriber.go:58-101 | the list becomes exactly the new one; dead entries are cancelled once and dropped; requestTopic is asked once per new publisher, in list order; Valid() is kept and callbacks are unchanged |
| Subscriber.DefaultSubscriber.CancelDead | ros/subscriber.go:64-72 | the loop drops exactly the dead publishers' entries and sends one cancel per dead publisher that had one |
| Subscriber.DefaultSubscriber.ConnectNew | ros/subscriber.go:73-101 | the loop asks every new publisher once, in order, and spawns a worker exactly for TCPROS replies |
| Subscriber.DefaultSubscriber.OnAddCallback | ros/subscriber.go:102-104 | exactly one callback is appended; the list, connections and signals are unchanged |
| Subscriber.DefaultSubscriber.OnMessage | ros/subscriber.go:105-125 | exactly one job is enqueued, holding the payload, the envelope and the callbacks as they are now; the subscriber is unchanged |
| Subscriber.DefaultSubscriber.OnDisconnected | ros/subscriber.go:126-131 | the named entry is closed and dropped if present, and nothing else changes |
| Subscriber.DefaultSubscriber.OnShutdown | ros/subscriber.go:132-143 | every worker gets exactly one cancel, in some order; the subscriber is unregistered and stops |
| Subscriber.DefaultSubscriber.GetNumPublishers | ros/subscriber.go:262-264 | the length of the publisher list, which bounds the number of open connections |

## Left out

- Goroutines, channel capacities (10), `select` fairness and blocking sends: the arms are sequential method calls, and a send on a full channel is not modelled.
- The quit goroutine and `SetDeadline` (`ros/subscriber.go:211-217`) are concurrency. `quit` becomes the input `quitAfter`, and the deadline becomes the stream ending with `Timeout`.
- `net.Dial`, the socket, `time.Now()` (`ReceiptTime`) and every logger call are I/O and a clock. The link's outcomes are inputs, and the envelope has no receipt time.
- `callRosApi` (XML-RPC to the master and publishers) is a parameter. The type assertions on its reply (`ros/subscriber.go:80-87`), which panic on a malformed reply, are not modelled. The error of `unregisterSubscriber` is only logged, so the model records the call and nothing else.
- `writeConnectionHeader` and `readConnectionHeader` are defined outside `ros/subscriber.go`, not modelled: their byte formats are abstract, and their outcomes are inputs.
- Reflection: a callback whose parameter types do not fit the message makes `fun.Call` panic; the model has no such case.
- `Text()` and the message-definition strings are constant data.
- `Shutdown` and the `start`/`startSubscription` plumbing (wait groups, the outer `for`) only feed the channels.
- Subscriber.DefaultSubscriber.OnShutdown: states each worker is cancelled once but not which order, because Go's map iteration order is unspecified.
- PublisherConn.StartRemotePublisherConn: takes the string its notices carry as a parameter; the coordinator uses the publisher's key for it (see Findings).
- Subscriber.Spawn: records the corrected notice string (the publisher's key), not the dial address that `ros/subscriber.go:91-92` hands the worker.
- Subscriber.Connect: its entries record the corrected notice string (Subscriber.Spawn); the keys it adds match the program.
- Subscriber.ConnectEntries: the entry values it states are the corrected spawn; which publishers get an entry matches the program.
- Subscriber.AfterUpdate: its entries record the corrected notice string; the keys match the program.
- Subscriber.UpdateEntries: the new entry values it states are the corrected spawn; which publishers keep or get an entry matches the program.
- Subscriber.UpdateKeepsNoticeIds: holds only of the corrected spawn; as written, `Subscriber.DisconnectNoticeMissesExample` shows it failing.
- Subscriber.DefaultSubscriber.ConnectNew: inserts the corrected spawn; the keys it adds and the requests it makes match the program.
- Subscriber.DefaultSubscriber.OnPublisherList: its new entries record the corrected notice string; everything else matches the program.
- Subscriber.SetDifference: lists its result in first-occurrence order. The program's helper is not modelled and may order it differently; only the order of the `requestTopic` calls and of the cancel signals depends on this.
- PublisherConn.Deframe: its bounds are stated by the lemma DeframeBounds rather than on the function, to keep the proofs that unfold it small.

## Findings

| source | as written | input that shows it | evidently intended | confidence | as-written member | corrected member |
|---|---|---|---|---|---|---|
| ros/subscriber.go:88-91,126-131 | the worker is started with the dial address `uri` (`addr:port`) and sends it on `disconnectedChan`, but `connections` is keyed by the publisher URI `pub`, so the lookup in the disconnection arm misses and the entry and its quit channel stay | publisher `http://talker:40001/` replying `TCPROS`, `talker`, `40002`: the notice is `talker:40002`, the entry `http://talker:40001/` stays | the notice names the entry's key, so the disconnection arm drops exactly the failed worker's entry | not executed | Subscriber.DisconnectNoticeMissesExample | Subscriber.WorkerNoticeRemovesEntry |
