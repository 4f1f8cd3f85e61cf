# hakoniwa-pdu-endpoint, verified model

A Dafny model of the endpoint library: the packet codecs, the framed TCP byte stream, the caches and
the endpoint that joins them, the WebSocket write pump, the TCP multiplexer, the endpoint container and
the PDU definition table. `dafny verify dfyconfig.toml` checks all of it.

## How it is built

- `types.dfy`, `byte_order.dfy`: bytes are numbers below 256; masks and shifts are written as quotients
  and remainders. A `HostStore`/`HostLoad` pair gives what `memcpy` moves on a little- or a big-endian
  machine, so `to_le`/`from_le` are proved against memory, not assumed.
- `packet_codec.dfy`, `data_packet.dfy`, `comm_raw.dfy`, `acceptance.dfy`: both wire formats. 32-bit length arithmetic wraps
  explicitly. The decoders are functions on any byte string; the `DataPacket` class fills and scans buffers
  as the source does and is proved equal to them.
- `framing.dfy`: what a byte stream *means* as a list of frames (`Frames`), independent of any loop.
- `tcp.dfy`: `recv` and `send` as scripts of answers (any positive count, EAGAIN, 0, another errno);
  `read_data`, `write_data`, the three frame loops and the two outer loops, each proved equal to `Frames` of
  the bytes. Text that is identical in several loops of the source is written once. Another thread clearing
  the running flag is a counter of the checks that still find it set.
- `channel.dfy`, `end_to_end.dfy`, `thread_order.dfy`, `failed_write.dfy`, `delivery.dfy`: one connection as a
  state machine. Sender threads, the send lock, the kernel's byte stream, the receive loop and the receiving endpoint (cache, subscribers and
  `recv` calls) take steps in any order. `Channel.WriteDataIsARun` ties the `write_data` loop to the steps; a
  received message acts on the endpoint by the functions that specify `Endpoint.RecvCallback`, and the
  application reads by the function that specifies `Endpoint.Recv`.
- `cache.dfy`, `subsequence.dfy`: both caches as classes, and their contents as a function of the history of
  calls.
- `endpoint.dfy`, `lifecycle.dfy`: the endpoint's calls, and start/stop/close interleaved with the receive
  thread.
- `websocket_session.dfy`, `websocket_comm.dfy`: the write pump and the broadcast to all sessions.
- `mux.dfy`, `container.dfy`, `pdu_definition.dfy`: the hand-off of accepted sessions, the ledger of
  endpoints, the two definition formats.

## Main results

1. Frames never interleave: over every run, whatever fails, the wire is one piece for each send that had the
   lock, in lock order, then a prefix of the lock holder's frame (`EndToEnd.FramesNeverInterleave`). What is
   received depends only on the bytes (`EndToEnd.PacketsFollowBytes`). Until a write fails part-way the
   pieces are whole frames and the packets are a prefix of them (`EndToEnd.PacketsArePrefixOfFrames`); what
   happens after it is stated exactly (`FailedWrite.CutFrameOnTheWire`).
2. Per-key delivery, end to end, for every cache depth and every interleaving: to callers of `recv` with either
   cache (`EndToEnd.QueueEndToEnd`, `EndToEnd.BufferEndToEnd`), to subscribers (`EndToEnd.SubscriberEndToEnd`),
   and complete delivery (`EndToEnd.EverythingArrives`, `Delivery.MessageIsDelivered`). What comes from one
   sender thread comes in the order that thread sent it (`ThreadOrder.QueueKeepsThreadOrder`,
   `ThreadOrder.SubscriberKeepsThreadOrder`).
3. A list of packets is read back from its concatenated encodings if and only if each is within the
   receiver's limits (`Framing.UniquelyReadable`).
4. What both decoders accept, by offset (`Acceptance.AcceptedV2`, `PacketCodec.AcceptedV1`,
   `Acceptance.CalledBackIff`), and round trips of both codecs on any two machines (`PacketCodec.DecodeEncodeV2`,
   `PacketCodec.DecodeEncodeV1`, `PacketCodec.EncodeDecodeV1`).
5. The bounded queue refines its history, and every write is read, evicted or still queued
   (`Cache.QueueHoldsWindow`, `Cache.EveryWriteAccountedFor`, `Cache.EvictedExactlyWhenOvertaken`).
6. The WebSocket pump and the global broadcast order (`WebSocketPump.WritesStartInOrder`,
   `WebSocketPump.NothingLostWhileParentLives`, `WebSocketBroadcast.BroadcastOrder`,
   `WebSocketBroadcast.ClientsDecodeBroadcasts`), and every broadcast gets written unless a write fails
   (`WebSocketBroadcast.CanDrain`, `WebSocketBroadcast.SendCanBeWritten`).
7. Over every sequence of calls and failures each endpoint a container ever made is in its map or was closed
   exactly once, and none was closed while started unless `create_pdu_lchannels` failed late
   (`Container.Drive`).
8. Callbacks find the cache running and stop after stop (`Lifecycle.CallbacksFindCacheRunning`,
   `Lifecycle.NoCallbackAfterStop`), and every packet reaches one
   (`Lifecycle.EveryPacketCalledBack`).
9. What a load of either definition format stores under every name (`PduDefinitions.LegacyLoadStores`,
   `PduDefinitions.CompactLoadStores`). After any loads the lookups by name and by channel are inverse as far as
   channel ids are unique (`PduDefinitions.LookupsInverse`), and the formats agree
   (`PduDefinitions.FormatsAgree`).

## Where the code does less than one might expect

- After a write that failed part-way the connection stays open, and the receiver completes the cut frame with
  the bytes of the next one. A run in which it is handed a message nobody sent is given
  (`FailedWrite.CutRunDeliversFrameAsData`, `FailedWrite.CutFrameExample`).
- The v2 wire image is the same on both kinds of machine only when the two bytes of `reserved` agree: that
  field is copied without conversion (`PacketCodec.WireImageIndependentOfHost`). Packets built from a name,
  a channel and a body have `reserved` 0 (`PacketCodec.BuiltPacketImage`).
- `decode_v1` accepts a header length of 0xFFFFFFFC or more because `4 + header_len` wraps
  (`PacketCodec.AcceptedV1`, `PacketCodec.WrappedLengthAccepted`). The TCP loops never pass such a packet on
  (`Framing.FramedAcceptance`).
- With a raw comm, `Endpoint::recv` reports every failing cache read as UNSUPPORTED with size 0, so the
  needed size is reported only without a comm (`EndpointApi.NeededSizeReportedIff`).
- A session comm whose receive loop ended by itself cannot be started again
  (`Lifecycle.SessionRestartCrashesIff`).
- The counter of a `TcpCommMultiplexer` survives close and open, so one that is used directly and opened again
  may be ready at once (`Mux.ReopenedReadyIff`, `Mux.ReopenedReadyExample`). Behind an
  `EndpointCommMultiplexer` this cannot happen, because that one opens at most once (`Mux.WrappedOpensOnce`).
- `create_pdu_lchannels` on an initialised container, against its documented order, closes a started endpoint
  without stopping it exactly when it fails while one is started
  (`Container.EndpointContainer.CreatePduLchannels`, `Container.OutOfOrderRun`).
- After one failed write a WebSocket session accepts messages but never writes again
  (`WebSocketPump.FailureIsFinal`).

## Model

| member | source | states |
|---|---|---|
| ByteOrder.ReadLe32IsLeValue | include/hakoniwa/pdu/comm/packet.hpp:133-138 | the shift-and-or of four bytes is the little-endian number they denote |
| ByteOrder.SwapReverses32 | include/hakoniwa/pdu/comm/packet.hpp:151-156 | bswap32 reverses the four bytes of its argument |
| ByteOrder.SwapReverses64 | include/hakoniwa/pdu/comm/packet.hpp:158-167 | the eight masked terms of bswap64 reverse the eight bytes of the argument |
| ByteOrder.StoreToLe64 | include/hakoniwa/pdu/comm/packet.hpp:185-191 | storing to_le64(v) leaves the little-endian bytes of v in memory on either kind of machine |
| ByteOrder.LoadFromLe64 | include/hakoniwa/pdu/comm/packet.hpp:209-215 | from_le64 of a loaded word is the little-endian value of its bytes on either kind of machine |
| PacketCodec.NameFieldHoldsName | include/hakoniwa/pdu/comm/packet.hpp:86-95 | a stored name reads back cut at the first NUL and at 127 bytes, unchanged exactly when it is already so |
| Acceptance.NormaliseIsLongest | include/hakoniwa/pdu/comm/packet.hpp:86-89 | the stored name is the longest front of the name with no NUL and at most 127 bytes |
| PacketCodec.EncodeV2Wire | include/hakoniwa/pdu/comm/packet.hpp:218-238 | the v2 encoding on any machine is the little-endian image of the fields, total_len = 172 + body_len in 32 bits, then the body |
| PacketCodec.WireImageIndependentOfHost | include/hakoniwa/pdu/comm/packet.hpp:218-238 | little- and big-endian machines send identical bytes if and only if the two bytes of `reserved` agree |
| PacketCodec.BuiltPacketImage | include/hakoniwa/pdu/comm/packet.hpp:70-76 | a packet built from a name, a channel and a body has one wire image on both kinds of machine |
| PacketCodec.DecodeEncodeV2 | include/hakoniwa/pdu/comm/packet.hpp:218-276 | between any two machines decode_v2 recovers name, channel, the three times and the announced body, whatever bytes follow the packet |
| PacketCodec.BodySurvivesV2 | include/hakoniwa/pdu/comm/packet.hpp:221-273 | the v2 round trip gives the body back if and only if it is shorter than 2^32 |
| Acceptance.AcceptedV2 | include/hakoniwa/pdu/comm/packet.hpp:240-273 | exactly which byte strings decode_v2 accepts: at least 304 bytes, the magic number, version 2, and the announced body present |
| Acceptance.DecodedV2 | include/hakoniwa/pdu/comm/packet.hpp:240-276 | name, channel, type, the three times and the body of an accepted byte string, by offset |
| Acceptance.EncodedLengths | include/hakoniwa/pdu/comm/packet.hpp:221-227 | encode_v2 writes total_len = 172 + body_len and body_len, both modulo 2^32, at their offsets |
| PacketCodec.DecodeEncodeV1 | include/hakoniwa/pdu/comm/packet.hpp:279-336 | decode_v1 after encode_v1 keeps name, channel and body when no length overflows, and returns the packet itself exactly when it was built from a name, a channel and a body |
| PacketCodec.AcceptedV1 | include/hakoniwa/pdu/comm/packet.hpp:308-326 | exactly which byte strings shorter than 2^32 decode_v1 accepts, with the wrapping comparisons resolved |
| Acceptance.DecodedV1 | include/hakoniwa/pdu/comm/packet.hpp:323-336 | the normalised name, the channel and the body of an accepted byte string, by offset |
| PacketCodec.WrappedLengthAccepted | include/hakoniwa/pdu/comm/packet.hpp:323 | an input with header length 2^32 - 1 is accepted |
| PacketCodec.EncodeDecodeV1 | include/hakoniwa/pdu/comm/packet.hpp:279-336 | re-encoding an accepted byte string reproduces it if and only if its length field is its length - 4 and its name has at most 127 bytes and no NUL |
| DataPackets.DataPacket.SetRobotName | include/hakoniwa/pdu/comm/packet.hpp:86-95 | afterwards the name reads back normalised and no other field has changed |
| DataPackets.DataPacket.EncodeAsV1 | include/hakoniwa/pdu/comm/packet.hpp:279-306 | filling the buffer by offset gives the v1 encoding |
| DataPackets.DataPacket.EncodeAsV2 | include/hakoniwa/pdu/comm/packet.hpp:218-238 | converting the struct copy field by field gives the v2 encoding |
| DataPackets.DataPacket.FromV1 | include/hakoniwa/pdu/comm/packet.hpp:308-336 | scanning by index is total with every access in range, and gives the v1 decoding or null |
| DataPackets.DataPacket.FromV2 | include/hakoniwa/pdu/comm/packet.hpp:240-276 | converting and checking the received struct gives the v2 decoding or null |
| CommRaw.ReceiveFrame | include/hakoniwa/pdu/comm/comm_raw.hpp:44-107 | a frame received whole calls back with the sent data under the normalised key, except v1 data that starts with a control value |
| Acceptance.CalledBackIff | include/hakoniwa/pdu/comm/comm_raw.hpp:85-107 | the callback is called exactly for accepted packets of the data type: by the type field in v2, and in v1 unless the body starts with one of the three control values |
| Acceptance.CalledBackWith | include/hakoniwa/pdu/comm/comm_raw.hpp:96-106 | the key and the data it is called with, by offset |
| Framing.FrameReadableIff | src/comm_tcp.cpp:275-325 | the loop reads a send back as one frame if and only if v1 lengths are within 4 MiB, or the v2 body is below 2^32 |
| Framing.UniquelyReadable | src/comm_tcp.cpp:274-326 | the loop over the concatenated encodings of a list of sends gives exactly those frames if and only if each send is readable |
| Framing.ReadPrefixOfSent | src/comm_tcp.cpp:274-326 | also with v1 frames above the limit, what is read is a prefix of what was sent |
| Framing.DecompositionUnique | src/comm_tcp.cpp:274-326 | a stream is its frames and an unfinished rest in exactly one way |
| Framing.CutFrameNotDelivered | src/comm_tcp.cpp:287-293 | a frame cut by the end of the stream is not delivered, all frames before it are |
| Framing.FramesMonotone | src/comm_tcp.cpp:274-326 | more bytes only add frames at the end |
| Framing.WhyReadingStops | src/comm_tcp.cpp:275-321 | reading stops only inside a frame or, in v1, at a length of 0 or above 4 MiB |
| Framing.BadLengthEndsStream | src/comm_tcp.cpp:282-286 | a v1 length of 0 or above 4 MiB always ends the connection: no later frame is handed over, whatever follows |
| Framing.FramedAcceptance | src/comm_tcp.cpp:282-286 | no packet the loops hand over has a length near 2^32, and decode_v1 accepts one exactly when its two lengths agree |
| Framing.LoadedBodyLen | src/comm_tcp.cpp:308-310 | the body length read from the struct is the little-endian word at offset 148 on either kind of machine |
| Framing.DecodedFrames | include/hakoniwa/pdu/comm/comm_raw.hpp:85-107 | decoding the frames of a list of sends gives the surviving messages in order |
| Framing.RejectedFrameSkipped | include/hakoniwa/pdu/comm/comm_raw.hpp:85-94 | a complete frame that is rejected is consumed whole and leaves all other deliveries as if it were absent |
| Tcp.ReadData | src/comm_tcp.cpp:418-435 | fills exactly the requested bytes for every chunking, or fails when the stream is too short |
| Tcp.WriteData | src/comm_tcp.cpp:437-457 | puts the whole buffer on the wire, or a proper prefix and returns IO_ERROR |
| Tcp.WrittenAllIff | src/comm_tcp.cpp:437-457 | everything is written if and only if the answers, up to some point, are positive counts and EAGAIN and accept that much |
| Tcp.ReadFrameV1 | src/comm_tcp.cpp:275-295 | one round of the v1 branch takes exactly the first frame of the stream, or breaks |
| Tcp.ReadFrameV2 | src/comm_tcp.cpp:298-325 | one round of the v2 branch takes exactly the first frame of the stream, or breaks |
| Tcp.ReadFrameV2Client | src/comm_tcp.cpp:386-411 | the client's v2 branch takes the same frame |
| Tcp.TcpComm.ServeConnection | src/comm_tcp.cpp:274-326 | server_loop's inner loop hands over the frames of the bytes, up to the check that finds the flag cleared |
| Tcp.TcpComm.ServeAsClient | src/comm_tcp.cpp:362-412 | client_loop's inner loop hands over the same frames |
| Tcp.TcpSessionComm.RecvLoop | src/comm_tcp_mux.cpp:285-328 | recv_loop_ hands over the same frames and clears its flag |
| Tcp.TcpComm.ServerLoop | src/comm_tcp.cpp:257-334 | over many connections: the frames of each in turn; the connection is closed and unmarked exactly when one was reached before the flag was cleared |
| Tcp.TcpComm.ClientLoop | src/comm_tcp.cpp:336-416 | the same frames; the connected flag is set exactly when it was set before or a connection was reached, and is never cleared |
| Tcp.ServedIsPerConnection | src/comm_tcp.cpp:257-334 | whenever it is stopped, the loop has delivered a prefix of the frames of the separate connections: bytes of one are never joined with the next |
| Tcp.TcpComm.Send | include/hakoniwa/pdu/comm/comm_raw.hpp:44-55 | OK exactly when the whole frame is on the wire, otherwise the part the kernel's answers let through; not connected and IN-only endpoints write nothing |
| Channel.SenderKeepsLock | include/hakoniwa/pdu/comm/comm_raw.hpp:44-55 | every sender step keeps: exactly the lock holder writes, and writes its own frame |
| Channel.StepKeepsInv | src/comm_tcp.cpp:274-326 | every step of senders, kernel, reader and application keeps the lock, wire, reader, cache and subscriber invariants |
| Channel.WriteDataIsARun | src/comm_tcp.cpp:437-457 | every call of write_data, for every script of answers, is a path of the machine with the same bytes on the wire and the same result |
| EndToEnd.FramesNeverInterleave | include/hakoniwa/pdu/comm/comm_raw.hpp:44-55 | over every run one thread writes at a time and the wire is one piece for each send, in lock order, then a prefix of the holder's frame; until a write fails part-way the pieces are whole frames |
| EndToEnd.PacketsFollowBytes | src/comm_tcp.cpp:274-326 | over every run, also after failed writes, packets and messages are a function of the bytes received |
| EndToEnd.PacketsArePrefixOfFrames | src/comm_tcp.cpp:274-326 | until a write fails part-way the packets handed over are a prefix of the frames in lock order |
| EndToEnd.EverythingArrives | include/hakoniwa/pdu/comm/comm_raw.hpp:85-107 | once all bytes are received, the packets and cache writes are exactly those of all sends within the limits |
| Delivery.MessageIsDelivered | include/hakoniwa/pdu/endpoint.hpp:420-430 | for every message within the limits, a run in which recv returns exactly its data, with either cache, and a subscriber of its key is called once with it |
| EndToEnd.QueueEndToEnd | include/hakoniwa/pdu/endpoint.hpp:320-330 | what Endpoint::recv returns on a key is an in-order, duplicate-free selection of what was sent under it |
| EndToEnd.QueueEndToEndExact | include/hakoniwa/pdu/endpoint.hpp:420-430 | with normal names and bodies, of exactly the data sent with that key |
| ThreadOrder.QueueKeepsThreadOrder | include/hakoniwa/pdu/comm/comm_raw.hpp:44-55 | each value recv returns comes from its own call of send on that key, and those of one sender thread in the order it called send |
| ThreadOrder.BufferKeepsThreadOrder | include/hakoniwa/pdu/comm/comm_raw.hpp:44-55 | with the latest-value cache a value may come again, but no thread's sends out of order |
| ThreadOrder.SubscriberKeepsThreadOrder | include/hakoniwa/pdu/endpoint.hpp:420-430 | a callback subscribed once hears each call of send at most once, those of one thread in the order it called send |
| ThreadOrder.StepKeepsCalls | include/hakoniwa/pdu/comm/comm_raw.hpp:44-55 | every step keeps: a thread's calls of send get the lock in the order it made them |
| EndToEnd.BufferEndToEnd | include/hakoniwa/pdu/cache/cache_buffer.hpp:77-113 | with the latest-value cache every value Endpoint::recv returns was sent under its key, and successive calls never go back to an older send |
| EndToEnd.SubscriberEndToEnd | include/hakoniwa/pdu/endpoint.hpp:420-430 | a callback subscribed once is called with every message on its key that arrives after its subscription, once each, in the order sent |
| FailedWrite.CutFrameSwallowsNext | src/comm_tcp.cpp:445-451 | a frame cut anywhere is delivered if and only if the next bytes are the missing ones; whatever is delivered in its place swallows some of the next bytes |
| FailedWrite.CutFrameOnTheWire | src/comm_tcp.cpp:445-451 | on every run, once the first cut frame is received, the packets are the whole frames before it and what is read from the cut frame and the bytes after it; the cut frame itself is among them, in its place, if and only if those bytes are its missing ones |
| FailedWrite.CutRunDeliversFrameAsData | src/comm_tcp.cpp:445-451 | for all messages of fitting lengths, a run in which the receiver takes one thread's frame for another's data and is handed a message nobody sent |
| FailedWrite.CutFrameExample | src/comm_tcp.cpp:445-451 | two messages for which that run delivers a packet and a message that equal neither |
| Cache.PduLatestQueue.Open | include/hakoniwa/pdu/cache/cache_queue.hpp:36-56 | the error and the resulting depth for each kind of configuration |
| Cache.PduLatestQueue.Write | include/hakoniwa/pdu/cache/cache_queue.hpp:80-93 | appends and drops the oldest above the depth; other keys keep their queues |
| Cache.PduLatestQueue.Read | include/hakoniwa/pdu/cache/cache_queue.hpp:95-122 | each answer if and only if its case holds, with the size it reports; OK copies and removes the oldest entry, every other answer leaves queue and buffer alone |
| Cache.QueueHoldsWindow | include/hakoniwa/pdu/cache/cache_queue.hpp:80-122 | after every history each key holds the unread accepted writes from the read cursor or the last `depth`, in order |
| Cache.QueueLength | include/hakoniwa/pdu/cache/cache_queue.hpp:89-91 | the queue length is min(depth, unread) |
| Cache.EveryWriteAccountedFor | include/hakoniwa/pdu/cache/cache_queue.hpp:80-122 | writes = read + evicted + queued, and each accepted write is exactly one of the three |
| Cache.TakenByReads | include/hakoniwa/pdu/cache/cache_queue.hpp:106-121 | a write counts as read exactly when a read of its key succeeds, and that read copies this write |
| Cache.EvictedByWrites | include/hakoniwa/pdu/cache/cache_queue.hpp:86-91 | a write counts as evicted exactly when another write drops the front of the queue, and the front is this write |
| Cache.FateOfOtherCalls | include/hakoniwa/pdu/cache/cache_queue.hpp:80-122 | calls on other keys, starts and stops neither read nor evict; close forgets |
| Cache.EvictedExactlyWhenOvertaken | include/hakoniwa/pdu/cache/cache_queue.hpp:86-91 | a write is evicted if and only if at some moment `depth` later writes to its key had arrived while it was unread |
| Cache.QueueReadsAreOrdered | include/hakoniwa/pdu/cache/cache_queue.hpp:95-122 | successful reads on a key are an in-order, duplicate-free selection of the writes on it |
| Cache.ReadOutcome | include/hakoniwa/pdu/cache/cache_queue.hpp:98-121 | the same for any queue: NOT_RUNNING, NO_ENTRY with size 0, NO_SPACE with the needed size, or OK, each if and only if |
| Cache.PduLatestBuffer.Write | include/hakoniwa/pdu/cache/cache_buffer.hpp:77-87 | replaces the entry of the key and no other |
| Cache.PduLatestBuffer.Read | include/hakoniwa/pdu/cache/cache_buffer.hpp:89-113 | each answer if and only if its case holds; OK copies the entry without consuming it |
| Cache.BufferOutcome | include/hakoniwa/pdu/cache/cache_buffer.hpp:89-113 | the same for any latest-value cache |
| Cache.BufferHoldsLatest | include/hakoniwa/pdu/cache/cache_buffer.hpp:77-113 | after every history a key holds the last write accepted since the last close |
| Cache.BufferReadsNeverGoBack | include/hakoniwa/pdu/cache/cache_buffer.hpp:89-113 | successive reads on a key never go back to an older write |
| Cache.DepthOneQueueAgreesWithBuffer | include/hakoniwa/pdu/cache/cache_queue.hpp:80-93 | a queue of depth 1 that holds a value holds the buffer cache's value |
| EndpointApi.Endpoint.NotifySubscribers | include/hakoniwa/pdu/endpoint.hpp:389-415 | calls the callbacks subscribed to the key, in subscription order |
| EndpointApi.OncePerSubscription | include/hakoniwa/pdu/endpoint.hpp:397-414 | each callback is called with the message once per subscription to its key |
| EndpointApi.Endpoint.Send | include/hakoniwa/pdu/endpoint.hpp:300-318 | with a comm only the comm is used; without one the cache is written and subscribers told only on success |
| EndpointApi.Endpoint.Recv | include/hakoniwa/pdu/endpoint.hpp:320-330 | the cache's answer, replaced by the comm's when the cache fails |
| EndpointApi.RecvAnswers | include/hakoniwa/pdu/endpoint.hpp:320-330 | every answer of recv: with a raw comm all failures are UNSUPPORTED with size 0, without one NOT_RUNNING, NO_ENTRY or NO_SPACE each in its case |
| EndpointApi.Endpoint.RecvCallback | include/hakoniwa/pdu/endpoint.hpp:420-430 | writes the cache and tells subscribers even if the cache refuses |
| EndpointApi.Endpoint.Stop | include/hakoniwa/pdu/endpoint.hpp:216-229 | the cache stops whatever the comm returns, and the comm's error comes first |
| EndpointApi.NeededSizeReportedIff | include/hakoniwa/pdu/endpoint.hpp:320-330 | the needed size reaches the caller if and only if there is no raw comm, and it is the least size with which the next call succeeds |
| EndpointApi.SendThenRecv | include/hakoniwa/pdu/endpoint.hpp:310-330 | without a comm, on a running cache, a sent message is received after one recv for each entry of its key still queued before it |
| EndpointApi.RecvsOfQueue | include/hakoniwa/pdu/endpoint.hpp:320-330 | over every history recv passes on exactly the successful reads of the queue cache, with or without a comm |
| EndpointApi.RecvsOfBuffer | include/hakoniwa/pdu/endpoint.hpp:320-330 | the same for the latest-value cache |
| Lifecycle.StepKeepsInv | include/hakoniwa/pdu/endpoint.hpp:175-229 | every step of start, stop, close and the receive thread keeps the lifecycle invariant |
| Lifecycle.CallbacksFindCacheRunning | include/hakoniwa/pdu/endpoint.hpp:192-229 | over every run each callback finds the cache running |
| Lifecycle.EveryPacketCalledBack | include/hakoniwa/pdu/comm/comm_raw.hpp:85-107 | over every run the callbacks made are as many as the packets that arrived while a callback was registered |
| Lifecycle.StartRuns | include/hakoniwa/pdu/endpoint.hpp:192-202 | a start without a receive thread ends with cache, flag and thread running, and the next packet reaches the cache |
| Lifecycle.StartAgain | src/comm_tcp.cpp:195-199 | a start while the loop runs leaves the comm alone |
| Lifecycle.StopGetsThrough | include/hakoniwa/pdu/endpoint.hpp:216-229 | stop and close never get stuck: from every reachable state they can return, with cache and flag down and a running thread joined |
| Lifecycle.CloseUnregisters | include/hakoniwa/pdu/endpoint.hpp:175-179 | after close no later packet reaches the callback |
| Lifecycle.NoCallbackAfterStop | include/hakoniwa/pdu/endpoint.hpp:216-229 | after stop or close returned no callback runs until the next start |
| Lifecycle.TcpNeverCrashes | src/comm_tcp.cpp:195-231 | starting and stopping a TcpComm endpoint any number of times never terminates the program |
| Lifecycle.SessionRestartCrashesIff | src/comm_tcp_mux.cpp:128-151 | starting a session comm terminates the program if and only if its receive loop had ended by itself without being joined |
| Lifecycle.SessionRestartExample | src/comm_tcp_mux.cpp:138-151 | a run that does so |
| WebSocketPump.WebSocketSession.DoWrite | src/comm_websocket.cpp:164-186 | posts a write handler, or a close when the parent is gone |
| WebSocketPump.WebSocketSession.RunNextHandler | src/comm_websocket.cpp:166-179 | the handler posted first queues its message and starts a write only on an idle session |
| WebSocketPump.RunHandlerDoes | src/comm_websocket.cpp:166-179 | one run takes exactly the front handler; a write is queued last and starts at once if and only if the queue was empty; a close only marks the session |
| WebSocketPump.PostDoes | src/comm_websocket.cpp:164-186 | calls from outside only post, behind what is there |
| WebSocketPump.WebSocketSession.ProcessQueue | src/comm_websocket.cpp:189-207 | starts the front of the queue, or clears the queue of a session without a parent |
| WebSocketPump.WebSocketSession.WriteDone | src/comm_websocket.cpp:209-233 | removes a written message and starts the next, keeps a failed one, and keeps the pump invariant |
| WebSocketPump.CompleteDoes | src/comm_websocket.cpp:209-233 | a success counts the front message and starts the next one, a failure keeps it and starts nothing |
| WebSocketPump.OneWriteAtATime | src/comm_websocket.cpp:164-233 | at most one outstanding write, of the queue's front, exactly when is_writing_; a non-empty idle queue only after a failure |
| WebSocketPump.WritesStartInOrder | src/comm_websocket.cpp:164-233 | writes start once each, in the order posted |
| WebSocketPump.NothingLostWhileParentLives | src/comm_websocket.cpp:164-233 | posted messages = completed writes, then the queue, then handlers not yet run |
| WebSocketPump.DeadParentStartsNothing | src/comm_websocket.cpp:164-233 | once the parent is gone nothing more is requested or written, whatever happens |
| WebSocketPump.FailureIsFinal | src/comm_websocket.cpp:212-220 | after a failed write nothing is ever written again |
| WebSocketPump.ClearedOnlyByOnWrite | src/comm_websocket.cpp:199-206 | the queue is only ever cleared by on_write after its parent died |
| WebSocketBroadcast.StepKeepsList | src/comm_websocket.cpp:378-437 | every event keeps the session list free of duplicates and consistent with joins and removals |
| WebSocketBroadcast.StepKeepsPumps | src/comm_websocket.cpp:396-413 | every event keeps: a session was asked for exactly the broadcasts made while it was listed |
| WebSocketBroadcast.BroadcastOrder | src/comm_websocket.cpp:378-437 | each session's completed writes are a prefix of the broadcasts made while it was listed |
| WebSocketBroadcast.SendReachesEveryMember | src/comm_websocket.cpp:396-413 | raw_send posts one write of the message to every listed session and touches no other; not running or without sessions it does nothing |
| WebSocketBroadcast.DrainedHasWrittenEveryBroadcast | src/comm_websocket.cpp:396-413 | over every run a session with nothing left to do and no failed write has completed every broadcast made while it was listed |
| WebSocketBroadcast.CanDrain | src/comm_websocket.cpp:189-233 | no session gets stuck: without a failed write it can complete every broadcast made while it was listed |
| WebSocketBroadcast.SendCanBeWritten | src/comm_websocket.cpp:396-413 | so a send can be completed on every listed session, behind all earlier ones |
| WebSocketBroadcast.MembersChange | src/comm_websocket.cpp:425-460 | which events put sessions on the list and take them off, and how a new one starts |
| WebSocketBroadcast.LeavingCloses | src/comm_websocket.cpp:350-389 | a removed session, and every session at raw_stop, gets a close posted, and no other |
| WebSocketBroadcast.GoneHearsNoMore | src/comm_websocket.cpp:378-389 | a session that left hears no later broadcast, over any further events |
| WebSocketBroadcast.SessionsAgree | src/comm_websocket.cpp:407-411 | two sessions agree on every position of the global order both have completed |
| WebSocketBroadcast.ClientsDecodeBroadcasts | include/hakoniwa/pdu/comm/comm_raw.hpp:85-107 | what a client's endpoint is handed is a prefix of the surviving messages broadcast while its session was listed, in the one order they were sent |
| Mux.NamesDistinct | src/endpoint_comm_multiplexer.cpp:121 | generated names with different numbers differ |
| Mux.StepKeepsInv | src/comm_tcp_mux.cpp:468-506 | every step of the accept thread and the taker keeps the hand-off invariant |
| Mux.HandedOutInAcceptOrder | src/comm_tcp_mux.cpp:468-506 | taken then pending sessions are all accepted ones in accept order, and connected_count never exceeds their number |
| Mux.NamesFollowAcceptOrder | src/endpoint_comm_multiplexer.cpp:120-139 | returned endpoints are named by accept number from 1, all distinct |
| Mux.ReadinessIsStable | include/hakoniwa/pdu/comm/comm_mux.hpp:33 | readiness stays, behind an EndpointCommMultiplexer for ever and otherwise until the next open, and one take then brings the sessions taken to the expected number |
| Mux.WrappedOpensOnce | src/endpoint_comm_multiplexer.cpp:44-90 | an EndpointCommMultiplexer that has a comm and does not listen never listens again |
| Mux.ReopenedReadyIff | src/comm_tcp_mux.cpp:342-426 | a TcpCommMultiplexer used directly and opened again is ready at once if and only if the sessions accepted so far reach the new number |
| Mux.ReopenedReadyExample | src/comm_tcp_mux.cpp:342-426 | such a run: ready before the accept thread exists and with no session to take |
| Mux.EndpointCommMultiplexer.TakeEndpoints | src/endpoint_comm_multiplexer.cpp:108-142 | takes every pending session, numbers all of them, returns those that open and start, and closes those that open but do not start |
| Mux.HandedIff | src/endpoint_comm_multiplexer.cpp:120-139 | a session is handed out, under its number, if and only if its endpoint opens and starts; it is closed if and only if it opens but does not start |
| Mux.OpenLeaves | src/comm_tcp_mux.cpp:342-426 | what each kind of success and failure of open leaves behind; BUSY changes nothing |
| Mux.OnlyOpenOpens | src/comm_tcp_mux.cpp:428-483 | no other call makes a comm, sets the expected number or opens the socket |
| Mux.StartedAccepts | src/comm_tcp_mux.cpp:438-506 | after a start a client is accepted, counted and handed out |
| Mux.StoppedAcceptsNone | src/comm_tcp_mux.cpp:448-466 | after stop or close no client is accepted until the next start |
| Mux.StopGetsThrough | src/comm_tcp_mux.cpp:428-466 | stop and close never get stuck and end with thread and socket gone |
| Container.EndpointContainer.Create | src/endpoint_container.cpp:213-228 | one endpoint per id, made on first use |
| Container.EndpointContainer.Rollback | src/endpoint_container.cpp:101-107 | closes every cached endpoint once in any order and forgets it |
| Container.EndpointContainer.CreatePduLchannels | src/endpoint_container.cpp:54-85 | keeps the ledger; returns the first error of the configuration and the calls; a failing call closes every endpoint that was open; an endpoint is closed while started if and only if a call fails while one is started |
| Container.EndpointContainer.CreateAndOpen | src/endpoint_container.cpp:230-245 | creates the endpoint on first use and opens it, keeping all others |
| Container.EndpointContainer.Initialize | src/endpoint_container.cpp:86-113 | succeeds if and only if the container is new, its configuration can be read and every endpoint opens; then all are open, and otherwise none is left in the cache |
| Container.EndpointContainer.StartAll | src/endpoint_container.cpp:248-271 | every endpoint gets exactly one start, in any order, and nothing else; returns the first error, OK exactly when all succeed |
| Container.FirstErrorIsFirst | src/endpoint_container.cpp:258-270 | the error returned is a result with only OK before it |
| Container.EndpointContainer.StopAll | src/endpoint_container.cpp:309-348 | stops then closes every endpoint once, whatever fails, and forgets all |
| Container.EndpointContainer.StartOneEndpoint | src/endpoint_container.cpp:350-373 | starts the named endpoint only |
| Container.EndpointContainer.StopOneEndpoint | src/endpoint_container.cpp:434-470 | stops, closes and forgets the named endpoint only; an unknown id is OK |
| Container.Drive | src/endpoint_container.cpp:54-113 | over every sequence of calls with any failures each endpoint ever created is cached or was closed exactly once; one was closed while started if and only if create_pdu_lchannels failed while one was started, which takes a call against the documented order |
| Container.OutOfOrderRun | src/endpoint_container.cpp:75-82 | a run of initialize, start_all and create_pdu_lchannels in which a started endpoint is closed without being stopped |
| PduDefinitions.PduDefinition.LoadLegacy | src/pdu_definition.cpp:49-88 | for every robot and name: the last reader entry of that name, else what was there, else the first writer entry, with every field; nothing else changes |
| PduDefinitions.PduDefinition.LoadCompact | src/pdu_definition.cpp:90-147 | nothing is stored if a set is unreadable; otherwise, for the robots before the first unknown set, the last entry of each name in the first set with the robot's id, with every field |
| PduDefinitions.LegacyLoadStores | src/pdu_definition.cpp:49-88 | the same for the table a legacy load leaves |
| PduDefinitions.CompactLoadStores | src/pdu_definition.cpp:90-147 | the same for the table a compact load leaves, and where it stops |
| PduDefinitions.FormatsAgree | src/pdu_definition.cpp:49-147 | a compact file and its legacy expansion give the same type, channel and size for every robot and name |
| PduDefinitions.CompactLoadsIff | src/pdu_definition.cpp:131-139 | loading succeeds if and only if every robot names a known set |
| PduDefinitions.PduDefinition.ResolveChannel | src/pdu_definition.cpp:164-178 | finds a definition exactly when one has the channel, namely that of the least PDU name |
| PduDefinitions.LexLeqMeans | src/pdu_definition.cpp:170-175 | the order of the names is std::string's: a prefix, or smaller at the first difference |
| PduDefinitions.LookupsInverse | src/pdu_definition.cpp:149-178 | after any loads, what is found by channel has that channel and is found again by its name; what is found by name is found again by its channel, for every name of a robot, if and only if no two of its definitions share a channel |
| PduDefinitions.LookupsInverseIff | src/pdu_definition.cpp:164-178 | within one robot every definition is the least match of its own channel if and only if channel ids are unique |
| PduDefinitions.LegacyTableWellNamed | src/pdu_definition.cpp:62-63 | every definition stays stored under its own PDU name |
| PduDefinitions.CompactTableWellNamed | src/pdu_definition.cpp:141-143 | the same for a compact file, also when it stops at an unknown set |

## Left out

- Socket creation, bind, listen, accept, connect, options, timeouts and address resolution: only the answers of `recv` and `send` are modelled.
- Boost.Asio and Beast: the strand is a FIFO of handlers and an async write completes once, later, with success or failure; handshakes, reads and close frames are not modelled beyond their effect on the session list.
- JSON parsing, file access, path normalisation, configuration files: loading starts from parsed records, and JSON exceptions inside a load are not modelled.
- Shared memory and UDP comms, time sources, factories, typed endpoints, logging, the Python tools and the examples.
- C++ data races on unlocked fields: each locked section, strand handler or flag access is one step.
- `hako_primitive_types.h` is not part of this model: a channel id is taken to be a signed 32-bit integer, converted to and from the unsigned field of a packet.
- DataPackets.DataPacket.EncodeAsV1: excludes lengths whose 32-bit sum overflows, because the source then writes past its buffer, which has no defined behaviour.
- PacketCodec.RobotName: a received 128-byte name field without any NUL is read up to its end; the source then reads on past the array, which has no defined behaviour.
- Channel.StepKeepsInv: senders only send messages the wire formats can express (no 32-bit overflow in v1, bodies below 2^32 in v2); `PacketCodec.BodySurvivesV2` covers v2 beyond that.
- Lifecycle.TcpNeverCrashes: does not say that a restarted server accepts again; `raw_stop` closes the listening socket, so it accepts only after a new open (sockets are not modelled).
- Lifecycle.NoCallbackAfterStop: the receive thread is the one of a TCP comm; the WebSocket comm's thread, which also stops its event loop, is not part of it.
- Endpoint open, name-based send and recv, and `post_start`: they select and forward.
- EndpointContainer `post_start_all`, `is_running_all`, `ref`, `list_endpoint_ids`: they read or forward without changing the ledger.
- `PduDefinition::get_pdu_channel_id` answers -1 for an unknown PDU, which is also a possible channel id; only `get_pdu_size` is modelled beside the lookups.
