# Protocol executors and targets: a verified model

This project models the parts of the protocol laboratory whose behaviour is hard to see by
reading: the concurrent load phase of the HTTP/2 executor, the multiplexed HTTP/2 WebSocket
session (RFC 8441), WebSocket framing in its independent implementations (RFC 6455) and the
RFC 9220 echo between the two Python peers, DNS name decompression and response validation
(RFC 1035), the classic DNS executor with its authority, gRPC framing and streaming echo, and
the TLS record observer (RFC 8446). The main results are for all inputs, all runs or all
reachable states of the model; a few lemmas beside them are about literals, the witnesses of
failing properties and the committed fixtures (`CanonicalAccepted`, `OtherSpellingsAccepted`,
`LoopRefused`, `LongNameRejected`, `EarlyDataIsLost`, `CommittedSound`, `ScenarioLengths`).

Concurrent code is a step system: program counters, channel occupancies, mutexes, tokens and
atomics in a state, one atomic action at a time, and theorems over every sequence of actions.
Time guards are choices. Byte parsers are functions on a buffer together with the loops and
classes that implement them. Random masking keys, the network, the HPACK decoder and SHA-256
are parameters.

| modules | what they model |
|---|---|
| `Scheduler`, `SchedulerBounds`, `SchedulerWakeups`, `SchedulerFairness` | the slot scheduler of the HTTP/2 executor |
| `Recorder`, `LoadPhase`, `LoadPhaseHangs` | recorder, start barrier, workers and topology gate of a load phase, and how it can hang |
| `PeakLoop` | the compare-and-swap peak of the concurrent WebSocket phase |
| `Http2Session`, `Http2Stream` | the reader that demultiplexes a session, and one stream of it |
| `Incremental`, `WebSocket`, `WebSocketGo`, `Streams` | incremental parsing; the WebSocket codecs |
| `Lockstep`, `Rfc9220`, `Rfc9220Session`, `Rfc9220Language` | the RFC 9220 peers over a transport that cuts bytes anywhere, and the frames the server lets pass |
| `DnsName`, `DnsResponse`, `DnsWriting`, `DnsSpelling`, `DnsShortest` | compressed names, the response validators and their reference parser |
| `DnsClassic` | DNS over UDP and TCP with retry, executor and authority |
| `Protobuf`, `Grpc` | varint messages, identity frames, streaming on both sides |
| `TlsRecords` | the record observer |
| `Octets`, `Bits`, `Counting` | octets, byte order, masking and what the bit operations mean; counting over sequences |

Properties one would expect that turned out to be false of the code, each with the exact
condition under which they hold:

- The start barrier opens in some run exactly when there are no more workers than slots
  (`LoadPhaseHangs.BarrierOpensExactlyWhen`). A phase with a worker can always hang, since a
  worker whose first loop guard fails never calls `Done` (`HangsExactlyWhen`), and such a
  deserter keeps the barrier shut for good (`DeserterKeepsItShut`); without a deserter a phase
  can hang exactly when there are more workers than slots (`CrowdHangsExactlyWhen`). Otherwise
  it opens after boundedly many steps of whatever interleaving (`OpensInBoundedSteps`).
- A waiting worker can be woken and find its slot taken again, any number of times, exactly
  when there are more workers than slots (`SchedulerFairness.OvertakenExactlyWhen`). It is
  served once no new acquire starts (`Scheduler.EveryWaiterServed`).
- A dropped wake-up token can leave a worker parked beside a free slot, with nobody about to
  wake it, exactly when there are at least two slots and at least two more workers than slots
  (`SchedulerWakeups.StrandedExactlyWhen`). Like overtaking, this concerns the scheduler under
  other callers: in a load phase no worker ever receives a token, so that none fails a second
  scan, and none is ever stranded
  (`LoadPhaseHangs.NobodyEverWoken`, `LoadPhaseHangs.NoPhaseStrands`).
- A stream of the multiplexed session loses the DATA that precedes its response headers,
  exactly when such DATA carries octets (`Http2Stream.DiscardsExactlyWhen`,
  `Http2Stream.EarlyDataIsLost`).
- The Python reader's frames depend on the cutting of the stream exactly when it is at least
  one frame followed by octets that open with a reserved bit
  (`WebSocket.CuttingMattersExactlyWhen`).
- The record observer's counters depend on the cutting exactly when the stream is records
  followed by an oversized header and a complete record stands somewhere behind that header
  (`TlsRecords.CuttingMattersExactlyWhen`); counters and buffer together do exactly when any
  octet stands behind it (`TlsRecords.StateDependsExactlyWhen`).
- `maskedFrame` brings a payload over exactly up to 65535 octets
  (`WebSocketGo.MaskedFrameRoundTrip`).
- The protobuf decoder takes overlong varints (`Protobuf.OverlongAccepted`), and a tenth group
  whose high bits fall off (`Protobuf.TenthGroupFallsOff`); an accepted message is canonical
  exactly when its length is (`Protobuf.CanonicalExactlyWhenSameLength`).
- DNS names are compared as dotted strings, so that the one label `plab.test` passes for two
  (`DnsSpelling.TwoReadings`), and the length the DoQ validator insists on does not force the
  canonical response: four messages of it are accepted (`DnsShortest.FourMessages`).
- The executors' validators tell the fixtures from everything else exactly when the digests do
  (`DnsClassic.AcceptsExactlyWhen`, `DnsClassic.AcceptsStreamExactlyWhen`,
  `Grpc.ClientAcceptsExactlyWhen`).

## Model

| member | source | states |
|---|---|---|
| `Scheduler.NoStuckState` | executors/go-http2-executor/source/load.go:161-189 | in every interleaving of acquire, release and cancellation a parked worker has a token waiting or another worker that scans, holds a slot or is about to notify, and some worker inside can always move |
| `Scheduler.EveryWaiterServed` | executors/go-http2-executor/source/load.go:161-189 | from every reachable state, once no new acquire starts, runs are bounded and end with every worker outside acquire and release |
| `Scheduler.CancelledPoolDrains` | executors/go-http2-executor/source/load.go:161-181 | once the context is cancelled nobody calls acquire again, a parked worker can leave at once, continuations are bounded and end with every worker gone |
| `Scheduler.CallsReturn` | executors/go-http2-executor/source/load.go:161-189 | on every run each call of acquire is under way, returned a connection or failed after cancellation; each connection returned is held or given back once, and each one given back is followed by one post of the token |
| `Scheduler.InvRun` | executors/go-http2-executor/source/load.go:146-189 | every run keeps the mutex exclusive, the slot occupancies equal to the holders and at most the channel size, and the liveness condition |
| `Scheduler.HolderOccupies` | executors/go-http2-executor/source/load.go:183-189 | a worker that holds a slot finds its channel non-empty, so release never blocks |
| `SchedulerBounds.FirstScanSucceeds` | executors/go-http2-executor/source/load.go:161-189 | with no more workers than slots, no scan fails and nobody parks in any interleaving |
| `SchedulerBounds.BalancedFirstWave` | executors/go-http2-executor/source/load.go:153-173 | after k grants without a release, connection i holds k div C slots and one more if i < k mod C |
| `SchedulerWakeups.StrandedExactlyWhen` | executors/go-http2-executor/source/load.go:161-189 | a run that leaves a worker parked beside a free slot with no wake-up coming exists if and only if there are at least 2 slots and at least 2 more workers than slots |
| `SchedulerWakeups.NotStranded` | executors/go-http2-executor/source/load.go:161-189 | the half for all runs: outside that condition no run strands a worker |
| `SchedulerFairness.OvertakenExactlyWhen` | executors/go-http2-executor/source/load.go:161-189 | for every k > 0, a run in which one acquire fails k scans while k slots go to others exists if and only if there are more workers than slots |
| `SchedulerFairness.HeldUpExactlyWhen` | executors/go-http2-executor/source/load.go:161-181 | k slots going to others while a worker is in one acquire, failed scan or not, needs no more than a second worker, because it may not have the mutex yet |
| `Recorder.PhaseRecorder.Begin` | executors/go-http2-executor/source/load.go:482-493 | raises the two levels and their maxima, and nothing else |
| `Recorder.PhaseRecorder.Finish` | executors/go-http2-executor/source/load.go:495-520 | lowers the levels and raises exactly one of the timed-out, failed and successful counts, by the check, and the octets by a successful payload |
| `Recorder.MaximaAreExact` | executors/go-http2-executor/source/load.go:482-520 | after any history the recorded maxima are the highest levels ever reached, in all and per connection |
| `Recorder.RecordsLevels` | executors/go-http2-executor/source/load.go:482-520 | the current counters are the operations begun and not finished |
| `Recorder.OutcomesAddUp` | executors/go-http2-executor/source/load.go:495-520 | finished operations are the timed out, failed and successful ones together |
| `Recorder.OutcomesAreExact` | executors/go-http2-executor/source/load.go:495-520 | after any history each count is the number of finishes of its class and the octets are the payloads of the successful ones |
| `LoadPhase.RecordIsHistory` | executors/go-http2-executor/source/load.go:432-520 | the record of every run of a phase is that of its begins and finishes, each counted under its own outcome |
| `Recorder.ValidateMeasuredTopology` | executors/go-http2-executor/source/load.go:552-577 | the first reason to reject, written out: a shape that differs, a connection above the configured streams, or a peer limit that is zero or below the streams modulo 2^32; acceptance exactly without any |
| `Recorder.RaisedLimit` | executors/go-http2-executor/source/load.go:569-574 | a raised peer limit never turns an accepted phase into a rejected one |
| `LoadPhase.PhaseRefinesScheduler` | executors/go-http2-executor/source/load.go:426-455 | every run of the phase, seen by the scheduler, is a run of the scheduler |
| `LoadPhase.ActiveNeverExceedsSlots` | executors/go-http2-executor/source/load.go:426-455 | the active operations of a connection are at most its occupied slots, which are at most streamsPerConnection |
| `LoadPhase.OpenedPhaseIsExact` | executors/go-http2-executor/source/load.go:426-455 | once the barrier is open the recorded maximum is exactly the concurrency, and with concurrency equal to the capacity every per-connection maximum is exactly streamsPerConnection |
| `LoadPhaseHangs.BarrierOpensExactlyWhen` | executors/go-http2-executor/source/load.go:426-453 | a run that opens the barrier exists if and only if there are no more workers than slots |
| `LoadPhaseHangs.OpenMeansJoined` | executors/go-http2-executor/source/load.go:443-453 | an open barrier means that every worker has called Done |
| `LoadPhase.GateRejectsOnlyPeerLimits` | executors/go-http2-executor/source/load.go:552-577 | after an opened phase the shape matches, no connection exceeds the configured streams, and all connections pass exactly when every peer limit allows the streams |
| `LoadPhase.GateAfterOpening` | executors/go-http2-executor/source/load.go:552-577 | after an opened barrier the gate accepts exactly when every peer limit is at least the streams, and otherwise names a connection whose limit is too low |
| `LoadPhase.CommittedProfiles` | executors/go-http2-executor/source/load.go:267-283 | in the three committed profiles nobody ever waits and an opened phase has exact maxima |
| `LoadPhaseHangs.HaltedShutExactlyWhen` | executors/go-http2-executor/source/load.go:432-455 | a reachable phase in which nothing can move has its barrier shut if and only if there are more workers than slots or a worker left without Done; open, every worker has left |
| `LoadPhaseHangs.DeserterKeepsItShut` | executors/go-http2-executor/source/load.go:436-453 | once a worker has left without Done, the barrier is shut in every continuation |
| `LoadPhaseHangs.HangsExactlyWhen` | executors/go-http2-executor/source/load.go:436-453 | a run that hangs at the shut barrier exists if and only if there is a worker |
| `LoadPhaseHangs.CrowdHangsExactlyWhen` | executors/go-http2-executor/source/load.go:426-453 | one that hangs with no worker gone exists if and only if there are more workers than slots |
| `LoadPhaseHangs.ShutPhaseIsBounded` | executors/go-http2-executor/source/load.go:426-453 | a phase whose barrier is shut has taken at most workers times (connections + 6) + 1 steps |
| `LoadPhaseHangs.OpensInBoundedSteps` | executors/go-http2-executor/source/load.go:426-455 | in every run beyond that bound or at its end the barrier is open if and only if there are no more workers than slots and nobody left without Done |
| `LoadPhaseHangs.NobodyEverWoken` | executors/go-http2-executor/source/load.go:426-455 | in no run of a phase can a worker receive a wake-up token |
| `LoadPhaseHangs.NoPhaseStrands` | executors/go-http2-executor/source/load.go:426-455 | in no run of a phase is a worker stranded beside a free slot |
| `PeakLoop.PeakIsExact` | executors/go-http2-websocket-executor/source/main.go:922-934 | once all results are in, the peak is the largest number of workers ever active at once, and at most the stream count |
| `PeakLoop.RetriesAreBounded` | executors/go-http2-websocket-executor/source/main.go:922-934 | a worker's compare-and-swap fails at most as often as there are workers |
| `PeakLoop.GatePassesExactlyWhenAllOverlap` | executors/go-http2-websocket-executor/source/main.go:973-993 | the peak equals the stream count exactly when all workers were active at one moment |
| `Http2Session.ReadLoop.Handle` | executors/go-http2-websocket-executor/source/main.go:521-609 | one turn of the reader: stop, or the new header blocks, the event to dispatch and the frames written back |
| `Http2Session.ReadLoop.AddFragment` | executors/go-http2-websocket-executor/source/main.go:566-606 | a fragment is joined to the open block of its stream, and the last one completes and decodes it |
| `Http2Session.ConsumedIsPrefix` | executors/go-http2-websocket-executor/source/main.go:521-645 | in every run, what a stream has consumed is a prefix of the events its own frames amount to since it was registered, header fragments joined |
| `Http2Session.NothingLost` | executors/go-http2-websocket-executor/source/main.go:625-645 | consumed, queued and being dispatched together are exactly these events: none dropped, doubled, reordered or given to another stream |
| `Http2Session.OpenedFirstMissesNothing` | executors/go-http2-websocket-executor/source/main.go:637-655 | a stream registered before its first frame, as the source registers it before the request, gets every event of its frames |
| `Http2Session.CreditEqualsData` | executors/go-http2-websocket-executor/source/main.go:546-562 | window credit given back equals the data received, on the connection and on every stream |
| `Http2Session.SettingsAcknowledged` | executors/go-http2-websocket-executor/source/main.go:530-541 | in every run the acknowledgements written are as many as the SETTINGS frames of the peer, its own acknowledgements apart |
| `Http2Session.StopsExactlyWhen` | executors/go-http2-websocket-executor/source/main.go:523-609 | in every run a frame stops the reader if and only if it is a GOAWAY, its reply cannot be written, it completes a block the decoder refuses, or it continues no open block |
| `Http2Session.DecodedGrows` | executors/go-http2-websocket-executor/source/main.go:578-604 | the decoder sees exactly the completed blocks, in order |
| `Http2Session.ReaderWaitsOnlyForFullQueue` | executors/go-http2-websocket-executor/source/main.go:625-635 | the reader waits for nothing but a queue of 256 events, and goes on when its stream receives one |
| `Http2Session.InvRun` | executors/go-http2-websocket-executor/source/main.go:521-645 | every run keeps demultiplexing, delivery and credit right for all streams at once |
| `Http2Stream.MultiplexedWebSocket.ReadWebSocketFrame` | executors/go-http2-websocket-executor/source/main.go:756-774 | returns the next frame; octets of the frames returned followed by `pending` stay equal to the octets received, events only move from the queue to those seen, and the DATA frames counted are those seen with octets |
| `Http2Stream.MultiplexedWebSocket.TakeEvent` | executors/go-http2-websocket-executor/source/main.go:763-772 | an event is taken off the queue and its data put behind `pending` |
| `Http2Stream.ReadsEverything` | executors/go-http2-websocket-executor/source/main.go:756-774 | call after call returns the complete frames of the octets, however events cut them |
| `Http2Stream.ReadAllIsCalls` | executors/go-http2-websocket-executor/source/main.go:756-774 | the sequence of frames is what consecutive calls return |
| `Http2Stream.StreamReadsServerFrames` | executors/go-http2-websocket-executor/source/main.go:756-774 | whole server frames cut into any events come back in order, all of them |
| `Http2Stream.ReadResponseHeaders` | executors/go-http2-websocket-executor/source/main.go:680-690 | returns the first header block if nothing but DATA precedes it, and leaves the events behind it |
| `Http2Stream.BehindFirstBlock` | executors/go-http2-websocket-executor/source/main.go:680-690 | which is what the stream reads later |
| `Http2Stream.StreamSeesItsOwnFrames` | executors/go-http2-websocket-executor/source/main.go:521-774 | in every run of the session, the frames a stream has read are the first frames of its own DATA behind its response headers since registration |
| `Http2Stream.DiscardsExactlyWhen` | executors/go-http2-websocket-executor/source/main.go:659-690 | octets are discarded while the response is awaited if and only if a DATA event that carries some precedes the first header block |
| `Http2Stream.EarlyIsBeforeHeaders` | executors/go-http2-websocket-executor/source/main.go:680-690 | which is a position among the events, with nothing but DATA before it |
| `Http2Stream.EarlyDataIsLost` | executors/go-http2-websocket-executor/source/main.go:659-690 | for every header block the decoder takes, a run in which a stream reads another frame than the first one of its own DATA |
| `WebSocket.ParseFirst` | implementations/aioquic-http3/docker/aioquic_http3_server.py:53-90 | the reader's loop body finds the first complete frame, waits, or refuses a reserved bit |
| `WebSocket.FrameReader.Feed` | executors/aioquic-rfc9220-websocket/docker/aioquic_http3_websocket_client.py:96-133 | a call returns the complete frames of buffer and data and keeps the rest; on a reserved bit it raises and loses the frames of the call |
| `WebSocket.NextSteady` | implementations/aioquic-http3/docker/aioquic_http3_server.py:53-90 | a parsed frame and a refusal are unchanged by bytes that come later |
| `WebSocket.ChunkInvariant` | executors/aioquic-rfc9220-websocket/docker/aioquic_http3_websocket_client.py:92-133 | any cutting of a stream without reserved bits gives the frames and the buffer of one call |
| `WebSocket.CuttingMattersExactlyWhen` | executors/aioquic-rfc9220-websocket/docker/aioquic_http3_websocket_client.py:96-110 | the frames depend on the cutting if and only if the octets are at least one whole frame followed by two or more of which the first has a reserved bit |
| `WebSocket.NextOfEncode` | executors/aioquic-rfc9220-websocket/docker/aioquic_http3_websocket_client.py:72-133 | the first frame of an encoding, with 7-, 16- or 64-bit length, masked or not, whatever follows, is the frame written |
| `WebSocket.ReaderInvertsWriter` | implementations/aioquic-http3/docker/aioquic_http3_server.py:34-90 | frames written one after another and cut anywhere come back as written with an empty buffer |
| `Octets.MaskInvolution` | executors/aioquic-rfc9220-websocket/docker/aioquic_http3_websocket_client.py:72-133 | masking with the same key unmasks |
| `Bits.XorMeans` | executors/go-http1-websocket-executor/source/main.go:713-715 | a bit of the exclusive or is set exactly where the two octets differ |
| `Bits.MaskMeans` | executors/go-http1-websocket-executor/source/main.go:713-715 | a masked octet differs from its own exactly in the bits of its key octet |
| `Bits.HighBitsMean` | implementations/aioquic-http3/docker/aioquic_http3_server.py:53-70 | the tests for the final, mask and reserved bits are tests of bits 7 and 6 to 4 |
| `Bits.LowBitsMean` | implementations/aioquic-http3/docker/aioquic_http3_server.py:53-70 | the opcode and the short length are the octet without its higher bits |
| `Bits.FirstWeighsMost` | implementations/aioquic-http3/docker/aioquic_http3_server.py:53-90 | in network byte order the first octet weighs most |
| `WebSocket.EncodeSize` | implementations/aioquic-http3/docker/aioquic_http3_server.py:34-46 | the writers use the shortest length field |
| `WebSocketGo.MaskInPlace` | implementations/go-http1-websocket/source/main.go:205-209 | the loop over the array leaves it masked, each octet with its key octet |
| `WebSocketGo.WriteClientFrame` | executors/go-http1-websocket-executor/source/main.go:698-719 | up to 65535 octets the bytes of the Python client's masked writer, an error above |
| `WebSocketGo.WriteFrame` | implementations/go-http1-websocket/source/main.go:216-235 | unmasked and up to 65535 octets the bytes of the Python server's writer, an error otherwise |
| `WebSocketGo.WriteMaskedFrame` | executors/go-http2-websocket-executor/source/main.go:1122-1142 | header with the length modulo 65536, key and masked payload |
| `WebSocketGo.MaskedFrameReads` | executors/go-http2-websocket-executor/source/main.go:1122-1142 | a reader finds the payload cut to its length modulo 65536 |
| `WebSocketGo.MaskedFrameRoundTrip` | executors/go-http2-websocket-executor/source/main.go:1131-1135 | the payload comes over if and only if it has at most 65535 octets |
| `WebSocketGo.WireIsMasked` | executors/go-http1-websocket-executor/source/main.go:698-719 | on the wire of a masked frame each payload octet differs exactly in the bits of its key octet |
| `WebSocketGo.MaskedFrameIsMasked` | executors/go-http2-websocket-executor/source/main.go:1137-1140 | the same for the HTTP/2 executor's writer, at any length |
| `WebSocketGo.ParseFrameConsumed` | executors/go-http2-websocket-executor/source/main.go:1086-1121 | refuses fragments, reserved bits and 64-bit lengths at once and otherwise parses what the Python reader parses |
| `WebSocketGo.NextWholeSteady` | executors/go-http2-websocket-executor/source/main.go:1086-1121 | a successful parse is unchanged by appending more bytes |
| `WebSocketGo.ReadPayloadLength` | executors/go-http1-websocket-executor/source/main.go:761-782 | the announced length and its octets; fails on end of stream and above 2^63 - 1 |
| `WebSocketGo.TakeHead` | executors/go-http1-websocket-executor/source/main.go:721-734 | the first two octets, the mask direction and the length |
| `WebSocketGo.TakeBody` | executors/go-http1-websocket-executor/source/main.go:735-759 | limit, mask, payload, unmasking in place and the rules for control frames |
| `WebSocketGo.ReadFrame` | implementations/go-http1-websocket/source/main.go:179-214 | reads exactly the frame the Python reader would (reserved bits reported instead of refused), if its direction, size and control rules are met, and consumes exactly its octets |
| `WebSocketGo.MaskedInterop` | executors/go-http1-websocket-executor/source/main.go:698-782 | for every opcode, key, payload and following bytes the three masked writers agree and the three readers take the same frame and octet count |
| `WebSocketGo.UnmaskedInterop` | implementations/go-http1-websocket/source/main.go:179-258 | the same for frames from a server |
| `WebSocketGo.ReadsExactly` | implementations/go-http1-websocket/source/main.go:179-214 | of all frames anybody can write, the HTTP/1.1 reader takes exactly those masked as required, of at most 2^20 octets and, if control frames, final and of at most 125 |
| `WebSocketGo.ParsesExactly` | executors/go-http2-websocket-executor/source/main.go:1086-1121 | the HTTP/2 parser takes exactly the final frames of at most 65535 octets and refuses all others |
| `Rfc9220.ServerStream.HandleFrame` | implementations/aioquic-http3/docker/aioquic_http3_server.py:149-193 | the fragment state machine on one frame: raise, or the new state and the reply |
| `Rfc9220.ServerStream.DataReceived` | implementations/aioquic-http3/docker/aioquic_http3_server.py:101-194 | the frames of a chunk handled one after another; once the close is answered, data is ignored |
| `Rfc9220.FinalFragmentAccepted` | implementations/aioquic-http3/docker/aioquic_http3_server.py:155-169 | a final fragment is accepted if and only if all fragments together are the three committed pieces of the payload |
| `Rfc9220.FragmentsAnswered` | executors/aioquic-rfc9220-websocket/docker/aioquic_http3_websocket_client.py:270-289 | the three fragments get one binary reply and leave no open fragments, and no part of them gets any |
| `Rfc9220.OperationAnswered` | executors/aioquic-rfc9220-websocket/docker/aioquic_http3_websocket_client.py:252-298 | the server answers each operation's frames with exactly the expected reply |
| `Rfc9220.RepliesValid` | implementations/aioquic-http3/docker/aioquic_http3_server.py:147-194 | every reply of the server is a frame the writer can write |
| `Rfc9220.ReplyOctets` | implementations/aioquic-http3/docker/aioquic_http3_server.py:34-46 | the octets on the wire of the reply to each operation |
| `Rfc9220Language.ServerLanguage` | implementations/aioquic-http3/docker/aioquic_http3_server.py:147-194 | the server lets a sequence of frames pass if and only if it is complete messages, each whole or in the three pieces, and perhaps an unfinished one; it has then sent exactly their replies and holds the unfinished fragments |
| `Rfc9220Language.ServerFailsExactlyWhen` | implementations/aioquic-http3/docker/aioquic_http3_server.py:147-194 | a server with no fragment open fails on a delivery exactly when its frames are not of that form or a reserved bit is met |
| `Rfc9220Language.AcceptsSameWire` | executors/aioquic-rfc9220-websocket/docker/aioquic_http3_websocket_client.py:252-258 | of all frames anybody can write, the client's check accepts exactly those with the octets of the one it waits for |
| `Rfc9220Language.ExpectFailsExactlyWhen` | executors/aioquic-rfc9220-websocket/docker/aioquic_http3_websocket_client.py:252-258 | and the client fails exactly on the others |
| `Lockstep.NothingEverFails` | executors/aioquic-rfc9220-websocket/docker/aioquic_http3_websocket_client.py:218-258 | for any lawful pair of peers and any delivery of bytes in both directions neither side fails |
| `Lockstep.EverySessionCompletes` | executors/aioquic-rfc9220-websocket/docker/aioquic_http3_websocket_client.py:218-258 | every such session is bounded, and one that cannot go on has answered everything |
| `Rfc9220Session.PeersLawful` | implementations/aioquic-http3/docker/aioquic_http3_server.py:147-194 | the two Python peers are such a pair |
| `Rfc9220Session.StreamNeverFails` | executors/aioquic-rfc9220-websocket/docker/aioquic_http3_websocket_client.py:252-298 | for any operations ended by a close, any keys and any splitting, the server raises nothing, holds no fragments between messages, sends one reply per message and the client accepts every reply |
| `Rfc9220Session.EveryStreamCompletes` | executors/aioquic-rfc9220-websocket/docker/aioquic_http3_websocket_client.py:252-298 | every such stream is finite and, when nothing can move, complete |
| `DnsName.ReadName` | executors/go-dns-doh2-executor/source/main.go:505-546 | the loop with bound and seen set gives exactly the recursive meaning of the name within 32 visits; the next offset is behind the start and within the message |
| `DnsName.ReadNameUnbounded` | executors/go-dns-doq-executor/source/dns.go:112-150 | without the bound the loop ends, by unvisited offsets, and succeeds exactly when the name has an end at all |
| `DnsName.ResolvesExactlyWhen` | executors/go-dns-doh2-executor/source/main.go:505-546 | a name resolves if and only if its pointer chain reaches the zero octet within the visits |
| `DnsName.NextInRange` | executors/go-dns-doh2-executor/source/main.go:505-546 | start < next <= length |
| `DnsName.ReadsWhatIsWritten` | executors/go-dns-doh2-executor/source/main.go:519-541 | at an offset stands a zero octet, a label of 1 to 63 octets or a pointer of 14 bits if and only if it is written there |
| `DnsName.LoopHasNoPath` | executors/go-dns-doh2-executor/source/main.go:511-517 | an offset seen twice means the name has no end, so the seen set refuses nothing that resolves |
| `DnsName.BoundRejectsExactlyLongNames` | executors/go-dns-doh2-executor/source/main.go:510-546 | the bound refuses an ending name if and only if it needs more than 32 visits |
| `DnsName.LongNameRejected` | executors/go-dns-doh2-executor/source/main.go:510-546 | 33 labels of one octet are such a name |
| `DnsResponse.ValidateDNS` | executors/go-dns-doh2-executor/source/main.go:457-503 | accepts if and only if a reference parser of whole messages reads the canonical message and nothing behind it |
| `DnsResponse.ValidateDNSFrame` | executors/go-dns-doq-executor/source/dns.go:59-110 | accepts if and only if the octets frame a message of 43 octets that parses to the canonical one |
| `DnsResponse.CheckMessage` | executors/go-dns-doh2-executor/source/main.go:457-488 | the checks with the moving cursor amount to header, question and answer parsing as expected |
| `DnsResponse.CountsAgree` | executors/go-dns-doh2-executor/source/main.go:469-471 | a parsed message has as many entries as its header announces |
| `DnsWriting.ParserInvertsWriter` | executors/go-dns-doh2-executor/source/main.go:457-488 | the reference parser reads every message of any sections back from its plain serialisation |
| `DnsResponse.PrefixReads` | executors/go-dns-doq-executor/source/dns.go:152-157 | a frame's prefix tells the length if and only if it is at most 65535 |
| `DnsSpelling.OwnerDecides` | executors/go-dns-doh2-executor/source/main.go:472-488 | behind the canonical question the verdict is whether the owner's octets resolve to the name and end where they end |
| `DnsSpelling.CanonicalAccepted` | executors/go-dns-doq-executor/source/dns.go:20-21 | the canonical response of 43 octets is accepted |
| `DnsSpelling.OtherSpellingsAccepted` | executors/go-dns-doh2-executor/source/main.go:472-488 | an owner spelled out, half compressed or written as one label is accepted too, with a length the DoQ validator refuses |
| `DnsSpelling.LoopRefused` | executors/go-dns-doh2-executor/source/main.go:515-517 | an owner pointing at itself is refused |
| `DnsSpelling.TwoReadings` | executors/go-dns-doh2-executor/source/main.go:473-475 | the label lists that join to the expected string are exactly the two |
| `DnsShortest.FourMessages` | executors/go-dns-doq-executor/source/dns.go:59-93 | a message of 43 octets parses to the canonical response if and only if it is one of four: a spelled-out name as the question with a pointer back, or as the owner with a pointer forward |
| `DnsShortest.FourFrames` | executors/go-dns-doq-executor/source/dns.go:59-93 | so the frames the DoQ validator accepts are four |
| `DnsSpelling.DottedInjective` | executors/go-dns-doh2-executor/source/main.go:519-524 | for labels without dots the string determines the labels |
| `DnsClassic.AuthorityConn.Receive` | implementations/go-dns-classic-authority/source/main.go:115-145 | the loop writes the framed responses of the complete queries received, keeps the rest, and closes on a length or query it refuses |
| `DnsClassic.AuthorityConn.Deliver` | implementations/go-dns-classic-authority/source/main.go:115-145 | the same for segment after segment, and nothing once closed |
| `DnsClassic.AnswersExactlyWhen` | implementations/go-dns-classic-authority/source/main.go:147-173 | a query is answered if and only if it has a fixture's digest under a nonzero ID, and then by a fixture under that ID |
| `DnsClassic.TurnAnswersExactlyWhen` | implementations/go-dns-classic-authority/source/main.go:118-144 | a turn of the loop answers if and only if a query of 27 or 45 octets that is answered stands framed in front |
| `DnsClassic.TurnClosesExactlyWhen` | implementations/go-dns-classic-authority/source/main.go:126-139 | and closes if and only if the length is neither or the query is refused |
| `DnsClassic.AuthorityAnswers` | implementations/go-dns-classic-authority/source/main.go:115-173 | however a query is cut, one response, an open connection and an empty buffer |
| `DnsClassic.Answered` | implementations/go-dns-classic-authority/source/main.go:147-173 | each executor query with a nonzero ID gets its fixture under that ID, truncated or large by transport, as far as its digest tells it apart |
| `DnsClassic.IdSequence` | executors/dns-classic-fixture/executor.go:229-257 | through 16-bit wrap-around the IDs are the odd numbers in turn, never zero |
| `DnsClassic.IdsDistinct` | executors/dns-classic-fixture/executor.go:229-257 | two turns share an ID if and only if they are a multiple of 32768 apart |
| `DnsClassic.RetryIdNew` | executors/dns-classic-fixture/executor.go:310-313 | a retry's ID is nonzero and differs from its UDP ID |
| `DnsClassic.AcceptsTwins` | executors/dns-classic-fixture/executor.go:337-412 | a datagram is accepted if and only if it is, under the query's ID, a message with the fixture's length, digest and flags |
| `DnsClassic.AcceptsExactlyWhen` | executors/dns-classic-fixture/executor.go:337-412 | the fixture under the query's ID is the only datagram accepted if and only if no other message has its length, digest and flags |
| `DnsClassic.AcceptsStreamTwins` | executors/dns-classic-fixture/executor.go:365-412 | a stream is accepted if and only if a message with the fixture's length and digest and an authority's flags stands framed in front, under the query's ID; the TC flag is not looked at |
| `DnsClassic.AcceptsStreamExactlyWhen` | executors/dns-classic-fixture/executor.go:365-412 | the framed fixture under the query's ID is all that is accepted in front if and only if no other such message exists |
| `DnsClassic.RunPhase` | executors/dns-classic-fixture/executor.go:216-261 | on any network, with writes that fail and count nothing, the summary is that of the turns up to the first fault, and success is the absence of faults |
| `DnsClassic.FaultsAreExact` | executors/dns-classic-fixture/executor.go:230-257 | on every network the fault that ends a phase is counted under its own class, the turns before it as completed, and octets and retries are those of all attempts |
| `DnsClassic.UdpOutcome` | executors/dns-classic-fixture/executor.go:337-363 | an exchange that is not sent transfers nothing, one without an answer its query, any other both; an answer is accepted or malformed |
| `DnsClassic.TcpOutcome` | executors/dns-classic-fixture/executor.go:365-389 | the same over a stream, which waits for two octets and then for as many as they announce |
| `DnsClassic.FlagsMean` | executors/dns-classic-fixture/executor.go:391-412 | the flags looked at are AA, TC and RA by their bits |
| `DnsClassic.StreamConserved` | executors/dns-classic-fixture/executor.go:365-389 | a successful exchange takes one framed message off the stream and no octet more |
| `DnsClassic.AsksOnly` | executors/dns-classic-fixture/executor.go:299-335 | an exchange asks the network its query, and a retry the same question under the retry's ID, and nothing else |
| `DnsClassic.RetryCountedExactlyWhen` | executors/dns-classic-fixture/executor.go:306-334 | a retry is counted exactly when the truncated answer was accepted |
| `DnsClassic.OutcomesAddUp` | executors/dns-classic-fixture/executor.go:230-257 | on any network at most one fault is counted, none exactly when every turn completed, and retries match the turns |
| `DnsClassic.ExchangeSucceeds` | executors/dns-classic-fixture/executor.go:299-412 | on a connection at rest with the authority every exchange validates, transfers its wire size and leaves the connection at rest |
| `DnsClassic.LosslessPhase` | executors/dns-classic-fixture/executor.go:216-261 | on one connection for all turns, however its segments are cut, k turns give completed k, retries k in the retry scenario, octets k times the wire size, no faults and a connection at rest, if and only if the digests tell the two queries apart where the scenario needs it |
| `DnsClassic.CommittedSound` | implementations/go-dns-classic-authority/source/main.go:30-34 | the committed fixtures meet what the theorems ask, with 70, 74 and 769 octets per exchange |
| `Protobuf.EncodeProtobuf` | executors/go-grpc-h2-executor/source/main.go:687-699 | the loop writes tag, shortest varint and payload |
| `Protobuf.ReadLength` | implementations/go-grpc-h2/source/main.go:349-363 | the loop in 64-bit arithmetic reads the groups' number modulo 2^64, or fails on a missing or eleventh group |
| `Protobuf.DecodeProtobuf` | executors/go-grpc-h2-executor/source/main.go:745-771 | the decoder's result, with the signed conversion of the length |
| `Protobuf.AcceptsExactly` | executors/go-grpc-h2-executor/source/main.go:745-771 | accepted are exactly tag, at most ten groups denoting the payload's length modulo 2^64, and payload, or nothing at all |
| `Protobuf.DecodeUndoesEncode` | executors/go-grpc-h2-executor/source/main.go:687-771 | every payload comes back |
| `Protobuf.CanonicalExactlyWhenSameLength` | implementations/go-grpc-h2/source/main.go:275-368 | an accepted message is byte for byte the canonical one if and only if it has its length |
| `Protobuf.OverlongAccepted` | executors/go-grpc-h2-executor/source/main.go:752-765 | a varint two groups too long is accepted |
| `Protobuf.TenthGroupFallsOff` | executors/go-grpc-h2-executor/source/main.go:752-765 | ten groups denoting 2^64 more than the length are accepted |
| `Grpc.FrameRoundTrip` | executors/go-grpc-h2-executor/source/main.go:700-744 | frame and message come back if and only if the length fits 32 bits |
| `Grpc.FrameOctets` | executors/go-grpc-h2-executor/source/main.go:700-719 | flag zero, the four octets of the length with the highest first, and the message |
| `Grpc.OnlyCanonicalFrame` | implementations/go-grpc-h2/source/main.go:275-341 | the frame that decodes to a payload with the canonical length is the canonical frame |
| `Grpc.ReadIdentityFrame` | implementations/go-grpc-h2/source/main.go:252-273 | takes the frame in front and its octets, and refuses only if none is in front |
| `Grpc.ReadRequest` | implementations/go-grpc-h2/source/main.go:223-224 | a request passes if and only if the canonical frame is in front |
| `Grpc.HandleBidirectional` | implementations/go-grpc-h2/source/main.go:215-250 | writes back the canonical frames in front, as many as there are up to n and as the client takes, succeeds if and only if the request is n of them and its end and all writes succeed, sets no status after a failed write, and writes the header once |
| `Grpc.HandleStreaming` | implementations/go-grpc-h2/source/main.go:162-213 | the same for one request and n responses, or n requests and one response; nothing is written unless the request is right |
| `Grpc.LeadingCopies` | implementations/go-grpc-h2/source/main.go:215-250 | the frames counted are the copies in front and the next is none, all of the stream exactly when it is n copies |
| `Grpc.PassesOnlyTwins` | executors/go-grpc-h2-executor/source/main.go:772-784 | a response frame passes if and only if it is the canonical frame of a payload with the same length and digests |
| `Grpc.ReadResponse` | executors/go-grpc-h2-executor/source/main.go:790-805 | one response is read if and only if a passing frame is in front |
| `Grpc.ReadAndValidate` | executors/go-grpc-h2-executor/source/main.go:786-814 | aggregate and count are the passing frames in front, success is all of them and the end |
| `Grpc.ClientAcceptsExactlyWhen` | executors/go-grpc-h2-executor/source/main.go:772-814 | n canonical frames and the end are the only response that passes if and only if the digests distinguish the payload |
| `Grpc.StreamingCall` | implementations/go-grpc-h2/source/main.go:162-250 | for every method, message count, payload and digest the executor reads every response written, and both sides succeed if and only if no write fails |
| `Grpc.ScenarioLengths` | implementations/go-grpc-h2/source/main.go:275-295 | the lengths written out in the server are those of the canonical messages, and the largest frame is the limit |
| `TlsRecords.TlsRecordParser.Feed` | executors/go-tls13-executor/source/main.go:679-694 | counts the complete records of buffer and data, keeps the rest, drops it on an oversized header |
| `TlsRecords.RecordsUnique` | executors/go-tls13-executor/source/main.go:679-694 | a stream within bounds is complete records and an incomplete tail in exactly one way, and no other stream is |
| `TlsRecords.CountsAreExact` | executors/go-tls13-executor/source/main.go:673-694 | for any cutting, count, bytes and buffer are the number and size of these records and the tail |
| `TlsRecords.Conservation` | executors/go-tls13-executor/source/main.go:679-694 | bytes counted and buffered equal bytes fed if and only if the octets are complete records and an incomplete one |
| `TlsRecords.CuttingMattersExactlyWhen` | executors/go-tls13-executor/source/main.go:679-694 | the counted records or bytes depend on the cutting if and only if the octets are records followed by a header announcing too much and a complete record stands somewhere behind that header |
| `TlsRecords.StateDependsExactlyWhen` | executors/go-tls13-executor/source/main.go:683-686 | counters and buffer together depend on it if and only if any octet follows that header |
| `TlsRecords.RecordObservingConn.Write` | executors/go-tls13-executor/source/main.go:703-709 | the octets the connection took are fed to the sent side alone |
| `TlsRecords.RecordObservingConn.Read` | executors/go-tls13-executor/source/main.go:710-716 | the octets delivered are fed to the received side alone |
| `TlsRecords.RecordObservingConn.TakeSnapshot` | executors/go-tls13-executor/source/main.go:717-721 | the totals of both directions of the traffic so far |
| `TlsRecords.WindowIsExact` | executors/go-tls13-executor/source/main.go:717-724 | the difference of two snapshots is, per direction, the number and octets of the records completed between them |

## Left out

- TLS, QUIC and certificate gates, ALPN, environment identity checks and hash pinning: flat conjunctions over library state.
- JSON artifacts, result documents, flags and `main` functions: input and output.
- Latencies, means and percentiles: time guards are choices, and floating-point statistics are not modelled.
- Status-code counts, error tallies and latency samples of the recorder and of the phase summaries: additive bookkeeping beside the modelled counters.
- Dialling, closing and the frame-type tallies of the sessions and phases: a phase begins with its connections made.
- The connection-state sampler of the load phase: the peer limits it records are arbitrary inputs of the gate.
- gzip, permessage-deflate, HPACK, SHA-1 and SHA-256: HPACK is a predicate on the blocks seen, SHA-256 a function parameter, the others are absent. Digest constants stand for the digests of the fixtures.
- Scheduler.EveryWaiterServed: leaves out continuations in which workers acquire again, where the statement is false; `SchedulerFairness.OvertakenExactlyWhen` has the exact condition.
- DnsClassic.LosslessPhase: the authority's deadline of 30 seconds for a whole connection is a matter of time and is not modelled; a phase beyond it would end with a fault.
- Protobuf.EncodeProtobuf: payloads have fewer than 2^63 octets, as every Go slice has.
- Http2Session.ConsumedIsPrefix: after the reader has stopped, a stream may prefer the end of the session to queued events, so that what it consumes stays a prefix but need not become everything.
- Http2Session.CreditEqualsData: credit is for the data without padding, as the source gives it back; the full window of padded frames is not restored.
- Response headers of `openWebSocket`, `runMessageGroup` and its order check: a flat check and a loop over the modelled stream.
- The single-connection WebSocket path of the HTTP/2 executor: it discards bytes behind the first frame and relies on lock-step.
- The frame loop of the HTTP/1.1 target, the unary gRPC methods and the single-use session cache: they would add easy members.
- MASQUE, WebTransport, mutual TLS, ChaCha and TLS 1.2 executors, the OpenSSL key-update program, and the Node, .NET and net/http servers: network clients or thin wrappers.
