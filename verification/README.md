# milli-http: a verified model of the QUIC transport core

milli-http is a sans-IO HTTP stack; its HTTP/3 side rests on a small QUIC implementation in
`src/connection/`. This project models that implementation in Dafny, from varints up to whole runs of two
endpoints over a network that drops, repeats and reorders what they send, and proves what the code keeps.

Objects that the source changes in place (keys, packet-number tracker, reassembly buffer, send and receive
queues, the byte buffer, the handshake pool, the connection) are classes; loops and edits inside caller
buffers are methods over arrays. Each such method is proved equal to a function or relation on plain values,
and the theorems about runs are proved about those values, so they hold of the methods.

| file | what it covers |
|---|---|
| `KeyUpdate.dfy` | key update of section 6 of RFC 9001, two endpoints, any network |
| `CryptoStream.dfy` | CRYPTO reassembly, cutting of TLS messages, retained stream and rewinds |
| `SendPath.dfy`, `RecvPath.dfy`, `StreamRun.dfy` | STREAM data from `stream_send` to `stream_recv`, all streams at once |
| `H3Writer.dfy`, `H3Run.dfy` | HTTP/3 HEADERS and DATA writing on top of `stream_send`, and what the peer reads of it |
| `PnTracker.dfy`, `AckPath.dfy` | received packet numbers, ACK frames and what the peer makes of them |
| `FrameCodec.dfy`, `Varint.dfy` | frame and varint codec |
| `Protection.dfy` | packet-number truncation, nonces, sealing and header protection in place |
| `PacketBuild.dfy`, `ShortPacket.dfy` | Initial, Handshake and 1-RTT packets in place, and what the peer reads from them |
| `Transmit.dfy` | `poll_transmit` as a whole: numbering, coalescing, close packets, what leaves and what is spent |
| `Datagram.dfy` | when each level has a packet, what its peer reads, and the close that reaches the peer |
| `BufModel.dfy` | `Buf` with its heap and static storage |
| `Lifecycle.dfy` | state order, address validation and the anti-amplification limit |
| `Pool.dfy` | the shared handshake slots |
| `Bytes.dfy` | bytes, results, exclusive or, copying |

## Where the code and its promises part

Each of these is proved: lemmas that give an input or a run that shows it, and the condition under which the promise holds.

- The previous read key is kept for late packets (`src/connection/keys.rs:112-114`) but opens none: a packet
  of an earlier generation is always refused (`AcceptedExactly`, `LatePacketRefused`).
- The AEAD confidentiality limit is passed exactly while an update is unconfirmed, and then without bound
  (`LimitPassedOnlyUnconfirmed`, `LimitUnbounded`).
- The builders choose the packet-number length against the largest number *received*; the peer recovers a
  number exactly when it lies in the window around its own largest (`DecodeExactly`, `LengthAgainstOwnReceipts`).
- An Initial packet with CRYPTO data in a buffer of exactly 1200 bytes is not sent, after its bytes have been
  taken, exactly when padding widens the Length field (`FormInitialPacket`, `OneByteTooLong`; the comment at
  `src/connection/transmit.rs:342-345` says this cannot happen).
- 1-RTT stream data leaves the queue even if the packet then lacks room for the tag (`FormShortPacket`,
  `FullBufferLosesEntry`, `WindowLeavesTag`); so do a PATH_RESPONSE and an ACK written into it (`UnsealedSpends`,
  `ShortExactly`, `DueGoes`).
- The peer processes at most 16 gap/range pairs of an ACK, so it acknowledges the whole tracked set exactly up
  to 17 ranges (`AckExact`, `EighteenRanges`).
- A frame that needs a seventeenth span is not tracked even at the frontier; the frontier reaches n exactly when
  frames that were stored hold every byte below n (`FrontierReached`, `SpanListFills`).
- A flight that does not fit the 2048 bytes retained per level is dropped (`RetainedExactly`, `FlightDropped`).
- An accepted FIN closes the rest of its queue entry, so the capacity may drop by more than was taken
  (`SendTakesCapacity`, `FinTakesWholeEntry`).
- A datagram that was built can be held back by the anti-amplification check, after stream bytes, entries, flags and
  numbers have been spent on it (`PollTransmit`, `LeavesExactly`, `HeldBack`).
- An idle timeout of a connection that is already closed pushes ConnectionClose again (`ClosedForever`, `IdleAgain`).
- The end of a stream is reported early exactly when the copy of the frame with FIN was cut (`ReadsPrefix`,
  `EarlyEnd`).
- A frame with FIN that overtakes earlier data of its stream settles the stream: every frame after it is refused
  (`FinSettles`, `FinOvertakes`); frames that arrive without gaps and with room are all kept (`CatchesUp`).
- A frame comes back from its wire form exactly when a connection ID has at most 20 bytes and an application
  close carries frame type 0 (`RoundTrip`, `Unfaithful`).
- The close datagram is outside the anti-amplification check (`AmplificationBound`, `CloseGoesOver`).
- Pool slots are numbered by a byte: with more than 256 slots two connections come to share one
  (`SharedBeyond256`), and a build that fails after claiming leaks its slot for good (`LeakForever`, `LastSlotLeaks`).

## Assumptions

Sealing is an ideal AEAD: in `KeyUpdate` a packet opens only under the direction, generation and number it was
sealed with; elsewhere `open` undoes `seal`, sealing adds 16 bytes and a header mask is any five bytes, and
`OpensOnlyProtected` takes it that nothing else opens. What TLS answers, the connection-level flow-control verdict,
the congestion window, clocks and the bytes other components want to send are parameters. `usize` has 64 bits. Bit operations are written as arithmetic. The variant with heap
buffers is modelled for receive slots, the one with inline storage for the handshake pool.

## Model

| member | source | states |
|---|---|---|
| KeyUpdate.ConnectionKeys.InstallDerived | src/connection/keys.rs:256-318 | Installing Application keys puts both directions at generation 0 and phase 0 with nothing unconfirmed |
| KeyUpdate.ConnectionKeys.PerformKeyUpdate | src/connection/keys.rs:416-551 | An update happens exactly when keys are installed and the last update is confirmed; otherwise it fails and changes nothing |
| KeyUpdate.ConnectionKeys.ConfirmPeerKeyUpdate | src/connection/keys.rs:589-644 | Following the peer moves both directions one generation on, confirmed, and keeps the read key left behind as the previous one |
| KeyUpdate.ConnectionKeys.OpenShort | src/connection/recv.rs:524-638 | The trial order over current, previous and next key, with the key state left behind |
| KeyUpdate.ConnectionKeys.SealShort | src/connection/transmit.rs:109-115 | Automatic update at the limit, then sealing under the current send generation and phase |
| KeyUpdate.InvRun | src/connection/keys.rs:416-644 | The two-endpoint invariant holds after every run of initiations, sends and deliveries, lost, repeated or reordered |
| KeyUpdate.GenerationsAgree | src/connection/keys.rs:416-644 | In every reachable state the generations differ by at most one, a confirmed side is never ahead, the phase bit is the parity of the generation, and the previous read key is that of the generation before |
| KeyUpdate.AcceptedExactly | src/connection/recv.rs:524-638 | If and only if: a packet is accepted when it is the peer's, unaltered, and of our generation or later; it is opened with the generation that sealed it, and a refused packet changes nothing |
| KeyUpdate.LatePacketRefused | src/connection/recv.rs:569-616 | A reachable state holds the previous key of a late packet and refuses the packet |
| KeyUpdate.OneHop | src/connection/recv.rs:524-638 | One packet sent and delivered leaves the receiver on the later of the two generations |
| KeyUpdate.RoundTripSynchronises | src/connection/recv.rs:524-638 | From any reachable state one packet each way brings both sides to one confirmed generation |
| KeyUpdate.PacketNumbersUnique | src/connection/transmit.rs:697-701 | No two packets of one side in any run carry the same number |
| KeyUpdate.LimitPassedOnlyUnconfirmed | src/connection/keys.rs:425-434 | A key seals past the confidentiality limit if and only if it is at the limit with its update unconfirmed |
| KeyUpdate.LimitUnbounded | src/connection/keys.rs:416-434 | For every n a reachable state has sealed n packets under one generation |
| KeyUpdate.CountsExactly | src/connection/recv.rs:546-553 | After every run the two counters are the packets sealed, and the packets opened, under the key in use |
| KeyUpdate.UpdatesExactly | src/connection/keys.rs:425-429 | After every run the next packet is sealed one generation on if and only if the last update is confirmed and the key in use has sealed, or opened, its limit of packets |
| CryptoStream.CryptoReassemblyBuf.MergeRange | src/connection/recv.rs:138-168 | Spans stay sorted, apart and at most 16; the covered set grows by exactly the new range, or by nothing when a seventeenth span is needed |
| CryptoStream.CryptoReassemblyBuf.Insert | src/connection/recv.rs:51-88 | Bytes before the frontier are skipped, the rest is stored at its place and tracked, a frame past the buffer is refused without effect |
| CryptoStream.CryptoReassemblyBuf.Advance | src/connection/recv.rs:105-135 | Delivered bytes leave the front, the rest moves down, spans shift with them |
| CryptoStream.Frontier | src/connection/recv.rs:91-103 | The contiguous length is the first position not covered |
| CryptoStream.CryptoLevel.HandleCryptoFrame | src/connection/recv.rs:887-958 | A frame is inserted, then the whole messages at the frontier go to TLS in order until one is missing or refused; `HandledExactly` says how many |
| CryptoStream.CryptoLevel.DeliverMessages | src/connection/recv.rs:916-955 | The delivery loop equals the recursive drain of the frontier; `DeliversExactly` says how far that goes |
| CryptoStream.CryptoLevel.NextMessage | src/connection/recv.rs:924-940 | A message is offered exactly when its four-byte header and its whole body have arrived |
| CryptoStream.DeliversExactly | src/connection/recv.rs:916-955 | For any answers of TLS: all waiting messages up to the first one not plainly accepted are taken; a refused one stays, one that releases the slot or whose keys fail is the last taken; with enough acceptances none is left waiting |
| CryptoStream.HandledExactly | src/connection/recv.rs:887-958 | A CRYPTO frame in all cases: ignored without a slot, refused without effect past a limit, else stored and everything then waiting offered; a call that passes and keeps the slot leaves nothing waiting |
| CryptoStream.CryptoSender.Rewind | src/connection/transmit.rs:117-127 | A probe timeout puts all send offsets back to the start and keeps the retained streams |
| CryptoStream.CryptoSender.StageFlight | src/connection/transmit.rs:808-834 | TLS is asked for a flight only when the level has nothing unsent; the flight joins its own level's stream if all of it fits |
| CryptoStream.StagedRetains | src/connection/transmit.rs:808-834 | A flight handed out extends the retained stream of its own level as the history of flights does, and no other |
| CryptoStream.CryptoSender.WriteTlsCryptoData | src/connection/transmit.rs:795-873 | The offset moves by exactly the bytes in the frame written, and the tag's 16 bytes stay free behind it |
| CryptoStream.ChunkSize | src/connection/transmit.rs:843-872 | A CRYPTO frame of retained data has at most 17 bytes around it |
| CryptoStream.RetainedExactly | src/connection/transmit.rs:808-834 | The retained stream is everything TLS produced if and only if that is at most 2048 bytes |
| CryptoStream.FlightDropped | src/connection/transmit.rs:808-834 | After 2000 retained bytes a flight of 100 is lost |
| CryptoStream.MessagesConcat | src/connection/recv.rs:916-955 | Whole messages parse back from their concatenation, and what follows parses on its own |
| CryptoStream.InvRun | src/connection/recv.rs:51-168 | Every tracked byte is the stream's byte, in every run of sends, rewinds, losses, repeats and overlaps |
| CryptoStream.StreamIsRetained | src/connection/transmit.rs:795-873 | The sender's stream after a run is the retained concatenation of the flights |
| CryptoStream.DeliversPrefix | src/connection/recv.rs:887-958 | Delivered plus ready bytes are a prefix of the sender's stream, and the messages TLS took are exactly the parse of the delivered part |
| CryptoStream.FrontierReached | src/connection/recv.rs:51-168 | The frontier is at n or beyond if and only if frames that were stored contain every byte below n |
| CryptoStream.WaitingIsRest | src/connection/recv.rs:887-958 | In every run, the messages TLS took and those waiting are together the messages of the contiguous stream |
| CryptoStream.KeepsUp | src/connection/recv.rs:887-958 | If TLS takes what it is offered, it has every message of the contiguous stream after any losses, repeats, overlaps and rewinds, and every message of the stream once stored frames hold all its bytes |
| CryptoStream.FullSpanListLosesFront | src/connection/recv.rs:162-167 | With 16 spans held, a frame at the frontier that touches none is accepted and not tracked |
| CryptoStream.SpanListFills | src/connection/recv.rs:162-167 | A run that gets there: bytes 2, 4, ..., 32 arrive, then byte 0, and the frontier stays at 0 |
| SendPath.StreamSender.StreamSend | src/connection/mod.rs:755-833 | The coalescing and spilling loops equal the recursive description, and every push finds a free entry |
| SendPath.SpillShape | src/connection/mod.rs:813-830 | Spilling fills entries to the brim, uses no more than are free, and only the last carries FIN |
| SendPath.EnqueueRoom | src/connection/mod.rs:718-743 | Accepting data never takes more entries than there are; without FIN it uses up exactly its length of room, with FIN what remains are the entries still free |
| SendPath.SendTakesCapacity | src/connection/mod.rs:718-833 | `stream_send` takes the lesser of the data and the announced capacity; without an accepted FIN the capacity drops by exactly what was taken, with one it is the lesser of the window and the whole free entries, and the drop is exact if and only if those cover what the window and the queue would have left |
| SendPath.FinTakesWholeEntry | src/connection/mod.rs:718-833 | Three bytes and FIN into one free entry of ten take the capacity from 10 to 0 |
| SendPath.CapacityIsMost | src/connection/mod.rs:713-743 | n bytes are within the announced capacity if and only if connection and stream are there, the stream's window covers them and the queue has entries for them |
| SendPath.SendOutcome | src/connection/mod.rs:755-833 | When `stream_send` fails and with which error; otherwise it takes the lesser of the data and the capacity and the stream's offset, state and end are those of the bytes taken |
| SendPath.SendKeepsOwn | src/connection/mod.rs:755-833 | Queued entries of the stream stay contiguous up to its send offset, and FIN goes out if and only if all data was taken |
| SendPath.SendKeepsOther | src/connection/mod.rs:755-833 | No other stream's queue, offset or end is touched |
| SendPath.BuildStreamFrames | src/connection/transmit.rs:876-921 | Exactly the entries from the front that fit, tried while 16 bytes are left, are written byte for byte and leave the queue |
| SendPath.EmitsAllThatFit | src/connection/transmit.rs:876-921 | Emission stops only at the end of the queue, with less than 16 bytes left, or at an entry that cannot be encoded or does not fit |
| SendPath.QueueParses | src/connection/transmit.rs:876-921 | What is written parses to one STREAM frame per entry, in order |
| SendPath.ChainDrop | src/connection/transmit.rs:876-921 | Taking entries off the front keeps the remaining offsets contiguous |
| RecvPath.StreamReceiver.OnFrame | src/connection/recv.rs:761-796 | Flow control and final-size checks decide whether a frame reaches the buffers |
| RecvPath.StreamReceiver.StoreStreamData | src/connection/mod.rs:979-1052 | A frame goes to its stream's slot or a free one, only the part at the frontier is copied, and no further than the buffer; `FilledExactly` and `FrameStores` say how much that is |
| RecvPath.StreamReceiver.StreamRecv | src/connection/mod.rs:836-882 | A closed connection gives nothing; otherwise a read returns the front of the slot, compacts it, and frees it when the end is reported |
| RecvPath.MarkExactly | src/transport/stream.rs:334-407 | A frame is admitted if and only if the stream is unsettled, its final size agrees and the limit covers it, else with which error; it is charged what lies beyond the highest byte so far, and the next limit is raised once less than half the window is left |
| RecvPath.FinSettles | src/transport/stream.rs:361-393 | After an admitted frame with FIN every further frame of the stream is refused |
| RecvPath.FinOvertakes | src/transport/stream.rs:361-393 | Bytes 2 and 3 with FIN, then bytes 0 and 1: the second frame is refused |
| RecvPath.FilledExactly | src/connection/mod.rs:1027-1049 | With or without FIN, a buffer takes from a frame that leaves no gap exactly the bytes from the next expected one on, as far as there is room, and from any other nothing |
| RecvPath.FrameStores | src/connection/recv.rs:761-796 | A frame that is admitted, has a slot and leaves no gap moves the stream to the frame's end as far as there is room; any other frame leaves it |
| RecvPath.ReadExactly | src/connection/mod.rs:836-882 | A read returns the front of what is ready, as much as was asked for, and the end with the last of it; it blocks if and only if nothing is ready and no end is due |
| RecvPath.ReadFrees | src/connection/mod.rs:836-882 | A read that reports the end gives the stream's slot free; any other read leaves every slot with its stream |
| RecvPath.FilledInv | src/connection/mod.rs:1027-1049 | An honest frame keeps the buffer the next piece of the stream; the end is marked, and is true if and only if the copy was not cut |
| RecvPath.FrameKeepsOwn | src/connection/recv.rs:761-796 | The reader's invariant survives any frame of the stream: early, late, repeated, overlapping |
| RecvPath.FrameKeepsOther | src/connection/mod.rs:979-1052 | Frames of other streams do not disturb it |
| RecvPath.ReadKeepsOwn | src/connection/mod.rs:836-882 | Reads append to what was read so far and stop at the end |
| StreamRun.InvRun | src/connection/mod.rs:755-882 | Sender and receiver invariants of every stream hold after every run |
| StreamRun.RunContinues | src/connection/mod.rs:755-833 | The queue never outgrows its capacity, so every enabled step can be taken |
| StreamRun.ReadsPrefix | src/connection/mod.rs:836-882 | What is read from a stream is a prefix of what was accepted for it; a reported end is the peer's, and everything has been read if and only if no FIN frame was cut |
| StreamRun.QueueContiguous | src/connection/mod.rs:755-833 | What is queued for a stream tiles the unsent rest of its bytes up to its send offset |
| StreamRun.StepMoves | src/connection/mod.rs:979-1052 | In every reachable state, how far a stream stands after a step: only a frame of it that reaches the buffers without a gap moves it, by exactly what fits |
| StreamRun.CatchesUp | src/connection/mod.rs:979-1052 | Over runs whose frames arrive without gaps, admitted and with room, bytes read and bytes ready are exactly the accepted bytes up to the highest frame end |
| StreamRun.EarlyEnd | src/connection/mod.rs:979-1052 | A run: two bytes with FIN reach a receiver with one-byte buffers, one byte is read and the end is reported |
| H3Writer.H3Connection.SendHeadersFrame | src/h3/connection.rs:595-627 | Header and block go to the QUIC stream together or not at all |
| H3Writer.H3Connection.SendDataFrame | src/h3/connection.rs:630-669 | Both debug assertions of the source hold; result and queue are those of the described steps |
| H3Writer.PayloadGoesThrough | src/h3/connection.rs:630-669 | Once a frame header is on the stream its payload is accepted whole |
| H3Writer.HeadersWhole | src/h3/connection.rs:595-627 | The bytes placed are one whole HEADERS frame, or none |
| H3Writer.DataWhole | src/h3/connection.rs:630-669 | The bytes placed are one whole DATA frame of exactly the accepted prefix, or none |
| H3Writer.HeadersExactly | src/h3/connection.rs:595-627 | HEADERS are accepted if and only if the frame fits 2048 bytes and the capacity and the stream can be written to; otherwise which error |
| H3Writer.DataExactly | src/h3/connection.rs:630-669 | All of a body is taken up to the capacity less five bytes, nothing with five bytes or less, and chunks of 2^30 bytes or more are refused |
| H3Writer.EndsWithAll | src/h3/connection.rs:595-669 | The stream is ended if and only if that was asked and everything was taken |
| H3Writer.WireParses | src/h3/frame.rs:61-130 | Any list of encoded HTTP/3 frames decodes to itself with nothing left over |
| H3Writer.WholeFrames | src/h3/connection.rs:595-669 | After any run of calls the stream holds whole frames only, and the DATA payloads are the accepted body |
| H3Run.PrefixParses | src/h3/frame.rs:61-80 | Any prefix of whole frames parses to the first of them with the rest left over |
| H3Run.PeerReadsFrames | src/h3/connection.rs:595-669 | Over any run of writes, other streams and network, what the peer reads is a prefix of the frames written and parses to the first of them, and to all of them at an end that was not cut |
| H3Run.PeerReadsAll | src/h3/connection.rs:595-669 | Once the peer has read as many bytes as were written, they parse to all the frames |
| PnTracker.RecvPnTracker.InsertRange | src/connection/mod.rs:315-329 | Inserting keeps ranges ascending and apart and adds exactly the new range |
| PnTracker.RecvPnTracker.Record | src/connection/mod.rs:230-300 | As sets: the number joins, and only when a 33rd range is needed does the lowest range leave and raise the floor |
| PnTracker.TracksHistory | src/connection/mod.rs:194-330 | After any history the tracker is exact above its floor, forgets nothing and knows the maximum |
| PnTracker.NothingForgotten | src/connection/mod.rs:230-300 | In any history of at most 32 numbers there is no floor and the ranges hold exactly the numbers recorded |
| PnTracker.ContainsExactly | src/connection/mod.rs:225-313 | `contains` is membership in the history or being at or below the floor; `largest` is the maximum ever recorded |
| PnTracker.ContainsForever | src/connection/mod.rs:303-313 | Once contained, contained after every later history |
| PnTracker.DispatchedOnce | src/connection/recv.rs:254-264 | A number whose frames were dispatched without error is never dispatched again |
| PnTracker.DispatchedExactly | src/connection/recv.rs:410-417 | Above the floor a packet is dispatched if and only if its number has not been done |
| AckPath.BuildAckFrame | src/connection/transmit.rs:733-791 | The frame announces the highest ranges that fit the scratch; `None` exactly when there are none, a gap dangles, or the output is too small |
| AckPath.FillScratch | src/connection/transmit.rs:751-779 | The loop writes whole pairs from the top down, plus at most one gap without its range; no subtraction underflows |
| AckPath.PairsCounted | src/frame/mod.rs:139-171 | Encoded pairs iterate back to themselves and count as whole |
| AckPath.GapUncounted | src/frame/mod.rs:482-508 | A lone gap at the end makes the encoder refuse the frame |
| AckPath.ExpandsBack | src/frame/mod.rs:139-171 | Expanding the first k pairs gives the next k ranges below the highest |
| AckPath.AckReadsBack | src/connection/recv.rs:700-715 | A built ACK decodes to itself and acknowledges exactly the highest ranges carried, never more than seventeen |
| AckPath.AckSound | src/connection/transmit.rs:733-791 | After any history only numbers really received are acknowledged |
| AckPath.ShortFits | src/connection/transmit.rs:751-779 | Pairs below 2^30 take at most eight bytes each, so 31 of them fit the scratch |
| AckPath.AckExact | src/transport/recovery.rs:62-89 | With short pairs the frame denotes exactly the tracked set; the peer acknowledges all of it if and only if it has at most 17 ranges |
| AckPath.EighteenRanges | src/connection/recv.rs:700-715 | Eighteen packets with gaps: all are announced and the lowest is not acknowledged |
| FrameCodec.Decode | src/frame/mod.rs:228-461 | On any bytes, a frame that decodes takes at least one byte and at most those there are |
| FrameCodec.Encode | src/frame/mod.rs:470-631 | Succeeds exactly when the frame has a wire form and room, and writes that form and nothing else |
| FrameCodec.CountRangePairs | src/frame/mod.rs:482-508 | The loop counts the pairs, and refuses anything but whole pairs |
| FrameCodec.SkipsCounted | src/frame/mod.rs:240-272 | The decoder's skip over n pairs and the encoder's count of them agree |
| FrameCodec.RoundTrip | src/frame/mod.rs:228-631 | Decoding an encoded frame gives it back with its length if and only if it is faithful |
| FrameCodec.Unfaithful | src/frame/mod.rs:228-631 | An application close with frame type 7 and a connection ID of 21 bytes do not come back |
| FrameCodec.ParseList | src/frame/mod.rs:228-631 | A concatenation of faithful frames parses to exactly those frames |
| FrameCodec.DispatchFrames | src/connection/recv.rs:647-678 | Terminates on any payload; succeeds exactly when all of it parses and is handled, and reports whether a frame was ack-eliciting |
| Varint.EncodeVarint | src/varint.rs:72-116 | Succeeds exactly on values below 2^62 with room, writes the shortest form, and otherwise leaves the buffer alone |
| Varint.DecodeVarint | src/varint.rs:31-67 | What decodes takes 1, 2, 4 or 8 of the bytes there are and is below 2^62 |
| Varint.VarintRoundTrip | src/varint.rs:31-116 | Decoding an encoding, whatever follows, gives the value and its length |
| Varint.VarintShortest | src/varint.rs:16-26 | No encoding of a value is shorter than the one chosen |
| Protection.DecodeExactly | src/packet/number.rs:52-70 | A truncated number decodes to the original if and only if it lies in the window around the next expected one |
| Protection.LengthSuffices | src/packet/number.rs:9-28 | Against a number the receiver has reached, the chosen length is enough |
| Protection.LengthLeast | src/packet/number.rs:5-28 | The length chosen is the smallest whose range is more than twice the distance |
| Protection.LengthAgainstOwnReceipts | src/connection/transmit.rs:257-259 | Against the largest number received it is not: 500 is taken for 244 |
| Protection.Nonce | src/crypto/mod.rs:91-99 | The loop computes the IV exclusive-or the left-padded number |
| Protection.NonceInjective | src/crypto/mod.rs:91-99 | Under one IV different numbers have different nonces |
| Protection.NoNonceReuse | src/connection/keys.rs:520-539 | In every run of the key update protocol no two packets under one key share a nonce |
| Protection.MaskedTwice | src/connection/recv.rs:472-506 | Masking twice is the identity and never reaches the sample, so both sides sample the same bytes |
| Protection.MaskMatters | src/connection/transmit.rs:57-68 | Two masks protect a packet alike if and only if they agree on the covered bits of the first byte and on the number bytes |
| Protection.TopBitsClear | src/connection/transmit.rs:57-64 | Form, type and fixed bits stay readable under protection |
| Protection.OpensBack | src/connection/recv.rs:1121-1181 | Opening a protected packet returns header, number length, number, phase and plaintext, for long and short headers |
| Protection.OpensOnlyProtected | src/connection/recv.rs:1121-1181 | Under an authentic AEAD a packet that opens is exactly the protected packet of what it opens to |
| Protection.ApplyMask | src/connection/transmit.rs:57-68 | The masking loop changes exactly the covered bits of the first byte and the number bytes |
| Protection.EncryptAndProtect | src/connection/transmit.rs:24-71 | Succeeds exactly when packet and tag fit and can be sampled, and then the buffer starts with the protected packet |
| Protection.RemoveProtection | src/connection/recv.rs:1121-1181 | Copying, unmasking and opening in the scratch buffer equals opening the packet |
| PacketBuild.PadInitial | src/connection/transmit.rs:305-340 | One recomputation settles the Length width; a padded packet has exactly 1200 bytes, or 1201 when the field widens; the second padding step is never taken |
| PacketBuild.InitialFitsExactly | src/connection/transmit.rs:342-348 | With CRYPTO data sized by the allowance the packet fits if and only if the buffer is longer than 1200 or the Length field does not widen |
| PacketBuild.OneByteTooLong | src/connection/transmit.rs:305-348 | 46 bytes of frames under eight-byte connection IDs are padded to 1201 bytes |
| PacketBuild.Assemble | src/connection/transmit.rs:349-397 | Moving the frames down behind the header keeps every byte; the result protects exactly those frames and the padding |
| PacketBuild.WriteFrames | src/connection/transmit.rs:281-303 | The payload is the ACK, if due and fitting, then as much of the unsent CRYPTO stream as goes in behind it; TLS is asked for more only with nothing unsent; with CRYPTO data there is room for the tag |
| PacketBuild.FormHandshakePacket | src/connection/transmit.rs:441-543 | There is a packet if and only if a frame was written and the packet with its tag fits, so whenever CRYPTO bytes are taken; it protects exactly the frames written |
| PacketBuild.FormInitialPacket | src/connection/transmit.rs:249-435 | CRYPTO bytes are taken only with 1200 bytes of buffer; then there is a packet if and only if the buffer is longer or the Length field does not widen; an ACK alone has one if and only if it fits with its padding; with CRYPTO data or from a client it has at least 1200 bytes |
| ShortPacket.WriteControl | src/connection/transmit.rs:580-638 | Each control frame that fits is written in order; one that does not is skipped, or ends the window updates |
| ShortPacket.FormShortPacket | src/connection/transmit.rs:550-722 | Control frames, then queue entries within the congestion window; there is a packet if and only if there is something to send and room for the tag, while the entries leave the queue either way |
| ShortPacket.PaddingLeast | src/connection/transmit.rs:663-674 | The padding of a 1-RTT packet is the least with which it can be sampled |
| ShortPacket.WindowLeavesTag | src/connection/transmit.rs:641-654 | If the window leaves 16 bytes of the buffer free, what is dequeued is sent |
| ShortPacket.FullBufferLosesEntry | src/connection/transmit.rs:641-654 | An entry that fills the buffer is dequeued and never sealed |
| ShortPacket.PacketDelivers | src/connection/recv.rs:1121-1181 | From any built packet whose number it recovers, the receiver gets the header as written and parses exactly the frames put in, then padding |
| ShortPacket.ShortDelivers | src/connection/transmit.rs:550-722 | The peer reads the control frames taken and one STREAM frame for every entry that left the queue, in order |
| ShortPacket.LongDelivers | src/connection/transmit.rs:249-543 | The peer reads the ACK and the CRYPTO frame with exactly the stream bytes between the two offsets |
| Transmit.Outbox.BuildInitialPacket | src/connection/transmit.rs:249-435 | The packet, if any, and the state left are exactly the value-level builder's at the Initial level; `InitialExactly` says when there is one, `LongTakes` what is spent and `FlightArrives` what its peer reads |
| Transmit.Outbox.BuildHandshakePacket | src/connection/transmit.rs:441-543 | The same at the Handshake level (`HandshakeExactly`, `FlightArrives`) |
| Transmit.Outbox.BuildShortPacket | src/connection/transmit.rs:550-722 | The same for 1-RTT packets (`ShortExactly`, `ShortArrives`, `OwedArrives`); a PATH_RESPONSE or ACK is spent when written, HANDSHAKE_DONE only when sealed |
| Transmit.Outbox.BuildCloseInitial | src/connection/transmit.rs:927-1023 | An Initial close packet is built exactly when it fits and can be sampled, protects exactly the frame given, and only then is the number used up |
| Transmit.Outbox.BuildClose | src/connection/transmit.rs:1029-1117 | The same for Handshake and 1-RTT close packets |
| Transmit.Outbox.PollClose | src/connection/transmit.rs:134-195 | One packet around the CONNECTION_CLOSE frame at the highest level with keys, if it fits; closed whether or not it was built |
| Transmit.Outbox.BuildAll | src/connection/transmit.rs:197-224 | The datagram is the packets of the levels with keys, in order, each exactly what its builder makes in what the ones before left; `DueExactly` says which there are |
| Transmit.Outbox.PollTransmit | src/connection/transmit.rs:87-242 | Nothing is built when barred, one close packet when closing, else the packets of `BuildAll`, after a rewind if one is pending; they take the next numbers of their spaces; the datagram leaves, as exactly those packets, if and only if the anti-amplification check on its length passes, and nothing taken comes back if not |
| Transmit.FirstLevel | src/connection/transmit.rs:197-224 | A datagram has a packet of a level if and only if there are keys and the level's builder has one; it is that builder's packet and comes before those of higher levels |
| Transmit.PollNumbered | src/connection/transmit.rs:87-242 | Whatever one call builds, close packet included, is sealed with the keys of its level under the next numbers of its space |
| Datagram.InitialExactly | src/connection/transmit.rs:249-435 | An Initial packet is built if and only if there are CRYPTO bytes or an ACK to send and the stated room, 1200 bytes and a widened Length field being the one exception |
| Datagram.HandshakeExactly | src/connection/transmit.rs:441-543 | A Handshake packet is built if and only if there are CRYPTO bytes with more than 33 bytes for them, or an ACK that fits with the tag |
| Datagram.LongTakes | src/connection/transmit.rs:281-303 | How many stream bytes an Initial or Handshake builder takes, and that the ACK flag is cleared exactly if the ACK was written |
| Datagram.FlightArrives | src/connection/transmit.rs:249-543 | The peer of an Initial or Handshake packet parses the ACK, if due and fitting, the next stream bytes taken, and padding |
| Datagram.ShortExactly | src/connection/transmit.rs:550-722 | A 1-RTT packet is built if and only if a control frame, window update or queue entry is due and fits, and the tag fits behind what is written |
| Datagram.ShortArrives | src/connection/transmit.rs:550-722 | Its peer parses the control frames owed, the first window updates, one STREAM frame for every entry that left the queue, and padding |
| Datagram.OwedArrives | src/connection/transmit.rs:578-622 | In order and as far as each fits, the peer gets HANDSHAKE_DONE of a server that owes it, PATH_RESPONSE with the challenge, the ACK of the received numbers, MAX_DATA with its limit; what arrived is no longer owed |
| Datagram.AckAlone | src/connection/transmit.rs:601-608 | With nothing else due, a due ACK gets a packet if and only if it fits with the tag |
| Datagram.DueGoes | src/connection/transmit.rs:641-661 | Whatever is due gets a packet when the congestion window leaves room for the tag |
| Datagram.UnsealedSpends | src/connection/transmit.rs:589-608 | A payload without room for the tag keeps HANDSHAKE_DONE owed and spends PATH_RESPONSE and ACK |
| Datagram.DueExactly | src/connection/transmit.rs:197-224 | For each level: a packet in the datagram if and only if there are keys and its builder's condition holds in what is left of the buffer; the remaining queue outright; no packet and no change without keys |
| Datagram.TakenLeaves | src/connection/transmit.rs:197-224 | Handshake stream bytes taken are always in a packet, Initial ones exactly if the buffer is longer than 1200 bytes or the Length field is not widened |
| Datagram.PollCounted | src/connection/transmit.rs:702-705 | Every 1-RTT packet one call seals, the close packet included, counts towards the AEAD limit, and nothing else does |
| Datagram.ProbeResends | src/connection/transmit.rs:117-127 | The call after a probe timeout brings the peer a CRYPTO frame at offset 0 with as much of the retained stream as goes in |
| Datagram.CloseReachesPeer | src/connection/mod.rs:896-908 | After `close` on a live connection one poll puts out a datagram if and only if the code has an encoding and the packet fits; its peer parses CONNECTION_CLOSE with that code and the first 64 bytes of that reason, then padding |
| Transmit.NumbersIncrease | src/connection/transmit.rs:399-401 | Over any run of calls the packets built in a space, close packets and held-back datagrams included, carry strictly increasing numbers until 2^64 of them |
| Transmit.NoNonceTwice | src/connection/transmit.rs:1100-1103 | Hence no two packets built at a level share a nonce |
| Transmit.LeavesExactly | src/connection/transmit.rs:225-238 | A datagram that was built leaves if and only if the address is validated or what was sent and its length are at most three times what was received |
| Transmit.HeldBack | src/connection/transmit.rs:226-229 | 1200 bytes in, 3000 out: the next 1200-byte datagram is built and held back |
| BufModel.Buf.OnHeap | src/buf.rs:49-54 | Starts empty with nothing allocated |
| BufModel.Buf.FromStatic | src/buf.rs:63-72 | Starts empty over the caller's slice |
| BufModel.Buf.ExtendFromSlice | src/buf.rs:228-259 | Both storages append to the visible bytes, before the hidden tail, or refuse past the bound; the allocation is never grown past it |
| BufModel.Buf.TruncateTo | src/buf.rs:119-142 | Only visible bytes are cut; the hidden tail moves up unchanged |
| BufModel.Buf.DrainFirst | src/buf.rs:484-488 | The first n visible bytes go, everything else stays in order |
| BufModel.Buf.Hide | src/buf.rs:160-164 | The last n visible bytes become the front of the hidden tail |
| BufModel.Buf.Unhide | src/buf.rs:169-172 | The hidden tail is visible again, behind what was visible |
| BufModel.Buf.Shrink | src/buf.rs:305-323 | Contents stay; the allocation comes down to the larger of contents and threshold unless the allocator refuses |
| BufModel.Buf.Run | src/buf.rs:115-268 | Any sequence of operations gives the contents and answers of one pair of sequences, on either storage |
| BufModel.ReserveClamped | src/buf.rs:185-194 | Growth covers what is needed and never passes the bound |
| BufModel.FoldBounded | src/buf.rs:228-259 | Visible plus hidden bytes never pass the bound in any run |
| BufModel.HiddenUntouched | src/buf.rs:27-33 | Behind a hidden tail a buffer acts as one without it and with that much less capacity |
| BufModel.FirstInFirstOut | src/buf.rs:228-259 | What was drained and what is left are what was there and what was accepted, in order |
| BufModel.ParkedTail | src/buf.rs:144-172 | Hide, append and drain, reveal: the tail comes back unchanged behind the rest |
| Lifecycle.Connection.Recv | src/connection/recv.rs:193-284 | A closed connection refuses the datagram; otherwise bytes count while unvalidated, then frames and the keys each CRYPTO frame brings take effect in order; it fails exactly when closed or when keys cannot be installed at the end |
| Lifecycle.Connection.DispatchAll | src/connection/recv.rs:647-678 | The dispatch loop's effect is the fold over its frames, with keys taking effect inside the dispatch of the CRYPTO frame that brought them |
| Lifecycle.Connection.CheckTlsKeys | src/connection/recv.rs:962-1003 | The key loop makes a handshaking server active at its Application keys |
| Lifecycle.Connection.PollTransmit | src/connection/transmit.rs:99-238 | What goes out and what state is left, over closed, blocked, failing, closing and sending connections |
| Lifecycle.Connection.MayTransmit | src/connection/transmit.rs:99-115 | Nothing is built when closed, out of allowance for even one byte, or when exhausted keys cannot be renewed, which closes the connection |
| Lifecycle.Connection.Departs | src/connection/transmit.rs:225-238 | A finished datagram leaves and is counted exactly when it is not empty and within the limit |
| Lifecycle.Connection.CloseWith | src/connection/mod.rs:896-908 | Only a live connection starts closing, with the code and at most 64 bytes of the reason, which `Datagram.CloseReachesPeer` follows to the peer |
| Lifecycle.Connection.HandleTimeout | src/connection/mod.rs:638-656 | A draining connection closes after its period, any other after its idle time, which also pushes ConnectionClose |
| Lifecycle.CloseIsShort | src/connection/transmit.rs:134-195 | A server's close datagram has at most 146 bytes at every level |
| Lifecycle.RunOnward | src/connection/mod.rs:638-673 | In every run the state never moves back in its order and the invariant holds |
| Lifecycle.StateOrder | src/connection/recv.rs:833-857 | Of two points of a run the later has the higher state, and Connected is pushed at most once |
| Lifecycle.ConnectsExactly | src/connection/recv.rs:945-1003 | Connected is pushed if and only if a handshaking client gets HANDSHAKE_DONE, or a handshaking server its Application keys, before any close takes effect |
| Lifecycle.ConnectsThenCloses | src/connection/recv.rs:945-1003 | The last CRYPTO frame of the handshake and a close in one datagram: connected, validated and draining |
| Lifecycle.ReceivedExactly | src/connection/recv.rs:193-284 | What a datagram does to an open connection: it drains if and only if the peer closes in it, it validates if and only if it completes the handshake, it counts while unvalidated, and the idle time starts over |
| Lifecycle.TimeoutExactly | src/connection/mod.rs:638-656 | A draining connection closes silently if and only if its period has passed since the last datagram, any other with an event if and only if its idle time has; nothing else changes |
| Lifecycle.FailedUpdateCloses | src/connection/transmit.rs:109-115 | A connection that may send but cannot renew exhausted keys is closed and sends nothing |
| Lifecycle.ClosedForever | src/connection/transmit.rs:99-101 | A closed connection never changes, sends or takes anything in again, except that further idle timeouts push ConnectionClose again |
| Lifecycle.IdleAgain | src/connection/mod.rs:647-656 | A closed connection pushes ConnectionClose again exactly when the idle time since the last datagram is over |
| Lifecycle.AmplificationBound | src/connection/transmit.rs:225-238 | Until validation a server sends at most three times what it received, plus at most one last close datagram of 146 bytes; the limit itself holds if and only if the length of that datagram, known before it is asked for, is within it |
| Lifecycle.CloseGoesOver | src/connection/transmit.rs:134-195 | One byte in and a close put 30 bytes out |
| Pool.HandshakePool.Claim | src/connection/handshake_pool.rs:159-173 | The lowest free slot is claimed, its index cut to a byte; exhausted exactly when all are in use |
| Pool.HandshakePool.Release | src/connection/handshake_pool.rs:175-188 | The slot is free and its context empty; an index outside the pool does nothing |
| Pool.HandshakePool.SlotsInUse | src/connection/handshake_pool.rs:142-151 | The loop counts the slots in use |
| Pool.Reset | src/connection/handshake_pool.rs:48-59 | Whatever a context held, resetting leaves it empty |
| Pool.PoolInvariant | src/connection/handshake_pool.rs:142-188 | With at most 256 slots, in any interleaving, every claimed slot has exactly one owner or was leaked, the count is owners plus leaks, every free slot is empty |
| Pool.ClaimsEmptyReleasesOwn | src/connection/recv.rs:1044-1057 | A build gets an empty context; a slot given back is claimed and held by nobody else, so none is released twice |
| Pool.LeakForever | src/connection/mod.rs:447-478 | A slot claimed by a build that then fails is never free again |
| Pool.LastSlotLeaks | src/connection/mod.rs:447-478 | One slot, one failed build: the pool is exhausted with no connection alive |
| Pool.SharedBeyond256 | src/connection/handshake_pool.rs:159-173 | With more than 256 slots, 257 builds make two connections hold one slot |

## Left out

- TLS engine, key schedule, AEAD, HKDF, header-protection ciphers, signatures and certificates: primitives behind parameters.
- Loss detection, congestion control and probe timing: the congestion window and the firing of timers are parameters.
- Connection-level flow control: its verdict on a frame is a parameter of `RecvPath.StreamReceiver.OnFrame`.
- Parsing of long and short packet headers, coalesced datagrams, 0-RTT, Retry and Version Negotiation: a packet is opened at a given packet-number offset.
- Stream states other than send and receive bookkeeping (reset, stop sending, garbage collection): they would add one-branch members.
- HTTP/3 receive side, QPACK, HTTP/1.1, HTTP/2, TLS over TCP, the server managers: separate layers; the codec and buffer arguments there are shorter forms of these.
- Delivery of STREAM data that was lost: the code does not retransmit it, so what holds is prefix safety, and completeness when frames arrive without gaps (`StreamRun.CatchesUp`).
- Receive slots in the variant without heap buffers, and allocator failure other than in `shrink_to`.
- Overflow of `usize` inside `amplification_allows`: `Lifecycle.AmplificationBound` is stated for runs in which three times the bytes received fit 64 bits.
- Event queue capacity: pushed events are counted, whether or not the queue of 64 had room.
- Transmit.Outbox.PollTransmit: buffers are taken to be shorter than 2^62 - 1200 bytes, so that the Length field has an encoding.
- PacketBuild.FormInitialPacket: the same bound on the buffer.
- PacketBuild.FormHandshakePacket: the same bound on the buffer.
- Transmit.Outbox.BuildShortPacket: which window updates are due and the new connection limit are parameters; that those written are marked as sent is not modelled.
- Lifecycle.Connection.PollTransmit: the bytes the packet builders produced are a parameter; `Transmit.Outbox.PollTransmit` supplies them.
- Lifecycle.Connection.Recv: which frames a datagram brings to dispatch, and which keys TLS has after each, are parameters.
- RecvPath.StreamReceiver.OnFrame: the creation of a stream at its first frame is a step of its own, and the readable event is not modelled.
- H3Writer.WireParses: frames are parsed to type and payload; how the payloads of types other than DATA and HEADERS are decoded is not modelled.
- Transmit.Outbox.BuildAll: each packet is built in its own array, which is then copied behind the packets before it, instead of in a slice of the caller's buffer.
