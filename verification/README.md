# A Dafny model of the in-kernel QUIC transport

This project models the stateful core of a QUIC implementation for the Linux kernel
(`modules/net/quic`) and proves what its state machines keep over whole runs: what an ACK frame says
about the packets received, what reassembly hands to the application, that two endpoints never
disagree about flow control, who owns a frame while several packets carry it, what the early exits
of the loss and ACK scans skip, how many streams may be open, where path MTU discovery ends, and how
the congestion window moves.

`dafny verify dfyconfig.toml` verifies everything.

## How it is laid out

Where the code changes things in place, a class holds the same fields and its methods follow the
code branch by branch; each method is specified by functions on values, and the lemmas about those
functions are the properties. Runs are sequences of events, so a property of a run holds for every
order, loss and repetition.

| file | subject |
|---|---|
| Wire.dfy | integer encodings, the buffer they are written to, packet-number reconstruction |
| RecvWindow.dfy, PnSpace.dfy | the window of received packet numbers: as a set, and as the sliding bitmap |
| AckFrame.dfy, Delivery.dfy | what an ACK frame says, what the peer reads, which packets and frames it retires |
| FlowControl.dfy | two endpoints and a network that loses, reorders and repeats |
| Reassembly.dfy, Inqueue.dfy, Handshake.dfy, ReceiveSide.dfy | what the receive lists mean, the operations on them for STREAM and CRYPTO frames, and the memory they share |
| Charging.dfy | the memory of received STREAM frames when the peer may send anything |
| SentPackets.dfy, Ownership.dfy, Outqueue.dfy | sent packets, frames shared by them, and the operations on both |
| StreamTable.dfy | the stream table and the limits on its size |
| Plpmtud.dfy | path MTU discovery |
| Cubic.dfy, Reno.dfy | congestion control |

## What is assumed

- For what reassembly delivers: frames of a stream, and CRYPTO frames of a level, are slices of one byte
  string, and FIN is only at its end. The in-order path of `quic_inq_stream_recv` (inqueue.c:277-280)
  does not repeat the final-size check of the out-of-order path (inqueue.c:249-254), so a peer that
  contradicts itself is outside what reassembly promises. Charging.dfy does not assume this: there
  memory, limits and both final-size refusals are stated for every frame.
- A packet number is marked only after a check that let it pass (packet.c:1816-1847), and an ACK frame
  is made only once a number was marked.
- The windows that the endpoint configures for itself are below 2^32, as their setter demands.
- Stream limits are configured once, before any stream opens.
- Time does not go back.
- A half of a stream is put only when it is over, as all callers of `quic_stream_put` do
  (inqueue.c:121-123, frame.c:1390-1399, 1965-1966 and 2005-2006, socket.c:1247-1249).
- The clock, the outcome of memory allocation, how much room `copy_to_iter` has and which events are
  subscribed to are parameters.

## What the proofs found

- The fast path of `quic_pnspace_mark` that only increments the base (pnspace.c:149-150) is never
  taken: a number at the base has just been made at most the largest seen, so there always is a gap
  (`PnSpace.PnSpace.Note`). The second exit of `quic_pnspace_next_gap_ack` (pnspace.c:196-197) is never
  taken either.
- A step of 512 between largest numbers is exactly what the window tolerates without lock-out; with
  513 there is a run in which a new largest number is refused (`RecvWindow.NoLockOut`,
  `RecvWindow.LockOutBeyond`).
- The trim of an in-order frame (inqueue.c:98-106) is exact if and only if the frame does not carry a FIN
  that ends below what was delivered while the final size is unknown; then the 16-bit length wraps, and
  the memory charged still is what the frame says (`Charging.TrimExact`, `Charging.FinBelowDelivered`,
  `Charging.AnyPeer.Recv`).
- Reading all that a limit allows raises it if and only if a packet is no larger than the window; with a
  window of 1200 bytes and larger packets only DATA_BLOCKED helps (`FlowControl.RaisedIff`,
  `FlowControl.SmallWindowStays`, `FlowControl.BlockedHelps`).
- During and after an MTU search an ICMP report below 1200 bytes is ignored, and one that equals the MTU in
  use does not shorten the next probe (`Plpmtud.TooBigLowers`, `Plpmtud.TooBigSteers`).
- The reported ranges are exact if and only if the list of gaps was not cut short; a cut list is still
  sound (`AckFrame.AckSound`).
- `cubic_root` is the integer cube root if and only if its argument is below 2^62; above, the first
  cube wraps to zero and 2^22 is returned. The caller stays far below (`Cubic.CubicRoot`).
- Opening, for sending, an ID that only the peer may open returns a different stream; the found ID is
  the one asked for if and only if the ID is local exactly when sending (`StreamTable.StreamTable.Get`);
  a client that sends on the new ID 1 gets stream 0 (`StreamTable.ClientOpensAnother`).
- An acknowledgment in slow start keeps the Reno window at or above its minimum if and only if the
  maximum window is (`Reno.SlowStartFloor`).
- A number is recovered from its low bytes also at the two ends of the packet-number range, outside
  the window of appendix A.3 of RFC 9000; `Wire.NumRoundTrip` gives the exact condition.

## Model

| member | source | states |
|---|---|---|
| Wire.FixedRoundTrip | modules/net/quic/common.c:229-315 | reading back what was written gives the number modulo the width of the field, and the rest of the buffer |
| Wire.VarRoundTrip | modules/net/quic/common.c:181-294 | every 64-bit number comes back modulo 2^62, hence unchanged if and only if it is below 2^62; the encoding has the length `quic_var_len` predicts |
| Wire.VarShortest | modules/net/quic/common.c:181-190 | the shortest supported length that holds the number is used |
| Wire.NumRoundTrip | modules/net/quic/common.c:375-389 | a truncated packet number of 1 to 4 bytes is recovered if and only if it is within half a window of the expected one or in its own block at an end of the number space |
| Wire.SentNumberRecovered | modules/net/quic/common.c:229-389 | the four bytes the sender writes, read and reconstructed by a receiver at most 2^31 away, give the sent number |
| Wire.GetInt | modules/net/quic/common.c:229-260 | succeeds exactly for the supported lengths that fit what is left, and consumes that much |
| Wire.Buffer.Store | modules/net/quic/common.c:284-292 | writes in place exactly the low bytes in network order and touches nothing else |
| Wire.Buffer.AppendInt | modules/net/quic/common.c:297-315 | appends the encoding, or nothing for a length that is not supported |
| Wire.Buffer.AppendVar | modules/net/quic/common.c:275-294 | appends exactly the variable-length encoding to what was written before |
| Wire.Buffer.StorePrefixed | modules/net/quic/common.c:281-293 | the low bytes with the length bits in the first, behind what was written |
| Wire.Buffer.TakeInt | modules/net/quic/common.c:229-260 | agrees with the decoding of the rest of the buffer; on failure the pointer stays |
| Wire.Buffer.TakeVar | modules/net/quic/common.c:193-226 | agrees with the decoding of the rest of the buffer; on failure the pointer stays |
| RecvWindow.MarkKeepsInv | modules/net/quic/pnspace.c:115-178 | marking keeps the window invariant; base, min and max never go back and no received number is forgotten |
| RecvWindow.WindowRefinesSet | modules/net/quic/pnspace.c:78-178 | over every run, inside the tracked range "already received" is answered exactly for the numbers that were marked, and none between min and base is missing |
| RecvWindow.MarkedNeverFresh | modules/net/quic/pnspace.c:78-178 | a marked number is never again reported as new, whatever arrives afterwards |
| RecvWindow.WindowSpan | modules/net/quic/pnspace.c:133-177 | no run builds a window wider than 10240 numbers |
| RecvWindow.TimesOfArrival | modules/net/quic/pnspace.c:133-178 | over every run the two times that the window keeps are those at which its two largest numbers arrived |
| RecvWindow.GapsExpire | modules/net/quic/pnspace.c:155-177 | gaps are not waited for beyond the timeout: after two new largest numbers, each at least the timeout after the advance before, nothing up to the first is missing any more |
| RecvWindow.GapsAreWaitedFor | modules/net/quic/pnspace.c:155-177 | nor are they given up before: only by the timeout, or when the largest number is too far ahead |
| RecvWindow.NoLockOut | modules/net/quic/pnspace.c:83-84 | if each number exceeds the largest marked before by at most 512, no new largest number is ever refused, with any loss and any timing |
| RecvWindow.LockOutBeyond | modules/net/quic/pnspace.c:155-177 | for every larger step there is a run that locks out, so 512 is exact |
| PnSpace.PnSpace.constructor | modules/net/quic/pnspace.c:18-33 | an empty window |
| PnSpace.PnSpace.Check | modules/net/quic/pnspace.c:78-91 | the bitmap answers what the set of marked numbers says |
| PnSpace.PnSpace.Grow | modules/net/quic/pnspace.c:49-71 | a longer map of the same window, or an error and no change; the 16-bit casts lose nothing |
| PnSpace.PnSpace.Move | modules/net/quic/pnspace.c:98-106 | the base becomes the least unreceived number after the given one and every bit still tells the truth after the shift |
| PnSpace.PnSpace.SetBase | modules/net/quic/pnspace.h:96-105 | all four numbers and both times start from the given one |
| PnSpace.PnSpace.Mark | modules/net/quic/pnspace.c:115-178 | the bitmap operation refines the set operation through growth, shift and forced advance; a failed growth changes nothing |
| PnSpace.PnSpace.Note | modules/net/quic/pnspace.c:141-153 | the middle of mark records the number; its fast path is unreachable |
| PnSpace.PnSpace.AdvanceIfDue | modules/net/quic/pnspace.c:155-177 | the end of mark advances exactly when time or distance demands it |
| PnSpace.PnSpace.NextGapAck | modules/net/quic/pnspace.c:186-203 | finds the first gap of the set at or after a number, or that there is none |
| PnSpace.PnSpace.NumGabs | modules/net/quic/pnspace.c:210-231 | fills the blocks with the first gaps of the window, the 32nd widened up to the largest number |
| PnSpace.PnSpace.PutRanges | modules/net/quic/frame.c:87-98 | writes the gap and range pairs from the highest down |
| PnSpace.PnSpace.PutAck | modules/net/quic/frame.c:81-104 | the writes, in order, produce type, header, ranges and ECN counts |
| PnSpace.PnSpace.AckCreate | modules/net/quic/frame.c:48-112 | allocates the estimated size, never writes past it, and the bytes are those of the specified frame |
| AckFrame.GapsExact | modules/net/quic/pnspace.c:186-231 | the gaps are exactly the unreceived numbers |
| AckFrame.ReportedGapsSpaced | modules/net/quic/pnspace.c:210-231 | reported gaps are ascending, non-empty and separated, also when the list is cut |
| AckFrame.RangesComplement | modules/net/quic/frame.c:62-98 | the ranges are the complement of the gaps |
| AckFrame.RangesDescend | modules/net/quic/frame.c:62-98 | the ranges are non-empty, disjoint and descending |
| AckFrame.AckFits | modules/net/quic/frame.c:74-107 | the frame is never longer than its estimate, which fits 16 bits |
| AckFrame.SackRanges | modules/net/quic/frame.c:1084-1096 | the loop hands on exactly the ranges before the first malformed one |
| AckFrame.AckProcess | modules/net/quic/frame.c:1051-1113 | the parser is the reference parser, errors included |
| AckFrame.SacksWereSent | modules/net/quic/frame.c:1060-1096 | whatever a frame says, every range handed on is of numbers that were sent, and each lies below the one before |
| AckFrame.AckRoundTrip | modules/net/quic/frame.c:1060-1110 | for every sendable window the peer accepts the frame without tripping a guard and reads its ranges, delay and ECN counts |
| AckFrame.AckSound | modules/net/quic/frame.c:62-98 | only received numbers are acknowledged, the largest always is, and the union is exact if and only if the gap list is complete |
| AckFrame.PeerLearnsMarked | modules/net/quic/frame.c:48-112 | from any run of arrivals to the peer: the frame is accepted and names only marked numbers, all of them exactly when the gap list is complete |
| Delivery.KeptByFrame | modules/net/quic/frame.c:1078-1096 | after all ranges of a frame a sent packet is left exactly when no range of its level covers it |
| Delivery.AckRetiresDelivered | modules/net/quic/frame.c:1051-1113 | end to end, for every run of arrivals and every list of sent packets: an ACK frame retires only packets that were delivered and marked, and all of those in the window when the gap list is complete |
| Delivery.ProcessAck | modules/net/quic/frame.c:1051-1113 | handing every range of an arriving ACK frame to the queue removes exactly the sent packets that the ranges cover; every frame it acknowledges was carried, with all its data, by one of them; the largest acknowledged number moves exactly if the largest one named was in flight; frames and streams only move on |
| Delivery.AckKeepsDelivered | modules/net/quic/frame.c:1051-1113 | an ACK frame that the peer made after any run of arrivals, old or repeated, acknowledges only frames in packets the peer marked |
| Delivery.OthersKeepDelivered | modules/net/quic/outqueue.c:922-1007 | what only queues, packs, loses or drops frames keeps this, and so does whatever else the peer marks |
| Delivery.DataRecvdDelivered | modules/net/quic/frame.c:1985-2008 | end to end: a stream in "Data Recvd" has every one of its frames in a packet that the peer marked |
| FlowControl.ReceiveKeepsOk | modules/net/quic/inqueue.c:192-205 | data is let in if and only if what was seen stays within both limits afterwards; the connection total stays the sum over streams |
| FlowControl.WindowNeverWraps | modules/net/quic/inqueue.c:43-82 | the unsigned subtractions are never negative, the 32-bit windows lose nothing, and no limit goes down |
| FlowControl.ConsumeReplenishes | modules/net/quic/inqueue.c:43-82 | after a read each limit is as it was or a full window ahead of what was read, is less than a step short of that, and was not touched for less than a step |
| FlowControl.RaisedIff | modules/net/quic/inqueue.c:59-68 | reading all that the connection allows raises its limit if and only if a packet is no larger than the window |
| FlowControl.StreamRaisedIff | modules/net/quic/inqueue.c:71-80 | the same for a stream that is still open |
| FlowControl.SmallWindowStays | modules/net/quic/inqueue.c:59-68 | an input on which it does not: a window of 1200 bytes and packets of 1400 |
| FlowControl.AnswersKeepOk | modules/net/quic/frame.c:1655-1731 | answering a blocked peer keeps the accounting and never lowers a limit |
| FlowControl.TrimLargest | modules/net/quic/frame.c:269-289 | the payload is the largest that message, packet, send buffer and both limits allow |
| FlowControl.SendKeepsOk | modules/net/quic/frame.c:269-289 | a sender trimmed by its window stays within every limit granted, and what it sends is counted |
| FlowControl.SentIsAdmitted | modules/net/quic/outqueue.c:166-177 | whatever was ever sent is within both of the receiver's limits whenever it arrives |
| FlowControl.StepKeepsOk | modules/net/quic/frame.c:1460-1525 | every step of sender, receiver and network keeps the system invariant |
| FlowControl.NeverViolated | modules/net/quic/inqueue.c:192-205 | over every run, with loss, reordering and repetition, no FLOW_CONTROL_ERROR is raised and the accounting is exact |
| FlowControl.LimitsNeverDecrease | modules/net/quic/inqueue.c:43-82 | what the receiver allows and what the sender was granted, for the connection and for every stream, never decreases over any run |
| FlowControl.RunAnnounced | modules/net/quic/inqueue.c:43-82 | over every run the sender has the current limits or a frame that carries them is on the network |
| FlowControl.RunAhead | modules/net/quic/inqueue.c:43-82 | over every run in which packets fit the windows the limits are ahead of what has been read |
| FlowControl.NeverStuck | modules/net/quic/inqueue.c:43-82 | flow control never blocks for good: after every such run, once all that was sent has been read, frames on the network let the sender send more |
| FlowControl.BlockedHelps | modules/net/quic/frame.c:1655-1731 | whatever the packet size, the answers to DATA_BLOCKED and STREAM_DATA_BLOCKED do |
| Reassembly.ReassemblyExact | modules/net/quic/inqueue.c:91-307 | the offset is the least one not accepted, what was read and can be read is exactly the first `offset` bytes, and "all received" holds exactly when FIN and every byte were accepted |
| Reassembly.DeliverOk | modules/net/quic/inqueue.c:91-139 | delivering the part of a frame beyond the offset extends the delivered prefix and keeps the set of accepted offsets |
| Reassembly.AcceptOk | modules/net/quic/inqueue.c:161-307 | an accepted frame adds exactly its offsets and its FIN |
| Reassembly.SettledAfter | modules/net/quic/inqueue.c:287-293 | where the drain loop stops, nothing of any stream could be delivered any more |
| Reassembly.WithoutMeaning | modules/net/quic/inqueue.c:310-323 | a purge removes exactly the frames of one stream and leaves what the others can read |
| Inqueue.Inqueue.DeliveredExactly | modules/net/quic/inqueue.c:91-307 | between any two calls, on every stream not reset: the offset is the least one not accepted, what was read and can be read is exactly the first `offset` bytes sent, and "all received" holds exactly when FIN and every byte were accepted |
| Inqueue.Inqueue.constructor | modules/net/quic/inqueue.c:507-619 | a connection before any data: every stream open and empty, the given limits, nothing charged |
| Inqueue.Inqueue.EventRecv | modules/net/quic/inqueue.c:539-572 | the event goes behind the events at the front and ahead of data, is charged and counted, and changes nothing that a stream can read |
| Inqueue.Inqueue.EventPlace | modules/net/quic/inqueue.c:561-567 | the place behind the events at the front and ahead of everything else |
| Inqueue.Inqueue.TrimFront | modules/net/quic/inqueue.c:98-106 | an overlap is cut off together with the memory charged for it |
| Inqueue.Inqueue.StreamTail | modules/net/quic/inqueue.c:91-139 | delivers the new part of a frame, with an event exactly for FIN; memory, lists and meaning stay consistent |
| Inqueue.Inqueue.Drain | modules/net/quic/inqueue.c:284-306 | merges every waiting frame that has become contiguous and stops where nothing more can be delivered; other streams stay, and this one only moves on or becomes fully received |
| Inqueue.Inqueue.DeliverNext | modules/net/quic/inqueue.c:294-305 | one round of the drain: discard a redundant frame or deliver it |
| Inqueue.Inqueue.FindPlace | modules/net/quic/inqueue.c:218-240 | the place keeps the list sorted; a frame counts as known exactly when a waiting frame covers it |
| Inqueue.Inqueue.StreamRecv | modules/net/quic/inqueue.c:161-307 | the result is exactly determined; an accepted frame adds exactly its bytes and FIN to what the stream has accepted and resets nothing, a refused one changes nothing, other streams stay as they are, memory and flow control stay exact, and the events queued are exactly those due |
| Inqueue.Inqueue.Admit | modules/net/quic/inqueue.c:190-306 | from where the frame is charged: refused exactly beyond a limit, and then nothing changes |
| Inqueue.Inqueue.Place | modules/net/quic/inqueue.c:213-306 | a frame within the limits waits or is delivered, with the events due |
| Inqueue.Inqueue.AdmitsTest | modules/net/quic/inqueue.c:192-205 | the test of the code is the one of the accounting |
| Inqueue.Inqueue.QueueAhead | modules/net/quic/inqueue.c:219-275 | an out-of-order frame waits in its place, or is dropped with its memory when it is covered |
| Inqueue.Inqueue.InsertAhead | modules/net/quic/inqueue.c:241-275 | a frame that waits, with the final size it tells and the event for it |
| Inqueue.Inqueue.JoinList | modules/net/quic/inqueue.c:270-274 | the frame joins the list in its place and the accounting |
| Inqueue.Inqueue.TakeInOrder | modules/net/quic/inqueue.c:277-306 | an in-order frame is delivered with all it makes contiguous |
| Inqueue.Inqueue.TakeFirst | modules/net/quic/inqueue.c:277-280 | the exact new record of the stream, and everything but the contiguous rest |
| Inqueue.Inqueue.Contiguous | modules/net/quic/inqueue.c:281-306 | whatever waits and has become contiguous, if anything does |
| Inqueue.Inqueue.DgramRecv | modules/net/quic/inqueue.c:575-589 | a datagram is queued and charged unless there is no room |
| Inqueue.Inqueue.Purge | modules/net/quic/inqueue.c:310-323 | the loop keeps exactly the frames of other streams and counts exactly the bytes it drops |
| Inqueue.Inqueue.ResetStream | modules/net/quic/frame.c:1334-1402 | a reset is refused exactly for an inconsistent final size; otherwise the stream leaves both lists with its memory and the others are untouched |
| Inqueue.Inqueue.FlowUpdate | modules/net/quic/inqueue.c:43-82 | the limits of the connection and of an open stream are replenished by what was read: unchanged or a full window ahead, never more than a step short; other streams and all progress stay |
| Inqueue.LeadingRunMeans | modules/net/quic/socket.c:1217-1232 | what one call may read is the data of one stream up to the first FIN, or up to the first frame of another kind or stream |
| Inqueue.Inqueue.ReadFrame | modules/net/quic/socket.c:1170-1226 | of one frame exactly as much as is left, asked for and can be copied; a frame used up is released |
| Inqueue.Inqueue.ReadLoop | modules/net/quic/socket.c:1166-1233 | across frames of one stream: exactly as many bytes as are ready in the leading run, asked for and can be copied; they are the next part of the stream, the frames used up are the first ones of the list, all of the run when the buffer is larger, and the stream is read to its end exactly when the last of them carried FIN |
| Inqueue.Inqueue.ReadSingle | modules/net/quic/socket.c:1166-1212 | a datagram or event is read alone, exactly as much as is left, asked for and can be copied, from where the last read stopped, and released once it is used up |
| Inqueue.Inqueue.RecvMsg | modules/net/quic/socket.c:1145-1258 | the application gets exactly the next bytes of the stream, as many as are ready, asked for and can be copied; memory is conserved, limits are replenished by what was freed, the state changes exactly when FIN is used up, other streams stay, and a peek changes nothing |
| Inqueue.Inqueue.PurgeRead | modules/net/quic/socket.c:1246-1250 | the purge after the last byte was read finds nothing to drop |
| Handshake.CryptoQueue.DeliveredExactly | modules/net/quic/inqueue.c:331-484 | between any two calls, at every level: the offset is the least one not accepted, and what was taken and is ready is exactly the first `offset` bytes |
| Handshake.CryptoQueue.constructor | modules/net/quic/inqueue.c:610-619 | nothing received, nothing charged |
| Handshake.CryptoQueue.CollectTicket | modules/net/quic/inqueue.c:369-396 | the ticket is always a prefix of what arrived at level 0; data is appended exactly while it continues an incomplete ticket of allowed size, and the ticket is ready exactly once that is a complete TLS message |
| Handshake.CryptoQueue.TicketAvailable | modules/net/quic/inqueue.c:369-396 | once a complete message has been delivered at level 0, within the size of a ticket, it is available |
| Handshake.CryptoQueue.Tail | modules/net/quic/inqueue.c:331-400 | hands over exactly the part beyond the offset, behind the handshake frames already there; memory stays exact |
| Handshake.CryptoQueue.FindPlace | modules/net/quic/inqueue.c:445-465 | the place keeps the list sorted; a frame counts as known exactly when a waiting frame covers it |
| Handshake.CryptoQueue.DeliverNext | modules/net/quic/inqueue.c:476-481 | one round of the drain: discard a redundant frame or hand it over |
| Handshake.CryptoQueue.Drain | modules/net/quic/inqueue.c:468-482 | merges every waiting frame that has become contiguous |
| Handshake.CryptoQueue.QueueAhead | modules/net/quic/inqueue.c:445-465 | an out-of-order frame joins the list, or is dropped with its memory exactly when a waiting frame covers it |
| Handshake.CryptoQueue.Recv | modules/net/quic/inqueue.c:409-484 | the result is exactly determined; an accepted frame adds exactly its bytes to what its level has accepted, a refused one changes nothing, memory is conserved, and the ticket collected is all that was delivered until it is complete |
| Handshake.CryptoQueue.Read | modules/net/quic/socket.c:1166-1212 | a read takes the next bytes of the level, exactly as many as are left in the frame, asked for and can be copied; exactly a frame that is used up leaves the list with its memory |
| ReceiveSide.ReceiveSide.ChargeExact | modules/net/quic/inqueue.c:20-38 | the receive memory of the socket is exactly the length of all frames on its four lists |
| ReceiveSide.ReceiveSide.constructor | modules/net/quic/inqueue.c:610-619 | both queues of the socket, each valid |
| ReceiveSide.ReceiveSide.StreamData | modules/net/quic/inqueue.c:161-307 | the result is exactly determined against the memory of the whole socket; an accepted frame adds exactly its bytes and the events due, other streams stay, none is reset, and a refused frame changes nothing |
| ReceiveSide.ReceiveSide.Datagram | modules/net/quic/inqueue.c:575-589 | a datagram is refused exactly for room in the whole socket, else queued behind everything and charged its length |
| ReceiveSide.ReceiveSide.CryptoData | modules/net/quic/inqueue.c:331-484 | a CRYPTO frame is refused exactly for room in the whole socket; a session ticket that becomes complete is announced once, ahead of data, as an event with its type byte, and no stream changes |
| ReceiveSide.ReceiveSide.RecvMsg | modules/net/quic/socket.c:1145-1258 | handshake data comes first; what is handed over is the next part of its level or stream, exactly as much as is ready, asked for and can be copied; limits move by what was freed, no stream is reset and other streams stay; a peek changes nothing |
| ReceiveSide.ReceiveSide.RecvCrypto | modules/net/quic/socket.c:1166-1212 | a CRYPTO frame is read alone |
| ReceiveSide.ReceiveSide.RecvData | modules/net/quic/socket.c:1145-1258 | the rest of the receive list |
| Charging.TrimExact | modules/net/quic/inqueue.c:98-106 | the length left by the in-order trim is exact if and only if the frame is not a FIN below what was delivered before the size is known |
| Charging.FinBelowDelivered | modules/net/quic/inqueue.c:98-107 | with 100 bytes delivered, FIN on the first ten leaves a length of 65446 |
| Charging.PlacedFine | modules/net/quic/inqueue.c:219-275 | a frame that waits keeps every stream consistent: nothing beyond the highest offset, every FIN at the known final size |
| Charging.HandedFine | modules/net/quic/inqueue.c:277-282 | a frame that is handed over keeps every stream consistent; the offset is its end and within what was seen if and only if the trim did not wrap |
| Charging.NextFine | modules/net/quic/inqueue.c:284-306 | a waiting frame that is handed over or discarded keeps every stream consistent, and its trim never wraps |
| Charging.AnyPeer.constructor | modules/net/quic/inqueue.c:507-619 | no frames, no charge, every stream open |
| Charging.AnyPeer.Event | modules/net/quic/inqueue.c:539-572 | an event is charged exactly what it adds to the list |
| Charging.AnyPeer.Tail | modules/net/quic/inqueue.c:91-139 | what is charged for a delivered frame is the length the trim leaves, wrapped or not |
| Charging.AnyPeer.Drain | modules/net/quic/inqueue.c:284-306 | for waiting frames of any peer: memory stays exact, delivery never passes the highest offset, and no frame that could be delivered stays |
| Charging.AnyPeer.DeliverNext | modules/net/quic/inqueue.c:294-304 | one waiting frame: the offset moves to its end or stays |
| Charging.AnyPeer.Recv | modules/net/quic/inqueue.c:161-307 | for every frame: the result is exactly determined, both final-size refusals included; a refused frame changes nothing; the charge is the sum of the lengths on the lists; the highest offsets grow exactly by what is new; a frame ahead waits, one in order is delivered and leaves nothing deliverable behind; delivery stays within what was seen unless the trim wraps |
| Charging.AnyPeer.Settle | modules/net/quic/inqueue.c:213-306 | from where the limits hold: refused exactly for the final size, else waiting or delivered |
| Charging.AnyPeer.Place | modules/net/quic/inqueue.c:219-275 | the new stream record of a frame that waits, with memory exact |
| Charging.AnyPeer.InOrder | modules/net/quic/inqueue.c:277-306 | a frame in order and all it makes contiguous, with memory exact and nothing deliverable left |
| Charging.AnyPeer.Reset | modules/net/quic/frame.c:1334-1402 | a reset is refused exactly for an inconsistent final size and then changes nothing; else exactly the frames of the stream leave both lists with their memory |
| SentPackets.OrderedInsert | modules/net/quic/outqueue.c:509-533 | the place found for a new packet keeps the list ordered by level, number and time |
| SentPackets.NoneBelow | modules/net/quic/outqueue.c:690-691 | behind the first number below the range no packet is in the range |
| SentPackets.SackedAll | modules/net/quic/outqueue.c:671-728 | stopping the backward scan there leaves what a pass over the whole list leaves |
| SentPackets.NoneBeyond | modules/net/quic/outqueue.c:958-1007 | behind the first packet that is not lost no packet is lost |
| SentPackets.MarkedAll | modules/net/quic/outqueue.c:958-1007 | stopping the forward scan there leaves what a pass over the whole list leaves |
| SentPackets.DeadlineAtStop | modules/net/quic/outqueue.c:986-992 | the loss time set where the scan stops is the earliest deadline of what remains |
| SentPackets.LossIsEarned | modules/net/quic/outqueue.c:973-992 | no packet is lost before a later one was acknowledged, unless all are given up, and what is lost stays lost |
| SentPackets.OvertakenIsLost | modules/net/quic/outqueue.c:986-987 | a packet is lost once one at least three later is acknowledged |
| SentPackets.TimerIsExact | modules/net/quic/outqueue.c:986-992 | when the loss time comes some packet that is left is lost, and none is before |
| Ownership.OwnedMove | modules/net/quic/outqueue.c:509-533 | moving a record in or out of the list moves exactly its references |
| Ownership.AckOwned | modules/net/quic/outqueue.c:610-632 | dropping an acknowledged copy keeps references exact and uncharges the frame once |
| Ownership.LossOwned | modules/net/quic/outqueue.c:922-950 | dropping a lost copy keeps references exact and uncharges only what is not sent again |
| Ownership.NothingStranded | modules/net/quic/outqueue.c:922-950 | a frame on a queue waits to be sent, or an outstanding packet carried all its data |
| Ownership.StreamGoesOn | modules/net/quic/outqueue.c:922-950 | a stream with FIN queued and not all acknowledged has an unacknowledged frame that waits to be sent or is in an outstanding packet |
| Ownership.PackOk | modules/net/quic/packet.c:1938-1959 | packing adds a reference for the record and changes no charge |
| Ownership.PacketCopiesMean | modules/net/quic/packet.c:1938-1959 | the record names each tracked frame of the packet once, with all its data |
| Ownership.PacketLenMeans | modules/net/quic/packet.c:2587-2594 | the bytes a packet adds in flight are the lengths of its tracked frames |
| Ownership.PurgeOk | modules/net/quic/outqueue.c:1266-1284 | a purged frame loses its queue reference and its charge |
| Ownership.AllFree | modules/net/quic/outqueue.c:1286-1297 | with nothing queued and no records, every frame is free and nothing is charged |
| Ownership.DataRecvdEarned | modules/net/quic/frame.c:1985-2008 | absent a reset a stream is in "Data Recvd" exactly when FIN was queued and every STREAM frame ever queued, appended data included, was acknowledged |
| Ownership.StreamAckOk | modules/net/quic/frame.c:1985-2008 | acknowledging a queued frame keeps the count of unacknowledged frames and the state exact |
| Ownership.ResetAckOk | modules/net/quic/frame.c:1948-1968 | an acknowledged RESET_STREAM ends the reset of its stream and touches no other |
| Ownership.ReturnOk | modules/net/quic/outqueue.c:1012-1022 | a frame given back by a packet that could not be built keeps its references, its charge and its meaning |
| Ownership.PurgeNamed | modules/net/quic/outqueue.c:1266-1284 | a frame that names a reset stream, control frames included, can be dropped |
| Ownership.StreamQueueOk | modules/net/quic/outqueue.c:379-417 | queueing a frame keeps them exact |
| Ownership.StreamAppendOk | modules/net/quic/outqueue.c:332-376 | appending to a queued frame keeps them exact |
| Outqueue.Outqueue.constructor | modules/net/quic/outqueue.c:1243-1252 | empty queues, every stream ready to send, every counter zero |
| Outqueue.Outqueue.StreamTail | modules/net/quic/outqueue.c:379-417 | one new frame, its bytes charged, the stream counted and moved on |
| Outqueue.Outqueue.OtherTail | modules/net/quic/outqueue.c:420-469 | one new control or datagram frame and its charge |
| Outqueue.Outqueue.StreamAppend | modules/net/quic/outqueue.c:332-376 | data joins a frame only if no packet carried it, so every record still names all the data of its frames |
| Outqueue.Outqueue.PacketTail | modules/net/quic/packet.c:2562-2599 | the frame moves to the packet; references and charges stay exact |
| Outqueue.Outqueue.AckCopy | modules/net/quic/frame.c:2151-2158 | one frame of an acknowledged packet: the release and the bytes credited are exact |
| Outqueue.Outqueue.SackFrames | modules/net/quic/outqueue.c:610-632 | no frame of an acknowledged packet stays queued; each is credited once, however many packets carried it; only frames the packet carried with all their data are acknowledged; no stream is reset by it |
| Outqueue.Outqueue.LoseCopy | modules/net/quic/outqueue.c:922-950 | one frame of a lost packet: if it waits to be acknowledged it goes back to the stream list or the control list, except a datagram, which is dropped; no other frame moves |
| Outqueue.Outqueue.RetransmitFrames | modules/net/quic/outqueue.c:922-950 | every frame of a lost packet that waits to be acknowledged is to be sent again, except datagrams; no other frame moves, and memory stays exact |
| Outqueue.Outqueue.RemoveRecord | modules/net/quic/outqueue.c:703-723 | bytes in flight, in total and per space, stay the sums over the sent packets |
| Outqueue.Outqueue.TransmittedSack | modules/net/quic/outqueue.c:671-728 | removes exactly the packets of the level in the range, acknowledges only frames that one of them carried with all their data, moves the largest acknowledged number exactly when it is among them, and resets no stream |
| Outqueue.Outqueue.MarkScan | modules/net/quic/outqueue.c:968-1006 | the forward scan with its early exits |
| Outqueue.Outqueue.RetransmitMark | modules/net/quic/outqueue.c:958-1007 | removes exactly the packets that section 6.1 of RFC 9002, as coded, declares lost; every frame they carried that waits to be acknowledged is to be sent again, on the list for its kind, except datagrams, and no other frame moves; the loss time of the level is the earliest remaining deadline, other levels keep theirs |
| Outqueue.Outqueue.SentPlace | modules/net/quic/outqueue.c:509-533 | the place after all packets of the same or an earlier level |
| Outqueue.Outqueue.PackLoop | modules/net/quic/packet.c:1938-1959 | collects exactly the tracked frames of the packet, with one reference each |
| Outqueue.Outqueue.InsertRecord | modules/net/quic/packet.c:1997-2005 | the record joins the list in order and the bytes in flight |
| Outqueue.Outqueue.PackFrames | modules/net/quic/packet.c:1911-2012 | the next number, one record that names exactly the tracked frames, which now wait to be acknowledged, and all invariants |
| Outqueue.Outqueue.ReturnFrames | modules/net/quic/outqueue.c:1012-1022 | a packet that could not be built gives each of its frames back to the stream list or the control list, by its kind |
| Outqueue.Outqueue.PurgeStream | modules/net/quic/outqueue.c:1266-1284 | exactly the frames on the queue that name the stream leave it and are credited |
| Outqueue.Outqueue.ResetStream | modules/net/quic/frame.c:1441-1455 | whatever the state of the stream: one RESET_STREAM is queued, exactly the frames that name the stream leave the two lists, and no other stream changes |
| Outqueue.Outqueue.PurgeAll | modules/net/quic/outqueue.c:1266-1284 | exactly the frames of one queue leave it and are credited |
| Outqueue.Outqueue.Free | modules/net/quic/outqueue.c:1254-1297 | no memory stays charged and no frame keeps a reference |
| StreamTable.ValidMeans | modules/net/quic/stream.c:19-43 | an ID is valid in a direction exactly when it is bidirectional or belongs to the side that owns the direction |
| StreamTable.LimitRoundTrip | modules/net/quic/stream.h:96-104 | the two conversions are inverse, and an ID is within a limit exactly when its stream count is |
| StreamTable.InitialLimitsAgree | modules/net/quic/stream.c:79-136 | both ends of a stream start with the same data limits, those that each side configured for streams of this kind |
| StreamTable.AddMeans | modules/net/quic/stream.c:97-149 | exactly the IDs of the type up to the one asked for are added and counted |
| StreamTable.OpenedOk | modules/net/quic/stream.c:140-156 | opening keeps the balance of open and openable streams |
| StreamTable.ExceedsMeans | modules/net/quic/stream.c:170-197 | in counts: an ID of the lane is beyond the limits exactly if so many streams were never allowed or too many would be open |
| StreamTable.OpenIdsOk | modules/net/quic/stream.c:79-157 | no ID is created twice and none is skipped |
| StreamTable.OpenLastNew | modules/net/quic/stream.c:79-157 | the stream returned is new, and is the one asked for exactly when its type is the lane's |
| StreamTable.RaisedOk | modules/net/quic/stream.c:305-327 | a raise never lowers the limit and changes nothing when the allowance is full |
| StreamTable.RaisePendingOk | modules/net/quic/stream.c:305-327 | afterwards open plus openable streams are exactly the maximum |
| StreamTable.ReplaceOk | modules/net/quic/stream.c:245-296 | a stream that is done or deleted moves exactly its own counter |
| StreamTable.ClientOpensAnother | modules/net/quic/stream.c:79-157 | the input on which another stream is opened: a client, sending, new ID 1 |
| StreamTable.StreamTable.constructor | modules/net/quic/stream.c:329-400 | the side, the parameters and the four lanes as configured; the configured limits are the advertised ones |
| StreamTable.StreamTable.Create | modules/net/quic/stream.c:79-157 | all streams up to the one asked for, or none when memory is missing |
| StreamTable.StreamTable.Get | modules/net/quic/stream.c:200-239 | found, gone, refused or opened, each exactly when it should be; the peer is refused only above every count ever advertised |
| StreamTable.StreamTable.Put | modules/net/quic/stream.c:245-296 | nothing changes while the other half of a bidirectional stream is not over; otherwise exactly when the stream leaves the table, which flag is set, and that only its own lane drops by one; a stream whose own half is over stays accounted for |
| StreamTable.StreamTable.FinishSend | modules/net/quic/frame.c:1948-2008 | the end of a sending half: the stream stops being counted exactly when no half is left |
| StreamTable.StreamTable.FinishRecv | modules/net/quic/frame.c:1385-1399 | the end of a receiving half: the stream stops being counted exactly when no half is left |
| StreamTable.StreamTable.InUseWithinLimits | modules/net/quic/stream.c:245-327 | at no time are more streams in use than allowed: those the peer opened that are not over, with those it may still open, stay within the maximum, and ours within the peer's |
| StreamTable.StreamTable.MaxStreamsUpdate | modules/net/quic/stream.c:305-327 | a pending raise brings the lane to its full allowance and is exactly what is advertised |
| StreamTable.StreamTable.StreamsBlocked | modules/net/quic/frame.c:1733-1778 | the answer repeats the current limit unless the peer claims more |
| StreamTable.StreamTable.MaxStreams | modules/net/quic/frame.c:1529-1604 | the peer's limit on us becomes exactly the count received when that is more, never goes back, and a count above 2^60 is refused |
| StreamTable.StreamTable.SetStates | modules/net/quic/frame.c:1985-2008 | a change of a stream's states elsewhere moves no counter and no limit; that all its halves are over is noted |
| StreamTable.StreamTable.PeerNeverRefused | modules/net/quic/stream.c:170-197 | a peer within any count it was ever told does not exceed the limit |
| StreamTable.StreamTable.CountersExact | modules/net/quic/stream.c:245-296 | the counters are the numbers of streams in the table that are not done |
| Plpmtud.PathPl.constructor | modules/net/quic/path.c:517-525 | the initial state, within its bounds |
| Plpmtud.PathPl.PlSend | modules/net/quic/path.c:354-397 | the transition of a sent probe keeps the bounds; the fallback MTU is given exactly when the state changes |
| Plpmtud.PathPl.PlRecv | modules/net/quic/path.c:407-456 | the transition of an acknowledged probe keeps the bounds; an MTU is announced exactly when a search completes or an error ends |
| Plpmtud.PathPl.PlTooBig | modules/net/quic/path.c:466-510 | the transition of an ICMP message keeps the bounds, whatever it reports |
| Plpmtud.StepSafe | modules/net/quic/path.c:354-537 | every event keeps the bounds and the evidence for the MTU in use |
| Plpmtud.AlwaysSafe | modules/net/quic/path.c:354-537 | over every run, whatever is lost, late or reported: 1200 <= MTU <= probe size <= 9000, and the MTU above 1200 is never more than an acknowledged probe |
| Plpmtud.RecvMeans | modules/net/quic/path.c:407-456 | an answered probe puts its size in use and the search goes on with a larger one, unless that is known to fail or too large |
| Plpmtud.TooBigLowers | modules/net/quic/path.c:466-510 | an ICMP message raises nothing; afterwards the MTU is no more than reported if and only if the report is at least 1200 or the MTU was 1200 already |
| Plpmtud.TooBigSteers | modules/net/quic/path.c:484-496 | during a search the next probe is no larger than reported if and only if the report is not the MTU in use |
| Plpmtud.TooBigAtBase | modules/net/quic/path.c:474-483 | before the base size is confirmed exactly a credible report below it is an error |
| Plpmtud.BlackHoleNoticed | modules/net/quic/path.c:354-397 | a path that goes silent is noticed: after at most 7 unanswered probes the MTU is 1200, after at most 10 the path is in error |
| Plpmtud.FairConverging | modules/net/quic/path.c:354-456 | on a path of fixed MTU every run keeps the search between a size that passes and one that fails |
| Plpmtud.NeverAboveAndCloseAtEnd | modules/net/quic/path.c:354-456 | the MTU in use never exceeds the path's, and a completed search is within 3 bytes of the best |
| Plpmtud.SearchBudget | modules/net/quic/path.c:354-456 | every outcome uses up some of a finite budget |
| Plpmtud.SearchCompletes | modules/net/quic/path.c:354-456 | from any point at most 262 probe outcomes and 1051 steps pass before the search completes |
| Plpmtud.AlwaysGoesOn | modules/net/quic/path.c:354-456 | on a path of fixed MTU a fair run never gets stuck |
| Plpmtud.CompletionReachable | modules/net/quic/path.c:354-456 | a fair run can be completed within its budget |
| Plpmtud.SearchEnds | modules/net/quic/path.c:354-456 | every fair run has a fair continuation of at most 1051 steps that ends in a completed search |
| Cubic.TangentBelow | modules/net/quic/cong.c:59-62 | the inequality behind Newton's method from above |
| Cubic.NewtonStep | modules/net/quic/cong.c:59-62 | a step from above the root decreases and does not pass below the root |
| Cubic.CubicRoot | modules/net/quic/cong.c:49-64 | terminates, and returns the integer cube root if and only if the argument is below 2^62 |
| Cubic.DeltaBound | modules/net/quic/cong.c:155-170 | before the plateau the computed change is at most the distance to climb |
| Cubic.DeltaNear | modules/net/quic/cong.c:160-166 | while nothing wraps the change is 0.4 segments times the cube of the time to the plateau, less only what the shifts drop |
| Cubic.TargetRises | modules/net/quic/cong.c:155-170 | as time goes on towards the plateau the target rises to it |
| Cubic.RootClimbs | modules/net/quic/cong.c:137-138 | the cube root of the scaled distance, rounded down, does not overshoot it, and the next number does |
| Cubic.Epoch.constructor | modules/net/quic/cong.c:355-362 | no epoch is running |
| Cubic.Epoch.Start | modules/net/quic/cong.c:127-147 | k is the integer cube root of the scaled distance and anchors the epoch |
| Cubic.Epoch.Target | modules/net/quic/cong.c:127-170 | whatever the clock says, before the plateau the target lies between the window at the start of the epoch and the plateau, without wrapping |
| Reno.RenoCong.CheckPersistent | modules/net/quic/cong.c:260-279 | collapses the window, and forgets the minimum RTT, exactly under persistent congestion; the bounds stay |
| Reno.RenoCong.HandleLost | modules/net/quic/cong.c:418-440 | outside recovery the window and the threshold become half the window, or its minimum if that is more; in recovery nothing changes; the bounds stay |
| Reno.RenoCong.OnPacketLost | modules/net/quic/cong.c:442-448 | persistent congestion first, else one decrease; the bounds stay |
| Reno.RenoCong.OnPacketAcked | modules/net/quic/cong.c:450-478 | the growth of each state, in 32-bit arithmetic, keeps the bounds for packets of up to 65535 bytes |
| Reno.RenoCong.UpdateMss | modules/net/quic/cong.h:95-106 | the new minimum window, and the window at least that, within the bounds for a path that has room for it |
| Reno.AvoidanceStep | modules/net/quic/cong.c:468-473 | one uncapped step never passes the bound, because steps shrink as the window grows |
| Reno.WindowBounds | modules/net/quic/cong.c:418-478 | over every run the window is at least its positive minimum and never overflows 32 bits |
| Reno.SlowStartFloor | modules/net/quic/cong.c:453-460 | slow start keeps the floor if and only if the maximum window is at or above it |
| Reno.HalvingHalves | modules/net/quic/cong.c:418-440 | a loss or ECN signal outside recovery sets window and threshold to half the window, or to the minimum when that is more, and never raises the window |
| Reno.OnlyCongestionLowers | modules/net/quic/cong.c:260-478 | nothing else lowers the window but persistent congestion and the cap in slow start |
| Reno.AckedGrows | modules/net/quic/cong.c:450-467 | slow start adds the bytes acknowledged up to the cap and ends exactly at the threshold; recovery adds nothing and ends exactly with a packet sent after it began |
| Reno.AvoidanceGrows | modules/net/quic/cong.c:468-473 | congestion avoidance adds the share of a packet that the bytes are of the window, so one packet for a whole window |
| Reno.PersistentMeans | modules/net/quic/cong.c:260-270 | without wrap-around: no acknowledgment for more than three probe timeouts |
| Reno.MinWindowMeans | modules/net/quic/cong.h:95-106 | ten packets up to 14720 bytes, but at least two |
| Reno.StaysInRecovery | modules/net/quic/cong.c:418-466 | until recovery ends the window is not halved again and moves only if the MTU does |
| Reno.OneDecreasePerRecovery | modules/net/quic/cong.c:418-478 | between two decreases a packet sent after the first was acknowledged, or congestion was persistent |

## Left out

- Cryptography, TLS, key phases and packet protection.
- Sockets, hash tables, locks, timers, routing, UDP tunnels and the rest of socket.c: plumbing and argument checks.
- 0-RTT: the early list, and applying transport parameters again after streams exist.
- The halving of receive windows under memory pressure: advertised limits are not monotone there.
- Connection IDs, transport parameters and anti-amplification accounting.
- CUBIC beyond the cube root and the target: its clamps, the window increment, HyStart++ and pacing.
- ECN validation, RTT estimation and probe timeouts.
- Outqueue.Outqueue.OtherTail: the order inside a queue of frames is not modelled, only which queue a frame is on.
- Outqueue.Outqueue.StreamAppend: for the same reason the frame it extends is any unsent frame of the stream on the stream list, not the last one.
- Outqueue.Outqueue.PacketTail: any queued frame may join the packet; the guards on level, path and size that refuse some are left out, and so are the totals stream_list_len and unsent_bytes.
- Outqueue.Outqueue.TransmittedSack: the calls into congestion control and path probing are left out.
- Inqueue.Inqueue.EventRecv: what an event says is not modelled, only when one is queued, that it is charged and where it goes.
- Inqueue.Inqueue.ReadFrame: a copy of nothing at all is reported as an error by the code and is an empty result here.
- Charging.AnyPeer.Drain: how many events a peer that contradicts itself can cause is bounded below only; Inqueue.Inqueue.StreamRecv has the exact number for others.
- Inqueue.Inqueue.RecvMsg: the CRYPTO frames at the front of the receive list are a list of their own (Handshake.CryptoQueue.Read), so this one starts behind them; ReceiveSide.ReceiveSide.RecvMsg puts the two together.
- Inqueue.Inqueue.Admit: the final-size refusals cannot happen for a consistent peer; they are in Charging.AnyPeer.Recv.
- Inqueue.Inqueue.StreamRecv: streams are numbered by their position, and a stream is known before its first frame.
- Charging.AnyPeer.Recv: what a frame carries is not modelled, only its length; reading the frames is modelled in Inqueue.dfy, for consistent peers.
- AckFrame.AckProcess: reads from a sequence that shrinks instead of an array and a pointer; Wire.Buffer.TakeVar shows that the two agree.
- StreamTable.StreamTable.Settle: the two branches of the code that delete a stream or mark it done share one method.
- FlowControl.StepKeepsOk: a stream that is reset is treated as finished; the final size it announces is not added to the connection's total, as in the code.
