# KCP transport, packet framing and key generators: a verified model

This project models the core of a game-traffic proxy and proves its properties in Dafny 4.11.

* **The KCP reliable transport.** `ControlBlocks.ControlBlock` is the control block as the program keeps
  it: fields updated in place, a fixed send buffer, uint32 arithmetic. Each method is proved against a
  function on a value (`Engine`), and what the transport promises is proved about those functions, and
  about every run of two ends over a network that loses, duplicates, reorders and delays: what no schedule
  can break (`Network`), and how little a schedule has to deliver for data to arrive (`Delivery`).
* **Packet framing with two keys.** `Frames` prints and parses packets and models the routine that both
  encrypts and decrypts, guessing the key from the magic bytes at the ends of a packet.
* **The generators and the key schedule.** `Mt19937` (64-bit Mersenne Twister), `Ec2b`, `Ec2bTables`, `Cipher`
  and `Ec2bKeys` (the key scramble, the cipher of FIPS 197 it inverts, and its keystream), `CSharp` (a subtractive generator); `Octets` holds what they share.

`dafny verify dfyconfig.toml` checks everything.

## How the transport is organised

| file | holds |
|---|---|
| Words, Segments | uint32 and int32 arithmetic; segments and their wire form |
| Sender, Receiver, Timing, Flushing | in-flight buffer, reorder buffer and reassembly, timers and windows, the parts of a flush |
| BufferPool, Ownership | packet buffers as an account of owners |
| Engine, Invariants | the control block as a value; what every operation keeps and sends |
| Messages, Channel, Network | fragmentation; one direction; two ends with unbounded numbers, and the theorems about runs |
| Refinement, ByteNetwork | uint32 arithmetic and byte datagrams represent the unbounded ends |
| Effects, Arrivals | what a flush, a datagram and a read must do, said of the states before and after and of the segments sent |
| Deadlines, Reachable | deadlines, the flush timer and window probes; one end against arbitrary bytes |
| Delivery | of all the network may lose, one delivery of what one flush sends is enough |
| ControlBlock, Session, Endpoints | the classes, and running two of them |

The operations that touch a sequence number are written once, over `Arith`: `Wrapping` is the program's
uint32 arithmetic, `Exact` the same operation on unbounded numbers. The class is proved against
`Wrapping`; the theorems about two ends are proved with `Exact`, and `Refinement` and `ByteNetwork` carry
them over. For whole runs it is enough that each delivered number is less than half the number space late:
`NearRun` says so, and `ShortRunsAreSafe` shows that it cannot be otherwise before 2^31-2^16 segments have
been accepted. For one operation the exact condition is proved (`ParseDataCommutesIff`,
`OnPushCommutesIff`, `UnaCountCommutesIff`, `ParseAckCommutesIff`), and the limits differ: a late data segment
does harm only when its uint32 value falls into the window again, so nearly 2^32 numbers late
(`StaleSegmentIsAccepted`; 2^31 does none, `HalfwayLateIsIgnored`), a late cumulative acknowledgement from
2^31+1 numbers on (`StaleUnaDropsAll`).

The clock is a function from the number of the reading to its value; a schedule chooses it freely, and
nothing assumes that it moves forwards. The pool of packet buffers is described by which buffer it would
like to hand out at each request. The network is the list of everything each end ever sent, from which
a schedule delivers at will.

Fields of the control block that change together are records (`cfg`, `rtt`, `cong`, `probe`, `timer`); the
comment in the class says which are where. The methods of the class are smaller than the program's: a
flush, for one, is the sequence `WriteControls`, `SendWindow`, `NumberNew`, `RescanAll`, `FlushBuffer`,
`UpdateCwnd`. Predicates named `Is...` state an equation in a form the verifier looks into only on demand.

## What the code does and its comments do not say

* `delSegment`, `parse_ack`: a segment stays in `snd_buf` after it is acknowledged, without its body; Check
  counts its deadline all the same, so it may call for an update early, never late.
* `PeekSize` adds 1 to an 8-bit fragment number: an announced 255 counts as none to come (`SeenIff`,
  `LoneFragmentIsRead`). Peers running this code announce at most 254.
* `resendts` is compared by sign, and `dead_link` stops nothing: a segment whose timeout has grown beyond 2^31
  is due again as soon as it is sent. That takes more than 35791 transmissions (`FlushArms`), and at the
  largest timeout exactly one more (`MaxSendsIsTight`); `FlushCovers` has the exact condition.
* `NewKeyBlock` seeds twice and drops an output; with `rand.Rand` in between, the words are the source's.
* `parse_data` slices a pooled buffer of 1500 bytes: new data of the window that is longer stops the program
  there. The precondition of `Input` says just that (`StorableBytes`), and holds of every datagram of at most
  1528 bytes; the reader of the socket reads at most 1500 (pkg/transport/kcp/kcpdata.go:162-165).
* `NewPayload` slices a buffer of 256*1200 bytes: a longer message stops the program in a session's `update`.
  Peers running this code send none (`BytePayloadFits`), but 255 fragments of 1472 bytes make one
  (`LongerFragmentsOutgrow`). `Session.Update` reports it as a result.
* `ConvertPayload` adds the two lengths as uint32, so a frame whose lengths are out of step by 2^32 is
  accepted, with what bytes there are (`OutOfStep`); below 2^32 bytes these are exactly the frames whose head
  is not all there (`PrintParseShort`).

## Model

| member | source | states |
|---|---|---|
| `Endpoints.RunSchedule` | pkg/transport/kcp/session.go:169-177 | Two session objects under any schedule of calls, deliveries, repetitions, reorderings and losses end exactly where the byte-level machine ends; while each has accepted fewer than 2^31-2^16 segments, what each delivered is a byte-for-byte prefix of the messages the other accepted |
| `Endpoints.Endpoint.Act` | pkg/transport/kcp/session.go:84-114 | Any call on one end changes its control block, its trace of datagrams, and its lists of accepted and delivered messages exactly as the byte-level step says |
| `Network.RunIsConnected` | pkg/transport/kcp/control_block.go:90-231 | Every schedule of two control blocks over a lossy, duplicating, reordering network keeps the connection invariant (both halves of both ends, and every datagram ever sent) |
| `Network.DeliveredIsPrefix` | pkg/transport/kcp/control_block.go:598-652 | Everything ever moved to the receive queue, read or not, is exactly a prefix of the segments the peer numbered 0, 1, 2, ..., with the same frg and body, each once and in order |
| `Network.MessagesArePrefix` | pkg/transport/kcp/control_block.go:379-435 | The messages delivered are, byte for byte, the first ones the peer accepted |
| `Network.AcknowledgedIsReceived` | pkg/transport/kcp/control_block.go:538-590 | snd_una <= rcv_nxt <= snd_nxt across the ends; every segment marked acked or dropped by a cumulative acknowledgement is in the receiver's buffer or below its rcv_nxt |
| `Network.NoOverrun` | pkg/transport/kcp/control_block.go:746-769 | No data segment ever sent or resent lies beyond the receiver's window, and no more than snd_wnd segments are in flight |
| `Network.FullQueueIsReadable` | pkg/transport/kcp/control_block.go:348-370 | At either end, a full receive queue of at least 255 slots starts with a complete message of at most 255*mss bytes; reading it yields the next message accepted by the peer |
| `Network.ReadIsNext` | pkg/transport/kcp/control_block.go:348-370 | A complete message is seen exactly when all fragments of the peer's next message have arrived, and joining them gives that message |
| `Network.FlushHalf` | pkg/transport/kcp/control_block.go:662-894 | Whatever a flush sends is true of the flushing end and lies inside the peer's window; numbers only grow |
| `Network.InputDatagramHalf` | pkg/transport/kcp/control_block.go:90-231 | A datagram of the peer keeps both halves of the receiving end in order; nothing received is forgotten |
| `Delivery.FlushArrives` | pkg/transport/kcp/control_block.go:662-835 | From any state of two connected ends: after an update of one end that flushes and, with the clock at rest, finds everything in flight new or overdue, and any schedule at all in which each datagram it sent is delivered once, among whatever losses, repetitions and other moves, the other end has received every segment the first had numbered |
| `Delivery.FlushArrivesInOrder` | pkg/transport/kcp/control_block.go:598-652 | So it has moved past all of them, in order, or its receive queue is full, and then its next read delivers a message (`FullQueueIsReadable`) |
| `Delivery.AnswerArrives` | pkg/transport/kcp/control_block.go:529-590 | After an update of one end that flushes, and any schedule in which some one of its datagrams is delivered: the other end takes everything for acknowledged, and drops it, that the first had received in order |
| `Delivery.AnswerIsSent` | pkg/transport/kcp/control_block.go:690-704 | A flush with an acknowledgement pending sends something |
| `Delivery.ActUna` | pkg/transport/kcp/control_block.go:529-590 | Whatever an end does, its snd_una never moves back |
| `Delivery.OnceDelivered` | pkg/transport/kcp/control_block.go:598-652 | Data is received by the end of any schedule that delivers its datagram at some time |
| `Delivery.NothingMissing` | pkg/transport/kcp/control_block.go:379-435 | When all an end accepted has been numbered, has arrived in order and been read, the other has delivered exactly the messages accepted |
| `ByteNetwork.RunsAgree` | pkg/transport/kcp/control_block.go:311-313 | Runs of any length, through any number of wraparounds: while every delivered sn and una is less than half the number space away, the uint32 control blocks exchanging bytes are in every respect what the unbounded ones are |
| `ByteNetwork.ByteMessagesArePrefix` | pkg/transport/kcp/control_block.go:379-435 | In such runs the byte-level ends deliver prefixes of what the other accepted |
| `ByteNetwork.ShortRunsAreSafe` | pkg/transport/kcp/control_block.go:311-313 | With fewer than 2^31-2^16 segments accepted at each end no delivery can be too late, whatever the schedule, so the byte-level ends are safe without a condition on delays |
| `ByteNetwork.InputIsDatagram` | pkg/transport/kcp/control_block.go:98-172 | On the bytes of whole, proper segments the decoding loop of Input processes exactly those segments and reports no error |
| `Refinement.InputDatagramCommutes` | pkg/transport/kcp/control_block.go:90-231 | Processing a datagram in uint32 arithmetic represents processing it with unbounded numbers, if each comparison is of numbers near enough |
| `Refinement.FlushCommutes` | pkg/transport/kcp/control_block.go:662-894 | A flush in uint32 arithmetic represents the flush with unbounded numbers, datagrams included |
| `Refinement.ParseDataCommutes` | pkg/transport/kcp/control_block.go:598-652 | The reorder buffer in uint32 arithmetic represents the unbounded one, insertion place and duplicate test included |
| `Refinement.ParseDataCommutesIff` | pkg/transport/kcp/control_block.go:598-652 | For every number whatever: the uint32 reorder buffer represents the unbounded one after a data segment exactly if its number lies in the window, or its uint32 value lies outside the window, or is buffered already |
| `Refinement.OnPushCommutesIff` | pkg/transport/kcp/control_block.go:150-165 | The same of a data segment as a whole, acknowledgement included: besides, being below the upper end of the window must agree with the sign of the uint32 difference |
| `Refinement.UnaCountCommutesIff` | pkg/transport/kcp/control_block.go:575-590 | For every una whatever: the uint32 loop drops as many segments as the unbounded one exactly if an old una is at most 2^31 late modulo 2^32, and a new one is ahead by less than that |
| `Refinement.ParseAckCommutesIff` | pkg/transport/kcp/control_block.go:538-558 | For every number whatever: the uint32 loop marks what the unbounded one marks exactly if the number is in flight, or its uint32 value is not, or names a segment marked before |
| `Refinement.StaleSegmentIsAccepted` | pkg/transport/kcp/control_block.go:600-603 | A segment exactly 2^32 numbers late is ignored by the unbounded receiver and delivered by the uint32 one |
| `Refinement.HalfwayLateIsIgnored` | pkg/transport/kcp/control_block.go:600-603 | A segment 2^31 numbers late is ignored by both |
| `Refinement.StaleUnaDropsAll` | pkg/transport/kcp/control_block.go:575-590 | A cumulative acknowledgement 2^31+1 numbers late drops the whole in-flight buffer in uint32 arithmetic and nothing with unbounded numbers |
| `Reachable.ReachableIsSound` | pkg/transport/kcp/control_block.go:90-231 | Every state one control block can reach, with any messages, any clock and arbitrary bytes from anyone, keeps all invariants below |
| `Reachable.SoundNumbers` | pkg/transport/kcp/control_block.go:575-652 | snd_buf is numbered exactly snd_una..snd_nxt-1 without gaps, a body is nil exactly if acked; rcv_buf is strictly increasing inside the window; rcv_queue holds at most rcv_wnd; rcv_buf starts with rcv_nxt only while rcv_queue is full |
| `Invariants.InputKeeps` | pkg/transport/kcp/control_block.go:90-231 | Any bytes at all keep the control block in order |
| `Invariants.FlushKeeps` | pkg/transport/kcp/control_block.go:662-894 | A flush keeps the control block in order |
| `Invariants.SendKeeps` | pkg/transport/kcp/control_block.go:438-502 | Queueing a message keeps the control block in order |
| `Invariants.ReceiveKeeps` | pkg/transport/kcp/control_block.go:379-435 | Reading keeps the control block in order |
| `Invariants.FlushEmits` | pkg/transport/kcp/control_block.go:662-894 | Every datagram holds whole segments in 28 to mtu bytes; each segment announces the flushed state and is an acknowledgement, a probe, or an unacknowledged segment in flight |
| `Invariants.FlushDecodes` | pkg/transport/kcp/kcpdata.go:162-179 | Every buffer handed to output has 28 to mtu bytes, so is never taken for a 20-byte control packet, and decodes to exactly the segments put into it |
| `Effects.FlushNumbers` | pkg/transport/kcp/control_block.go:746-769 | A full flush moves n segments from the front of snd_queue to the end of snd_buf, numbered from snd_nxt on; n empties the queue or fills the least of snd_wnd, rmt_wnd and, with congestion control, cwnd, and exceeds none of them |
| `Effects.FlushSendsAllNew` | pkg/transport/kcp/control_block.go:754-835 | The last n segments of its output are these n, in order: PUSH, with their numbers, fragment numbers and data |
| `Effects.FlushSends` | pkg/transport/kcp/control_block.go:662-844 | The output of a full flush, segment by segment: the answers to the pending acknowledgements, the window probes, and the segments in flight that are new, overtaken or overdue by the reading they are judged by; and every field of every segment in flight afterwards |
| `Effects.InOutputIff` | pkg/transport/kcp/control_block.go:783-835 | A segment in flight is in the output, freshly stamped, exactly if it is not acknowledged and new, or overtaken as often as fast resending asks, or overtaken at all while nothing was numbered, or overdue; its timeout is then rx_rto or, if overdue, grown by rx_rto or half of it, and its overtaking count 0 |
| `Effects.AckFlushSends` | pkg/transport/kcp/control_block.go:690-704 | A flush of acknowledgements sends the answers alone and changes nothing but the list of them |
| `Effects.FlushLeavesBehind` | pkg/transport/kcp/control_block.go:699-744 | A full flush leaves no acknowledgement pending and no probe called for; the dead mark is set exactly if it was or a segment has been sent dead_link times; it returns the time to the nearest deadline, at most the interval |
| `Effects.FlushCwnd` | pkg/transport/kcp/control_block.go:863-891 | The congestion window after a full flush: one segment after a timeout, with half the window for a threshold; after an early resend a threshold of half of what is in flight and a window larger by the resend limit; otherwise unchanged, but at least one segment |
| `Arrivals.SegmentDoes` | pkg/transport/kcp/control_block.go:136-182 | Any segment: the window of a regular datagram is taken; a WASK calls for an answer; the acknowledgements pending grow by exactly the number and time stamp of a PUSH below rcv_nxt + rcv_wnd; nothing but a PUSH changes what has been received |
| `Arrivals.SegmentSlides` | pkg/transport/kcp/control_block.go:140-143 | Its una takes exactly the longest run of older segments off the front of snd_buf; only an ACK does more to it |
| `Arrivals.AckDoes` | pkg/transport/kcp/control_block.go:538-573 | An ACK marks the segment it names and takes its body; those before it that were sent no later than its time stamp have been overtaken once more; nothing else changes |
| `Arrivals.AckDoesNothing` | pkg/transport/kcp/control_block.go:538-573 | An ACK for a number not in flight does nothing more than its una |
| `Arrivals.PushDoes` | pkg/transport/kcp/control_block.go:598-652 | A PUSH of the window whose number is not there yet is kept, number, fragment number and data, and no other; apart from that segments only move from rcv_buf to rcv_queue, in order, counted by rcv_nxt |
| `Arrivals.DatagramConcludes` | pkg/transport/kcp/control_block.go:196-230 | After the segments of a datagram the congestion window grows exactly if it is on and segments have left snd_buf; if so everything is flushed; otherwise the acknowledgements, if they are to go at once and any is pending; otherwise nothing is sent |
| `Arrivals.DatagramSamples` | pkg/transport/kcp/control_block.go:186-194 | The estimator takes the age of the last ACK's time stamp, if the datagram is regular and the stamp not in the future |
| `Arrivals.DatagramSamplesNothing` | pkg/transport/kcp/control_block.go:186-194 | Without an ACK it takes nothing |
| `Arrivals.PushIsAnswered` | pkg/transport/kcp/control_block.go:150-154 | Every PUSH of a datagram that is not beyond the window when its turn comes is acknowledged, in what the datagram causes to be sent or in the next flush of either kind: by an ACK with its number and time stamp if it is the datagram's last segment, otherwise by such an ACK or one whose una is past it |
| `Arrivals.LastIsWritten` | pkg/transport/kcp/control_block.go:690-699 | Either kind of flush sends the last pending acknowledgement with its number and time stamp |
| `Arrivals.InputStops` | pkg/transport/kcp/control_block.go:98-134 | A datagram of proper segments followed by a header that is not acceptable: the segments are applied, nothing is sent, and the code is -1 for another connection, -4 for another session, -2 for too few bytes, -3 for an unknown command, the first that applies |
| `Arrivals.InputIgnores` | pkg/transport/kcp/control_block.go:92-108 | Fewer than 28 bytes are refused with -1 by themselves, and ignored behind segments |
| `Arrivals.ReadDoes` | pkg/transport/kcp/control_block.go:379-435 | A read fails with -1 exactly while the next message is not complete, with -2 if it does not fit, and then changes nothing; otherwise it takes exactly the segments of one message, moves up what is ready, and calls for telling the peer exactly if the queue was full and is not any more |
| `Segments.DecodeEncode` | pkg/transport/kcp/kcpdata.go:142-153 | Decoding the front of an encoded segment gives the segment back, whatever follows it |
| `Segments.HeaderLayout` | pkg/transport/kcp/kcpdata.go:142-153 | Where each field of a segment stands in its 28 header bytes, least significant byte first; the data follow |
| `Segments.DecodeAllEncodeAll` | pkg/transport/kcp/kcpdata.go:142-153 | A datagram made of whole segments decodes to exactly those segments |
| `Flushing.CloseKeeps` | pkg/transport/kcp/control_block.go:674-688 | Packing loses and reorders nothing, and every datagram holds 28 to mtu bytes |
| `Invariants.FilterLosesNothing` | pkg/transport/kcp/control_block.go:690-704 | In either arithmetic and either kind of flush: for every pending acknowledgement the output holds an ACK with its number and time stamp, or one whose una is past it |
| `Sender.AckFrontKeeps` | pkg/transport/kcp/control_block.go:529-590 | A cumulative acknowledgement moves snd_una up by the number of segments it drops and leaves no gap |
| `Receiver.ParseDataKeeps` | pkg/transport/kcp/control_block.go:598-652 | A data segment keeps the reorder buffer strictly increasing inside the window |
| `Receiver.RepeatedIffPresent` | pkg/transport/kcp/control_block.go:605-618 | A segment counts as repeated exactly when one with its number is buffered |
| `Messages.CutCount` | pkg/transport/kcp/control_block.go:470-482 | A message is cut into as many fragments as the fragment count says |
| `Messages.PiecesAreCut` | pkg/transport/kcp/control_block.go:484-500 | The fragments queued for a message are its consecutive pieces of at most mss bytes, numbered downwards to 0 |
| `Messages.CutSizes` | pkg/transport/kcp/control_block.go:484-492 | All but the last are of mss bytes, and the last is empty only for an empty message |
| `Messages.JoinCut` | pkg/transport/kcp/control_block.go:394-406 | Joining the pieces of a message gives the message |
| `Messages.HeadMessage` | pkg/transport/kcp/control_block.go:348-370 | On a queue that starts with the fragments of a message, as far as it reaches: the size is known exactly when all are there, and the read gives the message |
| `Messages.SeenIff` | pkg/transport/kcp/control_block.go:348-363 | On any queue: a size is given exactly if the queue is longer than the number its head announces, or the head announces 255 |
| `Messages.LoneFragmentIsRead` | pkg/transport/kcp/control_block.go:361 | A single fragment that announces 255 more is read as a message |
| `Ownership.OwnedOnce` | pkg/transport/kcp/control_block.go:321-332 | Every packet buffer ever made is either free once or owned by exactly one segment of the four lists |
| `Ownership.SentIsOwned` | pkg/transport/kcp/control_block.go:786-830 | Every data segment a flush sends comes from a buffer that is in flight and not free: no released body is encoded |
| `Ownership.InputBalances` | pkg/transport/kcp/control_block.go:90-231 | Any bytes keep the account of buffers |
| `Ownership.FlushBalances` | pkg/transport/kcp/control_block.go:752-769 | Numbering and resending keep the account of buffers |
| `Ownership.ReceiveBalances` | pkg/transport/kcp/control_block.go:394-434 | Reading returns each buffer of the message once |
| `Ownership.SendBalances` | pkg/transport/kcp/control_block.go:484-500 | Each fragment owns a buffer of its own |
| `Deadlines.FlushCovers` | pkg/transport/kcp/control_block.go:783-841 | With the clock at rest: a segment in flight is sent, as `InOutputIff` says, or left alone; it has a deadline ahead afterwards exactly unless it was overdue and its timeout has grown beyond 2^31 or wrapped to 0; and the flush returns no later than that deadline |
| `Deadlines.FlushTimers` | pkg/transport/kcp/control_block.go:789-817 | A segment sent n times has a timeout of at most 60000*n, for every n, and of at least 30 as long as 60000*n fits a uint32 |
| `Deadlines.InputTimers` | pkg/transport/kcp/control_block.go:150-160 | Any bytes keep the bounds on timeouts |
| `Deadlines.FlushArms` | pkg/transport/kcp/control_block.go:789-817 | A segment sent at most 35791 times has a deadline ahead after the flush |
| `Deadlines.MaxSendsIsTight` | pkg/transport/kcp/control_block.go:808-817 | With the largest timeout the n-th transmission leaves a deadline ahead exactly if n is at most 35791 |
| `Deadlines.CheckIsInTime` | pkg/transport/kcp/control_block.go:938-979 | Check calls for an update at once exactly when something is due; otherwise it names a time no later than the interval, the next flush and every deadline in flight, and equal to one of them |
| `Deadlines.TickSets` | pkg/transport/kcp/control_block.go:901-927 | The timer step reports a flush as due exactly on the first call, when its time has come, or when the timer is more than 10 seconds ahead; the next is at most an interval ahead, and a timer in step keeps its pace |
| `Deadlines.CheckMeetsUpdate` | pkg/transport/kcp/control_block.go:938-979 | At the time Check names for the next flush, a flush is called for (and Update does it: `UpdateFlushes`) |
| `Deadlines.UpdateFlushes` | pkg/transport/kcp/control_block.go:901-927 | Update does a full flush exactly when one is called for, and sets the timer; otherwise it changes nothing and sends nothing |
| `Deadlines.UpdateNumbers` | pkg/transport/kcp/control_block.go:901-927 | So an update that flushes fills the window from the queue, sends what it took off the queue, in order, at the end of its output, and leaves no acknowledgement pending |
| `Deadlines.UpdateSends` | pkg/transport/kcp/control_block.go:901-927 | And, with the clock at rest, it sends exactly the segments in flight that are new, overtaken or overdue |
| `Deadlines.ProbeWaits` | pkg/transport/kcp/control_block.go:706-728 | A closed window is asked for exactly when the wait is over; the wait stays between 7000 and 120000, never shrinks, grows by half for each probe up to the limit and starts at 7000 and at the reading; an open window ends it |
| `Deadlines.EightProbes` | pkg/transport/kcp/control_block.go:706-728 | From wherever it starts, the wait is 120000 after eight probes |
| `Timing.UpdateAckKeeps` | pkg/transport/kcp/control_block.go:504-527 | Samples in [0,R] keep both smoothed values in [0,R] and the timeout between its limits, for every R an int32 holds |
| `Timing.UpdateAckDoesNotWrap` | pkg/transport/kcp/control_block.go:525-526 | For R up to 2^29 the timeout is the sum it is meant to be: no uint32 step wraps |
| `Timing.UpdateAckIs` | pkg/transport/kcp/control_block.go:504-527 | What a sample does, in whole numbers: the first is taken with half of it for a deviation; then srtt is floor((7*srtt+rtt)/8) and rttvar floor((3*rttvar+dev)/4), or floor((31*rttvar+dev)/32) for a sample below its usual range; the timeout is srtt and four deviations, but at least the interval, kept between its limits |
| `Timing.ConstantSamplesSettle` | pkg/transport/kcp/control_block.go:510-511 | Under constant samples r the smoothed value gets to [r-7,r] within as many steps as its distance from it, and stays |
| `Timing.OnAckKeeps` | pkg/transport/kcp/control_block.go:196-223 | An acknowledgement keeps incr strictly within one mss of cwnd*mss, and ssthresh at least 2 |
| `Timing.OnAckGrows` | pkg/transport/kcp/control_block.go:196-223 | What it does: one segment more below ssthresh, mss*mss/incr + mss/16 bytes more from there on, never beyond the peer's window; no uint32 step wraps |
| `Timing.OnFlushKeeps` | pkg/transport/kcp/control_block.go:863-891 | So does a full flush, also when ssthresh + 0xffffffff wraps to ssthresh - 1, and it leaves cwnd >= 1 |
| `Reachable.FlushKeepsCong` | pkg/transport/kcp/control_block.go:863-891 | The same of a whole flush of a control block with the congestion window on |
| `Reachable.InputCong` | pkg/transport/kcp/control_block.go:196-229 | The same of a whole input of arbitrary bytes |
| `Reachable.InputRtt` | pkg/transport/kcp/control_block.go:186-193 | Whatever time stamps arrive, the smoothed values stay non-negative and the timeout in its limits |
| `ControlBlocks.ControlBlock.constructor` | pkg/transport/kcp/control_block.go:69-88 | A new block is in order; its settings and fields one by one |
| `ControlBlocks.ControlBlock.SetMtu` | pkg/transport/kcp/control_block.go:982-998 | Refuses fewer than 50 bytes; otherwise sets mtu and mss and replaces the buffer by one of mtu bytes; the block stays in order exactly if bodies fit a packet buffer and what is queued and in flight fits a datagram |
| `ControlBlocks.ControlBlock.NoDelay` | pkg/transport/kcp/control_block.go:1006-1030 | Negative arguments leave their setting alone; the interval is kept between 10 and 5000; fast mode lowers the least timeout to 30 |
| `ControlBlocks.ControlBlock.WndSize` | pkg/transport/kcp/control_block.go:1033-1041 | Only positive sizes are taken; the block stays in order if they fit the window field and what is in flight and in the receive queue |
| `ControlBlocks.ShiftFront` | pkg/transport/kcp/control_block.go:1054-1055 | The overlapping copy within one array leaves the elements from the n-th on at its front |
| `ControlBlocks.ControlBlock.RemoveFront` | pkg/transport/kcp/control_block.go:1052-1058 | Shifting in place and slicing both leave exactly the elements from the n-th on, whatever the spare capacity |
| `ControlBlocks.ControlBlock.NewBuffer` | pkg/transport/kcp/control_block.go:321-324 | A buffer comes from the pool, or is new; the account changes by just that |
| `ControlBlocks.ControlBlock.DelSegment` | pkg/transport/kcp/control_block.go:327-332 | Returns the buffer of a segment once, and forgets it |
| `ControlBlocks.ControlBlock.ShrinkBuf` | pkg/transport/kcp/control_block.go:529-536 | snd_una is the first number in flight, or snd_nxt |
| `ControlBlocks.ControlBlock.ParseUna` | pkg/transport/kcp/control_block.go:575-590 | The loop drops exactly the segments below una, returning their buffers, and counts them |
| `ControlBlocks.ControlBlock.ParseAck` | pkg/transport/kcp/control_block.go:538-558 | The loop marks exactly the named segment, if in flight, and returns its buffer |
| `ControlBlocks.ControlBlock.ParseFastack` | pkg/transport/kcp/control_block.go:560-573 | The loop counts an overtaking on exactly the earlier segments sent no later |
| `ControlBlocks.ControlBlock.AckPush` | pkg/transport/kcp/control_block.go:593-595 | The acknowledgement is appended |
| `ControlBlocks.ControlBlock.Locate` | pkg/transport/kcp/control_block.go:605-618 | The backward scan finds a duplicate exactly if there is one, and otherwise the place that keeps the buffer sorted |
| `ControlBlocks.ControlBlock.MoveReady` | pkg/transport/kcp/control_block.go:635-649 | Moves exactly the run of numbers from rcv_nxt on that fits the queue |
| `ControlBlocks.ControlBlock.ParseData` | pkg/transport/kcp/control_block.go:598-652 | Inserts a new segment of the window in its place with a buffer of its own, moves what is ready, and reports duplicates and strays |
| `Engine.ShortIsStorable` | pkg/transport/kcp/control_block.go:621-625 | No datagram of at most 1528 bytes holds data longer than a packet buffer |
| `ControlBlocks.ControlBlock.PeekSize` | pkg/transport/kcp/control_block.go:348-370 | The size of the first message, or -1; the count of fragments to come is an 8-bit sum |
| `ControlBlocks.ControlBlock.ReadFront` | pkg/transport/kcp/control_block.go:394-409 | Copies the first message to the front of the reader's buffer, leaves the rest of that buffer alone, and returns its packet buffers |
| `ControlBlocks.ControlBlock.Recv` | pkg/transport/kcp/control_block.go:379-435 | A read has the code, bytes and effect the specification gives: -1 for nothing complete, -2 for too small a buffer |
| `ControlBlocks.ControlBlock.Fragment` | pkg/transport/kcp/control_block.go:484-500 | Queues the pieces of a message after what was queued |
| `ControlBlocks.ControlBlock.Send` | pkg/transport/kcp/control_block.go:438-502 | -1 for an empty message, -2 for more than 255 fragments, otherwise the pieces are queued |
| `ControlBlocks.ControlBlock.EncodeHead` | pkg/transport/kcp/kcpdata.go:142-153 | Writes the 28-byte little-endian header after what is in the buffer |
| `ControlBlocks.ControlBlock.WriteSegment` | pkg/transport/kcp/control_block.go:826-830 | Makes space and writes a whole segment, never past the buffer |
| `ControlBlocks.ControlBlock.MakeSpace` | pkg/transport/kcp/control_block.go:674-680 | Hands the buffer to output exactly if the space would not fit |
| `ControlBlocks.ControlBlock.FlushBuffer` | pkg/transport/kcp/control_block.go:683-688 | Hands what is left to output |
| `ControlBlocks.ControlBlock.FlushAcks` | pkg/transport/kcp/control_block.go:690-699 | Writes the pending acknowledgements the filter lets through |
| `ControlBlocks.ControlBlock.ProbeWindow` | pkg/transport/kcp/control_block.go:706-728 | Probes a closed window, waiting half as long again each time, up to the limit |
| `ControlBlocks.ControlBlock.FlushProbes` | pkg/transport/kcp/control_block.go:730-744 | Writes the probes due and clears both flags |
| `ControlBlocks.ControlBlock.NumberSegments` | pkg/transport/kcp/control_block.go:752-769 | The loop numbers what the specification numbers, of which `FlushNumbers` says what it is |
| `ControlBlocks.ControlBlock.Judge` | pkg/transport/kcp/control_block.go:789-817 | Whether and why a segment is sent, and the timer it gets, as the specification judges it, of which `InOutputIff` says what it is |
| `ControlBlocks.ControlBlock.Restamp` | pkg/transport/kcp/control_block.go:786-824 | What the scan makes of a segment: stamped with a new reading of the clock if it is sent |
| `ControlBlocks.ControlBlock.RescanAll` | pkg/transport/kcp/control_block.go:777-841 | The scan leaves the segments, the datagrams, the flags and the nearest deadline the specification gives |
| `ControlBlocks.ControlBlock.UpdateCwnd` | pkg/transport/kcp/control_block.go:863-891 | Rate halving after early resends, restart after timeouts, at least one segment |
| `ControlBlocks.ControlBlock.WriteControls` | pkg/transport/kcp/control_block.go:690-744 | Acknowledgements and probes of a flush, in this order, into the send buffer |
| `ControlBlocks.ControlBlock.FlushData` | pkg/transport/kcp/control_block.go:746-844 | New segments and those due again, in order, into datagrams |
| `ControlBlocks.ControlBlock.Flush` | pkg/transport/kcp/control_block.go:662-894 | A flush, full or of acknowledgements only, changes state and output and returns as the specification says |
| `ControlBlocks.ControlBlock.UpdateRtt` | pkg/transport/kcp/control_block.go:504-527 | The estimator in int32 and uint32 arithmetic |
| `ControlBlocks.ControlBlock.GrowCwnd` | pkg/transport/kcp/control_block.go:196-223 | The congestion window after an acknowledgement, never beyond the peer's window |
| `ControlBlocks.ControlBlock.HandleUna` | pkg/transport/kcp/control_block.go:142-148 | The window of a regular datagram is taken; the cumulative acknowledgement is applied |
| `ControlBlocks.ControlBlock.HandleCommand` | pkg/transport/kcp/control_block.go:150-182 | What each of the four commands does, as the specification has it, of which `SegmentDoes`, `AckDoes` and `PushDoes` say what it is |
| `ControlBlocks.ControlBlock.InputLoop` | pkg/transport/kcp/control_block.go:98-185 | The loop over raw bytes: the same segments applied and the same code (-1, -2, -3, -4) as the specification |
| `ControlBlocks.ControlBlock.Learn` | pkg/transport/kcp/control_block.go:186-223 | Sample and congestion window after the loop |
| `ControlBlocks.ControlBlock.Input` | pkg/transport/kcp/control_block.go:90-231 | Any bytes without new data longer than a packet buffer: state, datagrams sent and code as the specification gives; an error leaves what the segments before it did |
| `ControlBlocks.ControlBlock.SetTimer` | pkg/transport/kcp/control_block.go:908-924 | The flush timer, resynchronised when 10 seconds out of step |
| `ControlBlocks.ControlBlock.Update` | pkg/transport/kcp/control_block.go:901-927 | State and output as the specification gives them, of which `UpdateFlushes` says what it is |
| `ControlBlocks.ControlBlock.Check` | pkg/transport/kcp/control_block.go:938-979 | When to update next |
| `Sessions.Session.constructor` | pkg/transport/kcp/session.go:169-177 | A started session is a fresh block with mtu 1200, mss 1172, windows 255, interval 20, least timeout 30, fast resend 2, no congestion window |
| `Sessions.Session.SendPayload` | pkg/transport/kcp/session.go:84-93 | Succeeds exactly for a message that is not empty and has at most 255 fragments |
| `Sessions.Session.Update` | pkg/transport/kcp/session.go:95-114 | Updates, then reads at most one message into a payload buffer; reports exactly the messages that outgrow the buffer, on which the program stops |
| `Sessions.PayloadFits` | pkg/transport/transport.go:7-14 | In every run between sessions the next message at either end has at most 255*1172 bytes and fits the 256*1200-byte payload buffer |
| `Sessions.BytePayloadFits` | pkg/transport/transport.go:7-14 | The same at the level of bytes and uint32 |
| `Sessions.LongerFragmentsOutgrow` | pkg/transport/transport.go:7-14 | 255 fragments of 1472 bytes are a message the payload buffer does not hold |
| `Sessions.TurnIsMoves` | pkg/transport/kcp/session.go:95-114 | A turn of the session's loop is one or two moves of the two-endpoint schedule, so all results about runs apply to it |
| `Sessions.TurnDelivers` | pkg/transport/kcp/session.go:95-107 | In every run between sessions a turn at either end delivers the peer's next message if all its fragments are queued, and otherwise nothing |
| `Sessions.ByteTurnDelivers` | pkg/transport/kcp/session.go:95-107 | The same of the uint32 control blocks exchanging bytes |
| `Sessions.FullQueueDrains` | pkg/transport/kcp/session.go:95-107 | A session at either end whose receive queue is full delivers the next message of its peer at its next turn |
| `Sessions.ByteQueueDrains` | pkg/transport/kcp/session.go:95-107 | The same of the uint32 control blocks exchanging bytes |
| `Frames.ParsePrint` | internal/core/server.go:141-209 | A printed packet parses back to itself exactly when its head is shorter than 2^16 and its data shorter than 2^32 bytes |
| `Frames.PrintLayout` | internal/core/server.go:194-207 | Where the magic bytes, the command, the two lengths, the head and the data stand, most significant byte first |
| `Frames.ParseAccepts` | internal/core/server.go:141-163 | Which frames are refused, and with which error, byte by byte; and what is made of those accepted |
| `Frames.PrintParse` | internal/core/server.go:141-163 | A frame that parses is what its packet prints to exactly when its two lengths add up to its size |
| `Frames.PrintParseShort` | internal/core/server.go:153-162 | Below 2^32 bytes: exactly when the head length is within the frame |
| `Frames.FormsOf` | internal/core/server.go:153-162 | The frames of a packet's size that parse to it are the one it prints to and, if it has no data, those whose head length is too large by what the data length falls short of 2^32 |
| `Frames.OutOfStep` | internal/core/server.go:159 | A frame of 12 bytes that announces 5 bytes of head and 2^32-5 of data parses to an empty packet, which prints differently |
| `Frames.LoginRoundTrip` | internal/core/server.go:175-192 | A packet encrypted under the login key always comes back, whatever the shared keys |
| `Frames.SharedRoundTrip` | internal/core/server.go:175-192 | A packet encrypted under the shared key comes back exactly when the receiver has no login key, or at positions 0, 1, n-2, n-1 the shared keystream is not all zero and the keystreams are not all equal, or the keystreams agree everywhere |
| `Frames.LoginNeedsLogin` | internal/core/server.go:181-191 | A packet encrypted under a login key the receiver does not have comes back exactly when that key is the shared key |
| `Frames.PacketUnderLogin` | internal/core/server.go:141-209 | Sent under the login key, a packet arrives with the same command, head and data exactly when its lengths fit their fields |
| `Frames.PacketUnderShared` | internal/core/server.go:141-209 | Sent under the shared key, it arrives exactly when its lengths fit their fields and the receiver guesses right, or guesses wrong and reads a misprint of the same packet |
| `Frames.PacketWithData` | internal/core/server.go:141-209 | With data, it arrives exactly when its lengths fit and the receiver guesses right |
| `Frames.ArrivesByAccident` | internal/core/server.go:153-191 | Without data it may arrive through a wrong guess: for every login key there is a shared key under which it does |
| `Frames.PacketSession.EncryptPayload` | internal/core/server.go:175-192 | In place: the login key if the packet is clear before or after, otherwise the attempt is taken back and the shared key used; fewer than 4 bytes are refused |
| `Frames.PacketSession.ConvertPayload` | internal/core/server.go:141-163 | Decrypts in place and gives the packet, or the error the program reports |
| `Frames.PacketSession.SendPacket` | internal/core/server.go:194-207 | Prints and encrypts a packet |
| `Mt19937.Source.Uint64` | pkg/crypto/mt19937/mt19937.go:37-64 | For every seed and every k, the k-th output after seeding is made by tempering from word 312+k of the infinite recurrence; unseeded, the seed is 5489 |
| `Mt19937.Source.Refill` | pkg/crypto/mt19937/mt19937.go:45-57 | The in-place refill in three phases replaces 312 consecutive words of the recurrence by the next 312 |
| `Mt19937.Source.Seed` | pkg/crypto/mt19937/mt19937.go:26-31 | Seeding gives the first 312 words |
| `Mt19937.Lags` | pkg/crypto/mt19937/mt19937.go:45-54 | Every word from the 312th on comes from those 312, 311 and 156 places before |
| `Mt19937.TwistIs` | pkg/crypto/mt19937/mt19937.go:46-47 | 33 bits of one word and 31 of another, shifted by one; the matrix is added if the bit shifted out is set |
| `Mt19937.StandardOutput` | pkg/crypto/mt19937/mt19937.go:37-64 | The last step to the first output of the standard generator for its default seed, 14514284786278117030 |
| `Mt19937.BigEndianSpells` | pkg/crypto/mt19937/mt19937.go:78 | The eight bytes written spell the word, most significant first |
| `Mt19937.TemperIsBijective` | pkg/crypto/mt19937/mt19937.go:59-62 | Tempering is a bijection on 64-bit words, with the inverse given |
| `Mt19937.KeyBlock.constructor` | pkg/crypto/mt19937/mt19937.go:71-81 | The block holds 512 outputs, big-endian, after seeding again with the first output and dropping one |
| `Mt19937.KeyBytes` | pkg/crypto/mt19937/mt19937.go:71-81 | Bytes 8i to 8i+7 of a key block are output number i+1, counting from 0, of the generator seeded with output number 0 for the seed |
| `Mt19937.KeyDependsOnSeed` | pkg/crypto/mt19937/mt19937.go:71-81 | Two key blocks of one seed are equal |
| `Mt19937.FillBlock` | pkg/crypto/mt19937/mt19937.go:77-79 | Fills 4096 bytes with the next 512 outputs |
| `Mt19937.KeyBlock.Xor` | pkg/crypto/mt19937/mt19937.go:91-95 | Adds the keystream in place, repeating it every 4096 bytes |
| `Mt19937.XoredTwice` | pkg/crypto/mt19937/mt19937.go:91-95 | Adding a keystream twice changes nothing |
| `Ec2b.KeyScrambleIsBijective` | pkg/crypto/ec2b/ec2b.go:94-117 | The scramble is a bijection on 16-byte keys for any round keys and mask, undone by subBytes, shiftRows and MixColumns |
| `Ec2b.ScrambleUndone` | pkg/crypto/ec2b/ec2b.go:94-117 | The same for any S-box and column mixing that are undone by theirs |
| `Ec2b.KeyScramble` | pkg/crypto/ec2b/ec2b.go:94-117 | The in-place scramble, round keys included, is that of the specification, of which `ScrambleIsInverseCipher` says what it is |
| `Ec2b.MixColsInv` | pkg/crypto/ec2b/ec2b.go:161-166 | The lookups mix each of the four columns in place by InvMixColumns |
| `Ec2b.ShiftRowsInv` | pkg/crypto/ec2b/ec2b.go:145-151 | Byte r of column c comes from row r, r columns to the left, as section 5.3.1 of FIPS 197 has it |
| `Ec2b.RowsShiftBack` | pkg/crypto/ec2b/magic.go:509-511 | So does permuting by the inverse table |
| `Cipher.ScrambleIsInverseCipher` | pkg/crypto/ec2b/ec2b.go:94-117 | For all round keys: enciphering a scrambled key, its mask taken off, with the cipher of section 5.1 of FIPS 197, under the scramble's round keys in reverse order and mixed as section 5.3.5 says, gives the key back |
| `Cipher.SboxIs` | pkg/crypto/ec2b/magic.go:470-505 | The S-box table is the affine map of the inverse in GF(2^8) of section 5.1.1 |
| `Cipher.MixColumnExample` | pkg/crypto/ec2b/ec2b.go:153-159 | The mixing that the program's inverts takes a column of the example of FIPS 197 to what it is there |
| `Ec2b.ShiftUndone` | pkg/crypto/ec2b/magic.go:506-511 | The two row-shift tables are inverse permutations |
| `Ec2b.MakeRoundKey` | pkg/crypto/ec2b/ec2b.go:95-103 | A round key byte is the sum of its 16 pairs of table bytes |
| `Ec2b.RoundKeyIsSum` | pkg/crypto/ec2b/ec2b.go:95-103 | Byte i of round key r is the sum of 16 bytes of each table, from position 256r+16i on |
| `Ec2bTables.SboxesInverse` | pkg/crypto/ec2b/magic.go:470-505 | The two S-box tables are inverse bijections |
| `Ec2bTables.G2Is` | pkg/crypto/ec2b/magic.go:362-379 | The table holds multiplication by 2 in GF(2^8) |
| `Ec2bTables.Mul2Conditional` | pkg/crypto/ec2b/magic.go:362-379 | Multiplication by 2 is the shift, with 0x1B added if a bit falls out, as section 4.2.1 of FIPS 197 defines it |
| `Ec2bTables.G3Is` | pkg/crypto/ec2b/magic.go:380-397 | The table holds multiplication by 3 |
| `Ec2bTables.G9Is` | pkg/crypto/ec2b/magic.go:398-415 | The table holds multiplication by 9 |
| `Ec2bTables.G11Is` | pkg/crypto/ec2b/magic.go:416-433 | The table holds multiplication by 11 |
| `Ec2bTables.G13Is` | pkg/crypto/ec2b/magic.go:434-451 | The table holds multiplication by 13 |
| `Ec2bTables.G14Is` | pkg/crypto/ec2b/magic.go:452-469 | The table holds multiplication by 14 |
| `Ec2bTables.ForwardBackward` | pkg/crypto/ec2b/ec2b.go:153-159 | MixColumns undoes InvMixColumns, byte by byte |
| `Ec2bTables.BackwardForward` | pkg/crypto/ec2b/ec2b.go:153-159 | InvMixColumns undoes MixColumns |
| `Ec2bTables.LookupIs` | pkg/crypto/ec2b/ec2b.go:155-158 | The sum of the four lookups is a byte of InvMixColumns |
| `Ec2bKeys.LoadsItsForm` | pkg/crypto/ec2b/ec2b.go:19-68 | Bytes load to a key exactly when they start with the key's file form |
| `Ec2bKeys.FormLayout` | pkg/crypto/ec2b/ec2b.go:19-68 | Where the tag, the two lengths, the key and the data stand in a file of 2076 bytes |
| `Ec2bKeys.Key.Load` | pkg/crypto/ec2b/ec2b.go:19-58 | A key exactly for the bytes of a key file, otherwise none; seeded from its scrambled bytes and its data, and filled with the outputs for that seed |
| `Ec2bKeys.GetSeed` | pkg/crypto/ec2b/ec2b.go:168-176 | The seed is the sum of a constant, the two key words and all data words |
| `Ec2bKeys.SeedIs` | pkg/crypto/ec2b/ec2b.go:168-176 | Byte j of the seed is the sum of byte j of the constant and of the bytes at position j of every eight of the key and the data; what the data have over whole eights does not count |
| `Ec2bKeys.Key.constructor` | pkg/crypto/ec2b/ec2b.go:70-78 | The keystream holds 512 outputs for the seed, little-endian |
| `Ec2bKeys.KeystreamBytes` | pkg/crypto/ec2b/ec2b.go:70-78 | Bytes 8i to 8i+7 of a keystream are output number i for its seed, least significant first |
| `Ec2bKeys.Key.Xor` | pkg/crypto/ec2b/ec2b.go:84-92 | Chunk by chunk, the same keystream addition as byte by byte modulo 4096 |
| `CSharp.Random.Seed` | pkg/crypto/csharp/csharp.go:32-67 | After seeding with any number the ring holds the start of the output sequence: the filled slots, run through the int32 recurrence of lag 24 for 220 numbers |
| `CSharp.Random.InternalSample` | pkg/crypto/csharp/csharp.go:75-98 | Every output is the next number of the int32 recurrence of lag 34, although kept in an in-place ring |
| `CSharp.SmallSeeds` | pkg/crypto/csharp/csharp.go:32-98 | For seeds of at most 161803398 in magnitude every output lies in [0, 2^31-1) and satisfies x(n) = x(n-55) - x(n-34) modulo 2^31-1: no int32 step wraps; the first 55 are numbers 220 to 274 of the sequence of lag 24 that starts with the filled slots |
| `CSharp.Recurrence` | pkg/crypto/csharp/csharp.go:86-92 | From 55 numbers in range the int32 recurrence is the one modulo 2^31-1, and stays in range |
| `CSharp.Random.Fill` | pkg/crypto/csharp/csharp.go:46-56 | The seeding loop writes every slot from 1 to 54 in range and without overflow, for every seed |
| `CSharp.SlotsOnce` | pkg/crypto/csharp/csharp.go:48-50 | (21*i)%55 takes each value from 1 to 54 exactly once |
| `CSharp.FilledInRange` | pkg/crypto/csharp/csharp.go:46-56 | All slots are in range after the loop exactly when the seed is at most 161803398 in magnitude |
| `CSharp.FilledStart` | pkg/crypto/csharp/csharp.go:33-47 | Slot 55 starts with what the seed's magnitude leaves of 161803398, slot 21 with 1 |
| `CSharp.FilledIs` | pkg/crypto/csharp/csharp.go:46-56 | Every further slot, 21 places on modulo 55, holds the difference of the two before it, modulo 2^31-1, for every seed |
| `CSharp.Random.Mix` | pkg/crypto/csharp/csharp.go:57-64 | The four passes over the ring are 220 steps of the recurrence of lag 24 |
| `CSharp.Random.Step` | pkg/crypto/csharp/csharp.go:59-62 | One number more, in the place of the oldest |

## Left out

- ControlBlocks.ControlBlock.WndSize: says when the block stays in order only for an empty reorder buffer, and for sizes below 2^16, the width of the window field.
- ControlBlocks.ControlBlock.Input: not on datagrams with new data longer than 1500 bytes, which stop the program.
- ControlBlocks.ControlBlock.RemoveFront: the queues are sequences, so the copy works on an array made from one; sharing of that array with older slices is not modelled.
- CSharp.SmallSeeds: for larger seeds slot 55 starts negative (`FilledInRange`), int32 steps of the mixing may wrap, and only the int32 recurrence itself is claimed.
- Ec2b.KeyScramble: the contents of aesXorTable and keyXorTable are parameters; the bijection holds for all contents.
- Streaming mode, ReleaseTX, ReserveBytes and WaitSnd: nothing in the program calls them, and the first three break the invariants above.
- Packet buffers are values with an identity; that two segments never share one is the account in Ownership, not aliasing in memory. sync.Pool may also drop buffers, which would only remove free ones.
- UDP sockets, goroutines, channels, locks, contexts, and the 20-byte control packets: plumbing; the drop when a session's payload channel is full happens above the model.
- The conversion of packets between protocols, the command maps, handlers, chat, HTTP, RSA and configuration.
- The floating-point results of the C# generator; only the integer samples are modelled.
- Random creation of Ec2b keys, and the methods that only return a field.
