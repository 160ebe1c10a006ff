# Verified model of the robot controller's firmware protocols

The firmware runs on a two-core Pico board. It talks to a BNO08x sensor hub over I2C, to a
GNSS receiver over a UART, to a WIZnet Ethernet chip and to a bus of serial servos. This
project models the parts of it that are protocols or state machines and proves, for every
input and every run, what they guarantee. `dafny verify dfyconfig.toml` checks all of it.

| file | what it models |
|---|---|
| `Bytes.dfy` | fixed-width integers, byte strings |
| `Shtp.dfy`, `Sh2Err.dfy` | sizes and limits of the sensor hub transport protocol (SHTP), error codes |
| `ShtpReceive.dfy` | reassembly of cargoes from SHTP transfers |
| `ShtpRuns.dfy` | whole runs of reassembly against a hub, with loss and interleaving |
| `ShtpTransmit.dfy` | splitting a payload into transfers, sequence numbers, sending into a receiver |
| `HalRead.dfy` | the chunked I2C read under the transport and the service step over it |
| `ShtpRegistry.dfy` | channels, apps, listeners, advertisements, and the callback cache |
| `ShtpAdvert.dfy` | what a whole advertisement defines: channels, applications, limits, who hears what |
| `Sh2Input.dfy` | sensor reports: cutting a payload, time references, 64-bit stamps |
| `Sh2Frs.dfy` | writing and reading flash records, host and hub together |
| `SensorPath.dfy` | the bus, reassembly and sensor input together |
| `Sh2Config.dfy` | sensor configurations in requests and responses |
| `Sh2Ops.dfy` | the one-operation-at-a-time engine and the numbering of commands |
| `GnssRing.dfy` | the lock-free byte ring between the cores |
| `LatestQueue.dfy` | the drop-oldest queues between the cores |
| `GnssLines.dfy` | bytes to lines, lines to updates, the publication cycle |
| `GnssPath.dfy` | the ring and the line assembler together |
| `WizRing.dfy` | the Ethernet chip's socket buffers |
| `WizUdp.dfy` | datagrams over them |
| `Servo.dfy` | frames and replies of the servo bus |

In each file a specification comes first, as functions and predicates on values. The
functions of the firmware that work in place are classes with the same fields and methods
with the same loops, proved to follow the specification; the theorems about whole runs are
lemmas about the specification. Concurrent code is a state machine whose steps are single
atomic accesses, and a run is any sequence of steps of either side. The other side of each
protocol (hub, chip, servo, HAL) is a faithful model whose free choices, faults and timing
are parameters.

## Where the code does less than it seems to

Each of these is proved; where a promise fails, so is the exact condition under which it holds.

- Reassembly tells fragments apart by an 8-bit number only. A fragment joins bytes it does not
  follow exactly after losing a positive multiple of 256 fragments between two that are inside
  cargoes (`ShtpRuns.UntoldIff`), and a payload is whole fragments of one cargo exactly when no
  fragment of its assembly did that (`ShtpRuns.WholeIff`; for 256 fragments,
  `ShtpRuns.WrapMixesCargoes`).
- One assembly is kept for all channels: between its first and its last fragment a cargo is
  delivered whole exactly when none of its fragments is lost and nothing of another channel is
  accepted (`ShtpRuns.WholeCargoIff`).
- A bus fault after the first chunk of a packet has been read cuts the start off the cargo, and
  the rest is delivered as if it were all. Nothing is cut off exactly when no call reads a
  chunk and then fails (`HalRead.ServiceUntilRead`, `HalRead.SecondChunkFails`).
- A sensor report is copied into an event of 16 bytes, for as many bytes as the hub's own table
  says. The copies stay inside exactly when no sensor report met is longer than 16 bytes
  (`Sh2Input.CopiesFitIff`, `Sh2Input.ParserInvertsConcat`), and for every payload exactly when
  the table gives no sensor more (`Sh2Input.SafeTableIff`); the hub can advertise any table
  (`Sh2Input.AnyTableStored`), and 17 bytes are too many (`Sh2Input.LongReportOverruns`).
- `txProcess` announces the length of each transfer, while the receiver expects what remains
  of the cargo: a payload of several transfers is seen in several callbacks
  (`ShtpTransmit.OneCallbackIffOneTransfer`).
- `txProcess` subtracts the header from the transfer limit in 16 bits. An advertised write
  limit of 8 leaves no room and its loop never ends; 4 to 7 are no limit at all, so the payload
  goes out as one transfer, which stays inside the out buffer exactly up to 252 bytes; less than
  4 is taken for 256 (`ShtpRegistry.TransferLimitEffect`, `ShtpTransmit.Transmitter.TxProcess`).
- The I2C read never writes the arrival time, which is therefore always 0: the clock stands
  still and a stamp is the bare offset modulo 2^32 (`HalRead.Service`,
  `SensorPath.ReadReports`, `Sh2Input.WithoutArrivalTimes`).
- The comment of `touSTimestamp` promises 64-bit stamps, but the correction is added in 32 bits
  and its carry or borrow is lost (`Sh2Input.StampExactIff`, `Sh2Input.BorrowIsLost`).
- A gap in a flash record read is reported as success when the same response also ends the
  record (`Sh2Frs.GapMaskedByCompletion`). With responses lost, a read ends with success exactly
  when the last one arrives and the losses are those just before it (`Sh2Frs.LossyRead`), and
  with a wrong record when the words lost were not in the buffer before
  (`Sh2Frs.WrongRecordIff`); an empty record still overwrites the first word of
  the caller's buffer (`Sh2Frs.EmptyRecord`).
- The result of `sendCtrl` is ignored in the middle of a record write, and no operation sets a
  timeout. Given enough service steps a write of n words ends exactly when the transport has
  accepted a request each of the first (n + 1) / 2 times the hub asked for words, or up to the
  hub's rejection (`Sh2Frs.WriteEndsIff`); after a refusal it never does
  (`Sh2Frs.RefusedPairNeverEnds`).
- `sh2_setFrs` and `sh2_getFrs` overwrite the data of an operation in progress before they are
  refused (`Sh2Frs.Session.SetFrs`, `Sh2Frs.Session.GetFrs`).
- `opProcess` leaves none registered unless one was registered when it was called: then it
  returns an error and the earlier one stays (`Sh2Ops.Engine.OpProcess`).
- A drain of a "latest value" queue can return an older value than one already enqueued when it
  began: a concurrent push may remove the newest element while the drain takes the others
  (`LatestQueue.FreshIff`). A drain that begins can end so exactly when the queue is full, or a
  push in flight has yet to remove and something is queued, or it has removed the newest
  (`LatestQueue.MayGoStaleIff`); begun with fewer than eight queued and no push in flight, it
  is always fresh (`LatestQueue.NeverStale`).
- The tests for heading lines compare one character fewer than their prefixes have: a line
  without the comma is taken for a heading exactly when it starts with the bare name
  (`GnssLines.HeadingWithoutComma`).
- `PACK_FIRST` is documented as the start of a packet but stays set on its middle pieces
  (`WizUdp.FirstStaysSet`). It is also documented to tell a datagram without payload from "busy",
  which both return 0, but the flags are then the same, too (`WizUdp.EmptyLooksBusy`).
- `writeBuf` without data leaves the address out of the frame but not out of the checksum
  (`Servo.WriteFrameIff`); `Read` checks neither the id nor the length of a reply
  (`Servo.SCS.Read`).
- `syncReadPacketRx` leaves the checksum of a reply unread. Replies read back to back are all
  returned exactly when no reply before the last has the checksum 0xFF
  (`Servo.SyncRepliesIff`).

## Model

| member | source | states |
|---|---|---|
| `ShtpReceive.Receiver.RxAssemble` | lib/BNO08x_Pico_Library/sh2/src/shtp.c:544-637 | One arriving transfer whose copy stays inside the buffer changes the assembly in progress exactly as a specification that keeps one optional assembly says. A transfer under 4 bytes, one announcing under 4, one on a channel of no listener and one beginning a payload of over 384 bytes with its header are refused: nothing is delivered, the one counter of its kind goes up, all but the first report their event, and only the last ends an assembly. |
| `ShtpReceive.Receiver.Assemble` | lib/BNO08x_Pico_Library/sh2/src/shtp.c:583-636 | From a valid header on: an assembly that the fragment does not continue is dropped, a new one starts with the arrival time, bytes beyond the announced length are ignored, and the callback fires exactly when nothing remains. |
| `ShtpReceive.Receiver.Discard` | lib/BNO08x_Pico_Library/sh2/src/shtp.c:583-592 | An assembly survives an arrival only if it is a continuation on the same channel with the expected number. |
| `ShtpReceive.Receiver.Store` | lib/BNO08x_Pico_Library/sh2/src/shtp.c:615-636 | Appending keeps what was assembled before, delivers the whole of it with the first fragment's time when nothing remains, and expects the next number mod 256 otherwise. |
| `ShtpReceive.Header` | lib/BNO08x_Pico_Library/sh2/src/shtp.c:557-561 | The length, continuation flag, channel and number written into a header are the ones read back from it. |
| `ShtpReceive.HeaderLayout` | lib/BNO08x_Pico_Library/sh2/src/shtp.c:557-561 | The length is the little-endian number in the lower fifteen bits of the first two bytes, and the sixteenth bit marks a continuation. |
| `ShtpReceive.WholeTransferLeavesNothing` | lib/BNO08x_Pico_Library/sh2/src/shtp.c:615-633 | A transfer as long as its header says, on an accepted channel or with nothing in progress before, leaves nothing in progress: it is delivered whole or dropped. |
| `ShtpRuns.JoinIff` | lib/BNO08x_Pico_Library/sh2/src/shtp.c:583-592 | A continuation is joined to the assembly exactly when the number of fragments lost since the last one is a multiple of 256. |
| `ShtpRuns.UntoldIff` | lib/BNO08x_Pico_Library/sh2/src/shtp.c:583-592 | Over every run, a fragment joins one it does not follow exactly when a positive multiple of 256 fragments was lost before it and it begins no cargo. |
| `ShtpRuns.WholeIff` | lib/BNO08x_Pico_Library/sh2/src/shtp.c:583-636 | Over every run, with channels interleaved and any loss, a payload handed to a callback is whole fragments of one cargo, to its end, exactly when no fragment of its assembly joined bytes it did not follow; one such join is enough, whatever joins after it. |
| `ShtpRuns.ReassemblySafety` | lib/BNO08x_Pico_Library/sh2/src/shtp.c:583-636 | Over every run with any loss but a positive multiple of 256 fragments in a row between two fragments inside cargoes, a payload handed to a callback is whole fragments s..e, in order, of exactly one cargo of that channel, ending with its last fragment and dated by the first. |
| `ShtpRuns.DeliveredIsSuffix` | lib/BNO08x_Pico_Library/sh2/src/shtp.c:583-636 | What is delivered whole is a contiguous suffix of one cargo, cut at a fragment boundary. |
| `ShtpRuns.HubRunFits` | lib/BNO08x_Pico_Library/sh2/src/shtp.c:615-622 | In every such run bytes held plus bytes arriving stay within the buffer at every step. |
| `ShtpRuns.WholeCargoIff` | lib/BNO08x_Pico_Library/sh2/src/shtp.c:583-636 | In every such run a cargo of at most 380 bytes is delivered whole exactly when all its fragments arrive and nothing of another channel is accepted between the first and the last. |
| `ShtpRuns.LosslessExact` | lib/BNO08x_Pico_Library/sh2/src/shtp.c:594-633 | However such a cargo is cut, whatever came before and whatever is refused in between, its last fragment delivers exactly that cargo with the first one's time, nothing is delivered before, and bytes held plus bytes remaining stay equal to its length throughout. |
| `ShtpRuns.WrapMixesCargoes` | lib/BNO08x_Pico_Library/sh2/src/shtp.c:583-592 | Of a stream of two-byte cargoes with 256 fragments lost in a row, the payload delivered mixes cargoes 0 and 128. |
| `ShtpRuns.ServiceRun` | lib/BNO08x_Pico_Library/sh2/src/shtp.c:801-819 | Over a whole run of arrivals whose copies stay inside the 384-byte buffer the code makes exactly the callbacks the specification predicts, in order. |
| `ShtpTransmit.Transmitter.TxProcess` | lib/BNO08x_Pico_Library/sh2/src/shtp.c:275-328 | For every payload and every pattern of HAL answers, the transfers accepted carry consecutive pieces whose concatenation is the payload, each announces its own length, only the first is no continuation, all but the last are full, numbers go up by one mod 256; on a HAL error the cargo is abandoned after the refused transfer with that very error, counted once, and its number stays used up. As many rounds as bytes are enough to end it unless the limit equals the header's length; then it never succeeds. |
| `ShtpTransmit.Transmitter.ShtpSend` | lib/BNO08x_Pico_Library/sh2/src/shtp.c:781-798 | A payload over the advertised limit or a bad channel is refused without sending anything or using a number; only the bad channel is counted; otherwise the send is that of txProcess. |
| `ShtpTransmit.Transmitter.SendNext` | lib/BNO08x_Pico_Library/sh2/src/shtp.c:287-325 | One round of the loop extends the split by exactly the next piece, or ends the send on a HAL error. |
| `ShtpTransmit.Transmitter.Stage` | lib/BNO08x_Pico_Library/sh2/src/shtp.c:291-304 | The out buffer holds the header of this very transfer followed by the piece, and the channel's number is taken once. |
| `ShtpTransmit.Transmitter.Transmit` | lib/BNO08x_Pico_Library/sh2/src/shtp.c:308-314 | The transfer reaches the bus once, and unshortened since it fits the HAL buffer, however often the HAL answers zero first, with one service call for each zero. |
| `ShtpTransmit.NumberedAcrossSends` | lib/BNO08x_Pico_Library/sh2/src/shtp.c:295-301 | One more send, on any channel, with or without a HAL error, keeps every channel numbered consecutively mod 256 since it was last defined. |
| `ShtpTransmit.SendAll` | lib/BNO08x_Pico_Library/sh2/src/shtp.c:275-328 | Over a whole run of sends and channel definitions, whatever the HAL answers and whatever is refused, every transfer staged carries the number of transfers on its channel since its last definition, mod 256. |
| `ShtpTransmit.SendThenReceive` | lib/BNO08x_Pico_Library/sh2/src/shtp.c:287-325 | Fed to the receiver, the transfers of one send are each handed over by themselves and make up the payload, whatever the receiver was assembling before. |
| `ShtpTransmit.OneCallbackIffOneTransfer` | lib/BNO08x_Pico_Library/sh2/src/shtp.c:291-301 | Because a transfer announces only its own length, the peer sees the payload in one callback exactly when it fits one transfer. |
| `HalRead.I2chalRead` | lib/BNO08x_Pico_Library/src/bno08x.cpp:1108-1201 | The chunk loop ends; a positive result is the first header followed by the whole cargo, or the start of a header that announces less than itself; without bus faults every packet up to the buffer's size is read; after a fault the hub keeps exactly a suffix of the cargo. |
| `HalRead.NextChunk` | lib/BNO08x_Pico_Library/src/bno08x.cpp:1157-1189 | Each later chunk skips its own header and continues the cargo where the last one stopped. |
| `HalRead.RestOfPacket` | lib/BNO08x_Pico_Library/src/bno08x.cpp:1157-1189 | The chunks after the first complete the packet, or after a bus fault leave the hub exactly the bytes from where the loop stopped. |
| `HalRead.Service` | lib/BNO08x_Pico_Library/sh2/src/shtp.c:801-819 | A service step over this HAL delivers the cargo in one callback with arrival time 0, or nothing, and never leaves an assembly in progress; a header announcing less than itself is at most counted. |
| `HalRead.ServiceUntilRead` | lib/BNO08x_Pico_Library/sh2/src/shtp.c:801-819 | Over service steps with bus faults the one payload delivered is a suffix of the cargo the hub held, with arrival time 0, and all of it exactly when no call read a chunk and then failed. |
| `HalRead.CutsShortIff` | lib/BNO08x_Pico_Library/src/bno08x.cpp:1108-1201 | A failed call leaves the hub less of the cargo than before exactly when it read a chunk and then met a fault. |
| `HalRead.PolledAt` | lib/BNO08x_Pico_Library/src/bno08x.cpp:1108-1134 | The header is read by the first transaction that works, when it is one of the first polls + 1; otherwise that many have failed and nothing is read. |
| `HalRead.ReadOutAt` | lib/BNO08x_Pico_Library/src/bno08x.cpp:1157-1189 | With the first fault at transaction i the packet is complete exactly when i chunks of 252 bytes hold it, and otherwise 252 i bytes are gone. |
| `HalRead.SecondChunkFails` | lib/BNO08x_Pico_Library/src/bno08x.cpp:1157-1189 | A fault in the second chunk of a 300-byte cargo makes the next call read its last 48 bytes as if they were all. |
| `HalRead.WholePacket` | lib/BNO08x_Pico_Library/sh2/src/shtp.c:544-637 | A packet read whole is delivered whole, or counted as a bad channel. |
| `ShtpRegistry.Lookup` | lib/BNO08x_Pico_Library/sh2/src/shtp.c:223-236 | The search returns the callback of the first listener with the channel's guid and name and a callback set, and none exactly when the channel is unused or no listener matches. |
| `ShtpRegistry.Registry.FindCallback` | lib/BNO08x_Pico_Library/sh2/src/shtp.c:214-236 | The inner loop finds that listener. |
| `ShtpRegistry.Registry.UpdateCallbacks` | lib/BNO08x_Pico_Library/sh2/src/shtp.c:200-238 | Afterwards every channel's cached callback equals the search of the tables. |
| `ShtpRegistry.Registry.AddChanListener` | lib/BNO08x_Pico_Library/sh2/src/shtp.c:241-262 | The cache stays coherent; the listener is appended, or refused when eight are registered. |
| `ShtpRegistry.Registry.ListenChan` | lib/BNO08x_Pico_Library/sh2/src/shtp.c:720-730 | An empty name is refused; otherwise as addChanListener, cache coherent. |
| `ShtpRegistry.Registry.AddApp` | lib/BNO08x_Pico_Library/sh2/src/shtp.c:347-367 | A guid is added once, up to five, with guids staying unique and the cache coherent. |
| `ShtpRegistry.Registry.SetAppName` | lib/BNO08x_Pico_Library/sh2/src/shtp.c:369-381 | Only the app with that guid is renamed, and the cache stays coherent. |
| `ShtpRegistry.Registry.AddChannel` | lib/BNO08x_Pico_Library/sh2/src/shtp.c:384-403 | The definition replaces the channel's own and no other, its two sequence numbers start from zero, and the cache is coherent. |
| `ShtpRegistry.Registry.ProcessAdvertisement` | lib/BNO08x_Pico_Library/sh2/src/shtp.c:421-523 | Parsing any payload that fits the receive buffer applies exactly the entries found in it, in order, ends, tells the last application of the end, and leaves the cache coherent. |
| `ShtpRegistry.Registry.ProcessTag` | lib/BNO08x_Pico_Library/sh2/src/shtp.c:439-519 | One entry changes exactly the tables, numbers and limits its tag stands for, and is passed to the handler of the application it belongs to. |
| `ShtpRegistry.Registry.AddAdvertListener` | lib/BNO08x_Pico_Library/sh2/src/shtp.c:181-195 | A listener is appended while there are fewer than five. |
| `ShtpRegistry.NextEntry` | lib/BNO08x_Pico_Library/sh2/src/shtp.c:439-443 | The parser's reads at the cursor find exactly the next entry, and the rest of the encoding follows. |
| `ShtpRegistry.ParserInvertsEncoding` | lib/BNO08x_Pico_Library/sh2/src/shtp.c:421-523 | Parsing an encoded advertisement applies exactly the entries that were encoded, in order, whatever follows it in memory. |
| `ShtpRegistry.SectionHeard` | lib/BNO08x_Pico_Library/sh2/src/shtp.c:421-523 | An application's entries, from its guid up to the next one, go to its own handler, each once and in order, after the previous handler has been told of the end. |
| `ShtpRegistry.RunAll` | lib/BNO08x_Pico_Library/sh2/src/shtp.c:197-262 | After any run of registrations, channel and app additions and advertisements, every cached callback is the first accepted listener for the channel's latest definition, and null when there is none. |
| `ShtpRegistry.FirstRegistrationWins` | lib/BNO08x_Pico_Library/sh2/src/shtp.c:223-236 | A later registration never takes a channel away from its listener, and takes an unclaimed one exactly when it matches. |
| `ShtpRegistry.InterleavingIrrelevant` | lib/BNO08x_Pico_Library/sh2/src/shtp.c:241-403 | Only the order among registrations and the order among table changes matter, not how they interleave. |
| `ShtpRegistry.TransferLimitEffect` | lib/BNO08x_Pico_Library/sh2/src/shtp.c:471-478 | An advertised write limit of 8, and no other, leaves txProcess no room; 4 to 7 make every payload one transfer, inside the out buffer exactly up to 252 bytes; limits above 8 are kept to, and one below 4 is taken for 256. |
| `ShtpAdvert.CStringIs` | lib/BNO08x_Pico_Library/sh2/src/shtp.c:492-500 | A name is the bytes before the first zero byte, or all of them when there is none. |
| `ShtpAdvert.ChannelsAdvertised` | lib/BNO08x_Pico_Library/sh2/src/shtp.c:421-523 | After any list of entries channel n has the guid in force, the wake flag and the name of the last channel name that came while n was the channel number, with both its sequence numbers 0; a channel that none names is as it was. |
| `ShtpAdvert.AdvertiseChannels` | lib/BNO08x_Pico_Library/sh2/src/shtp.c:197-523 | The same for the parser on any encoded advertisement that fits the receive buffer, and every cached callback is then that of the first listener with the guid and the name of its channel and a callback set, and none when there is none or the guid is all ones. |
| `ShtpAdvert.AppsAdvertised` | lib/BNO08x_Pico_Library/sh2/src/shtp.c:347-381 | Afterwards the applications are those from before and those that guid entries introduced, up to five, guids unique, each with the name that the last name entry behind its guid gives. |
| `ShtpAdvert.LimitsAdvertised` | lib/BNO08x_Pico_Library/sh2/src/shtp.c:458-484 | The limits for writing cargoes and for reading transfers are the last advertised values of at least 4 that fit their bounds, less 4; that for writing transfers is the last one advertised less 4, or 256; without such an entry each is as before. |
| `ShtpAdvert.HandlerIs` | lib/BNO08x_Pico_Library/sh2/src/shtp.c:406-419 | An application's handler is that of the first listener with its guid and a callback set, and none when there is none. |
| `ShtpAdvert.AdvertisementHeard` | lib/BNO08x_Pico_Library/sh2/src/shtp.c:421-523 | Over a whole advertisement of any number of applications each handler hears exactly the entries of its own application, in order, and then their end; the only call besides is an end for guid 0 before the first. |
| `Sh2Input.Clock.ToUs` | lib/BNO08x_Pico_Library/sh2/src/sh2.c:524-540 | The rollover count goes up exactly when the 32-bit time goes down; the correction is added in 32 bits. |
| `Sh2Input.StepReconstructed` | lib/BNO08x_Pico_Library/sh2/src/sh2.c:530-537 | A step of less than 2^32 microseconds is reconstructed exactly in 64 bits. |
| `Sh2Input.StampExactIff` | lib/BNO08x_Pico_Library/sh2/src/sh2.c:536-537 | A stamp is the true time plus its correction exactly when the corrected low word stays inside 32 bits. |
| `Sh2Input.BorrowIsLost` | lib/BNO08x_Pico_Library/sh2/src/sh2.c:536-537 | Just after a rollover a report 100 microseconds old is stamped 2^32 microseconds late. |
| `Sh2Input.InputRun` | lib/BNO08x_Pico_Library/sh2/src/sh2.c:524-592 | Over any run of payloads of whole reports, with or without an unknown report at their end, whose sensor reports are less than 2^32 microseconds apart, the events are the sensor reports in order, each stamped with the true 64-bit time plus 100 times reference and delay exactly when the corrected low word stays in range; the flush reports are routed in order, and the unknown ones counted. |
| `Sh2Input.InputOne` | lib/BNO08x_Pico_Library/sh2/src/sh2.c:542-592 | The same for one payload, with the clock following its time; an unknown report at its end is counted and no payload without one is. |
| `Sh2Input.SignedIff` | lib/BNO08x_Pico_Library/sh2/src/sh2.c:563-573 | A rebase is read as the number from -2^31 up to 2^31 that differs from its 32 bits by a multiple of 2^32. |
| `Sh2Input.WithoutArrivalTimes` | lib/BNO08x_Pico_Library/sh2/src/sh2.c:536-537 | With all arrival times 0 a stamp is the offset modulo 2^32: right when the offset is not negative, 2^32 late otherwise. |
| `Sh2Input.DelayIsFourteenBits` | lib/BNO08x_Pico_Library/sh2/src/sh2.c:580-580 | The delay of a report is the 14-bit number above the status bits of byte 2 and in byte 3. |
| `Sh2Input.Input.StoreLengths` | lib/BNO08x_Pico_Library/sh2/src/sh2.c:367-380 | After any advertised value of up to 255 bytes, line n of the table is the pair of bytes at 2n for the first min(len / 2, 64) lines, and the others are as before. |
| `Sh2Input.AnyTableStored` | lib/BNO08x_Pico_Library/sh2/src/sh2.c:367-380 | A hub can advertise any table of 64 lines. |
| `Sh2Input.LinesStored` | lib/BNO08x_Pico_Library/sh2/src/sh2.c:367-380 | Any number of lines up to 127, encoded as a hub advertises them, become the first min(n, 64) lines of the table and leave the others. |
| `Sh2Input.AdvertisedLength` | lib/BNO08x_Pico_Library/sh2/src/sh2.c:367-521 | The length then looked up for an advertised id is the one its first line gives, as long as that line is among the first 64. |
| `Sh2Input.CopiesFitIff` | lib/BNO08x_Pico_Library/sh2/src/sh2.c:551-583 | The copies of a walk over a payload stay inside the 16-byte event exactly when every sensor report it meets has at most 16 bytes. |
| `Sh2Input.SafeTableIff` | lib/BNO08x_Pico_Library/sh2/src/sh2.c:551-583 | They do for every payload exactly when the table gives no sensor more than 16 bytes. |
| `Sh2Input.LongReportOverruns` | lib/BNO08x_Pico_Library/sh2/src/sh2.c:583-583 | One sensor report of 17 bytes overruns the event. |
| `Sh2Input.GetReportLen` | lib/BNO08x_Pico_Library/sh2/src/sh2.c:512-521 | The length of the first table line for the id, 0 when there is none. |
| `Sh2Input.Input.HandleReport` | lib/BNO08x_Pico_Library/sh2/src/sh2.c:563-588 | One report moves the reference, is routed to the operation in progress, or, when it fits the 16-byte event, makes exactly one sensor event, called back if a callback is set, with the reference in force; the clock moves only for an event. |
| `Sh2Input.Input.InputHdlr` | lib/BNO08x_Pico_Library/sh2/src/sh2.c:542-592 | For every payload whose sensor reports fit the event the loop ends; callbacks, routed reports, clock and unknown-id counter are those of the walk over the payload. |
| `Sh2Input.ReferenceStep` | lib/BNO08x_Pico_Library/sh2/src/sh2.c:563-573 | The running 32-bit reference always equals minus the last base reference plus all later rebases. |
| `Sh2Input.ParserInvertsConcat` | lib/BNO08x_Pico_Library/sh2/src/sh2.c:551-591 | For any list of whole reports with known ids, laid end to end, with or without an unknown one behind them, the handler emits exactly the sensor reports, in order, each stamped with the reference of the reports before it, routes exactly the flush reports, and stops at the unknown one; its copies stay inside the event exactly when no sensor report is longer than 16 bytes. |
| `Sh2Frs.Session.SetFrsRx` | lib/BNO08x_Pico_Library/sh2/src/sh2.c:1148-1214 | Each response completes, fails, is ignored, or sends exactly the next pair: the statuses 1, 2, 5, 6, 7, 9, 10 and 11 end the write with the hub error and 3 with success, sending nothing; 8, unknown ones and other reports change nothing; a failed send changes nothing but what has been sent, so its words are never sent again. |
| `Sh2Frs.WriteStatuses` | lib/BNO08x_Pico_Library/sh2/src/sh2.c:1160-1211 | What each status makes of a write: the statuses above, and for 0 and 4, with words left, the next two words at the current offset, a zero in place of a missing second one. |
| `Sh2Frs.Session.GetFrsRx` | lib/BNO08x_Pico_Library/sh2/src/sh2.c:951-1012 | Each response changes buffer, count, next offset and status as specified, including the two checks that do not end the handler; the statuses 1, 2, 4 and 8 end the read with the hub error and store nothing. |
| `Sh2Frs.ReadStatuses` | lib/BNO08x_Pico_Library/sh2/src/sh2.c:951-1012 | What each status makes of a read, whatever its offset and words: which words are stored where, the next offset, the count and the status. |
| `Sh2Frs.Session.SetFrs` | lib/BNO08x_Pico_Library/sh2/src/sh2.c:1983-1999 | With words + 3 responses a write ends exactly when the transport accepted every data request up to the hub's rejection or the last; it ends with the hub error and the hub's records as before when the hub rejects it at one of its go-aheads, and otherwise with success and the hub holding exactly the caller's words; a null pointer with words or a failed start is reported; a call during another operation is refused, but has replaced that operation's data. |
| `Sh2Frs.Session.GetFrs` | lib/BNO08x_Pico_Library/sh2/src/sh2.c:1956-1973 | Against a hub that answers in order a read returns exactly the record and its count, leaves the rest of the buffer alone, and never stores outside it; a hub that breaks off with an error makes it return the hub error and leaves the count; null pointers are refused; a call during another operation is refused, but has replaced that operation's data. |
| `Sh2Frs.ReadRefused` | lib/BNO08x_Pico_Library/sh2/src/sh2.c:951-1012 | A read broken off by an error after any part of the record ends with the hub error, the buffer holding that part and otherwise what it held. |
| `Sh2Frs.PairStep` | lib/BNO08x_Pico_Library/sh2/src/sh2.c:1188-1206 | The hub's go-ahead makes the host send the next two words and the hub append them. |
| `Sh2Frs.WriteRun` | lib/BNO08x_Pico_Library/sh2/src/sh2.c:1129-1214 | Whatever the hub chooses and whatever reports come between, every step keeps host and hub in agreement on the words transferred and brings the end nearer, until the hub rejects the write or the transport refuses a data request; after a refusal the write stands still. |
| `Sh2Frs.WriteCompletes` | lib/BNO08x_Pico_Library/sh2/src/sh2.c:1129-1214 | A write that is over ended with the hub error and the hub's records as before exactly when the hub rejected it; otherwise it ended with success and has stored exactly the record and no other, and the data requests covered every word once, in order, two at a time, with a zero after an odd last word: (n + 1) / 2 of them. |
| `Sh2Frs.ReadRun` | lib/BNO08x_Pico_Library/sh2/src/sh2.c:951-1012 | A faithful hub's answer, however cut and interleaved, fills exactly the front of the buffer with exactly the record. |
| `Sh2Frs.ReadAll` | lib/BNO08x_Pico_Library/sh2/src/sh2.c:951-1012 | The read of any record, the empty one included, ends with success and the record's word count. |
| `Sh2Frs.RoundTrip` | lib/BNO08x_Pico_Library/sh2/src/sh2.c:931-1214 | Reading back after any write that ended with success returns the same words and count. |
| `Sh2Frs.EmptyRecord` | lib/BNO08x_Pico_Library/sh2/src/sh2.c:971-992 | An empty record reads as zero words, but the response's first word has been stored in the caller's buffer. |
| `Sh2Frs.GapMaskedByCompletion` | lib/BNO08x_Pico_Library/sh2/src/sh2.c:980-1009 | A response at the wrong offset always ends the read, and is reported as an error exactly when it does not also announce the end of the record. |
| `Sh2Frs.LossyRead` | lib/BNO08x_Pico_Library/sh2/src/sh2.c:951-1012 | With responses lost on the way, a read ends with success exactly when the last one arrives and the lost ones are all of those just before it; the count is then that of the record, and the words lost keep what the buffer held. |
| `Sh2Frs.WrongRecordIff` | lib/BNO08x_Pico_Library/sh2/src/sh2.c:951-1012 | It ends with success and a wrong record exactly when in addition some word lost was different in the buffer. |
| `Sh2Frs.RefusedIff` | lib/BNO08x_Pico_Library/sh2/src/sh2.c:1148-1214 | A data request is refused exactly when the transport refuses one of the first (n + 1) / 2 times the hub asks for words, before any rejection by the hub. |
| `Sh2Frs.WriteEndsIff` | lib/BNO08x_Pico_Library/sh2/src/sh2.c:478-1214 | With words + 3 responses a write is over exactly when no data request was refused; after a refusal it is not over, and the hub's records are as before. |
| `Sh2Frs.RefusedPairNeverEnds` | lib/BNO08x_Pico_Library/sh2/src/sh2.c:478-1214 | If the hub asks for words and the first data request is refused, no further steps, whatever they bring, end the write or give the hub a word. |
| `Sh2Ops.Engine.OpStart` | lib/BNO08x_Pico_Library/sh2/src/sh2.c:332-348 | Refused without any change while an operation is registered; a start that fails leaves none registered and its own status. |
| `Sh2Ops.Engine.OpRx` | lib/BNO08x_Pico_Library/sh2/src/sh2.c:350-356 | The handler runs only while its operation is registered, and a completing report unregisters it. |
| `Sh2Ops.Engine.ControlHdlr` | lib/BNO08x_Pico_Library/sh2/src/sh2.c:398-465 | Every report of a control payload goes to the operation in progress, in order, each Get Feature response is also an event when a callback is set, and unknown ids and empty payloads are counted. |
| `Sh2Ops.Engine.RouteFlushes` | lib/BNO08x_Pico_Library/sh2/src/sh2.c:542-592 | Of a sensor payload exactly the flush reports go to the operation in progress, in order. |
| `Sh2Ops.FlushesAreWalked` | lib/BNO08x_Pico_Library/sh2/src/sh2.c:542-592 | They are the ones the walk over the same payload sets aside, with the same verdict on unknown ids. |
| `Sh2Ops.Engine.OpProcess` | lib/BNO08x_Pico_Library/sh2/src/sh2.c:478-510 | A call made while an operation is registered changes nothing; otherwise it stops at the first service step that completes the operation or finds it timed out, returns that completion's status, the failed start's or the timeout's, and leaves none registered. |
| `Sh2Ops.EndsAtFirst` | lib/BNO08x_Pico_Library/sh2/src/sh2.c:492-506 | No earlier step had completed it or found it timed out. |
| `Sh2Ops.AfterUntilDone` | lib/BNO08x_Pico_Library/sh2/src/sh2.c:350-356 | Over any number of service steps the handler has been given what arrived, in order, up to the report that completed the operation, and nothing after it. |
| `Sh2Ops.HandAllUntilDone` | lib/BNO08x_Pico_Library/sh2/src/sh2.c:350-356 | The report that completes an operation is the last one its handler gets, and no earlier one completed it. |
| `Sh2Ops.CutInvertsConcat` | lib/BNO08x_Pico_Library/sh2/src/sh2.c:411-464 | Reports laid end to end, with or without an unknown one behind them, are cut exactly where they were joined, the unknown one ends the cut, and the features announced are those of the Get Feature responses, in order. |
| `Sh2Ops.FeatureAnnounced` | lib/BNO08x_Pico_Library/sh2/src/sh2.c:440-440 | A report announces one feature exactly when its id is 0xFC (with all its 17 bytes there), and else none. |
| `Sh2Ops.ArrivesTold` | lib/BNO08x_Pico_Library/sh2/src/sh2.c:398-592 | Of a payload of whole reports, exactly its reports arrive when it comes on the control channel, and exactly its reports with id 0xEF when it comes on a sensor channel. |
| `Sh2Ops.EndsTold` | lib/BNO08x_Pico_Library/sh2/src/sh2.c:478-510 | Over steps that deliver such payloads, an operation that ends has the status its handler gives at the first completing report of all that was delivered to it, or the timeout with no completing report and the timeout reached, and neither was so after any earlier step. |
| `Sh2Ops.RunOperation` | lib/BNO08x_Pico_Library/sh2/src/sh2.c:478-510 | The same for the code: what opProcess returns, and when it is still waiting nothing delivered completes the operation; an operation its start completes returns that status at once. |
| `Sh2Ops.ElapsedIff` | lib/BNO08x_Pico_Library/sh2/src/sh2.c:493-500 | The 32-bit difference of two clock readings is the true elapsed time exactly when less than 2^32 microseconds have passed, rollover or not. |
| `Sh2Ops.Commander.SendCmd` | lib/BNO08x_Pico_Library/sh2/src/sh2.c:1224-1247 | A request carries the next number mod 256, used up whether or not it is accepted. |
| `Sh2Ops.Commander.WrongResponse` | lib/BNO08x_Pico_Library/sh2/src/sh2.c:1282-1289 | A response is accepted exactly when it names the latest command and its number. |
| `Sh2Ops.AcceptedIff` | lib/BNO08x_Pico_Library/sh2/src/sh2.c:1282-1289 | A response to the command sent k commands ago is accepted exactly when it was the same command and k is a multiple of 256. |
| `Sh2Ops.StaleRefused` | lib/BNO08x_Pico_Library/sh2/src/sh2.c:1224-1289 | A response to any of the previous 255 commands is never accepted. |
| `Sh2Config.SetThenReported` | lib/BNO08x_Pico_Library/sh2/src/sh2.c:432-835 | The configuration a hub reports back with the fields of a Set Feature request is the one that was set, flags, sensitivity and intervals, whatever follows it in memory. |
| `Sh2Config.FeatureFields` | lib/BNO08x_Pico_Library/sh2/src/sh2.c:446-454 | The sensor id, the four flags by their bits and the four little-endian numbers by their bytes. |
| `SensorPath.ReadReports` | lib/BNO08x_Pico_Library/sh2/src/shtp.c:800-819 | Reports the hub holds as one cargo come out of the bus, reassembly and sensor input as exactly their events and routed flush reports, each stamped with its bare offset modulo 2^32. |
| `GnssRing.NextKeeps` | src/main.cpp:607-630 | Every atomic access of either core, in any order, keeps the ring equal to the accepted bytes not yet popped. |
| `GnssRing.RunInv` | src/main.cpp:607-639 | So it holds after every interleaving. |
| `GnssRing.PopsArePrefix` | src/main.cpp:607-630 | Popped bytes are a prefix of the accepted bytes, in order, and at most 4095 are held. |
| `GnssRing.OnlyGrows` | src/main.cpp:607-630 | What has been accepted or popped is never taken back. |
| `GnssRing.NeverTheSameSlot` | src/main.cpp:616-628 | The producer never writes the slot the consumer is reading. |
| `GnssRing.DropsIffFull` | src/main.cpp:609-614 | A byte is dropped exactly when 4095 are held at the moment the producer looks. |
| `GnssRing.EmptyIff` | src/main.cpp:623-625 | A pop finds the ring empty exactly when every accepted byte has been popped. |
| `GnssRing.Conservation` | src/main.cpp:607-639 | At every moment received = popped + held + overflowed + the byte in hand, where held is what the two indices say and is the number of accepted bytes not yet popped; the 32-bit counters agree modulo 2^32. |
| `GnssRing.Ring.Push` | src/main.cpp:607-619 | The code of a push is its atomic steps in a row: true and the byte accepted, or false and the overflow counted. |
| `GnssRing.Ring.Pop` | src/main.cpp:621-630 | The code of a pop is its atomic steps in a row: the oldest byte, or nothing from an empty ring. |
| `GnssRing.Ring.UartIrqHandler` | src/main.cpp:632-639 | An interrupt accepts a prefix of what the UART holds, as much as there is room for, and counts all of it. |
| `LatestQueue.RunInv` | src/main.cpp:343-360 | After every interleaving of one producer and one consumer the queue holds consecutive pushes, everything older was consumed or dropped once, and what a push in flight can have taken is known. |
| `LatestQueue.EveryPushEnqueues` | src/main.cpp:354-360 | A completed push has enqueued its element: the second attempt never fails. |
| `LatestQueue.OnlyOlderDropped` | src/main.cpp:356-359 | Only the oldest element is ever dropped, by a push of a newer one. |
| `LatestQueue.ReturnsIncrease` | src/main.cpp:344-351 | Values returned by drains strictly increase in push order. |
| `LatestQueue.EachElementOnce` | src/main.cpp:343-360 | Every element enqueued is queued, consumed or dropped, and exactly one of these. |
| `LatestQueue.FreshIff` | src/main.cpp:343-360 | A drain returns the newest element enqueued before it began, or a newer one, or that element had been consumed before, exactly when it does not end between the remove and the second add of the very next push, whose remove took that element. |
| `LatestQueue.MayGoStaleIff` | src/main.cpp:343-360 | Some continuation of a drain that begins now ends stale exactly when the queue is full with no push in flight, or a push in flight has yet to remove and something is queued, or it has removed the newest element. |
| `LatestQueue.NeverStale` | src/main.cpp:343-360 | A drain begun in any other situation, in particular with fewer than eight queued and no push in flight, never ends stale. |
| `LatestQueue.StaleDrain` | src/main.cpp:343-360 | A stale drain is reachable: eight pushes are enough before it begins. |
| `LatestQueue.Queue.PushLatest` | src/main.cpp:354-360 | Uninterrupted, a push keeps the newest eight elements. |
| `LatestQueue.Queue.TryGetLatest` | src/main.cpp:344-351 | Uninterrupted, a drain empties the queue and returns its newest element, if any. |
| `GnssLines.Assembles` | src/main.cpp:817-896 | Each newline-ended segment of L characters, carriage returns aside, emits exactly its last L mod 220 characters and raises the overlong count by L / 220; the unfinished rest is held likewise. |
| `GnssLines.ChunkingIrrelevant` | src/main.cpp:814-897 | However the stream is cut into passes over the ring, the result is that of the whole stream. |
| `GnssLines.TotalIsSum` | src/main.cpp:824-875 | Every line is counted in exactly one of the four kinds. |
| `GnssLines.WindowIsRecent` | src/main.cpp:834-895 | The window of the cycle is the end of the history, without an overlong line or a publication in it. |
| `GnssLines.WindowIsLongest` | src/main.cpp:834-895 | It reaches back to the last overlong line or publication, or to the start. |
| `GnssLines.EachPublication` | src/main.cpp:834-895 | Between consecutive publications at least one line of each kind has come since the last overlong line. |
| `GnssLines.PublishedSnapshot` | src/main.cpp:877-878 | A published snapshot combines, for each kind, all lines so far, the most recent last. |
| `GnssLines.PublicationsBounded` | src/main.cpp:834-883 | There are never more publications than lines of any of the three kinds. |
| `GnssLines.TallyStep` | src/main.cpp:824-895 | The code's counters, flags, snapshot and publications remain functions of the history of lines at every line and overlong line. |
| `GnssLines.LineReader.Byte` | src/main.cpp:815-896 | One byte changes buffer and history as specified, with the index staying below 220 and every flag, counter and publication following the history. |
| `GnssLines.KindIs` | src/main.cpp:834-873 | Character by character: a line is GGA or GST exactly when its first seven characters are a dollar sign, GN or GP, the three letters and a comma, a heading exactly when it starts with a bare heading name, and other otherwise; no two of these hold. |
| `GnssLines.LineTally` | src/main.cpp:824-883 | A GGA line raises exactly the total and the GGA counter, part and flag, a GST line those of GST, a heading line those of headings, any other line only the total and the "other" counter; when all three flags are up, the snapshot is published and they go down. |
| `GnssLines.LineReader.TakeLine` | src/main.cpp:824-883 | The code of a finished line does that, in terms of its characters. |
| `GnssLines.LineReader.EndLine` | src/main.cpp:821-883 | A newline emits exactly the characters held, which raise exactly the counter, part and flag of the sentence they spell. |
| `GnssLines.LineReader.Passes` | src/main.cpp:811-897 | Any number of passes leaves the reader in the state of the whole stream. |
| `GnssPath.LinesThroughRing` | src/main.cpp:607-897 | Whatever the interleaving of the two cores, the lines and overlong events core 1 has seen are a prefix of those in the accepted bytes, and all of them once it has emptied the ring. |
| `GnssLines.HeadingWithoutComma` | src/main.cpp:859-862 | A line is taken for a heading without a full prefix exactly when it starts with a bare heading name that no comma follows. |
| `WizRing.MaskIsSlot` | lib/ioLibrary_Driver/Ethernet/W5100/w5100.c:311-311 | Masking a pointer with k ones gives its offset in a region of 2^k bytes. |
| `WizRing.SlotOfPointer` | lib/ioLibrary_Driver/Ethernet/W5100/w5100.c:328-330 | A 16-bit pointer that has overflowed any number of times still has the offset of the unbounded count. |
| `WizRing.StoredAt` | lib/ioLibrary_Driver/Ethernet/W5100/w5100.c:314-326 | Byte j of a split copy lands in its own slot, and no other slot changes. |
| `WizRing.WriteRefines` | lib/ioLibrary_Driver/Ethernet/W5100/w5100.c:302-331 | A write within the free size appends to the queue and overwrites nothing still waiting. |
| `WizRing.ReadRefines` | lib/ioLibrary_Driver/Ethernet/W5100/w5100.c:344-384 | A read within the received size takes exactly the front of the queue; ignoring it only skips. |
| `WizRing.RingIsQueue` | lib/ioLibrary_Driver/Ethernet/W5100/w5100.c:302-374 | Over any run within the sizes, however often the 16-bit pointers overflow, the masked and split copies give the reads exactly what an unbounded queue would. |
| `WizRing.RegionsApart` | lib/ioLibrary_Driver/Ethernet/W5100/w5100.c:264-289 | With power-of-two sizes that sum to at most 8 KB every region lies inside its memory and no two overlap. |
| `WizRing.StoreElsewhere` | lib/ioLibrary_Driver/Ethernet/W5100/w5100.c:302-331 | A store for one socket, transmit or receive, leaves every other ring unchanged. |
| `WizRing.StoreHere` | lib/ioLibrary_Driver/Ethernet/W5100/w5100.c:302-331 | In memory as in the region on its own, it is a write to that socket's ring. |
| `WizRing.ReceiveHere` | lib/ioLibrary_Driver/Ethernet/W5100/w5100.c:344-369 | The split copy out of memory is a read of that socket's ring. |
| `WizRing.Chip.GetBase` | lib/ioLibrary_Driver/Ethernet/W5100/w5100.c:264-289 | The loop gives the memory's start plus the sizes of the sockets before this one. |
| `WizRing.Chip.WizSendData` | lib/ioLibrary_Driver/Ethernet/W5100/w5100.c:302-331 | Only this socket's transmit ring changes, by exactly the data. |
| `WizRing.Chip.WizRecvData` | lib/ioLibrary_Driver/Ethernet/W5100/w5100.c:344-374 | Returns what the ring holds at its read pointer and moves only that pointer. |
| `WizRing.Chip.WizRecvIgnore` | lib/ioLibrary_Driver/Ethernet/W5100/w5100.c:376-384 | Moves only that pointer, for any 16-bit length. |
| `WizUdp.UdpSocket.RecvFrom` | lib/ioLibrary_Driver/Ethernet/socket.c:951-1054 | One call, over the socket's ring: the errors, "busy", or the next piece, with the address only on the first, the remaining size and the packet flags. |
| `WizUdp.RecvKeeps` | lib/ioLibrary_Driver/Ethernet/socket.c:951-1173 | Every call keeps the pieces handed out and the bytes still in the ring in step with the datagrams that arrived. |
| `WizUdp.RunKeeps` | lib/ioLibrary_Driver/Ethernet/socket.c:951-1173 | Over every run of arrivals and calls, whatever their lengths, the pieces spell the datagrams in order, each under its own address and complete but for what is still in the ring; no piece straddles two. |
| `WizUdp.RunOnChip` | lib/ioLibrary_Driver/Ethernet/socket.c:951-1173 | The same on the chip's wrapped receive region with its 16-bit pointers, which drops the datagrams that have no room when they arrive: the pieces are those of the run over the datagrams that had room. |
| `WizUdp.BetweenDatagrams` | lib/ioLibrary_Driver/Ethernet/socket.c:1003-1054 | When nothing of the current datagram is left, what has been handed out is exactly the datagrams before, and the ring stands at the next 8-byte header. |
| `WizUdp.FirstStaysSet` | lib/ioLibrary_Driver/Ethernet/socket.c:1151-1164 | While something is left of a datagram PACK_FIRST stays set, middle pieces included; otherwise the flags say completed. |
| `WizUdp.DatagramTakes` | lib/ioLibrary_Driver/Ethernet/socket.c:1038-1054 | With a fixed length a datagram is fully handed out after CallsFor calls and not before. |
| `WizUdp.CallsAreCeiling` | lib/ioLibrary_Driver/Ethernet/socket.c:1038-1041 | CallsFor is max(1, ceil(n / len)). |
| `WizUdp.HeaderLayout` | lib/ioLibrary_Driver/Ethernet/socket.c:1003-1036 | A datagram stands in the ring as four bytes of address, port and length with the high byte first, and the payload. |
| `WizUdp.Answers` | lib/ioLibrary_Driver/Ethernet/socket.c:946-961 | A length of 0 is answered -14; a closed socket -4 between datagrams, but the rest of a datagram is still handed out; an empty ring 0 or waiting; none of these changes anything, and every other call hands out a piece. |
| `WizUdp.ZeroIff` | lib/ioLibrary_Driver/Ethernet/socket.c:952-961 | In non-blocking mode a call between datagrams returns 0 exactly when nothing is waiting or the next datagram has no payload, and then takes at most that header. |
| `WizUdp.EmptyLooksBusy` | lib/ioLibrary_Driver/Ethernet/socket.c:952-1164 | After any run, a non-blocking call between datagrams returns 0 exactly when nothing waits or the next datagram is empty, and either way leaves nothing remaining and the flags completed. |
| `Servo.SCS.WriteBuf` | lib/scservo/SCS.cpp:59-87 | The bytes sent are the write frame, the running checksum being that of its body. |
| `Servo.SCS.SyncWrite` | lib/scservo/SCS.cpp:121-148 | The bytes sent are the sync-write frame. |
| `Servo.SCS.SyncReadPacketTx` | lib/scservo/SCS.cpp:304-323 | The bytes sent are the sync-read frame. |
| `Servo.SCS.CheckHead` | lib/scservo/SCS.cpp:256-276 | The search consumes exactly through the first pair of header bytes completing within 11 bytes, and fails when there is none, with the first 11 bytes, or as many as came, gone. |
| `Servo.SCS.Read` | lib/scservo/SCS.cpp:170-201 | Returns the data and error byte of a reply whose sum is right, nothing otherwise; the error byte is then 0 behind a header and unchanged without one. |
| `Servo.SCS.SyncReadPacketRx` | lib/scservo/SCS.cpp:325-345 | Returns the data of a reply with the right id and length, storing its error byte and leaving its checksum unread. |
| `Servo.SyncReadIff` | lib/scservo/SCS.cpp:325-345 | Behind a byte that is no header byte a reply is read, up to its checksum, exactly when the call asks its servo for as many bytes as it has; any other call leaves its data unread and stores nothing. |
| `Servo.SyncRepliesIff` | lib/scservo/SCS.cpp:325-345 | The replies of any number of servos, read back to back, are all returned exactly when none before the last has the checksum 0xFF. |
| `Servo.SumLikeHeader` | lib/scservo/SCS.cpp:325-345 | A reply without error can have that checksum. |
| `Servo.SCS.GenWrite` | lib/scservo/SCS.cpp:91-97 | A write succeeds exactly when none is to be answered or a right status reply of that servo comes back. |
| `Servo.SCS.Ack` | lib/scservo/SCS.cpp:278-302 | Succeeds at once for broadcasts and at level 0, and otherwise exactly on a status reply of that servo with a right sum. |
| `Servo.SCS.Ping` | lib/scservo/SCS.cpp:229-254 | Returns the id of a right status reply, from any servo when broadcast, and -1 otherwise. |
| `Servo.WriteFrameIff` | lib/scservo/SCS.cpp:59-87 | A write frame's length field counts the bytes that follow exactly when there are at most 252 data bytes, and its sum from id through checksum is 255 mod 256 unless a frame without data carries an address. |
| `Servo.SyncWriteFrameIff` | lib/scservo/SCS.cpp:121-148 | A sync-write frame always sums to 255 mod 256, and its length field is right exactly when it fits a byte. |
| `Servo.SyncReadFrameIff` | lib/scservo/SCS.cpp:304-323 | The same for sync-read frames, for at most 251 servos. |
| `Servo.WriteDecodes` | lib/scservo/SCS.cpp:59-87 | A servo decodes exactly the id, instruction, address and data asked for, or nothing when length or sum is not right. |
| `Servo.SyncWriteDecodes` | lib/scservo/SCS.cpp:121-148 | Every servo finds its id followed by its own block at a fixed place of the frame. |
| `Servo.SyncReadDecodes` | lib/scservo/SCS.cpp:304-323 | Servos decode the address, the length and the list of ids. |
| `Servo.SumMod256` | lib/scservo/SCS.cpp:78-86 | The byte-wise running checksum is the sum modulo 256. |
| `Servo.HeadEndIff` | lib/scservo/SCS.cpp:256-276 | The place found is the first pair of header bytes, within 11 bytes. |
| `Servo.ReadReturnsData` | lib/scservo/SCS.cpp:170-201 | A well-formed reply, after noise that does not hide its header, is read back unchanged with its error byte. |
| `Servo.StatusReplyIff` | lib/scservo/SCS.cpp:229-302 | Of well-formed replies, a status request accepts exactly those without data from the servo it asked (from any, for a broadcast ping), giving the id and the error byte. |
| `Servo.CorruptionRefused` | lib/scservo/SCS.cpp:190-198 | A reply to Read with any one byte changed behind its header is refused. |
| `Servo.StatusCorruptionRefused` | lib/scservo/SCS.cpp:242-251 | So is a status reply. |
| `Servo.WordRoundTrip` | lib/scservo/SCS.cpp:31-57 | Splitting a 16-bit value and joining it again gives it back, in both byte orders and both directions; with the end flag set the high byte comes first. |

## Left out

- ShtpReceive.Receiver.RxAssemble: takes only transfers whose copy stays inside the 384-byte buffer, since the code writes past it otherwise; `ShtpRuns.HubRunFits` shows that a hub whose headers announce the remaining cargo always meets this.
- ShtpReceive.Receiver.Assemble: takes only transfers whose copy stays inside the buffer, for the same reason.
- ShtpReceive.Receiver.Store: takes only bytes that stay inside the buffer, for the same reason.
- ShtpRuns.ServiceRun: takes runs whose copies stay inside the buffer, for the same reason.
- ShtpRuns.WholeCargoIff: takes cargoes whose first fragment has at least one byte, since an empty one would not be missed.
- ShtpTransmit.Transmitter.TxProcess: takes only transfers that stay inside the out buffer; `ShtpRegistry.TransferLimitEffect` says for which limits and lengths they do. The loop that never ends is cut off after a number of rounds, which is an argument.
- ShtpTransmit.Transmitter.ShtpSend: takes only transfers that stay inside the out buffer.
- ShtpTransmit.Transmitter.Transmit: counts the service calls made while the HAL answers zero and does not model what they do; a send made from inside one could stage another transfer in the same buffer.
- ShtpTransmit.NumberedAcrossSends: does not model sends made from inside those service calls.
- ShtpTransmit.SendAll: does not model sends made from inside those service calls; channel definitions come between sends.
- ShtpRegistry.Registry.ProcessAdvertisement: the payload is given with the memory behind it, because the code reads on when the last entry is cut short; names that do not fit their 32-byte buffers are not covered.
- ShtpRegistry.Registry.ProcessTag: the calls to advertisement handlers are recorded; what the two handlers do with them (the version, the channel numbers) is not modelled, except for the table of report lengths in `Sh2Input.Input.StoreLengths`.
- ShtpRegistry.Registry.AddAdvertListener: does not model the request for new advertisements that a late listener triggers.
- HalRead.I2chalRead: the two milliseconds of polling for a header are a number of polls.
- HalRead.Service: does not model the advertisement request `shtp_service` may send first.
- HalRead.ServiceUntilRead: starts with a hub that holds a packet and no assembly in progress, and models no advertisement request.
- Sh2Input.Input.HandleReport: takes sensor reports of at most 16 bytes, because a longer one is copied past the end of the event.
- Sh2Input.InputOne: takes sensor reports of at most 16 bytes, for the same reason.
- SensorPath.ReadReports: takes sensor reports of at most 16 bytes, for the same reason.
- Sh2Ops.Engine.RouteFlushes: takes sensor payloads whose reports fit their events, for the same reason.
- Sh2Input.Input.InputHdlr: takes sensor reports of at most 16 bytes, for the same reason. The payload is given with the memory behind it, because the code reads on when the last report is cut short; the 16-bit cursor is kept from wrapping by a bound on that memory.
- Sh2Input.Clock.ToUs: signed overflow of the correction is taken as two's-complement wrap.
- Sh2Input.InputRun: takes sensor reports of at most 16 bytes, for the same reason. The gyro rotation-vector channel, which has a handler of its own without time references, is not among the payloads.
- Sh2Frs.Session.GetFrsRx: takes only responses whose stores stay inside the caller's buffer; the check for room allows one offset too many.
- Sh2Frs.Session.GetFrs: reads into buffers too small for the record are not stated, for that reason; the hub's answers come in order, and the transport accepts the one request.
- Sh2Frs.Session.SetFrs: the words of the two operations share memory in a union; only fields of the same operation are followed when one call overwrites another's data.
- Sh2Ops.Engine.ControlHdlr: the payload is given with the memory behind it, as for sensor input.
- Sh2Ops.Engine.OpProcess: does not model reports that arrive while a start method is still sending, nor calls back into the library from callbacks after the operation has completed but before its loop has noticed. Timeouts are the comparison of clock readings given as inputs.
- GnssRing.RunInv: assumes sequential consistency of the volatile indices; memory ordering between the cores is not modelled.
- LatestQueue.RunInv: one producer and one consumer, each queue operation atomic, as the Pico's queue provides with a spin lock.
- GnssLines.LineReader.Byte: the parsers are uninterpreted (each part of the snapshot is the list of lines its parser was given), so field values, floating point and the sentence checksums are not modelled; the debug print is dropped.
- WizRing.Chip.WizSendData: takes at most a region's size, as its callers do, because a longer copy runs into the next region; the register and bus access under a copy is a byte-wise copy.
- WizRing.Chip.WizRecvData: takes at most a region's size, because a longer copy reads the next region.
- WizUdp.RunOnChip: assumes that the chip stores a datagram whole or, without room for it, not at all.
- WizUdp.UdpSocket.RecvFrom: takes a ring that holds whole datagrams, as the chip stores them; it is the UDP branch of the W5x00 chips only; the W6100 branch rereads packet information on every call and is exact only for whole datagrams. Waiting for the RECV command and for data in blocking mode are single steps. Raw IP, MAC raw and TCP sockets are not modelled.
- Servo.SCS.Read: "no more bytes" is the end of the reply given as input, in place of the wall-clock timeout; what a failed read leaves in the caller's buffer is not stated.
- Servo.SyncRepliesIff: the id 0xFF, which no servo has, is excluded.
- Asynchronous writes and the wrappers for single registers repeat the frames and replies that are modelled.
- The micro-ROS node, its publishers and watchdog, LEDs, GPIO callbacks, DHCP, SNTP, chip dispatch tables and the sensor value decoder.
