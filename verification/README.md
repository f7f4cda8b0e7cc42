# A verified model of the LINGI1341 transfer protocol and its link simulator

The repository holds a file transfer over UDP with selective repeat
(`projet1_Calmant_Outters/`), the lossy link simulator it is run through
(`LINGI1341-linksim/`) and an earlier exercise on a record file format
(`prerequis/format_struct/`). This project models their logic in Dafny and proves
what they do for every input and every run.

- `Basics`, `Bytes`: bytes, slices, concatenation, and numbers as bytes.
- `Crc32`, `Codec`, `Corruption`: the wire format as functions on byte sequences, with
  CRC-32 as the bitwise algorithm of section 8 of RFC 1952, and what becomes of whole
  datagrams with a damaged byte and of padded acknowledgements. `Golden` proves that the
  encoder gives the one datagram recorded in `progress_inginious.txt:13-14`, and lists the
  bytes of the receiver's replies.
- `CrcErrors`, `CrcEchoes`: what the inversion of one byte adds to a CRC-32, as a function of its
  place only, and the value of that word over 511 places.
- `Truncation`: what becomes of datagrams that the link cut and then perhaps damaged.
- `Promises`: three promises of `packet_interface.h`, and when the code keeps them.
- `PacketInterface`: the packet structure, its encoders and its decoder over buffers.
- `Receiver`, `ReceiverLoop`, `Sender`, `SenderLoop`: both protocol loops, as functions on
  states and as classes that search and update the slot arrays and the receive buffer in
  place; each method is proved equal to its function.
- `Transfer`: sender, receiver and a channel that drops, delays, reorders and repeats, as
  one step system, with its invariant and the theorems over runs. `WrapAround` finds the exact
  session lengths up to which the theorems hold, and `EarlyRetransmit` gives a run in which
  fast retransmit fires early.
- `Wire`: the same transfer over bytes, through the link or past it, and when its theorems still
  hold. `Shadow` carries what they say of numbers and of the sender to every run over bytes,
  `Stall` says what is written in any of them.
- `Net`: the same transfer over a channel that drops, delays, reorders and damages but never
  repeats a datagram, as the link does. Each of its runs is a run over bytes. `Recovery` shows what
  the sender's own means, timer, fast retransmit and send test, bring about there, `Completion`
  exactly when a session can still end, `DeadEnds` runs after which it cannot, and `LinkFiles`
  exactly when a file can be copied and when no wrong byte is ever written.
- `MinQueue`: the array heap with its root at index 0 and 1-based child indices.
- `LinkTime`, `LinkModel`, `LinkSim`: the link's clock arithmetic, the link as a step system,
  and its queue handling.
- `RecordFile`: the record format and the program that copies a record file. `RecordGolden` proves
  that it reads the repository's file `output` as its four records and copies it to the bytes of
  `output_lo`, and `CutRecords` says what becomes of a file that ends inside a record.

`dafny verify dfyconfig.toml` checks everything.

## Assumptions

The host is little-endian and bit fields are laid out from the low bit up, so the first
byte of a packet is type, tr and window from high to low. `write` writes every byte.
The input of the sender is its standard input. `calloc(1, 0)` returns a pointer that is not null.
A clock reading has microseconds below one million. In one session the DATA datagrams
come either all through the link or all past it; past it, at most one byte of a datagram is
replaced, by any other. The decoder may be called when its buffer holds every byte it goes
on to read. Random numbers, clock readings, the outcome of each send and the contents of
fresh memory are parameters. The seconds of the sender's clock go from 0 to 59. The receiver never
leaves its loop, although it does after three seconds without a datagram
(`transport_interface.c:190-191`): no result on what is written or on what cannot happen turns on it,
but those that a session can still end do.

## What the proofs found

- The output is always a prefix of the input exactly for sessions of at most 255 chunks
  (`WrapAround.PrefixIff`): with 256, a late copy of the first datagram is written again.
- The end of the sender's loop means a complete file exactly for sessions of at most 495
  chunks (`WrapAround.CompleteIff`). Number 255 is never freed, so the
  sender cannot end from 256 chunks on, until its count of free slots has run below zero
  and come around, which takes 225 chunks that were read with no slot to keep them.
- The link reads 524 bytes of datagrams that can be 528 long, and then may invert one byte.
  With such errors the output of all sessions of at most 255 chunks is a prefix of the input
  exactly for chunks of at most 510 bytes (`Wire.LinkPrefixIff`); the sender reads up to 512. `Truncation.ConfusableIff`
  says which payloads can be taken for another one: none of at most 510 bytes, those of 511 bytes
  whose checksum ends in CC 77 18, and those of 512 whose checksum is one of 512 given
  words. For each of them some run writes wrong bytes (`Wire.OneChunkIff`). Of a list of at most
  255 chunks no session writes a wrong byte exactly when no chunk can be taken for another
  one while all before it survive the cut (`LinkFiles.ExposedIff`).
- A datagram that was cut is accepted only if the checksum bytes it lost were 0
  (`Truncation.TruncatedDatagram`). A chunk for which they were not, and which cannot be taken
  for another one either, never gets past the link, with errors or without, in sessions of at
  most 255 chunks (`Stall.NeverPassed`); there are such chunks (`Stall.NothingWritten`).
- The sender can hang. With nothing under way, a session of at most 255 chunks can still end exactly
  when every chunk can pass the channel and the sender is not at an end of its means: it can read on
  or end, or it holds a packet stamped before second 59, or a fast retransmit is due whose answer
  lets it read on or end (`Completion.CanEndIff`, and `CanEndWellIff` for ending with the whole input
  written). Otherwise at most one useless fast retransmission is left (`Completion.HopelessForever`),
  and then no move changes anything, whatever the clock says (`Completion.DeadStays`).
  Two ways there, neither with a damaged datagram:
  - The acknowledgement of the first of 32 chunks is overtaken by all others. It sets `lastack`
    back to 1, the send test fails, and nothing is left to resend; the sender neither reads nor
    ends, with everything written (`DeadEnds.DeadAfterOldAck`). This takes an input that is
    not always readable, such as a pipe.
  - A chunk stamped in second 59 is dropped. The timer asks for a later second and never
    sends it again (`DeadEnds.DeadAfterLateLoss`). With a file whose chunks can pass this is the only
    way: with nothing under way, a session that can no longer end holds packets, all stamped in
    second 59 (`Completion.FileStuck`).
- A file of at most 255 blocks, read in blocks of 512 bytes, can be copied through the link, with
  errors or without, exactly when every block survives its cut (`LinkFiles.FileIff`), which
  can be computed from the file. Past the link every such file can be.
- A channel that repeats nothing does not save the 256th chunk: a copy that the timer sent, held up
  until then, is written again (`DeadEnds.LateCopyWritten`).
- The drain loop restarts at index 1, so slot 0 can be left holding the expected packet.
  `Receiver.DrainMissesIff` says exactly when, and `Receiver.MissedPacket` gives an
  arrival order after which the slot stays occupied by a packet already written.
- The repetition count of the sender is not reset when a new number is acknowledged, so
  repetitions of different numbers add up: fast retransmit fires when no number came three
  times (`EarlyRetransmit.FiresEarly`). `Sender.CountIff` says when the count is right.
- The documented jitter, delay plus or minus a draw, wraps when the draw exceeds the delay
  (`LinkTime.JitterAsDocumented`). It is always shorter than the one given, and it lengthens the
  delay for 51 of 101 draws (`LinkTime.AppliedRange`).
- The loss and error rates are documented in packets per hundred, but a percentage has 101 values.
  A rate of r drops r packets of 101, so the share is the documented one only for 0, and a
  rate of 100 still lets one of them through (`LinkModel.LossRate`).
- Because the microseconds of a date are not carried, `select` is given a second or more of them
  exactly when the date is ahead and its microseconds are that far beyond the clock's
  (`LinkTime.TimeoutParts`). It is never given a negative time.
- A file that ends inside a record is not refused: it is copied up to there, and if at least two
  bytes of the record are there the copy goes on with a whole record made of them, of zeros and
  of what was in memory (`CutRecords.CutCopy`).
- `packet_interface.h` promises that the header checksum is taken with tr at 0. It is exactly when
  tr is 0 (`Promises.HeaderChecksumIff`), and a header sealed as promised is
  accepted only then (`Promises.PromisedHeaderIff`).
- It promises that the length agrees with the bytes received. The decoder asks only whether more
  than 12 were (`Promises.SizeIgnored`): a bare header that announces 512 bytes is accepted
  (`Promises.BareHeaderAccepted`), a whole datagram under every size
  (`Promises.EverySizeAccepted`). The promise holds exactly for bytes whose header is
  rejected anyway (`Promises.SizePromiseIff`).
- It promises an error when the buffer is too small. The encoder of `projet1_Calmant_Outters/src`
  has no test; 528 bytes suffice exactly up to 512 bytes of payload
  (`Promises.BufferSufficesIff`). That of `src` tests, and refuses a buffer that would do
  exactly when there is no payload and room for the header only (`Promises.CapacityTestIff`).

## Model

| member | source | states |
|---|---|---|
| Transfer.OutputIsPrefix | projet1_Calmant_Outters/src/transport_interface.c:203-253 | in every run with at most 255 chunks, over a channel that drops, delays, reorders, repeats and damages, the output is exactly the chunks below the expected number, a prefix of the input |
| Transfer.EndMeansDelivered | projet1_Calmant_Outters/src/sender.c:210-214 | when the sender leaves its loop at the end of the input, the receiver has written the whole input |
| Transfer.NothingForgotten | projet1_Calmant_Outters/src/sender.c:193-205 | the sender's slots hold exactly the numbers from the highest acknowledgement to its own, each once with its chunk; all below is written; at most 16 unacknowledged; free count plus occupied slots is 31 |
| Transfer.NoChunkLost | projet1_Calmant_Outters/src/sender.c:211-237 | a chunk that is read always finds a free slot, even after an old acknowledgement moved `lastack` back |
| Transfer.ChunkDescribesState | projet1_Calmant_Outters/src/sender.c:215-230 | the packet of a chunk has the chunk's place as its number and the slots left free after it as its window |
| Transfer.AlwaysGood | projet1_Calmant_Outters/src/sender.c:145-269 | the joint invariant of sender, receiver and channel holds in every reachable state |
| Transfer.SenderTurnGood | projet1_Calmant_Outters/src/sender.c:145-244 | one turn of the sender's loop keeps the invariant |
| Transfer.ReceiverTurnGood | projet1_Calmant_Outters/src/transport_interface.c:193-286 | one datagram at the receiver keeps the invariant |
| Transfer.SendTestLeavesRoom | projet1_Calmant_Outters/src/sender.c:211 | passing the send test means at most 15 unacknowledged packets and a free slot |
| Transfer.IntervalOccupied | projet1_Calmant_Outters/src/sender.c:196-205 | the occupied slots are as many as the numbers in the interval they hold |
| Transfer.FreedInterval | projet1_Calmant_Outters/src/sender.c:196-205 | an acknowledgement, old or new, leaves exactly the interval above it |
| Transfer.DrainGood | projet1_Calmant_Outters/src/transport_interface.c:243-254 | the drain loop writes consecutive chunks only |
| Transfer.FastRetransmitsAsked | projet1_Calmant_Outters/src/sender.c:151-163 | fast retransmit resends exactly the chunk the last acknowledgement asks for, when three repetitions are counted and it is unacknowledged, and nothing otherwise |
| Transfer.TimerResendsOld | projet1_Calmant_Outters/src/sender.c:165-182 | the timer resends exactly the unacknowledged packets with an older time stamp: its other two tests never hold one back |
| Net.Projected | LINGI1341-linksim/link_sim.c:142-162 | over a channel that hands over or drops each datagram once, every run goes through the sessions of a run over bytes; what is under way was sent, and what was read is the first part of the input |
| Completion.CanEndIff | projet1_Calmant_Outters/src/sender.c:145-214 | over a channel that never repeats a datagram, a session of at most 255 chunks with nothing under way can still end if and only if every chunk can pass and the timer, the send test, or a due fast retransmit with a helpful answer can still do something |
| Completion.CanEndWellIff | projet1_Calmant_Outters/src/sender.c:145-214 | if what is written and held is right, it can end with the whole input written if and only if every chunk can pass as it is and the same holds of the state |
| Completion.AliveEnds | projet1_Calmant_Outters/src/sender.c:145-237 | whatever is under way, a session that can still do something can be completed, and rightly if every chunk can pass as it is |
| Completion.DeadStays | projet1_Calmant_Outters/src/sender.c:165-211 | with nothing under way, nothing for the timer, nothing for fast retransmit and the send test failing, every possible move leaves sender, receiver and channel exactly as they are |
| Completion.DeadForever | projet1_Calmant_Outters/src/sender.c:165-211 | so does every continuation |
| Completion.FileStuck | projet1_Calmant_Outters/src/sender.c:192-214 | with a file, which is always readable, and chunks that can pass, a session with nothing under way that can no longer end holds packets, all of them stamped in second 59 |
| Completion.HopelessForever | projet1_Calmant_Outters/src/sender.c:151-163 | a last fast retransmission whose answer does not let the sender read on or end leads nowhere but to a dead state, whatever is lost or damaged |
| Recovery.Recover | projet1_Calmant_Outters/src/sender.c:165-182 | from any state with a buffered packet stamped before second 59 the transfer can be completed, by resending, repeated acknowledgements and fast retransmit only |
| Recovery.CatchUp | projet1_Calmant_Outters/src/sender.c:151-163 | for a sender that is up to date, enough copies of one packet under way bring the repeated acknowledgements that have every missing packet resent, until the sender ends or reads on |
| DeadEnds.DeadAfterOldAck | projet1_Calmant_Outters/src/sender.c:193-211 | a run with nothing lost, damaged or repeated in which all 32 chunks are written and the sender is dead, because the first acknowledgement comes last |
| DeadEnds.DeadAfterLateLoss | projet1_Calmant_Outters/src/sender.c:169-182 | over every channel, for every chunk, file or not, a run with one loss after which the sender is dead: the chunk was stamped in second 59 |
| DeadEnds.LateCopyWritten | projet1_Calmant_Outters/src/transport_interface.c:230-234 | a run with 256 chunks, nothing lost, damaged or repeated by the channel, whose output is no prefix of the input |
| Transfer.AlwaysBuffered | projet1_Calmant_Outters/src/sender.c:229-237 | whatever is buffered has been sent |
| WrapAround.PrefixIff | projet1_Calmant_Outters/src/transport_interface.c:203-231 | the prefix property holds for all sessions of at most n chunks if and only if n is at most 255 |
| WrapAround.OldDatagramWritten | projet1_Calmant_Outters/src/transport_interface.c:230-234 | a run with 256 chunks whose output is longer than its input |
| WrapAround.CompleteIff | projet1_Calmant_Outters/src/sender.c:210-237 | ending means complete for all sessions of at most n chunks if and only if n is at most 495 |
| WrapAround.NoEndUntil496 | projet1_Calmant_Outters/src/sender.c:196-214 | with 256 to 495 chunks the sender never ends, because number 255 is never freed |
| WrapAround.EndsIncomplete | projet1_Calmant_Outters/src/sender.c:211-237 | a run with 496 chunks that ends with 240 of them written |
| WrapAround.LockReachable | projet1_Calmant_Outters/src/sender.c:185-244 | sending, delivering and acknowledging k chunks in turn reaches the state with k chunks written and nothing buffered |
| Wire.WireRunIsRun | projet1_Calmant_Outters/src/transport_interface.c:195-199 | every run over bytes, with encoding, damage, cutting and decoding, is a run of the packet-level system, unless the link makes errors and a chunk can be taken for another one |
| Wire.WireSafety | projet1_Calmant_Outters/src/sender.c:184-206 | prefix safety up to 255 chunks and completeness up to 495 hold over bytes, past the link or through it, under that condition |
| Wire.LinkPrefixIff | LINGI1341-linksim/link_sim.c:180-184 | through a link that cuts and then inverts, the output is a prefix of the input in all sessions of at most 255 chunks, each of at most n bytes, if and only if n is at most 510 |
| Wire.OneChunkIff | LINGI1341-linksim/link_sim.c:230-233 | for one chunk: exactly when no single inversion makes it pass for another one |
| Wire.ConfusedRun | projet1_Calmant_Outters/src/transport_interface.c:230-234 | for every other chunk, a run that writes something else |
| Shadow.Shadowed | projet1_Calmant_Outters/src/transport_interface.c:203-263 | every run over bytes, confused payloads included, has a run of the packet-level system that differs in the payloads at the receiver only |
| Shadow.AlwaysNumbersGood | projet1_Calmant_Outters/src/sender.c:193-237 | over every channel, up to 255 chunks, the sender keeps its interval of numbers, the receiver expects no number beyond the chunks read, and the end means that it has passed them all |
| Stall.AlwaysWrote | projet1_Calmant_Outters/src/transport_interface.c:230-254 | over every channel, up to 255 chunks, the output is one piece for each chunk below the expected number, each one that may be taken for its chunk |
| Stall.NeverPassed | LINGI1341-linksim/link_sim.c:230-233 | over every channel, the receiver of a session of at most 255 chunks never gets past a chunk that cannot pass (through the link: one that neither survives its cut nor, with errors, can be taken for another one), and the sender never ends; what is written is right if no chunk before it can be taken for another one |
| Stall.NothingWritten | LINGI1341-linksim/link_sim.c:230-233 | a full chunk with which no session of at most 255 chunks that starts with it writes anything or ends, on a link with errors or without |
| LinkFiles.ExposedIff | LINGI1341-linksim/link_sim.c:180-184 | through a link with errors, all sessions that read these at most 255 chunks, as far as they get, write only right bytes if and only if no chunk can be taken for another one while all before it survive, whether the link may repeat datagrams or not |
| LinkFiles.FileIff | projet1_Calmant_Outters/src/sender.c:210-214 | over a channel that never repeats a datagram, a file of at most 255 blocks of 512 bytes can be sent to the end of the loop if and only if every block can pass, and copied if and only if every block can pass as it is (through the link: survives its cut) |
| LinkFiles.ExposedRun | projet1_Calmant_Outters/src/transport_interface.c:230-234 | for an exposed list, a run that writes wrong bytes, without a repeated datagram |
| Wire.ArrivesAs | projet1_Calmant_Outters/src/transport_interface.c:195-199 | a DATA datagram in the 528-byte buffer, damaged, or cut by the link and then damaged, is rejected or decodes as sent but for a payload that passes for the one sent |
| Wire.DataArrives | projet1_Calmant_Outters/src/transport_interface.c:195-199 | a DATA datagram in the 528-byte buffer, damaged, or cut by the link and then damaged, decodes as sent or not at all, unless its payload can be taken for another one |
| Wire.AckArrives | projet1_Calmant_Outters/src/sender.c:186-193 | a padded acknowledgement with one byte replaced decodes as sent or not at all |
| Wire.LinkDamages | LINGI1341-linksim/link_sim.c:180-184 | what the link does to a packet it passes on: the cut, then the inversion of at most one byte |
| Receiver.AlwaysBalanced | projet1_Calmant_Outters/src/transport_interface.c:203-253 | for every sequence of packets, wrapping or not, window plus occupied slots is 31 |
| Receiver.BufferStores | projet1_Calmant_Outters/src/transport_interface.c:204-216 | a packet inside the window goes to the first free slot unless a slot before it holds the same number; a free slot exists |
| Receiver.UnexpectedIff | projet1_Calmant_Outters/src/transport_interface.c:203-227 | a DATA packet other than the expected one is answered in any case, and changes something if and only if its number is ahead by less than the free slots and no copy lies before the first free slot; then it takes that slot; an old or a far one changes nothing |
| Receiver.NotData | projet1_Calmant_Outters/src/transport_interface.c:203-286 | a rejected datagram changes nothing and is answered; a packet other than DATA changes nothing and is not |
| Receiver.ReplyDescribesState | projet1_Calmant_Outters/src/transport_interface.c:218-263 | every reply carries the next number expected and the number of free slots; only well-formed packets other than DATA get none |
| Receiver.DrainBalanced | projet1_Calmant_Outters/src/transport_interface.c:243-254 | the drain loop keeps the balance and leaves no slot of index 1 or more holding the expected number |
| Receiver.DrainToGap | projet1_Calmant_Outters/src/transport_interface.c:243-254 | the loop takes exactly the numbers up to the first gap among the slots of index 1 or more |
| Receiver.AcceptReaches | projet1_Calmant_Outters/src/transport_interface.c:230-254 | the number expected after an accepted packet, from slot 0 and the first gap of the others |
| Receiver.DrainMissesIff | projet1_Calmant_Outters/src/transport_interface.c:243-253 | slot 0 is left holding the expected number if and only if it held the first gap of the other slots, past the next number |
| Receiver.MissedPacket | projet1_Calmant_Outters/src/transport_interface.c:243-253 | packets 2, 1, 0 in that order leave packet 2 buffered and unwritten, and after it was sent again the window stays at 30 |
| ReceiverLoop.Loop.constructor | projet1_Calmant_Outters/src/transport_interface.c:155-171 | the receiver starts with number 0, window 31 and empty slots |
| ReceiverLoop.Loop.Store | projet1_Calmant_Outters/src/transport_interface.c:204-216 | the slot search, in place, is `Receiver.Buffer` |
| ReceiverLoop.Loop.Drain | projet1_Calmant_Outters/src/transport_interface.c:243-254 | the drain loop with its index reset, in place, terminates and is `Receiver.DrainFrom` |
| ReceiverLoop.Loop.Handle | projet1_Calmant_Outters/src/transport_interface.c:203-286 | one turn of the receiver is `Receiver.Receive` |
| ReceiverLoop.Loop.HandleDatagram | projet1_Calmant_Outters/src/transport_interface.c:195-286 | the same from the bytes in the buffer, with the 512-byte reply and the buffer cleared: 528 bytes until the first reply, 512 from then on |
| ReceiverLoop.ThroughLink | projet1_Calmant_Outters/src/transport_interface.c:195-225 | when everything comes through the link, each datagram lands in a buffer whose bytes from 524 on are 0 |
| ReceiverLoop.Loop.Reply | projet1_Calmant_Outters/src/transport_interface.c:255-263 | the reply is the encoded acknowledgement followed by zeros up to 512 |
| Sender.SelectBuffered | projet1_Calmant_Outters/src/sender.c:151-182 | a retransmission sends exactly the buffered packets its rule asks for |
| Sender.SelectInOrder | projet1_Calmant_Outters/src/sender.c:151-182 | what the first slots hold is resent before what the others hold |
| Sender.SlotsInOrder | projet1_Calmant_Outters/src/sender.c:151-182 | of two packets to resend the one in the lower slot goes first, and each slot gives one |
| Sender.TimerIff | projet1_Calmant_Outters/src/sender.c:165-182 | in any state, the timer sends a packet if and only if it is buffered with an older stamp and a number not beyond the sender's, and fewer than 31 slots count as free |
| Sender.FastIff | projet1_Calmant_Outters/src/sender.c:151-163 | in any state, fast retransmit sends a packet if and only if it is buffered under the number last acknowledged and the count is at least 3; the count starts again if and only if something is sent |
| Sender.AckIff | projet1_Calmant_Outters/src/sender.c:192-206 | only an acknowledgement that decodes does anything; it clears exactly the slots of lower numbers, none if it is ahead of all that was sent, and the clearing and the count of free slots agree |
| Sender.ChunkKept | projet1_Calmant_Outters/src/sender.c:215-237 | the packet of a chunk, the first free slot and the next number it takes, and what happens without a free slot |
| Sender.TurnIff | projet1_Calmant_Outters/src/sender.c:147-244 | exactly when a turn reads, sends and ends, and in which order its packets leave |
| Sender.ResentBuffered | projet1_Calmant_Outters/src/sender.c:151-182 | a turn resends nothing that is not buffered |
| Sender.CountIsRepetitions | projet1_Calmant_Outters/src/sender.c:193-195 | the repetition count adds up repetitions of all numbers |
| Sender.CountIff | projet1_Calmant_Outters/src/sender.c:193-195 | from 0, the count is that of the repetitions of the number asked for if and only if no other number was repeated |
| EarlyRetransmit.FiresEarly | projet1_Calmant_Outters/src/sender.c:151-163 | a run in which three numbers are acknowledged twice each and fast retransmit fires |
| SenderLoop.Loop.FastRetransmit | projet1_Calmant_Outters/src/sender.c:151-163 | the fast retransmission loop and its reset of the count |
| SenderLoop.Loop.Retransmit | projet1_Calmant_Outters/src/sender.c:165-182 | the timer loop |
| SenderLoop.Loop.HandleAck | projet1_Calmant_Outters/src/sender.c:192-206 | the loop that frees acknowledged slots, in place, with its count |
| SenderLoop.Loop.SendChunk | projet1_Calmant_Outters/src/sender.c:215-242 | a chunk takes the first free slot; without one it is sent and not kept |
| SenderLoop.Loop.Turn | projet1_Calmant_Outters/src/sender.c:147-244 | one turn of the loop: state, packets sent and whether it ends |
| Crc32.BitStepInjective | projet1_Calmant_Outters/src/packet_interface.c:163 | the step of the CRC register is injective |
| Crc32.UpdateInjectiveInRegister | projet1_Calmant_Outters/src/packet_interface.c:163 | over any message, different registers stay different |
| Crc32.OneByteChangesChecksum | projet1_Calmant_Outters/src/packet_interface.c:163-168 | replacing one byte of a message of any length changes its CRC-32 |
| CrcErrors.UpdateDifference | projet1_Calmant_Outters/src/packet_interface.c:182 | a difference in the register is carried through a message in a way that does not depend on its bytes |
| CrcErrors.InversionDifference | projet1_Calmant_Outters/src/packet_interface.c:182 | inverting a byte changes the checksum by a word that depends only on how many bytes follow |
| CrcEchoes.EchoTopByte | projet1_Calmant_Outters/src/packet_interface.c:182 | over 511 places that word has a top byte of 0 at one place only |
| Codec.RoundTrip | projet1_Calmant_Outters/src/packet_interface.c:126-234 | encoding then decoding answers the verdict on the fields and for acceptable packets returns every field and the payload, whatever follows in the buffer |
| Codec.Reencode | projet1_Calmant_Outters/src/packet_interface.c:126-234 | re-encoding an accepted datagram reproduces every byte the decoder examined |
| Codec.AcceptedFieldsDetermineBytes | projet1_Calmant_Outters/src/packet_interface.c:126-191 | accepted datagrams with equal fields agree up to trailing padding |
| Codec.HeaderRoundTrip | projet1_Calmant_Outters/src/packet_interface.c:133-170 | the header of an encoded packet reads back field by field and passes exactly for acceptable packets |
| Codec.HeaderCodes | projet1_Calmant_Outters/src/packet_interface.c:136-168 | for any bytes, exactly when each code is answered: tr on anything but DATA, a first byte below 32, a DATA size outside 1 to 512, and for fields in order a wrong checksum |
| Codec.DecodeCodes | projet1_Calmant_Outters/src/packet_interface.c:173-190 | what comes after the header can only lead to the code for checksums, exactly when more than 12 bytes arrived and the second checksum is wrong |
| Codec.RefusedPacket | projet1_Calmant_Outters/src/packet_interface.c:133-159 | for each kind of fields that are refused, the code and the packet left behind: without tr, and with the length's bytes exchanged unless only the size was wrong |
| Codec.PayloadSealedIff | projet1_Calmant_Outters/src/packet_interface.c:180-188 | the second checksum matches exactly when the bytes after the header are the payload and its CRC-32 |
| Codec.BufferFrame | projet1_Calmant_Outters/src/packet_interface.c:126-191 | status and packet do not depend on what lies behind the bytes the decoder reads |
| Promises.HeaderChecksumIff | projet1_Calmant_Outters/src/packet_interface.h:68-69 | the checksum taken is the promised one, with tr at 0, if and only if tr is 0 |
| Promises.PromisedHeaderIff | projet1_Calmant_Outters/src/packet_interface.h:68-69 | a header sealed as promised is accepted if and only if its fields are acceptable and tr is 0 |
| Promises.SizeIgnored | projet1_Calmant_Outters/src/packet_interface.c:173 | the decoder asks of the received size only whether it is more than 12 |
| Promises.SizePromiseIff | projet1_Calmant_Outters/src/packet_interface.h:73-74 | acceptance implies the announced size if and only if the header is rejected |
| Promises.BareHeaderAccepted | projet1_Calmant_Outters/src/packet_interface.h:73-74 | twelve bytes that announce a payload are accepted |
| Promises.EverySizeAccepted | projet1_Calmant_Outters/src/packet_interface.h:73-74 | a whole datagram is accepted under every size above 12, which agrees with its length field only if it is the number of bytes encoded |
| Promises.BufferSufficesIff | projet1_Calmant_Outters/src/packet_interface.h:93-96 | without the promised test, 528 bytes suffice if and only if the payload has at most 512 |
| Promises.CapacityTestIff | src/packet_interface.c:221-225 | the test of the other encoder agrees with the size needed if and only if there is a payload or the capacity is not between the two |
| Corruption.OneByteRejected | projet1_Calmant_Outters/src/packet_interface.c:126-191 | a datagram with any one byte replaced is rejected, and nothing beyond it is read; the code is the one for checksums unless the damage is in flags or length and breaks a rule for them |
| Corruption.DamagedPacket | projet1_Calmant_Outters/src/packet_interface.c:133-190 | what a datagram with a byte from the eighth on replaced leaves in the packet |
| Golden.SampleDatagram | progress_inginious.txt:13-14 | the encoding of the packet recorded there is the bytes recorded there |
| Golden.AckBytes | projet1_Calmant_Outters/src/transport_interface.c:218-225 | byte by byte, every reply: 128 plus the free slots, the number expected, zeros, the checksum, zeros |
| Corruption.PaddedAckDecodes | projet1_Calmant_Outters/src/transport_interface.c:255-263 | the padded acknowledgement decodes as itself, because the CRC-32 of nothing is 0 |
| Corruption.PaddedAckOneByte | projet1_Calmant_Outters/src/packet_interface.c:163-189 | with one byte replaced it is rejected if and only if the byte is among the first 16, with the code for checksums exactly when its fields stay in order, and otherwise decodes as the same acknowledgement |
| Truncation.TruncatedDatagram | LINGI1341-linksim/link_sim.c:230-233 | a datagram cut at the limit is accepted if and only if the checksum bytes it lost were 0 |
| Truncation.SurvivesIff | LINGI1341-linksim/link_sim.c:230-233 | which checksum bytes the cut at 524 loses |
| Truncation.OneOfTwoLost | LINGI1341-linksim/link_sim.c:230-233 | of two full payloads that differ in one byte at most one survives the cut |
| Truncation.CutAndInverted | LINGI1341-linksim/link_sim.c:180-184 | a cut datagram with byte i inverted is rejected if i is outside the payload, and else accepted if and only if the damaged payload has what is left as its checksum |
| Truncation.ConfusableIff | LINGI1341-linksim/link_sim.c:180-184 | exactly which payloads some single inversion turns into an accepted other one |
| PacketInterface.Pkt.Encode | projet1_Calmant_Outters/src/packet_interface.c:194-234 | the buffer receives exactly the encoding and is unchanged after it |
| PacketInterface.Pkt.EncodeBounded | src/packet_interface.c:219-264 | it refuses if and only if the capacity is below 16 plus the length, and never writes past the capacity |
| PacketInterface.Pkt.Decode | projet1_Calmant_Outters/src/packet_interface.c:126-191 | the status and the whole packet left behind, on every path |
| PacketInterface.Pkt.SetPayload | projet1_Calmant_Outters/src/packet_interface.c:107-118 | the payload is a copy and the length is its size |
| MinQueue.RootMinimal | LINGI1341-linksim/min_queue.c:155-160 | in this shape the element at index 0 is minimal for any strict weak order |
| MinQueue.Queue.Drain | LINGI1341-linksim/min_queue.c:132-160 | taking what Peek shows until the queue is empty yields a sorted permutation of the contents |
| MinQueue.UpStep | LINGI1341-linksim/min_queue.c:104-110 | moving a parent down into the hole keeps the heap but for the hole |
| MinQueue.DownStep | LINGI1341-linksim/min_queue.c:143-152 | swapping with the least child keeps the heap but for the new place |
| MinQueue.Queue.constructor | LINGI1341-linksim/min_queue.c:59-73 | a new queue is empty with room for twenty |
| MinQueue.Queue.Push | LINGI1341-linksim/min_queue.c:82-114 | heap kept, contents plus one occurrence of the element, growth included |
| MinQueue.Queue.HasChild | LINGI1341-linksim/min_queue.c:117-130 | the least child, or 0 exactly when the root is in place or there is no child |
| MinQueue.Queue.Pop | LINGI1341-linksim/min_queue.c:132-153 | heap kept, contents minus exactly the element shown by Peek |
| MinQueue.Queue.Peek | LINGI1341-linksim/min_queue.c:155-160 | nothing on an empty queue, else a queued element that none comes before |
| LinkTime.ExpiryKeepsOrder | LINGI1341-linksim/link_sim.c:207-209 | equal delays keep the order of arrival although microseconds are not carried |
| LinkTime.DeadlineExpires | LINGI1341-linksim/link_sim.c:97-103 | a packet past its true deadline counts as expired |
| LinkTime.ExpiryNotTooEarly | LINGI1341-linksim/link_sim.c:207-209 | nothing expires before the clock passed its arrival or more than 998,999 microseconds early |
| LinkTime.EarlyBoundIsReached | LINGI1341-linksim/link_sim.c:207-209 | a packet that leaves 998,999 microseconds early |
| LinkTime.ExpiresEarlyIff | LINGI1341-linksim/link_sim.c:97-103 | exactly when a packet expires at or before its true deadline |
| LinkTime.JitterAsDocumented | LINGI1341-linksim/link_sim.c:188-193 | the applied delay is the documented one if and only if it neither wraps nor is capped |
| LinkTime.AppliedIs | LINGI1341-linksim/link_sim.c:188-193 | the delay applied for every delay, jitter and draw: whole tens of seconds off, and 7.296 s too much or too little where sum or difference leaves 32 bits |
| LinkTime.AppliedRange | LINGI1341-linksim/link_sim.c:188-193 | with a jitter no longer than the delay and below the cap, exactly the delays less than the jitter away occur: the given one or longer for coins from 50 to 100, the given one or shorter for 0 to 49 |
| LinkTime.DiffExactIff | LINGI1341-linksim/link_sim.c:106-117 | the difference is exact if and only if no borrow into second 0 was skipped |
| LinkTime.TimeoutIff | LINGI1341-linksim/link_sim.c:307-326 | the timeout is positive and is the true remaining time or 1 ms, with the exact condition, so never more than the longer of them |
| LinkTime.TimeoutParts | LINGI1341-linksim/link_sim.c:106-117 | seconds and microseconds of the timeout, with borrow, without and where it is skipped; neither is negative, and the microseconds are below a second if and only if the date is not ahead or its microseconds are less than a second beyond the clock's |
| LinkModel.Conservation | LINGI1341-linksim/link_sim.c:173-223 | in every run, what the link was given is what it lost, still holds and sent |
| LinkModel.LossRate | LINGI1341-linksim/link_sim.c:176-178 | of the 101 values of a percentage the rate says how many drop a packet, low ones first, and a value that drops does so at every higher rate; the documented share is met only by 0 |
| LinkModel.ErrorRate | LINGI1341-linksim/link_sim.c:180-184 | the same of damage to packets that are not dropped; a dropped one is not damaged |
| LinkModel.DamagedByte | LINGI1341-linksim/link_sim.c:181-183 | damage inverts exactly one byte, the one at the draw modulo the length; without it nothing changes |
| LinkModel.Fate | LINGI1341-linksim/link_sim.c:173-223 | a packet is lost if and only if it is dropped or its immediate write fails, sent if and only if there is no delay and the write succeeds, and else queued with a date its delay away |
| LinkModel.AlwaysImmediate | LINGI1341-linksim/link_sim.c:215-222 | without delay, in every run, nothing is ever queued, and if nothing was lost all was sent in order |
| LinkModel.NothingLost | LINGI1341-linksim/link_sim.c:173-223 | with a delay and a loss rate of 0, in every run, nothing is lost |
| LinkModel.ArrivalOrder | LINGI1341-linksim/link_sim.c:186-214 | without jitter and with advancing clocks, packets leave in order of arrival |
| LinkModel.ReleasedIsPrefix | LINGI1341-linksim/link_sim.c:142-162 | what an unstable heap releases in date order from strictly sorted contents is their first part |
| LinkModel.ReleasedOnTime | LINGI1341-linksim/link_sim.c:142-162 | in every run, what is released was queued, after its arrival, and at most 998,999 microseconds early |
| LinkSim.LinkSim.DeliverDelayed | LINGI1341-linksim/link_sim.c:142-162 | sends expired packets in date order until none is left or a write fails, the unsent packet then still queued |
| LinkSim.LinkSim.SimulateLink | LINGI1341-linksim/link_sim.c:173-223 | drop, damage in place, delay or forward: one step of the link model |
| LinkSim.LinkSim.GetQueueTimeout | LINGI1341-linksim/link_sim.c:307-326 | nothing on an empty queue, else the timeout of the earliest date, positive and at most the remaining time or 1 ms |
| LinkSim.LinkSim.UpdateTime | LINGI1341-linksim/link_sim.c:285-302 | the cached clock moves and nothing else |
| RecordFile.ReadBack | prerequis/format_struct/record.c:99-174 | reading a written record gives it back with its byte count and ends right after it |
| RecordFile.ReadAllBack | prerequis/format_struct/database.c:43-45 | a list of written records reads back as the same list, with the count and end of each |
| RecordFile.WrittenAllInjective | prerequis/format_struct/record.c:99-136 | two lists of records with the same bytes are the same list |
| RecordFile.CopyIff | prerequis/format_struct/database.c:43-45 | the copy equals the file if and only if the file is a list of written records |
| RecordGolden.OutputCopied | prerequis/format_struct/database.c:37-45 | the 48 bytes of the file `output` are read as its four records, with counts and positions, and copied unchanged |
| CutRecords.CutRead | prerequis/format_struct/record.c:138-174 | reading a record that the end of the file cuts, at every place: fields, payload, identifier, bytes counted and position |
| CutRecords.CutCopy | prerequis/format_struct/database.c:43-45 | the copy of a list of records followed by a cut one |
| RecordFile.Write | prerequis/format_struct/record.c:99-136 | the bytes appended and their count |
| RecordFile.ReadRecord | prerequis/format_struct/record.c:138-174 | record, count and position on any file, truncated or not |
| RecordFile.Copy | prerequis/format_struct/database.c:43-45 | the copy loop terminates and computes the copy |

## Left out

- Sockets, polling, address lookup, files and command lines: parameters or byte sequences instead.
- src/sender.c, src/transport_interface.c and src/receiver.c: unfinished earlier versions of the modelled loops.
- That every session can be completed is false of the code, by `DeadEnds.DeadAfterOldAck` and `DeadEnds.DeadAfterLateLoss`. The condition of `Completion.CanEndIff` is exact with nothing under way; with datagrams under way `Completion.AliveEnds` gives a sufficient one.
- When retransmission happens in real time: time stamps are seconds within a minute; the timer's rule itself is modelled.
- The receiver's three-second limit without a datagram: `Net` and `Transfer` let it go on for ever.
- The zero-length packet of sender.c:246-268: it needs an input other than standard input that is not readable, and the decoder rejects it by its length.
- Read and receive errors, failed allocations and failed writes to the output file: they end the loops or lose memory. Writing the missing payload of a DATA packet that is a bare header is such a failure; no sender of the model sends one.
- Reads past the received bytes: `Codec.Readable` says which bytes the decoder reads, and callers must hold them.
- The stored crc1 and crc2 fields of a packet: nothing reads them after decoding.
- Address matching in `process_incoming_pkt` and relaying in the direction the link does not simulate.
- SenderLoop.Loop.Turn: takes acknowledgements already decoded and returns packets before encoding; `Wire` connects both to bytes on values.
- Transfer.EndMeansDelivered: stated for 255 chunks; `WrapAround.CompleteIff` extends it to its exact limit.
- Stale payload pointers of a reused record: they are never read, and the model's records do not hold them.
- The identifier of a record as a number: it is the four bytes that are written and read.
- Sessions of which some datagrams pass the link and others do not: bytes of a longer one may then lie behind a cut one.
