# A verified model of the darwin-gpib stack

darwin-gpib puts USB-GPIB adapters on macOS: a client library talks to a broker agent, the
broker to a driver, the driver's board state machine to a USB transport, and the transport
to the adapter. Nearly everything that can go wrong there goes wrong in protocol loops that
have to be right for every reply of a device. This project models those loops and state
machines in Dafny and proves what they do for all inputs, all replies and all runs.

How the outside is modelled:

- `Bus` gives every instrument, and the board itself, the talker, listener, remote/local,
  device clear and trigger functions of IEEE 488.1-1987 (sections 2.5, 2.6, 2.8, 2.10, 2.11),
  with primary or extended addressing and the standard's optional unaddressing rules. Theorems
  about addressing hold from every state of every node.
- `Link` is the transport interface as the board sees it: a successful data or command call has
  delivered all its bytes, a failed one an arbitrary prefix; results come from an arbitrary
  oracle. `EndToEnd` makes that good for the firmware path of the KUSB-488B transport, down to
  one statement about a split message (`EndToEnd.SendSplit`). Soft reset, interface clear and
  REN calls are taken to act on the wire as a whole if they succeed and not at all if they
  fail; that part of the interface is assumed.
- `Usb` answers every USB request from a finite script of arbitrary replies, after which the
  device is unplugged, and says of every byte, for the proofs only, whether it came with END on
  the bus. `Trace` folds the log of traffic into what the adapter makes of it: the firmware's
  transfer engine and the NEC7210 core. The core's RFD holdoff is kept twice: as the transport
  records it, after every received byte, and as the chip has it, which is programmed to hold off
  on END alone and is freed only by a request that it accepted. The transport's methods are
  proved against those folds. Command bytes count as sent while the core drives commands and is
  neither talker nor listener, data bytes only as talker and as listener.
- `Causes` says what each failing result goes back to on the log and the clock: a refused arm
  request, a bad bulk transfer, a status that reports an error, glitches for too long, a deadline
  that has passed or a budget of polls that is used up, a register bit that did not show. A
  transfer succeeds if and only if none of its causes applies, except that a read through the
  registers also succeeds with the bytes it has; and the code of a failure is that of its cause.
- `Broker` is a step system: client events, one queue per board, clean-ups of departed
  clients, and the driver's descriptor tables. A theorem over runs is over every interleaving
  of these steps; one job of a queue is one step.

Modules, by source file: `Board` and `Handles` (`driver/core/GPIBBoard.cpp`), `Kusb`, `BusLines` and
`Endpoints` (`driver/devices/kusb_488b/KUSB488BTransport.cpp`), `NiWire`
(`driver/devices/ni_usb/NIUSBTransport.cpp`), `RegisterRuns` and `EndToEnd` (runs and
compositions of these), `Loader` (`KUSB488BLoader.cpp` and its
user-space twin), `FirmwareHeader` (the two firmware tools), `Client` (`libgpib`), `Broker`
(`gpibd/gpibd.c`), `Utf8` (`driver/utils/DriverUtils.cpp`), `SearchPath` (with `Lines`, the
Open GPIB app's installer).

Where the code does not keep a promise, the model keeps the code and the theorem says exactly
when the promise holds:

- A reap is not ordered after requests its session still has in the queue. Ownership
  conservation (`Broker.RunKeeps`) therefore assumes a drained queue when a clean-up starts.
  That is needed: from every state in which a departing client has a full-size open queued for a
  board with a free slot, some continuation strands the handle (`Broker.UndrainedStrands`;
  `Broker.OvertakenOpenStrands` is one such run from the start). Since a job is one step here, a
  session that goes away while its open is under way, taken from the queue but not yet recorded,
  is outside the model; the drained queue is to be read as including the job in progress.
- One broker request keeps all descriptors accounted for if and only if `Broker.Accounted`
  holds of it: an open with room for the whole reply, a close of the client's own handle.
- The register path takes a holdoff off its record whether or not the adapter accepted the
  finish-handshake, and never records that of a byte whose reply was lost. A command byte meets a
  chip that still holds off exactly if one or the other has happened to a byte that came with END
  and nothing has freed the chip since (`Trace.ClampedCommand`, `Trace.CleanExactly`), as
  `RegisterRuns.RefusedFinish` and `RegisterRuns.LostByte` show.
- A read that ends on its count, without END, is recorded as a holdoff that the chip does not
  have; and a bring-up that breaks off after its chip reset leaves the record of one that the
  chip no longer has. A finish-handshake goes to a chip that owes none exactly if no byte since
  the last one came with END, or a reset came after it (`Trace.SpuriousFinish`,
  `Trace.HonestExactly`), as `RegisterRuns.CountedRead` and `RegisterRuns.BrokenBringUp` show.
- EOI armed for a byte that is then refused stays latched, and the next register write starts
  with it (`Kusb.Transport.WriteDataViaRegisters`, `RegisterRuns.LeftoverEoi`).
- A serial poll sends no UNT, so a primary-only poll leaves an extended instrument talking that
  was talking on the same primary address: exactly then two talk (`Bus.PollCallRoles`,
  `Bus.StaleTalkerExists`).
- The trim of an NI read works on what was copied and divides by the last block's size;
  `NiWire.ReadDecodes` gives the exact condition under which the message comes out right, and
  `NiWire.MixedBlocksAreCut` and `NiWire.ExactRequestIsCut` responses for which it does not.
- `remoteEnable` ignores the transport's answer: `Board.GpibBoard.RemoteEnable` says exactly
  when line and record agree.
- EOS modes are stored in eight bits that cannot hold them (`Board.EosModeIsLost`), and passed
  to the transport in eight bits that cannot hold them either (`Kusb.EosNeverAsked`), so there is
  no termination on an EOS character.
- Primary address 31 is accepted although its listen address is UNL and its talk address UNT.
  Nobody answers to it; `Bus.WriteCallRoles` and `Bus.ReadCallRoles` cover it, with all the
  secondary addresses up to 31.
- A serial poll whose addressing call fails sends no teardown: `Board.PollModeAfterFailure`
  says exactly when serial-poll mode is left behind, `Board.QuietAfterFailure` exactly when the
  bus is quiet.
- The user-space downloader, unlike the driver, leaves the CPU in reset when the main firmware
  fails (`Loader.TwinLeavesCpuHeld`), although its documentation calls it an exact replica.
- Uninstalling does not restore a search path that was blank, untrimmed or the spelled-out
  default, or held the directory already (`SearchPath.RemoveAfterExtend`,
  `SearchPath.BecomesUnset`, `SearchPath.UserEntryIsLost`), nor an rc file whose own text holds
  the end marker (`SearchPath.UninstallAfterInstall`, `SearchPath.StrayEndMarkerIsLost`).
- The UTF-8 conversion does not combine surrogate pairs (`Utf8.WellFormedIff`).

## Model

| member | source | states |
|---|---|---|
| Bytes.TagSplit | libgpib/src/ib_traditional.c:168-180 | a message cut in two, the first part sent without EOI, is the same bus stream exactly unless the last part is empty |
| Bytes.Bytes32RoundTrip | driver/devices/kusb_488b/KUSB488BTransport.cpp:535-549 | a 32-bit number goes out in four bytes, the lowest first, and is read back from them |
| Client.IbWrt | libgpib/src/ib_traditional.c:158-192 | over 4080 bytes is refused with EARG and nothing sent; otherwise one write transfer, in which the target alone receives a prefix of the message, all of it on success, with EOI on the last byte as the descriptor's EOT setting says |
| Client.SendSplit | libgpib/src/ib_traditional.c:168-180 | a message split over successful calls, EOT off for all but the last, reaches the listener as the ideal single message; it fails only offline, on an oversized piece or after a failed transport call |
| Bus.WriteCallRoles | driver/core/GPIBBoard.cpp:232-257 | from any state and for every address up to 31: exactly the nodes answering to the target listen after the write call and exactly those answering to the board talk |
| Bus.ReadCallRoles | driver/core/GPIBBoard.cpp:259-275 | the mirror image for the read call, for every address up to 31 |
| Bus.PollCallRoles | driver/core/GPIBBoard.cpp:447-464 | after a serial-poll call, sent without an UNT first, serial-poll mode is on, the board listens, and exactly the polled instrument talks, together with an extended talker left over on the same primary address of a primary-only poll |
| Bus.StaleTalkerExists | driver/core/GPIBBoard.cpp:447-464 | a concrete instrument that a poll of another address leaves talking |
| Bus.PollEndClears | driver/core/GPIBBoard.cpp:466-478 | SPD, UNT turns serial-poll mode off and leaves no talker, from any state |
| Bus.InterruptedPollMode | driver/core/GPIBBoard.cpp:447-464 | a prefix of the poll call turns serial-poll mode on exactly if it is the whole call |
| Bus.InterruptedPollTalkers | driver/core/GPIBBoard.cpp:447-464 | after any prefix of the poll call, exactly who talks |
| Bus.NoActionCommand | driver/core/GPIBBoard.cpp:232-275 | bytes other than DCL, SDC and GET clear and trigger nobody |
| Bus.NoPollEnable | driver/core/GPIBBoard.cpp:447-464 | bytes other than SPE and SPD leave serial-poll mode as it is |
| Bus.OthersUntouched | driver/core/GPIBBoard.cpp:384-406 | any delivered prefix of an addressed command leaves the device state of every instrument not addressed unchanged |
| Bus.TargetActs | driver/core/GPIBBoard.cpp:494-540 | the whole addressed command makes the addressed instrument act exactly once |
| Bus.Aloof | driver/core/GPIBBoard.cpp:384-406 | a node neither called nor listening ignores addressed commands |
| Board.WriteCallOnWire | driver/core/GPIBBoard.cpp:232-257 | on the whole bus: the board talks, and the listeners are those that answer to the target |
| Board.ReadCallOnWire | driver/core/GPIBBoard.cpp:259-275 | on the whole bus: the board listens, and the talkers are those that answer to the target |
| Board.PollCallOnWire | driver/core/GPIBBoard.cpp:447-464 | on the whole bus: the board listens, and the talkers are the polled instrument and the left-over ones |
| Board.PolledAlone | driver/core/GPIBBoard.cpp:447-464 | with distinct addresses the instrument polled at its own address is the only talker |
| Board.OnlyTargetAddressed | driver/core/GPIBBoard.cpp:232-275 | with distinct addresses, board and target are the only talker and the only listener, in either direction |
| Board.CommandCallActs | driver/core/GPIBBoard.cpp:384-406 | for every delivered prefix and every bus: instruments not addressed are untouched, the addressed one acts once if all arrived |
| Board.ClearCallKeeps | driver/core/GPIBBoard.cpp:717-731 | any prefix of the recovery's device clear clears the target at most once and nobody else |
| Board.PassiveCallKeeps | driver/core/GPIBBoard.cpp:232-275 | addressing moves no data and clears or triggers nobody |
| Board.PollModeAfterFailure | driver/core/GPIBBoard.cpp:447-464 | after a failed poll call serial-poll mode is off everywhere exactly if the call was not delivered whole |
| Board.QuietAfterFailure | driver/core/GPIBBoard.cpp:447-464 | after a failed poll call, whatever prefix got through, the bus is quiet exactly if that was not the whole call, serial-poll mode was off, and the byte at which it broke off leaves nobody talking |
| Board.PollEndQuiets | driver/core/GPIBBoard.cpp:466-478 | the teardown silences the whole bus |
| Board.SentToTarget | driver/core/GPIBBoard.cpp:305-310 | data sent while only the target listens is received by exactly the target |
| Board.TransferBounded | driver/core/GPIBBoard.cpp:277-382 | the calls of every transfer hold one soft reset and two addressing calls at most, and a data phase only as the last call, directly after an addressing call that succeeded |
| Board.RetryOpens | driver/core/GPIBBoard.cpp:293-305 | a failed addressing call, the recovery, and the retry that follows exactly if the recovery worked are the opening of a transfer, whose result is that of its last addressing call |
| Board.EosModeIsLost | driver/core/GPIBBoard.cpp:184-189 | no configured EOS mode survives its eight-bit field |
| Board.ConfiguredFits | driver/core/GPIBBoard.cpp:159-199 | a setting that fits its field is kept as it is, one that does not counts modulo the size of the field, and no other field changes |
| Board.TimeoutTable | driver/core/GPIBBoard.cpp:22-44 | 10 and 30 microseconds, each further code ten times the one two below it up to 1000 s, none for code 0, and 3 s for codes that do not exist |
| Board.TargetIsAddress | driver/core/GPIBBoard.cpp:232-275 | the target of a descriptor is the primary address it was opened for, with its secondary address exactly if that is not negative |
| Board.ListenCallOnWire | driver/core/GPIBBoard.cpp:601-640 | after the call of a listener search, from any state of the bus, exactly the instruments that answer to the address listen and nobody talks |
| Board.GpibBoard.constructor | driver/core/GPIBBoard.cpp:46-63 | a new board has no live descriptor, is offline and does not ask for REN |
| Board.GpibBoard.AllocateHandle | driver/core/GPIBBoard.cpp:100-111 | the lowest free slot from 1 on becomes live and no other entry changes; -1 exactly if none is free |
| Handles.FirstFree | driver/core/GPIBBoard.cpp:100-111 | the result is a free slot with every lower one taken, or -1 with all of them taken |
| Board.GpibBoard.OpenDescriptor | driver/core/GPIBBoard.cpp:120-144 | the new entry holds the parameters given, or the table is full and nothing changes |
| Board.GpibBoard.CloseDescriptor | driver/core/GPIBBoard.cpp:146-157 | exactly the handle closed stops being live; an unknown one is EARG |
| Board.GpibBoard.Configure | driver/core/GPIBBoard.cpp:159-199 | one entry changes in the field the key names, with the narrowing of that field; unknown keys change nothing |
| Board.GpibBoard.AddressForWrite | driver/core/GPIBBoard.cpp:232-257 | one call, sent once; success leaves the board the talker and the target the listener from any bus state; a timeout is EABO with ERR and TIMO, any other failure ENOL with ERR, and neither has moved data or cleared anybody |
| Board.GpibBoard.AddressForRead | driver/core/GPIBBoard.cpp:259-275 | the mirror image, with the same errors |
| Board.GpibBoard.RecoverBus | driver/core/GPIBBoard.cpp:698-736 | the calls in their order: soft reset, and exactly if that worked interface clear, take control, REN if it was requested, and a device clear for the target; none when re-entered; a device clear that got through has cleared the target exactly once, whatever happens nobody else; the flag is restored and REN is as it was requested |
| Board.GpibBoard.ClearInstrument | driver/core/GPIBBoard.cpp:717-731 | one SDC call to the target, or none without one; the target is cleared exactly once if it got through and nobody else is touched |
| Board.GpibBoard.Prepare | driver/core/GPIBBoard.cpp:293-305 | the opening of a transfer: addressing, and recovery and one retry exactly when needed; status and error are those of the last addressing call; no data moved, at most the target cleared, once, and the target addressed on success |
| Board.GpibBoard.Write | driver/core/GPIBBoard.cpp:277-327 | whatever fails, exactly the target receives a prefix of the message with EOI placed as configured, all of it on success; the calls are those of a transfer, with a data call for the configured timeout exactly if the target got addressed; a data call that timed out is EABO with ERR and TIMO, an aborted one ECIC with ERR, any other failure EBUS with ERR, and the count is that of the data call; without one it is EABO or ENOL, as the addressing timed out or not, with ERR |
| Board.GpibBoard.Read | driver/core/GPIBBoard.cpp:329-382 | the same calls and the same status and error of every failure; data and END are those of the data call, which has the configured EOS character, flags and timeout and runs only with the target talking and the board listening |
| Board.GpibBoard.DeviceClear | driver/core/GPIBBoard.cpp:384-406 | the addressed instrument is cleared once, nobody else is touched whatever prefix got through |
| Board.GpibBoard.Trigger | driver/core/GPIBBoard.cpp:494-516 | the addressed instrument is triggered once, nobody else is touched |
| Board.GpibBoard.GoToLocal | driver/core/GPIBBoard.cpp:518-540 | the addressed instrument goes to local, nobody else is touched |
| Board.GpibBoard.LocalLockout | driver/core/GPIBBoard.cpp:542-558 | one LLO call; success means that every node heard it and is reported with CMPL and LOK, failure as EBUS |
| Board.GpibBoard.SendCommands | driver/core/GPIBBoard.cpp:667-686 | success means that exactly these bytes were heard by every node; failure reports none |
| Board.GpibBoard.InterfaceClear | driver/core/GPIBBoard.cpp:408-418 | one interface clear call; success is reported whether or not it went through; REN is kept |
| Board.GpibBoard.RemoteEnable | driver/core/GPIBBoard.cpp:420-431 | the record follows the request, and CMPL, with REM if enabled, is reported whatever happened; the line agrees with the record exactly if the call went through or nothing had to change |
| Board.GpibBoard.SetOnline | driver/core/GPIBBoard.cpp:70-98 | going online clears the interfaces, takes control and asserts REN, going offline drops REN; CIC and REM report what went through; line and record agree if REM is reported |
| Board.GpibBoard.SerialPoll | driver/core/GPIBBoard.cpp:433-492 | the poll call, and exactly if it succeeded a one-byte read within the configured timeout and the teardown, which quiets the bus if delivered; the status byte is the one read, with RQS as its bit 6 says; a failed read is EABO with TIMO on a timeout and EBUS otherwise, a failed poll call is EBUS |
| Board.GpibBoard.SerialPollProbe | driver/core/GPIBBoard.cpp:575-599 | the poll call, a one-byte read within 100 ms exactly if it succeeded, and the teardown for every outcome; present exactly if one byte was read |
| Board.GpibBoard.ListenerPresent | driver/core/GPIBBoard.cpp:601-665 | the listener is called, ATN released and the lines read, each exactly if the step before worked; NDAC decides if any line is reported, and a serial poll with its teardown if none is; the status is always CMPL |
| Board.GpibBoard.Run | driver/core/GPIBBoard.cpp:698-736 | over any run of operations in which REN calls succeed, the REN line is what was last requested |
| Kusb.MsFromUsec | driver/devices/kusb_488b/KUSB488BTransport.cpp:89-94 | at most 4294967; rounds down but never to zero, except that infinite and zero are zero |
| Kusb.PollIterationsFor | driver/devices/kusb_488b/KUSB488BTransport.cpp:105-111 | one poll a millisecond, rounded down, between 100 and 30000; infinite is 30000 |
| Kusb.HeaderRoundTrip | driver/devices/kusb_488b/KUSB488BTransport.cpp:535-549 | no timeout loses bits in the 24-bit field and no length in the 32-bit one |
| Kusb.Transport.constructor | driver/devices/kusb_488b/KUSB488BTransport.cpp:115-133 | no holdoff is recorded, by the driver or on the empty log |
| Kusb.Transport.ControlOut | driver/devices/kusb_488b/KUSB488BTransport.cpp:393-433 | one request, successful only if all its bytes were transferred, and otherwise with the code of the reply; oversized data sends nothing |
| Kusb.Transport.ControlIn | driver/devices/kusb_488b/KUSB488BTransport.cpp:435-462 | one request, never more bytes than asked for, none on failure, which has the code of the reply |
| Kusb.Transport.BulkOut | driver/devices/kusb_488b/KUSB488BTransport.cpp:468-501 | for every pattern of short transfers the armed engine gets a prefix of the bytes in order, all on success, in transfers of 4096 bytes at most with the timeout asked for; failure means a failed or empty transfer and has its code |
| Kusb.Transport.BulkIn | driver/devices/kusb_488b/KUSB488BTransport.cpp:503-529 | a bulk-in of what there is room for, 4096 bytes at most, with the timeout asked for; the fetched bytes are stored at the offset in order and nothing else in the buffer changes; a failure has the code of the reply |
| Kusb.Transport.BeginTransfer | driver/devices/kusb_488b/KUSB488BTransport.cpp:535-549 | one arming request with the 8-byte header |
| Kusb.Transport.RecoverFirmwareEngine | driver/devices/kusb_488b/KUSB488BTransport.cpp:673-678 | the abort and the three stall clears, in order, leave nothing armed |
| Kusb.Transport.PollStatus | driver/devices/kusb_488b/KUSB488BTransport.cpp:556-656 | the wait ends exactly in one of three ways, told by the last event: an abort, and a timeout, once the deadline has passed or 100000 polls were not final; a glitch, and an I/O error, after nothing but glitches for longer than the budget; or the first full block that is not BUSY, DONE being success and error 5 a timeout; every poll before that was BUSY or a glitch; the count is the one that the block holds in two or four bytes, the lowest first, whatever stands behind them |
| Causes.CountDecodes | driver/devices/kusb_488b/KUSB488BTransport.cpp:640-645 | a status block decodes to a count exactly if its bytes from the third on are that count, the lowest first, in the width asked for |
| Kusb.Transport.PollTurn | driver/devices/kusb_488b/KUSB488BTransport.cpp:575-645 | one turn keeps the account of the wait so far: what was polled, the deadline and the run of glitches under way; or the wait ends as above |
| Kusb.Transport.ArmedTransfer | driver/devices/kusb_488b/KUSB488BTransport.cpp:1022-1040 | one armed chunk puts a prefix of its bytes on the bus, all on success, which is a DONE status with the count returned; otherwise the arm request was refused, a bulk transfer was bad, or the wait failed |
| Kusb.Transport.OutcomeExact | driver/devices/kusb_488b/KUSB488BTransport.cpp:1022-1040 | the three outcomes of a transfer in chunks exclude each other on the log: the last chunk done with its own count, done with another, or failed for a cause on the log |
| Kusb.Transport.SendCommandBytesViaFirmware | driver/devices/kusb_488b/KUSB488BTransport.cpp:931-986 | a recorded holdoff is dealt with first; then the traffic is armings for system controller and 3 s, bulk transfers and status polls alone, up to a final abort or recovery; command bytes reach the bus as a prefix in order; success, and with it all of them, exactly if the last chunk was done with its own length for a count; no listener exactly after another count; any other failure has the code of its cause: of the reply to the refused or bad request, a timeout after an abort or error 5, an I/O error after glitches or another error |
| Kusb.Transport.WriteDataViaFirmware | driver/devices/kusb_488b/KUSB488BTransport.cpp:988-1070 | for every buffer, chunk size and pattern of replies the bus sees a prefix of the message with EOI exactly on its last byte if asked for; success, and with it all of it and the right count, exactly if the last chunk was done with its own length for a count; the order of the traffic, no listener and the codes of the other failures are as for command bytes, and every arming has the timeout asked for |
| Kusb.Transport.WriteChunk | driver/devices/kusb_488b/KUSB488BTransport.cpp:1016-1040 | one chunk extends the prefix, EOI only with the final one; it is done with the count returned, or failed for a cause on the log |
| Kusb.Transport.Drain | driver/devices/kusb_488b/KUSB488BTransport.cpp:1424-1490 | the loop ends within its budget of bulk-ins and polls, with the engine done or recovered, and fails exactly after a failed bulk-in, six glitches in a row or a status that reports an error |
| Kusb.Transport.ReadDataViaFirmware | driver/devices/kusb_488b/KUSB488BTransport.cpp:1397-1500 | for every device: a bulk-in comes first and then only right after a status that says BUSY; returned bytes are a prefix of the packets, nothing stored past the request, count and END from the last accepted block, no read left pending, at most one bulk-in per byte or empty packet and six polls each; success exactly if the arming was not refused, no bulk-in failed, no six polls in a row glitched and no status reported an error, and the code of a failure is that of the reply, a timeout after error 5 and an I/O error otherwise; the EOS character sent is always a newline |
| Kusb.EosNeverAsked | driver/devices/kusb_488b/KUSB488BTransport.cpp:1244-1248 | the flag that asks for termination on a character does not fit the eight bits in which flags are passed |
| Kusb.Transport.ReleaseRfdHoldoffIfPending | driver/devices/kusb_488b/KUSB488BTransport.cpp:833-837 | one finish-handshake is sent exactly if a holdoff is recorded, and takes it off the record accepted or not; the chip is freed exactly if it was accepted |
| Kusb.Transport.SendCommandBytesViaRegisters | driver/devices/kusb_488b/KUSB488BTransport.cpp:1072-1130 | command bytes go out in order while the core drives commands and is neither talker nor listener, all on success, and none while a holdoff is recorded; a chip that holds off is freed on the way in exactly if there was a record and the finish-handshake was accepted, and otherwise takes the bytes all the same; success exactly if no write was refused and ATN and command-out showed within 200 reads; otherwise the code of the refused write, a timeout without ATN, or no listener |
| Kusb.Transport.WriteDataViaRegisters | driver/devices/kusb_488b/KUSB488BTransport.cpp:1153-1219 | as a talker: the bus sees a prefix of the message, all on success, with EOI as asked for and on the first byte if EOI was latched before; EOI is left latched exactly if it was and nothing went out, or if it was armed for the last byte and that byte then refused; success exactly if no write was refused and no status bit failed to show within its polls; otherwise the code of the refused write, aborted if ATN was not released, or no listener |
| Kusb.MarkedIsTag | driver/devices/kusb_488b/KUSB488BTransport.cpp:1153-1219 | what a write with EOI latched before puts on the bus is the ideal message exactly if nothing went out or its one byte was to carry EOI anyway |
| Kusb.Transport.ReadDataViaRegisters | driver/devices/kusb_488b/KUSB488BTransport.cpp:1243-1371 | as a listener: received bytes are stored in order and leave the holdoff recorded; END is reported exactly if the interrupt status read before the last byte showed END and the first such read of the call did not; a message that stops short without END had no byte for 250 polls or a read that failed; the chip holds off exactly if a byte read came with END, its reply lost or not, or it did before and no finish-handshake was accepted; success exactly if a byte was received or no write was refused and no status bit failed to show; otherwise the code of the refused write, aborted if ATN was not released, or a timeout |
| Kusb.Transport.ReceiveBytes | driver/devices/kusb_488b/KUSB488BTransport.cpp:1290-1371 | the receive loop: bytes in order, and END exactly by the last status read before the last byte, unless END is unusable; the chip holds off if one of the bytes read came with END; a timeout is that many polls in vain |
| Kusb.Transport.RunBringUpSequence | driver/devices/kusb_488b/KUSB488BTransport.cpp:287-360 | engine recovery and then the eight requests in order, up to the first that is refused, whose code is the result; success exactly if all eight went through; the chip is freed from the first on, the record only by success |
| Kusb.Transport.SetRemoteEnable | driver/devices/kusb_488b/KUSB488BTransport.cpp:799-803 | one auxiliary command; the record changes only if it was accepted, and a refusal has the code of its reply |
| Kusb.Transport.PulseInterfaceClear | driver/devices/kusb_488b/KUSB488BTransport.cpp:767-797 | assert and release through the chip; the firmware is asked exactly if the chip did not take both, and once more exactly if its answer is not DONE; success exactly if the chip took both or the firmware said DONE; an I/O error after the second bad answer, and otherwise the code of the request that failed |
| Kusb.Transport.TakeControl | driver/devices/kusb_488b/KUSB488BTransport.cpp:726-732 | one command block; the core drives commands exactly if it was accepted or did before |
| Kusb.Transport.GoToStandby | driver/devices/kusb_488b/KUSB488BTransport.cpp:916-929 | the request with its status poll, and once more exactly if the status was not DONE; success exactly if the last status says DONE, and then the core drives commands no more; the code of a refused request, or an I/O error |
| Kusb.Transport.ReleaseAtn | driver/devices/kusb_488b/KUSB488BTransport.cpp:755-761 | the firmware request, and exactly if it did not succeed the register write; on success the core drives commands no more, and nothing else of it has changed |
| Kusb.Transport.ReadBusLines | driver/devices/kusb_488b/KUSB488BTransport.cpp:1537-1562 | one register read, successful exactly if it brings a byte, whose bits become the lines |
| BusLines.LinesRead | driver/devices/kusb_488b/KUSB488BTransport.cpp:1546-1560 | every line is called valid; no line is asserted exactly if the register reads zero, and NDAC is its sixth bit |
| BusLines.LineBits | driver/devices/kusb_488b/KUSB488BTransport.cpp:1550-1558 | each of the eight lines of the register is the line that the board sees |
| Kusb.Transport.RunRegisters | driver/devices/kusb_488b/KUSB488BTransport.cpp:726-1371 | every run of command, write, read, reset, REN, interface clear, take-control, ATN release and bus-line operations keeps the holdoff discipline, and no read in it whose first look at the interrupt status finds END latched reports END |
| Trace.DisciplineOnLog | driver/devices/kusb_488b/KUSB488BTransport.cpp:805-837 | on the log: every finish-handshake follows a received byte with no other finish-handshake since |
| Trace.ReceiptsAreDistinct | driver/devices/kusb_488b/KUSB488BTransport.cpp:805-837 | between two finish-handshakes there is a received byte |
| Trace.RecordedOnLog | driver/devices/kusb_488b/KUSB488BTransport.cpp:805-837 | the holdoff recorded is exactly a received byte, with END or not, with no finish-handshake sent and no bring-up completed since |
| Trace.HeldOnLog | driver/devices/kusb_488b/KUSB488BTransport.cpp:805-837 | the holdoff in the chip is exactly a byte that came with END, its read answered or not, with no finish-handshake, chip reset or power-on release accepted since |
| Trace.CommandsOnLog | driver/devices/kusb_488b/KUSB488BTransport.cpp:1072-1130 | on the log: no command byte is written until every byte received before it has been taken off the record |
| Trace.ClampedCommand | driver/devices/kusb_488b/KUSB488BTransport.cpp:833-837 | a command byte meets a chip that holds off exactly if a byte with END was read, nothing has freed the chip since, and the reply was lost or a finish-handshake refused since |
| Trace.CleanExactly | driver/devices/kusb_488b/KUSB488BTransport.cpp:1072-1130 | over a whole run: no command byte is taken by a chip that holds off exactly if none comes after such a loss or refusal |
| Trace.SpuriousFinish | driver/devices/kusb_488b/KUSB488BTransport.cpp:805-837 | a finish-handshake meets a chip that does not hold off exactly if no byte since the last accepted finish-handshake or power-on release came with END, or a chip reset was accepted after the last one that did |
| Trace.HonestExactly | driver/devices/kusb_488b/KUSB488BTransport.cpp:805-837 | over a whole run: no finish-handshake is given to a chip that owes none exactly if none is accepted in either of these two situations |
| RegisterRuns.RefusedFinish | driver/devices/kusb_488b/KUSB488BTransport.cpp:833-837 | a concrete run: the finish-handshake is refused, the record gone, and a command byte goes to a chip that holds off |
| RegisterRuns.LostByte | driver/devices/kusb_488b/KUSB488BTransport.cpp:1290-1366 | a concrete run: the reply with an END byte is lost, nothing is recorded, and a command byte goes to a chip that holds off |
| RegisterRuns.CountedRead | driver/devices/kusb_488b/KUSB488BTransport.cpp:1362-1366 | a concrete run: a read ends on its count without END, and the next call sends a finish-handshake to a chip that owes none |
| RegisterRuns.BrokenBringUp | driver/devices/kusb_488b/KUSB488BTransport.cpp:287-360 | a concrete run: the bring-up breaks off after its chip reset and a finish-handshake goes to a chip that owes none |
| RegisterRuns.LeftoverEoi | driver/devices/kusb_488b/KUSB488BTransport.cpp:1153-1219 | a concrete run: EOI armed for a refused byte marks the first byte of the next message |
| EndToEnd.WriteData | driver/devices/kusb_488b/KUSB488BTransport.cpp:988-1070 | the firmware path keeps what the board assumes of a data call: the wire changes by exactly what the firmware put on the bus, a prefix of the tagged message, all of it and rightly counted on success |
| EndToEnd.SendCommandBytes | driver/devices/kusb_488b/KUSB488BTransport.cpp:931-986 | the same of a command call |
| EndToEnd.SendPiece | driver/core/GPIBBoard.cpp:293-310 | addressing and data over the adapter: on success the target and nobody else has received the tagged message, and that is what the firmware put on the bus |
| EndToEnd.SendSplit | libgpib/src/ib_traditional.c:168-180 | from the pieces of the client down to the firmware: if all calls succeed, the bus has seen the ideal single message and the target and nobody else has received it |
| EndToEnd.TimeoutSurvives | driver/core/GPIBBoard.cpp:22-44 | every timeout code that a client chooses reaches the NI adapter as exactly that timeout, and the KUSB-488B from a millisecond up |
| Endpoints.ResolveEndpoints | driver/devices/kusb_488b/KUSB488BTransport.cpp:165-218 | the loop terminates on arbitrary bytes, reads only the first `total`, and computes the walk |
| Endpoints.Choose | driver/devices/kusb_488b/KUSB488BTransport.cpp:195-217 | a device is accepted exactly if it has five endpoints and the three positions run in the right directions; the pipes are the third, fourth and fifth |
| Endpoints.WalkFindsEndpoints | driver/devices/kusb_488b/KUSB488BTransport.cpp:171-193 | for every serialised descriptor list the walk finds exactly the first eight endpoints of the wanted interface and alternate setting, in order |
| Endpoints.ChosenPipes | driver/devices/kusb_488b/KUSB488BTransport.cpp:152-218 | for every serialised descriptor list: the device is accepted exactly if the third and fourth endpoint of the wanted interface go out and the fifth comes in, and those are the pipes |
| Endpoints.WalkFrom | driver/devices/kusb_488b/KUSB488BTransport.cpp:181-193 | from any descriptor boundary the walk completes that list |
| Endpoints.VisitDescriptor | driver/devices/kusb_488b/KUSB488BTransport.cpp:182-192 | one step on the bytes of a descriptor does what the descriptor means |
| Endpoints.WithinNext | driver/devices/kusb_488b/KUSB488BTransport.cpp:186-188 | whether a descriptor is in the wanted interface, from the last interface descriptor before it |
| NiWire.WriteRoundTrip | driver/devices/ni_usb/NIUSBTransport.cpp:345-363 | every packet for 1 to 4080 bytes is a multiple of four, at most 4096 bytes, holds the timeout code, the EOI flag and nothing else in its header, ends in zeros and the trailer, and decodes to the same payload and EOI |
| NiWire.TimeoutCovers | driver/devices/ni_usb/NIUSBTransport.cpp:39-58 | the code sent is that of the shortest timeout not shorter than the one asked for, of the longest above 1000 s, and of none exactly if none is asked for |
| NiWire.FrameWrite | driver/devices/ni_usb/NIUSBTransport.cpp:341-363 | the packet built in place is that packet, for the payload capped to 4080 bytes |
| NiWire.PadToBoundary | driver/devices/ni_usb/NIUSBTransport.cpp:69-72 | zeros up to the next multiple of four, the rest kept |
| NiWire.AppendTermination | driver/devices/ni_usb/NIUSBTransport.cpp:60-67 | the trailer is appended |
| NiWire.StatusRoundTrip | driver/devices/ni_usb/NIUSBTransport.cpp:74-84 | a status block decodes to what was encoded, and the count written is the length less what remains |
| NiWire.CopyBlock | driver/devices/ni_usb/NIUSBTransport.cpp:450-452 | the buffer holds the first bytes of the payload, never past the request |
| NiWire.DecodeBlocks | driver/devices/ni_usb/NIUSBTransport.cpp:436-453 | the walk over the data blocks, on arbitrary bytes |
| NiWire.DecodeRead | driver/devices/ni_usb/NIUSBTransport.cpp:436-487 | for arbitrary bytes: reads within the response, writes within the request, reports a prefix of the payload; the result is an I/O error without a whole status block of the right id, and otherwise that of its error byte: 0 success, 1 aborted, 10 timeout, 5 and 8 no listener, any other an I/O error; END is bit 13 of its status |
| NiWire.WalkEncoded | driver/devices/ni_usb/NIUSBTransport.cpp:440-453 | the walk over encoded blocks collects their payloads and stops after them |
| NiWire.TrimExact | driver/devices/ni_usb/NIUSBTransport.cpp:471-483 | exactly when the trim gives the number of valid bytes |
| NiWire.ReadDecodes | driver/devices/ni_usb/NIUSBTransport.cpp:436-487 | for every block sequence a read response can hold, exactly when the decoded message is the one sent |
| NiWire.MixedBlocksAreCut | driver/devices/ni_usb/NIUSBTransport.cpp:471-483 | a concrete failing response: a short block before a long one, of whose 45 valid bytes 30 are kept |
| NiWire.ExactRequestIsCut | driver/devices/ni_usb/NIUSBTransport.cpp:471-483 | another: two short blocks for a request of exactly their 16 valid bytes, of which one is kept |
| Loader.DownloadsCarryAll | driver/devices/kusb_488b/KUSB488BLoader.cpp:73-109 | the requests carry all the data once, in order, in pieces that fit; the bitstream's last flag is on exactly its final chunk |
| Loader.ChunksCarryAll | driver/devices/kusb_488b/KUSB488BLoader.cpp:73-86 | the first k chunks carry exactly the data up to their end, none empty or too large |
| Loader.ImageInMemory | driver/devices/kusb_488b/KUSB488BLoader.cpp:73-86 | an image that fits below the end of the address space is in memory afterwards and nothing else changed |
| Loader.MemoryImage | driver/devices/kusb_488b/KUSB488BLoader.cpp:73-86 | the same after any number of its chunks |
| Loader.IssuedSplit | driver/devices/kusb_488b/KUSB488BLoader.cpp:133-161 | what is issued of two series with failures is the first and then, if that went through, what is issued of the second |
| Loader.SetCpuReset | driver/devices/kusb_488b/KUSB488BLoader.cpp:68-71 | one request, hold or release |
| Loader.DownloadChunked | driver/devices/kusb_488b/KUSB488BLoader.cpp:73-86 | issues exactly the chunk requests up to the first that fails |
| Loader.DownloadBitstream | driver/devices/kusb_488b/KUSB488BLoader.cpp:88-109 | issues exactly the bitstream requests up to the first that fails |
| Loader.PyDownloadChunked | tools/kusb_fw_download.py:64-69 | the same trace as the driver's, for all data and failures |
| Loader.PyDownloadBitstream | tools/kusb_fw_download.py:72-79 | the same trace as the driver's, for all data and failures |
| Loader.DownloadFirmware | driver/devices/kusb_488b/KUSB488BLoader.cpp:121-161 | the full series up to the first failure, plus the release if the main firmware failed: once the hold took, the last request is the release on every path; on success the bitstream has gone out by request 0xA4, the external RAM image is at 0x4000 by 0xA3, and between the hold and the release the main firmware at 0 by 0xA0, each whole, in order and with nothing else; on failure the requests are those of such a download up to the failed one |
| Loader.PyDownload | tools/kusb_fw_download.py:100-119 | the same series, images and failures, without that release |
| Loader.AllComplete | driver/devices/kusb_488b/KUSB488BLoader.cpp:121-161 | the series sent when nothing fails is a complete download of the three images |
| Loader.TwinLeavesCpuHeld | tools/kusb_fw_download.py:117-119 | after a hold that took, the twin's last CPU reset request is the hold exactly if the main firmware failed |
| FirmwareHeader.EmitArray | tools/extract_kusb_firmware.py:71-76 | the rows written in a loop are the array text |
| FirmwareHeader.ParseHeader | tools/extract_kusb_firmware.py:109-124 | for any three blobs, parsing the header by name gives each blob back |
| FirmwareHeader.ParseThree | tools/kusb_fw_download.py:43-48 | the same for any names that differ in their first letter and any harmless text around |
| FirmwareHeader.FoundArray | tools/kusb_fw_download.py:44 | the pattern finds an array at the head of the text and captures its rows |
| FirmwareHeader.OtherArraySkipped | tools/kusb_fw_download.py:44 | the search passes over another array |
| FirmwareHeader.FindRows | tools/kusb_fw_download.py:47-48 | the bytes read out of printed rows are the bytes printed |
| Utf8.CopyDeviceString | driver/utils/DriverUtils.cpp:20-40 | for every descriptor the loop stays inside its buffer of four bytes a unit plus one, and leaves the encoding and a NUL |
| Utf8.UnitsOfUtf16 | driver/utils/DriverUtils.cpp:20-30 | the units read from a descriptor are those of its UTF-16LE string, an odd last byte apart |
| Utf8.Encode | driver/utils/DriverUtils.cpp:28-39 | at least one and at most three bytes a unit |
| Utf8.RoundTrip | driver/utils/DriverUtils.cpp:28-39 | decoding gives back the same units, surrogates included |
| Utf8.Injective | driver/utils/DriverUtils.cpp:28-39 | no two unit sequences have the same encoding |
| Utf8.WellFormedIff | driver/utils/DriverUtils.cpp:28-39 | the result is well-formed UTF-8 (section 4 of RFC 3629) exactly if there are no surrogates |
| SearchPath.Extended | Open GPIB/GPIB/PythonSupport.swift:161-171 | a value that was extended is read back as it was written, the directory first |
| Lines.TrimExact | Open GPIB/GPIB/PythonSupport.swift:161-184 | trimming takes exactly the spaces off both ends |
| SearchPath.ExtendTwice | Open GPIB/GPIB/PythonSupport.swift:161-171 | extending twice is extending once |
| SearchPath.RemoveAfterExtend | Open GPIB/GPIB/PythonSupport.swift:161-184 | uninstalling after installing restores the value exactly if it is restorable |
| SearchPath.BecomesUnset | Open GPIB/GPIB/PythonSupport.swift:161-184 | a blank value and the spelled-out default end up unset |
| SearchPath.UserEntryIsLost | Open GPIB/GPIB/PythonSupport.swift:161-184 | a directory the user had put there is taken out with the installer's own |
| SearchPath.OpenGpibMarkersAreSound | Open GPIB/GPIB/PythonSupport.swift:251-252 | the app's markers are single lines and the end marker does not contain the begin marker |
| SearchPath.RemoveShellSnippet | Open GPIB/GPIB/PythonSupport.swift:327-340 | the loop keeps exactly the lines outside marked blocks |
| SearchPath.UninstalledIsMarkerFree | Open GPIB/GPIB/PythonSupport.swift:327-340 | whatever the file, no begin marker is left, and no end marker if there was a block |
| SearchPath.UninstallAfterInstall | Open GPIB/GPIB/PythonSupport.swift:302-340 | stripping the block after adding it returns the file with separator and newline exactly if the user's text holds no end marker |
| SearchPath.StrayEndMarkerIsLost | Open GPIB/GPIB/PythonSupport.swift:327-340 | a file that is just an end marker does not come back |
| SearchPath.InstallTwice | Open GPIB/GPIB/PythonSupport.swift:307-311 | a second install changes nothing |
| SearchPath.InstalledLines | Open GPIB/GPIB/PythonSupport.swift:302-325 | the installed file is the user's text, ended and set off by a blank line, and then the begin marker, the source line and the end marker, line by line |
| Broker.RequestConserves | gpibd/gpibd.c:287-392 | one request, exactly: unless a board loses its table, the descriptors stay conserved if and only if the request is accounted for |
| Broker.OpenConserves | gpibd/gpibd.c:71-81 | a served open conserves exactly if its reply is recorded for a session that exists |
| Broker.CloseConserves | gpibd/gpibd.c:83-95 | a served close conserves exactly if the handle was not live or the client owned it and its record went |
| Broker.ReapConserves | gpibd/gpibd.c:111-125 | one close of a clean-up conserves exactly if the driver serves it, or has lost a table that held nothing else |
| Broker.LostTable | gpibd/gpibd.c:353-365 | a new driver behind a dead connection, for every request: the descriptors stay conserved exactly if the lost table held just what the retried request makes up for, or nothing without a retry |
| Broker.HandledEffect | gpibd/gpibd.c:317-377 | a request with its retry comes to nothing or to one served call |
| Broker.ServedOpen | gpibd/gpibd.c:71-81 | a served open makes the lowest free slot live and the newest entry of its client's list, and changes nothing else |
| Broker.ServedClose | gpibd/gpibd.c:83-95 | a served close of the client's own handle frees the slot and takes the entry out, the others keeping their places |
| Broker.RetryIsTransparent | gpibd/gpibd.c:343-365 | a request whose port was dead and whose retry is served leaves the state that it would have left if served at once |
| Broker.HandledConnections | gpibd/gpibd.c:214-240 | which boards have a cached connection after a request: the board asked for exactly if it could be reached and answered, at once or on the retry; the others as before |
| Broker.ReapedConnections | gpibd/gpibd.c:111-125 | a close of a clean-up caches a connection that it opens and drops none |
| Broker.StepKeeps | gpibd/gpibd.c:100-130 | every courteous step keeps every live handle in exactly one list, once, and in a slot from 1 to 63 |
| Broker.RunKeeps | gpibd/gpibd.c:71-130 | ownership conservation over all interleavings |
| Broker.IdleIsGood | gpibd/gpibd.c:445-451 | the agent starts in a state that satisfies the invariant |
| Broker.FirstInFirstOut | gpibd/gpibd.c:242-255 | over every run: the jobs taken from a board's queue, followed by those still in it, are those that were in it followed by those sent to it, in that order; boards out of range share the first queue |
| Broker.OpensInOrder | gpibd/gpibd.c:398-443 | of two opens queued one after the other the first gets the lowest free slot and the second the next |
| Broker.FinishedReap | gpibd/gpibd.c:100-130 | however it interleaves, a finished clean-up closed exactly its client's handles, each once, in list order |
| Broker.OthersKeepTheirs | gpibd/gpibd.c:100-130 | no step of others and no clean-up closes a handle of an idle client |
| Broker.ReapProceeds | gpibd/gpibd.c:110-125 | a clean-up can always finish or queue its next close, or has it queued |
| Broker.OvertakenOpenStrands | gpibd/gpibd.c:402-415 | a concrete run in which a clean-up overtakes a queued open and a handle stays live in nobody's list |
| Broker.UndrainedStrands | gpibd/gpibd.c:402-415 | the converse of the drained queue: from every state that satisfies the invariant, with a departing client that has a full-size open queued for a board with a free slot, some continuation, courteous except for the clean-up that starts too early, forgets the client and leaves a handle live in nobody's list |
| Broker.WithoutFirstMembers | gpibd/gpibd.c:86-93 | removing the first match from a list of distinct descriptors removes exactly that one |
| Broker.Agent.constructor | gpibd/gpibd.c:445-451 | the idle state, and the invariant holds |
| Broker.Agent.SessionAddDesc | gpibd/gpibd.c:71-81 | the descriptor becomes the head of the session's list; negative handles and missing sessions change nothing |
| Broker.Agent.SessionForgetDesc | gpibd/gpibd.c:83-95 | the first matching descriptor is spliced out, the others keep their order |
| Broker.Agent.ConnectionForBoard | gpibd/gpibd.c:214-240 | a cached or new connection for a board in range, cached from then on; otherwise nothing changes |
| Broker.Agent.DropBoard | gpibd/gpibd.c:267-272 | the cached connection is gone |
| Broker.Agent.HandleRequest | gpibd/gpibd.c:287-392 | the state after a request is the specified one, with its cap, enumeration, probe, retry and tracking branches |
| Broker.Agent.CloseForReap | gpibd/gpibd.c:111-125 | the state after one close of a clean-up is the specified one |
| Broker.Agent.Enqueue | gpibd/gpibd.c:242-255 | the job is last on its board's queue, queue 0 for boards out of range |
| Broker.Agent.Take | gpibd/gpibd.c:398-443 | every event and job takes the state where the step system says, and on every queue what it takes comes off the front and what it sends goes to the back |
| Broker.Agent.RunSteps | gpibd/gpibd.c:398-443 | a run of steps ends in the specified state, every queue has given out and kept its jobs in the order in which they came, and the invariant survives courteous runs |

## Left out

- Replies of the broker to its clients, other than what they record; a reply that is lost changes nothing here.
- DriverKit, IOKit, XPC, libusb and launchctl calls: replaced by oracles with arbitrary results; failing buffer mappings and allocations are not modelled.
- Sleep lengths, measured timings and the fast-poll schedule; clocks are arbitrary.
- USB replies are finite scripts that end in an unplugged device, so an adapter that stays BUSY and sends empty packets for ever is bounded by its script only; the bulk-in budget counts such packets.
- Kusb.Transport.WriteDataViaFirmware: does not claim that no transfer is left armed, because the status poll can give up after its glitch budget without an abort.
- Kusb.Transport.PollStatus: the clock is arbitrary, so the deadline and the glitch budget bound its readings and not a length of time.
- The NEC7210 model: a holdoff is dated at the read of the byte that came with END; the chip reset and the power-on release change nothing in it but the holdoff, not a latched EOI and not the role; an accepted standby request is taken to release ATN, in the firmware as in the register form.
- Kusb.Transport.RunRegisters: raw register reads and writes of the diagnostic tool are not operations of a run, because they can put the core in any state behind the driver's back.
- Board.GpibBoard.Run: raw register writes are not operations of a run either, so that none of them drops REN.
- `Link` calls for soft reset, interface clear and REN: that they act as a whole or not at all is assumed, not derived from the transport.
- `EndToEnd` composes the client's pieces with the addressing call and the firmware path; recovery, which starts when a call fails, stays on the level of `Link`.
- A broker session that goes away in the middle of one of its own jobs: a job is one step.
- Board.GpibBoard.SerialPoll: guarantees a clean bus only once its addressing succeeded, because the code sends no teardown before that.
- Link assumes that a data call which reports success delivered everything; the NI transport's silent caps (16 command bytes, 4080 data bytes) break that above the cap.
- Descriptors on the board's own address are excluded from the delivery theorems.
- Take-control, ATN release and bus-line reads have no effect on who is addressed; passing control, parallel poll and asynchronous commands are not modelled.
- The reap passes a zero output size to the driver; how the framework treats that is not modelled, nor is the use of a freed session after an overtaken request.
- GPIBUserClient dispatch, the remaining `ib*` wrappers, `ask`, `waitForStatus` and the diagnostic selectors: thin struct packing or easier members of the same kind.
- `ibwrtf`: its pieces exceed the inline write limit, so it does not send whole files.
- The Agilent transport: simpler framing than the NI one.
- The NI read request packet and its register blocks; the cap of a read request at 4032 bytes happens before the modelled decoding.
- The case of a loader built without firmware, and the wait for re-enumeration.
- The Portable Executable parsing of the firmware extractor, and the contents of the firmware.
- Device strings whose descriptor is shorter than its two-byte header, and the fallback string.
- The login agent, the `env.sh` contents, the symbolic link, and which rc files exist; Swift's grapheme clusters are plain characters here.
- The SwiftUI app, the extension and agent managers, build scripts and property lists.
