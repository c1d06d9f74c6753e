# TransitSession: a verified model

TransitSession separates asynchronous scheduling (a template over a Boost.Asio strand) from the transports built on it
(serial ports, SocketCAN, WebSocket). This project models the parts of it that are hard to get right by reading one
function at a time, and proves properties of all their runs:

- the session scheduler with its four flags and its write queue, driven by client calls, by completions in any order,
  and by read handlers that call back into the session (`TransportSpec`, `TransportInvariants`,
  `TransportProperties`, `DuplexProperties`, `ClosingProperties`, `CallbackProperties`), with its two implementations `SerialSession` (half duplex, preemption
  flag, read buffer) and `CanSession` (a write that can fail to start), and the deprecated `AsyncSession`;
- the CAN codec and the receive filters, bit by bit, and two CAN sessions joined by a bus (`CanCodec`, `CanFilters`,
  `CanPipeline`);
- the stop-and-wait client of the serial benchmark, alone and as a whole system with a session and an echoing device
  (`SerialBenchmark`, `EchoSystem`);
- the WebSocket server and its sessions as a system of strands with task queues (`ServerSessions`, `WebSocketServers`,
  `ServerSystem`).

`dafny verify dfyconfig.toml` checks everything.

## How the model is built

**Classes and their specification.** An object of the program that updates its fields is a class with the same fields,
and a method for each of its functions. `TransportSpec` describes the template and its hooks once, on values: a `State`
holds the fields, the operations the operating system still owes a completion for, and the history of the session. The
ghost function `Snapshot` reads such a value off an object. Every method of `SerialSession` and `CanSession` states its
whole new state by it, and `Run` states that an object given any list of tasks takes exactly the steps of `Exec`, so
that whatever is proved of `Exec` holds of the objects. What the template promises is proved about `Exec`.

**Tasks and re-entrancy.** A strand runs one task at a time, in order. A task is a client call, the installation of a
handler, or a completion. A read completion carries its result and the list of calls the read handler makes before it
returns, both arbitrary: these calls run at once, in the middle of the completion, because a dispatch on the running
strand is immediate. A completion needs an outstanding operation; whether it succeeds, fails, is aborted, or succeeded
before a close and is run after it, is left to the environment. A read delivers at most as many bytes as the buffer
had when it was started.

**Words.** A 32-bit word is its four bytes, least significant first, which is how `memcpy` stores it on the
little-endian machines the program is built for; the flags of a CAN id are then bits of the last byte.

**Strands of the server.** Tasks for another strand are queued there. `stop` is modelled as closing the sessions active
when it runs; the tasks that remove them from the set are queued on the server's strand behind it. (In the program a
close handler that runs at once would remove a session from the set while `stop` iterates over it.) The server is not
started again after a stop, and a session is closed only by someone it was handed out to. Accepts complete in any way
at any time.

**The kernel's filters.** `RawAccepts` is the rule `linux/can.h` gives for `struct can_filter`, for data packets: equality
of the masked id words, inverted by `CAN_INV_FILTER` in the id, and no data packet at all with `CAN_ERR_FLAG` in the
mask. A socket that sets no filter gets every packet.

**The benchmark.** The conversion of a count to the number sent and the fill pattern of a payload are parameters of the
client; the theorems hold for any, and `ProgramPayloads` says what the program's are.

## What turned out different from what one would expect

- The preemption of a read by a half-duplex write never happens: `can_start_write` already refuses the case in which
  `do_write` would raise `read_pause_for_write_` and cancel (`PreemptionUnreachable`). A half-duplex write waits for
  the read in flight, for as long as it takes. If the branch were ever taken the session would stall
  (`PreemptionWouldStall`).
- A read that succeeded before a close still calls the handler after it (`DataAfterClose` is such a run). A closed
  session calls its handler again in some continuation if and only if a read is outstanding
  (`CallbackAfterCloseExactly`), and then once (`CallbacksAfterClose`).
- After a failing read callback one more can come (`SecondFailureWitness`), never two
  (`AtMostOneCallbackAfterFailure`). It can come if and only if the session was open, its queue was not
  headed by a waiting message that cannot be encoded, and the calls of the failing callback start a read
  (`CallbackAfterFailureExactly`): some sending, starting to read or switching of the mode while
  reading is on, before any close and before any message that closes the session because it cannot be encoded; in half
  duplex moreover with nothing to write. `ReadStartedBy` computes from the calls which read is left in flight; after data the same holds with one
  more scheduling at the end (`ReadAfterData`).
- A switch to half duplex with both operations in flight leaves both in flight, and such a state is reached
  (`BothInFlightInHalfDuplex`). From any state in half duplex they are both in flight if and only if they were at the
  start and nothing has completed since (`HalfDuplexExclusion`).
- A CAN frame does not always survive the trip: `error_frame` is not sent but read off bit 29 of the id, and bits 30
  and 31 of the id turn into flags. `RoundTrip`, `WireStability` and `ReencodeImage` say exactly when nothing changes.
- transport/can/can_config.hpp:17-18 says that `extended_id` tells whether a filter matches extended frames. A filter
  that leaves it unset usually takes both kinds alike (`StandardFilterAdmitsExtended`); it keeps extended frames out
  only under the condition of `ExtendedShutOutExactly`. The code was followed.
- A filter whose mask or id reaches above the 29 bits of an id can be translated wrongly: the flags it required are
  compared with the wrong bits, and bit 29 has meanings of its own to the kernel, inversion in the id and error
  messages in the mask. `FaithfulIsExact` and `FaithfulListsAreExact` give the exact condition.
- A session in the middle of its handshake when the server is stopped becomes active afterwards if its handshake
  succeeds (`HandshakeOutlivesStop` is such a run). `ActiveExactly` says which sessions are active in the end, and
  exactly when none is.

## Model

| member | source | states |
|---|---|---|
| TransportInvariants.OpenedInv | transport/serial/serial_session.hpp:262-270 | a session as opened satisfies the invariant, and nothing is waiting to be started |
| TransportInvariants.ScheduledInv | core/async_transport_session.hpp:211-221 | one pass of the scheduler, write first, keeps the invariant and leaves nothing that could be started, even if starting the write closes the session instead |
| TransportInvariants.AppliedInv | core/async_transport_session.hpp:50-102 | no client call breaks the invariant or leaves something startable behind |
| TransportInvariants.AppliedAllInv | core/async_transport_session.hpp:202-206 | the same for everything a read handler does before it returns |
| TransportInvariants.ReadFinishedInv | transport/serial/serial_session.hpp:186-210 | the completion of a read, with any result and any calls of the handler, keeps the invariant and leaves nothing startable |
| TransportInvariants.ConsumedInv | core/async_transport_session.hpp:165-169 | consuming the head after a successful write keeps accepted = completed ++ queue |
| TransportInvariants.WriteFinishedInv | transport/serial/serial_session.hpp:238-251 | the completion of a write, successful or not, keeps the invariant and leaves nothing startable |
| TransportInvariants.ExecInv | core/async_transport_session.hpp:211-235 | the invariant and the absence of startable operations hold after every run |
| TransportProperties.AcceptedAreSent | core/async_transport_session.hpp:228-235 | in every run with re-entrant handlers what is accepted is a prefix of what clients sent, and all of it while the session is open |
| TransportProperties.ExactlyOnceFifo | core/async_transport_session.hpp:74-102 | while open the messages sent are the completed ones followed by the queue, and the write in flight is its head; after a close the completed ones and then the one in flight are a prefix of those sent |
| TransportProperties.LateWriteCompletion | core/async_transport_session.hpp:165-169 | a success reported after a close removes nothing from the queue and starts nothing |
| TransportProperties.NoLostWakeUp | core/async_transport_session.hpp:211-221 | between any two tasks neither `can_start_write()` nor `can_start_read()` is true, and at most one read and one write are outstanding |
| TransportProperties.PreemptionUnreachable | transport/serial/serial_session.hpp:164-175 | in no run is the preemption flag raised or the port cancelled |
| ClosingProperties.ClosedExactly | core/async_transport_session.hpp:91-102 | after each run with an explicit close, a failed write, a failed read or undecodable bytes a session is closed; and if every message can be put on the wire, after no other run |
| ClosingProperties.PreemptionWouldStall | transport/serial/serial_session.hpp:222-227 | if the cancel branch were taken, the abort would be kept from the handler and neither operation could start |
| ClosingProperties.PreemptionResumes | transport/serial/serial_session.hpp:192-195 | the abort of a preempted read starts the write once the mode is full duplex, or a read once nothing is queued, lowering the flag |
| TransportProperties.CallbacksMirrorReads | core/async_transport_session.hpp:202-206 | the handler is called once for each completed read while installed, in order, with the decoded value or the error |
| TransportProperties.CompletionFitsBuffer | transport/serial/serial_session.hpp:141-149 | the byte count of a completion fits the buffer as it is then, whatever was resized before |
| TransportProperties.CallbacksAfterClose | core/async_transport_session.hpp:91-102 | after a close at most the one outstanding read calls back, and nothing more is accepted or started |
| TransportProperties.AtMostOneCallbackAfterFailure | transport/serial/serial_session.hpp:197-201 | in every run at most one read callback follows the first failing one, or is still owed |
| TransportProperties.NoCallbackAfterQuietFailure | transport/serial/serial_session.hpp:197-201 | if the handler of the failure makes no call that schedules, no callback follows at all |
| TransportProperties.SecondFailureWitness | transport/serial/serial_session.hpp:197-201 | a run in which a second failing callback follows the first: the bound is met |
| CallbackProperties.LateCallback | transport/serial/serial_session.hpp:190-208 | after a close a read outstanding can still end in any way, and an installed handler gets the outcome |
| CallbackProperties.CallbackAfterCloseExactly | core/async_transport_session.hpp:91-102 | a closed session calls its handler again in some continuation if and only if a read is outstanding |
| CallbackProperties.DataAfterClose | core/async_transport_session.hpp:202-206 | a run in which data read before the close is delivered after it |
| CallbackProperties.HandlerIsTold | core/async_transport_session.hpp:202-206 | in every run the handler is told the outcome of each read that completes while it is installed, once and in order: the decoded value, the error itself, or a protocol error for bytes that cannot be decoded |
| CallbackProperties.CallsLeave | core/async_transport_session.hpp:50-102 | the calls of a handler leave exactly the computed read in flight, with or without scheduling at the end: whether there is one, and its room |
| CallbackProperties.RestartsExactly | core/async_transport_session.hpp:50-102 | the calls of a handler by themselves leave a read in flight if and only if one of them that schedules is made while reading is on, before a close or a message that closes the session, and in half duplex with nothing to write |
| CallbackProperties.ReadAfterData | transport/serial/serial_session.hpp:203-210 | after a successful read exactly the read is outstanding that the handler's calls and the scheduling behind them ask for, so the handler runs before the next read is started; for any transport, mode and calls |
| CallbackProperties.ReadAfterQuietData | transport/can/can_session.hpp:161-170 | if the handler makes no scheduling call, a read follows if and only if it neither closed nor stopped, reading was on, and in half duplex nothing is to be written; its room follows the handler's resizes |
| CallbackProperties.NoReadAfterHandlerStops | core/async_transport_session.hpp:64-68 | if a handler ends by stopping to read, no read is started in any continuation until one is asked for |
| CallbackProperties.CallbackAfterFailureExactly | transport/serial/serial_session.hpp:197-201 | a failing callback is followed by another in some continuation if and only if the session was open with a handler, no message that cannot be encoded waited at the head of its queue, and the calls of the handler start a read; for any transport and either duplex mode |
| DuplexProperties.HalfDuplexExclusion | transport/serial/serial_session.hpp:151-175 | from any reachable state in half duplex and until a switch to full duplex: read and write are both outstanding if and only if they were at the start and nothing has completed since |
| DuplexProperties.NoOverlappingStart | transport/serial/serial_session.hpp:151-175 | no run starts an operation in half duplex while the opposite one is in flight |
| DuplexProperties.SwitchLeavesBothInFlight | transport/serial/serial_session.hpp:131-136 | switching to half duplex stops neither of two operations in flight |
| DuplexProperties.BothInFlightInHalfDuplex | transport/serial/serial_session.hpp:131-136 | a run that ends in half duplex with a read and a write in flight |
| DuplexProperties.CompletionOwed | core/async_transport_session.hpp:211-221 | an open session with something queued waits for a write completion or, in half duplex, for a read completion |
| DuplexProperties.DrainBound | transport/serial/serial_session.hpp:164-175 | in a fixed mode the wait of an accepted message drops by one with each write completion and, in half duplex, each read completion, and is raised by nothing, although handlers keep sending |
| DuplexProperties.CompletedInTime | transport/serial/serial_session.hpp:233-253 | the message at queue position p is completed after p + 1 write completions, or two read completions in half duplex, unless the session closed |
| DuplexProperties.NoReadWhileOff | core/async_transport_session.hpp:64-68 | while reading is off only the read in flight completes, in any run that does not turn it on |
| DuplexProperties.NoReadAfterStop | core/async_transport_session.hpp:64-68 | after a stop, and until reading is started again, no run starts a read: only the one in flight can complete |
| DuplexProperties.FirstPoison | transport/can/can_session.hpp:343-392 | the position of the first message that cannot be encoded |
| DuplexProperties.ClosesExactlyAtPoison | transport/can/can_session.hpp:176-208 | without other failures and explicit close the session is closed if and only if the first unencodable accepted frame has become the head of the queue; everything before it completed, and neither it nor any later one is started |
| SerialTransport.Resize | transport/serial/serial_session.hpp:147-147 | resizing keeps the front of the buffer and fills up with zeros |
| SerialTransport.SerialSession.constructor | transport/serial/serial_session.hpp:262-270 | a full-duplex session with nothing queued, nothing outstanding and a buffer of the default size |
| SerialTransport.SerialSession.ApplyConfig | transport/serial/serial_session.hpp:75-111 | if the port refuses an option, or for an empty read buffer, nothing changes; otherwise mode and buffer are taken over, which keeps the invariant unless a read is in flight |
| SerialTransport.SerialSession.SetReadHandler | core/async_transport_session.hpp:36-45 | only the handler changes |
| SerialTransport.SerialSession.CanStartRead | transport/serial/serial_session.hpp:152-162 | agrees with the guard all run properties are proved about |
| SerialTransport.SerialSession.CanStartWrite | transport/serial/serial_session.hpp:165-175 | agrees with the guard all run properties are proved about |
| SerialTransport.SerialSession.DoRead | transport/serial/serial_session.hpp:178-183 | one more read is outstanding, with room for the whole current buffer |
| SerialTransport.SerialSession.DoWrite | transport/serial/serial_session.hpp:216-239 | the three outcomes: nothing queued, cancel and raise the flag, or the head of the queue is in flight |
| SerialTransport.SerialSession.ScheduleOperations | core/async_transport_session.hpp:211-221 | write before read, each only if its guard holds at its turn |
| SerialTransport.SerialSession.Send | core/async_transport_session.hpp:228-235 | after a close nothing; else the message is appended and operations are scheduled |
| SerialTransport.SerialSession.Close | core/async_transport_session.hpp:91-102 | once only: reading off, queue empty, outstanding operations left to complete |
| SerialTransport.SerialSession.StartReading | core/async_transport_session.hpp:50-59 | after a close nothing; else reading is on and operations are scheduled |
| SerialTransport.SerialSession.StopReading | core/async_transport_session.hpp:64-68 | reading is off; a read in flight stays |
| SerialTransport.SerialSession.SetDuplexMode | transport/serial/serial_session.hpp:131-136 | the mode changes and operations are scheduled; what is in flight stays |
| SerialTransport.SerialSession.SetReadBufferSize | transport/serial/serial_session.hpp:141-149 | ignored during a read and for size zero; else the buffer is resized and keeps its front |
| SerialTransport.SerialSession.Perform | transport/serial/serial_session.hpp:131-149 | any client call, made as a task or inside a handler |
| SerialTransport.SerialSession.RunHandler | core/async_transport_session.hpp:202-206 | the calls of a handler take effect one after the other, before the completion goes on |
| SerialTransport.SerialSession.NotifyRead | core/async_transport_session.hpp:202-206 | an installed handler is called once; without one nothing happens |
| SerialTransport.SerialSession.OnRead | transport/serial/serial_session.hpp:186-210 | abort of a preempted read, error, and data: in the last two cases the callback comes before closing or scheduling, and the data is what was received |
| SerialTransport.SerialSession.ConsumeWrite | core/async_transport_session.hpp:165-169 | the head is removed, if there is one |
| SerialTransport.SerialSession.OnWrite | transport/serial/serial_session.hpp:238-251 | on error the session closes, on success the head is consumed and operations are scheduled |
| SerialTransport.SerialSession.RunTask | transport/serial/serial_session.hpp:131-254 | one task of the strand takes the object to the state the specification gives, and the class invariant is kept |
| SerialTransport.SerialSession.Run | transport/serial/serial_session.hpp:131-254 | any run of tasks takes the object through exactly the steps of the specification |
| SerialTransport.DataCallbacksAreReads | transport/serial/serial_session.hpp:203-208 | with a handler always installed the data callbacks are the chunks of the successful reads |
| SerialTransport.ReadConservation | transport/serial/serial_session.hpp:178-213 | over every run the data callbacks are the bytes of the successful reads: none lost, repeated or reordered |
| PlainSession.AsyncSession.constructor | core/async_session.hpp:230-239 | starts in the state of a fresh serial session |
| PlainSession.AsyncSession.CanStartRead | core/async_session.hpp:121-131 | agrees with the guard of the plain scheduler |
| PlainSession.AsyncSession.CanStartWrite | core/async_session.hpp:133-143 | agrees with the guard of the plain scheduler |
| PlainSession.AsyncSession.DoRead | core/async_session.hpp:155-160 | one more read is outstanding |
| PlainSession.AsyncSession.DoWrite | core/async_session.hpp:185-191 | the head of the queue is in flight |
| PlainSession.AsyncSession.ScheduleOperations | core/async_session.hpp:145-153 | write before read, each only if its guard holds at its turn |
| PlainSession.AsyncSession.Send | core/async_session.hpp:96-110 | the posted send appends and schedules |
| PlainSession.AsyncSession.StartReading | core/async_session.hpp:82-87 | the posted start turns reading on and schedules |
| PlainSession.AsyncSession.StopReading | core/async_session.hpp:89-93 | the posted stop turns reading off |
| PlainSession.AsyncSession.SetDuplexMode | core/async_session.hpp:54-59 | the posted change of mode schedules |
| PlainSession.AsyncSession.SetReadBufferSize | core/async_session.hpp:72-80 | ignored during a read and for size zero |
| PlainSession.AsyncSession.SetReadHandler | core/async_session.hpp:61-70 | only the handler changes |
| PlainSession.AsyncSession.OnRead | core/async_session.hpp:162-180 | on an error the handler is told and the socket closed; else it gets the bytes received, then operations are scheduled |
| PlainSession.AsyncSession.OnWrite | core/async_session.hpp:193-206 | on an error the socket is closed; else the head is removed, then operations are scheduled |
| PlainSession.AsyncSession.Close | core/async_session.hpp:112-118 | reading off, queue empty, socket closed; outstanding operations left to complete |
| PlainSession.AsyncSession.CloseSocket | core/async_session.hpp:217-226 | closed afterwards, and nothing else changes |
| PlainSession.AsyncSession.NotifyRead | core/async_session.hpp:211-215 | an installed handler is called once |
| PlainSession.AsyncSession.Perform | core/async_session.hpp:54-118 | any posted client call |
| PlainSession.AsyncSession.RunTask | core/async_session.hpp:54-209 | one task takes the object to the state the specification gives, and a read in flight keeps the whole buffer |
| PlainSession.AsyncSession.Run | core/async_session.hpp:54-209 | any run of tasks takes the object through exactly the steps of the specification |
| PlainSession.PlainRuns | core/async_session.hpp:54-226 | over every run, with closes and errors: closed if and only if some task closed the socket, each completed read called the installed handler once, reading is as the clients switched it, while open the messages sent are the completed ones and the queue, and nothing is left to start |
| PlainSession.PlainNothingAfterClose | core/async_session.hpp:112-118 | a close leaves nothing queued and reading off, and nothing is started in any continuation |
| PlainSession.LockStep | core/async_session.hpp:121-209 | on runs without close, error and calls from handlers a serial session starts the same operations in the same order and makes the same callbacks as the plain half-duplex scheduler, with equal flags and queue after every task |
| CanCodec.ImageParts | transport/can/can_session.hpp:343-392 | where an encoded frame has its id word, length, flags and data, and that everything behind the data is zero |
| CanCodec.DecodeImage | transport/can/can_session.hpp:290-341 | decoding an encoded frame gives its normal form |
| CanCodec.RoundTrip | transport/can/can_session.hpp:311-392 | every accepted frame comes back in normal form, and comes back unchanged if and only if it is canonical |
| CanCodec.NormalIffCanonical | transport/can/can_frame.hpp:12-37 | the frames equal to their normal form are those with a 29-bit id, no error flag, zeros behind the data and FD flags only on FD frames |
| CanCodec.EncodeInjective | transport/can/can_session.hpp:343-392 | canonical frames with the same image are the same frame |
| CanCodec.WireStability | transport/can/can_session.hpp:290-392 | decoding and encoding again gives the same bytes if and only if bit 29 of the id is clear |
| CanCodec.ReencodeImage | transport/can/can_session.hpp:290-392 | a received image is reproduced byte for byte if and only if its length is legal, padding and tail are zero, the error flag is clear and no FD flag but BRS and ESI is set |
| CanCodec.EncodesExactly | transport/can/can_session.hpp:343-375 | a frame is refused if and only if it is FD while FD is off or has more data than room; an image has 72 or 16 bytes |
| CanCodec.DecodesExactly | transport/can/can_session.hpp:290-309 | exactly the two image sizes are decoded, and the reported length is kept even beyond the data area |
| CanCodec.DecodeKernel | transport/can/can_session.hpp:311-341 | two images of one size decode to the same frame if and only if they agree in id word, length, BRS and ESI, and the data up to length and area |
| CanFilters.FaithfulAgrees | transport/can/can_session.hpp:256-272 | for data packets a faithful filter means to the kernel what it says |
| CanFilters.UnfaithfulDiffers | transport/can/can_session.hpp:256-272 | any other filter misjudges some data packet |
| CanFilters.FaithfulIsExact | transport/can/can_session.hpp:256-272 | for ids and masks of 32 bits, a filter is translated correctly for all data packets if and only if it is faithful: bit 29 clear in both, and the mask on a flag bit only where the filter asks for the flag and its id leaves the bit clear; or it means no packet and the kernel passes none |
| CanFilters.FilterTranslation | transport/can/can_session.hpp:252-285 | with faithful filters a data packet is delivered if and only if some configured filter accepts the frame it decodes to, or none is configured |
| CanFilters.FaithfulListsAreExact | transport/can/can_session.hpp:252-285 | all lists drawn from a set of filters are translated correctly if and only if all filters of the set are faithful |
| CanFilters.ExtendedShutOutExactly | transport/can/can_config.hpp:17-18 | the exact condition under which a filter without the extended flag keeps all extended data packets out |
| CanFilters.PlainFiltersAreFaithful | transport/can/can_config.hpp:12-21 | a filter with a mask within 29 bits is translated correctly if and only if its id leaves bit 29 clear |
| CanFilters.StandardFilterAdmitsExtended | transport/can/can_config.hpp:17-18 | a filter without the extended flag takes extended and standard frames alike |
| CanFilters.RawFilters | transport/can/can_session.hpp:256-272 | one raw filter for each configured one, in order |
| CanTransport.CanSession.constructor | transport/can/can_session.hpp:394-397 | a full-duplex session with a zeroed buffer of one FD image |
| CanTransport.CanSession.EncodeFrame | transport/can/can_session.hpp:343-392 | the image of the frame, or nothing for a frame that is too long or FD while FD is off |
| CanTransport.CanSession.EncodeId | transport/can/can_session.hpp:351-357 | the id with the flag bits or-ed in |
| CanTransport.CanSession.CopyData | transport/can/can_session.hpp:366-368 | the copying loop yields the data followed by zeros |
| CanTransport.CanSession.UnpackData | transport/can/can_session.hpp:337-339 | the copying loop stops at the length or the size of the data area, whichever is less |
| CanTransport.CanSession.DecodeFrame | transport/can/can_session.hpp:290-309 | the result depends on the bytes transferred alone, not on older ones behind them; any length but the two image sizes is refused and leaves the last frame |
| CanTransport.CanSession.TranslateFilters | transport/can/can_session.hpp:252-272 | no list is set if no filter is configured; else the loop builds the raw filter of each, in order |
| CanTransport.CanSession.TranslateFilter | transport/can/can_session.hpp:257-271 | the required flags are set in id and mask |
| CanTransport.CanSession.CanStartRead | transport/can/can_session.hpp:132-134 | agrees with the full-duplex guard all run properties are proved about |
| CanTransport.CanSession.CanStartWrite | transport/can/can_session.hpp:137-139 | agrees with the full-duplex guard all run properties are proved about |
| CanTransport.CanSession.DoRead | transport/can/can_session.hpp:142-148 | one more read is outstanding, with room for an FD image |
| CanTransport.CanSession.DoWrite | transport/can/can_session.hpp:176-192 | a frame that cannot be encoded closes the session, any other is in flight |
| CanTransport.CanSession.ScheduleOperations | core/async_transport_session.hpp:211-221 | write before read, and no read if the write closed the session |
| CanTransport.CanSession.SetReadHandler | core/async_transport_session.hpp:36-45 | only the handler changes |
| CanTransport.CanSession.Send | core/async_transport_session.hpp:228-235 | after a close nothing; else the frame is appended and operations are scheduled |
| CanTransport.CanSession.Close | core/async_transport_session.hpp:91-102 | once only: reading off, queue empty, outstanding operations left to complete |
| CanTransport.CanSession.StartReading | core/async_transport_session.hpp:50-59 | after a close nothing; else reading is on and operations are scheduled |
| CanTransport.CanSession.StopReading | core/async_transport_session.hpp:64-68 | reading is off; a read in flight stays |
| CanTransport.CanSession.Perform | core/async_transport_session.hpp:50-102 | any client call, made as a task or inside a handler |
| CanTransport.CanSession.RunHandler | core/async_transport_session.hpp:202-206 | the calls of a handler take effect one after the other, before the completion goes on |
| CanTransport.CanSession.NotifyRead | core/async_transport_session.hpp:202-206 | an installed handler is called once; without one nothing happens |
| CanTransport.CanSession.StoreBytes | transport/can/can_session.hpp:145-146 | a read overwrites the front of the buffer and leaves older bytes behind it |
| CanTransport.CanSession.OnRead | transport/can/can_session.hpp:149-170 | error, undecodable image and frame: in every case the callback comes before closing or scheduling |
| CanTransport.CanSession.OnWrite | transport/can/can_session.hpp:195-207 | on error the session closes, on success the head is consumed and operations are scheduled |
| CanTransport.CanSession.RunTask | transport/can/can_session.hpp:132-217 | one task of the strand takes the object to the state the specification gives, and the class invariant is kept |
| CanTransport.CanSession.Run | transport/can/can_session.hpp:132-217 | any run of tasks takes the object through exactly the steps of the specification |
| CanTransport.OnlySendableFramesStart | transport/can/can_session.hpp:176-188 | in no run does a frame reach the wire that is FD while FD is off or has more data than room |
| CanTransport.CanClosesExactly | transport/can/can_session.hpp:176-208 | over every run a CAN session is closed if and only if some task closed it or such a frame has become the head of the queue |
| CanPipeline.LinkSafe | transport/can/can_session.hpp:142-210 | in every run of two joined sessions the bus carries the images of the first frames started, and the receiver delivered the normal forms of those it has read |
| CanPipeline.DeliveredArePrefixOfAccepted | transport/can/can_session.hpp:142-210 | delivered frames are at every moment the normal forms of the first accepted ones, and all of them once the sender is idle and the bus drained |
| SerialBenchmark.MakePayload | example/serial_benchmark.cpp:83-90 | a payload has the chosen size, carries its sequence number in front and the pattern behind it |
| SerialBenchmark.ToWordWraps | example/serial_benchmark.cpp:131-131 | the number sent is the count modulo 2^32 |
| SerialBenchmark.ProgramPayloads | example/serial_benchmark.cpp:83-90 | the program numbers payloads modulo 2^32 and fills each byte with the low byte of its position |
| SerialBenchmark.Benchmark.constructor | example/serial_benchmark.cpp:116-124 | nothing sent, received or pending |
| SerialBenchmark.Benchmark.FillPayload | example/serial_benchmark.cpp:83-90 | the loop yields exactly the payload with that number |
| SerialBenchmark.Benchmark.SendNext | example/serial_benchmark.cpp:126-136 | sends the payload with the next number, unless all samples were sent |
| SerialBenchmark.NeverOversends | example/serial_benchmark.cpp:126-129 | nothing is sent beyond the samples asked for |
| SerialBenchmark.Benchmark.ExtractPayload | example/serial_benchmark.cpp:151-183 | one turn of the loop: mismatch, last sample, or next payload |
| SerialBenchmark.Benchmark.ExtractPayloads | example/serial_benchmark.cpp:151-183 | the loop ends with less than a payload pending or the client done, and its calls on the session are the new payloads and then the close |
| SerialBenchmark.Benchmark.OnData | example/serial_benchmark.cpp:149-183 | the new bytes go behind the pending ones, then the loop runs |
| SerialBenchmark.Benchmark.OnRead | example/serial_benchmark.cpp:138-185 | an error ends the client as failed and closes the session; data is handed on |
| SerialBenchmark.AccountsExtracted | example/serial_benchmark.cpp:151-183 | a turn of the loop keeps the books: payloads received are numbered 0, 1, 2 and so on, one more is sent than received, and a mismatch is the only failure |
| SerialBenchmark.FedAllExplains | example/serial_benchmark.cpp:149-183 | whatever the chunks, the client cut whole payloads off the front of the stream, and while it runs less than one is left over |
| SerialBenchmark.ExplanationIsUnique | example/serial_benchmark.cpp:149-183 | the stream determines the payloads extracted, the counters and the outcome |
| SerialBenchmark.ChunkIndependence | example/serial_benchmark.cpp:149-183 | two ways of cutting up the same stream lead to the same payloads, counters, outcome and messages sent, and to the same leftover while running |
| SerialBenchmark.HandledAllExplains | example/serial_benchmark.cpp:138-185 | over any callbacks, data and errors: after an error the books are those before it, otherwise those of the bytes received |
| SerialBenchmark.Verdict | example/serial_benchmark.cpp:138-180 | the client ends in success if and only if all samples were received, and fails if and only if a read error came first or a payload cut out of the echo carries the wrong number |
| EchoSystem.ClientDrivesSession | example/serial_benchmark.cpp:138-183 | for any callback the session is closed if and only if the client is then done, and while open it accepts exactly the payloads the client sent |
| EchoSystem.StepKeeps | transport/serial/serial_session.hpp:178-254 | every step of the client, session and device system keeps its invariant and brings it nearer to its end |
| EchoSystem.Progress | example/serial_benchmark.cpp:126-188 | while the client is not done some byte or completion is still to come |
| EchoSystem.NeverFails | example/serial_benchmark.cpp:138-185 | with a faithful echo no mismatch is ever reported, until done exactly one payload more is sent than received, its number being the expected one, and the session is closed exactly when the client is done |
| EchoSystem.RunsEndWithAllSamples | example/serial_benchmark.cpp:175-180 | every run is bounded, and one that cannot go on has measured exactly the samples asked for |
| ServerSessions.WebSocketServerSession.constructor | transport/websocket/websocket_server_session.hpp:190-206 | no close handler, not closed, nothing notified |
| ServerSessions.WebSocketServerSession.SetCloseHandler | transport/websocket/websocket_server_session.hpp:94-101 | only the close handler changes |
| ServerSessions.WebSocketServerSession.StartHandshake | transport/websocket/websocket_server_session.hpp:40-80 | the handshake is under way, or the session is closed and the failure reported |
| ServerSessions.WebSocketServerSession.OnHandshake | transport/websocket/websocket_server_session.hpp:64-76 | the outcome is reported once, after closing on failure |
| ServerSessions.WebSocketServerSession.Close | core/async_transport_session.hpp:91-102 | once only, through `close_transport` |
| ServerSessions.WebSocketServerSession.CloseTransport | transport/websocket/websocket_server_session.hpp:174-188 | the close is notified once, and only to a handler that is installed |
| ServerSessions.NotifiesOnce | transport/websocket/websocket_server_session.hpp:174-188 | closing the transport twice notifies once, and only if there was a handler the first time |
| ServerSessions.ClosesOnce | core/async_transport_session.hpp:91-102 | a close call closes in whatever state, and a second one changes nothing |
| WebSocketServers.WebSocketServer.constructor | transport/websocket/websocket_server.hpp:77-81 | not started, no session active, no session handler |
| WebSocketServers.WebSocketServer.SetSessionHandler | transport/websocket/websocket_server.hpp:43-50 | only the session handler changes |
| WebSocketServers.WebSocketServer.DoAccept | transport/websocket/websocket_server.hpp:118-119 | one more accept is outstanding |
| WebSocketServers.WebSocketServer.StartAccepting | transport/websocket/websocket_server.hpp:52-61 | the first start issues one accept, a second changes nothing |
| WebSocketServers.WebSocketServer.StopAccepting | transport/websocket/websocket_server.hpp:63-74 | the loop closes each session active at entry exactly once, and no other |
| WebSocketServers.WebSocketServer.OnAccept | transport/websocket/websocket_server.hpp:121-162 | a session is created only for a connection accepted while started, an error is passed to the session handler, and the next accept is issued unless stopped or aborted |
| WebSocketServers.WebSocketServer.OnStartResult | transport/websocket/websocket_server.hpp:149-156 | only a successful session becomes active; the session handler gets it, or the error and no session |
| WebSocketServers.HandedOutIsActive | transport/websocket/websocket_server.hpp:149-156 | a session is handed out only by the task that makes it active |
| WebSocketServers.WebSocketServer.OnErase | transport/websocket/websocket_server.hpp:140-144 | the session is no longer active |
| ServerSystem.StepKeeps | transport/websocket/websocket_server.hpp:52-164 | every step of server, sessions, users and network keeps the invariant of the system |
| ServerSystem.ActiveSetAgrees | transport/websocket/websocket_server.hpp:139-159 | in every reachable state a session is active if and only if its successful report was processed and its close notification was not; each is posted at most once, a successful report before the notification and a failure behind it; a failed handshake is never active |
| ServerSystem.DrainedAgreement | transport/websocket/websocket_server_session.hpp:64-76 | once all queues are empty every connection was reported, the active sessions are exactly those handshaken and not closed, and each of them was reported after every stop |
| ServerSystem.ActiveExactly | transport/websocket/websocket_server.hpp:63-74 | once all queues are empty a session is active if and only if its handshake succeeded, no user closed it, and no stop ran behind its report; so none is active if and only if every successful handshake was followed by one of the two |
| ServerSystem.OneAcceptUnderWay | transport/websocket/websocket_server.hpp:118-164 | the server is started exactly between its start and its stop; then one accept is under way unless one was aborted, and never more |
| ServerSystem.EveryConnectionHasASession | transport/websocket/websocket_server.hpp:139-161 | in every reachable state there are exactly as many sessions as connections accepted while started |
| ServerSystem.EveryConnectionIsReported | transport/websocket/websocket_server.hpp:145-159 | once all queues are empty each such connection has been reported exactly once, numbered in the order of acceptance |
| ServerSystem.UsersAreTold | transport/websocket/websocket_server.hpp:129-155 | over every run the session handler is handed exactly the sessions of the successful reports, in order, and told of each failed report and each failed or aborted accept while started |
| ServerSystem.NoSessionAfterStop | transport/websocket/websocket_server.hpp:63-74 | after a stop no session is created and no accept issued, in any continuation |
| ServerSystem.HandshakeOutlivesStop | transport/websocket/websocket_server.hpp:70-72 | a run in which a session becomes active after the stop, and stays so with all queues empty |

## Left out

- Opening and configuring devices and sockets, name resolution, listening, and the inside of the WebSocket handshake: foreign calls; only their outcome appears.
- Boost.Asio and Beast: strands are taken to run one task at a time in order, and every started operation to complete once.
- Lifetimes of objects and of the buffers handed to a write while `close` clears the queue: the bytes of a write are those captured at its start.
- Several handlers installed one after the other, or from inside a handler: only whether there is one matters for what is proved.
- Direct calls of the public `do_read`, `do_write` and `close_transport`: not the client interface.
- Integer widths of counters and lengths (`size_t`): taken as unbounded.
- SerialTransport.SerialSession.ApplyConfig: which options the port takes is left to the environment, all of them together.
- PlainSession.AsyncSession.OnWrite: a success when the queue is empty, which can follow a close, is left out: the program then pops an empty queue, which is undefined.
- WebSocketServers.WebSocketServer.StopAccepting: the removal of sessions from the set during the loop, by close handlers that run at once, is left out; removals are tasks queued behind the stop.
- What users do with a session they are handed appears only as closes at any later time.
- CanPipeline.DeliveredArePrefixOfAccepted: the kernel drops FD frames for a receiver without FD; here nothing is lost, and such a receiver stops in front of the first one.
- ServerSessions.WebSocketServerSession.StartHandshake: setting TCP_NODELAY succeeds or fails at will, and a configuration without it counts as success.
- Reading and writing of WebSocket sessions, and the WebSocket client session: further instances of the session template, with a codec that does nothing.
- Starting a server again after a stop: two accept loops could then run at the same time.
- The CAN and WebSocket benchmarks: the same stop-and-wait client on message transports, without reassembly.
- Latency statistics, option parsing, printing and the timeout thread of the benchmarks, and the allocation check of the tests.
