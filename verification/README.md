# A verified model of the Wi-SUN/Spinel host daemon

The daemon talks to a network co-processor (NCP) over a serial link. This project models the
parts of it in which something can go subtly wrong, and proves what they promise:

- **The serial link** (`Crc`, `ErrorDetection`, `Hdlc`, `EscapedBuffer`, `DataPump`). Frames are escaped, checked
  with a CRC-16 and wrapped in flags, as in section 4.2 and appendix C.2 of RFC 1662, with the
  reserved octets of the HDLC-Lite appendix of draft-rquattle-spinel-unified. The table-driven
  CRC is proved equal to the bit-by-bit shift register, the octet-by-octet decoder to a decoder
  that looks at whole pieces, and the two pumps, which work in place on fixed buffers, to both.
- **The outbound slot** (`OutboundPump`): one buffer and one callback shared by the control
  thread, the front task and the packet reader, as a transition system over every interleaving of
  their steps with partial writes, failures and resets.
- **Task scheduling** (`TaskQueue`, `ResetLoop`, `ResetTasks`) and **the command sequence** (`SendCommand`): one-shot
  callbacks that may start further tasks, the wake task in front of a task queued while asleep,
  the draining and reset loops, and the lock, list and unlock of a command task.
- **Codecs** (`Spinel`, `ThreadDataset`, `Channels`, `DBusValues`): what survives being written
  and read back, and exactly when.
- **The on-mesh prefix table** (`OnMeshPrefixes`) and its reconciliation with a full report.
- **Data structures** (`RingBuffer`, `IPv6`, `PacketMatcher`): the ring buffer as a bounded queue,
  prefix masking, and the ordered set of packet rules.

Where the program changes things in place the model is a class or a method over arrays, proved
against a function on values; what is promised is then proved of that function. A task's reactions,
the fates of commands, the order in which a multimap is visited, reads, writes and timeouts come
from outside and are quantified over.

Some promises are not kept on all inputs. The model follows the code, and says exactly when they
hold:

- an encoded frame fits the escaped buffer for all payloads of a length only up to 1297 octets
  (`AllHaveRoomIff`), although the slot takes commands of up to 1299 octets and packets and saved
  settings of up to 1300, and nothing tests it; a frame whose write completes is sure to arrive only if
  it has at most 1298 octets and fits (`AlwaysArrivesIff`);
- a command loaded before the pump comes to the head of its loop is told Canceled and written all the same
  (`EarlyCommandIsCanceledYetWritten`); a command whose callback is still unfired when its write ends is
  told how it ended, always (`EveryWriteIsAnswered`);
- resetting the task queue ends only if the tasks that callbacks queue are nested finitely deep
  (`EndsIff`), that is, with finitely many kinds of task, if none leads back to itself
  (`EndsIffNoneLeadsBack`);
- a command task that reports Ok vouches for its whole list only if the list has at most one command,
  or ends in one that can never be sent (`OkMeansAllSucceededIff`);
- a channel list stays inside its table only if all its ranges do (`ConvertChannelList`), and may name
  channel 128 but never sends it (`SentIsNamedIff`);
- a pop of zero elements from a full ring keeps the queue only if the ring starts at the first place
  (`PopZeroFromFullIff`), and swaps two elements after three forced writes (`PopZeroSwapsTwo`);
- map entries holding C strings or sets of int are written with a wrong signature
  (`SignaturesMatchIff`) and do not come back (`ReceiveWritten`, `CStringEntryIsLost`);
- a rule learnt from a packet with next header 254 does not match it (`LearntRuleMatchesItsPacket`).

Where a comment in the source and the code differ, as in the command loop, which tests a status that
its body does not update, the code is followed.

`dafny verify dfyconfig.toml` checks the whole project.

## Model

| member | source | states |
|---|---|---|
| Crc.FcsIsClockAll | src/ncp-spinel/SpinelNCPInstance-DataPump.cpp:88-130 | for every octet sequence and start value the table-driven CRC holds what the bit-by-bit shift register of the polynomial x^16+x^12+x^5+1 holds |
| Crc.LookupIsEightClocks | src/ncp-spinel/SpinelNCPInstance-DataPump.cpp:95-129 | each of the 256 table entries is what eight clocks of the idle register make of its index |
| Crc.Crc16IsEightClocks | src/ncp-spinel/SpinelNCPInstance-DataPump.cpp:130-130 | one table step is eight clocks of the register on the bits of the octet, whatever the register held |
| ErrorDetection.AcceptsIffGoodResidue | src/ncp-spinel/SpinelNCPInstance-DataPump.cpp:259-279 | comparing the inverted running CRC with the trailing octets accepts exactly the frames whose CRC over everything is 0xF0B8 |
| ErrorDetection.SentFrameAccepted | src/ncp-spinel/SpinelNCPInstance-DataPump.cpp:547-573 | every payload followed by the check octets that are sent passes the check |
| ErrorDetection.ClockAllInjective | src/ncp-spinel/SpinelNCPInstance-DataPump.cpp:88-130 | different register contents stay different over any common input |
| ErrorDetection.WindowInjective | src/ncp-spinel/SpinelNCPInstance-DataPump.cpp:88-130 | different inputs of at most sixteen bits lead one register content to different ones |
| ErrorDetection.BurstDetected | src/ncp-spinel/SpinelNCPInstance-DataPump.cpp:259-279 | an accepted frame changed only within sixteen consecutive bits, anywhere, is refused, at any length |
| ErrorDetection.OddChangeDetected | src/ncp-spinel/SpinelNCPInstance-DataPump.cpp:259-279 | an accepted frame changed in an odd number of bits, anywhere, is refused |
| ErrorDetection.AdjacentOctetsDetected | src/ncp-spinel/SpinelNCPInstance-DataPump.cpp:259-279 | an accepted frame changed in one octet or in two adjacent octets is refused |
| Hdlc.Resynchronises | src/ncp-spinel/SpinelNCPInstance-DataPump.cpp:241-279 | after any octets at all, the encodings of any payloads deliver what the octets and one flag deliver, then those payloads in order |
| Hdlc.RoundTripIff | src/ncp-spinel/SpinelNCPInstance-DataPump.cpp:530-573 | one encoded payload is delivered, and alone, exactly when it has between 1 and buffer size minus 2 octets |
| Hdlc.DecodeEncoded | src/ncp-spinel/SpinelNCPInstance-DataPump.cpp:241-279 | one encoded payload is delivered from any state of the decoder, after what its first flag completes, and leaves the decoder at the start of a frame |
| Hdlc.DecodeIsReference | src/ncp-spinel/SpinelNCPInstance-DataPump.cpp:241-279 | on every octet stream the octet-by-octet decoder delivers what splitting at flags, undoing escapes and checking each piece as a whole delivers, an oversize piece starting afresh |
| Hdlc.DamageNotDelivered | src/ncp-spinel/SpinelNCPInstance-DataPump.cpp:259-279 | a body damaged within sixteen consecutive bits, or in an odd number of bits, is not delivered and the decoder is ready for the next frame |
| Hdlc.DeliveredLengths | src/ncp-spinel/SpinelNCPInstance-DataPump.cpp:269-273 | whatever is delivered has at least one octet and fits the buffer |
| Hdlc.EscapedIsTransparent | src/ncp-spinel/SpinelNCPInstance-DataPump.cpp:72-86 | no reserved octet but the escape itself appears between the flags |
| Hdlc.EncodedLength | src/ncp-spinel/SpinelNCPInstance-DataPump.cpp:530-573 | the length of an encoded frame: its octets, one more for each reserved one, the check octets and the flags |
| Hdlc.EncodeInFigures | src/ncp-spinel/SpinelNCPInstance-DataPump.cpp:530-573 | every frame is a 0x7E, its octets and check octets with 0x7E, 0x7D, 0x11, 0x13 and 0xF8 written as 0x7D and 0x5E, 0x5D, 0x31, 0x33 and 0xD8 and all others as they are, and a 0x7E |
| Hdlc.ReceiveInFigures | src/ncp-spinel/SpinelNCPInstance-DataPump.cpp:241-279 | the receiver stores an octet as it is and one behind a 0x7D with bit 0x20 turned over, starts afresh at a 0x7E, escaped or not, and starts afresh rather than store a 1301st octet |
| Hdlc.CheckInFigures | src/ncp-spinel/SpinelNCPInstance-DataPump.cpp:557-567 | the check octets are the complement of the CRC, low octet first |
| EscapedBuffer.HasRoomIff | src/ncp-spinel/SpinelNCPInstance-DataPump.cpp:530-573 | an encoded frame fits the escaped buffer exactly when its octets, two check octets, two flags and its escapes are at most twice the frame buffer |
| EscapedBuffer.AllHaveRoomIff | src/ncp-spinel/SpinelNCPInstance-DataPump.cpp:530-573 | all payloads of a length fit the escaped buffer exactly when the length is at most the buffer size minus 3 |
| EscapedBuffer.TightestOverruns | src/ncp-spinel/SpinelNCPInstance-DataPump.cpp:530-573 | a payload of buffer size minus 2 octets, all reserved, with a reserved check octet, that does not fit |
| EscapedBuffer.FlagsOverrun | src/ncp-spinel/SpinelNCPInstance-DataPump.cpp:530-573 | from buffer size minus 1 octets on, a payload of flags does not fit |
| EscapedBuffer.LoopRestores | src/ncp-spinel/SpinelNCPInstance-DataPump.cpp:88-130 | six reserved octets that lead the CRC from its initial value back to it |
| DataPump.Receiver.Feed | src/ncp-spinel/SpinelNCPInstance-DataPump.cpp:243-279 | one octet moves the receiver, whose CRC lags two octets behind, as it moves the specified decoder, and a flag delivers the same frame |
| DataPump.CheckBody | src/ncp-spinel/SpinelNCPInstance-DataPump.cpp:269-279 | a body with the CRC of all but its last two octets is delivered exactly when those are its check octets |
| DataPump.Receiver.Pump | src/ncp-spinel/SpinelNCPInstance-DataPump.cpp:241-279 | reading a whole stream through the fixed buffer delivers exactly what the specified decoder delivers |
| DataPump.Receiver.constructor | src/ncp-spinel/SpinelNCPInstance-DataPump.cpp:241-242 | a new receiver is at the start of a frame |
| DataPump.EncodeFrame | src/ncp-spinel/SpinelNCPInstance-DataPump.cpp:530-573 | for every frame, filling the escaped buffer in place counts the octets of the specified encoding and leaves as much of it as fits, all of it exactly when there is room |
| DataPump.Loopback | src/ncp-spinel/SpinelNCPInstance-DataPump.cpp:530-573 | one frame encoded into the escaped buffer and pumped into a new receiver: given room, exactly that frame comes out if and only if it has 1 to 1298 octets |
| DataPump.EncodeBody | src/ncp-spinel/SpinelNCPInstance-DataPump.cpp:547-556 | the loop over the frame escapes every octet and carries the CRC of all of them, room or not |
| DataPump.PutTrailer | src/ncp-spinel/SpinelNCPInstance-DataPump.cpp:557-572 | the inverted CRC goes out low octet first, escaped, and then the closing flag, room or not |
| OutboundPump.EveryRunIsOrderly | src/ncp-spinel/SpinelNCPInstance-DataPump.cpp:385-626 | over every interleaving of loads, packet reads, partial writes, failures and resets: each callback fires at most once, after its load, and with Ok only after its frame was written without error; no loaded frame is overwritten before it is written; each write ends once |
| OutboundPump.EveryWriteIsAnswered | src/ncp-spinel/SpinelNCPInstance-DataPump.cpp:608-626 | in every run, the end of the write of a command whose callback has not fired is followed at once by that callback, with Ok if the write went well and with Failure if it failed |
| OutboundPump.StaleCallbackIsTold | src/ncp-spinel/SpinelNCPInstance-DataPump.cpp:385-392 | in every run, a callback found at the head of the loop is told Canceled while attached to the NCP and Failure while detached, and its frame stays in the slot |
| OutboundPump.OthersFireNothing | src/ncp-spinel/SpinelNCPInstance-DataPump.cpp:385-626 | in every run, no callback fires but at the head of the loop and at the end of a write |
| OutboundPump.CompletedAreLoaded | src/ncp-spinel/SpinelNCPInstance-DataPump.cpp:385-626 | in every run, the frames whose write completed are, octet for octet, those that were loaded and whose writes ended well, in that order |
| OutboundPump.WaitingCommandSucceeds | src/ncp-spinel/SpinelNCPInstance-DataPump.cpp:385-626 | the run of a command that is loaded while the pump waits: written whole, then told Ok |
| OutboundPump.FailedWriteIsTold | src/ncp-spinel/SpinelNCPInstance-DataPump.cpp:608-626 | a failed write empties the slot and tells its callback Failure |
| OutboundPump.ResetBeginsAgain | src/ncp-spinel/SpinelNCPInstance-DataPump.cpp:385-626 | a reset in the middle of a write begins it again from the start |
| OutboundPump.EarlyCommandIsCanceledYetWritten | src/ncp-spinel/SpinelNCPInstance-DataPump.cpp:385-626 | the run of a command that is loaded before the pump comes to the head of its loop: told Canceled, and then written all the same |
| OutboundPump.LoadsFindAllEmpty | src/ncp-spinel/SpinelNCPInstance.h:61-85 | in every run a command or a packet is loaded only when slot and callback are both empty, although the packet reader does not test the callback |
| OutboundPump.NoCallbackIsLost | src/ncp-spinel/SpinelNCPInstance-DataPump.cpp:385-626 | in every run, when no callback is set, every command loaded so far has had its callback fired |
| OutboundPump.CompletedFramesArrive | src/ncp-spinel/SpinelNCPInstance-DataPump.cpp:530-626 | in every run, a receiver of what went out on the wire gets every frame whose write completed, in order, that has 1 to 1298 octets and fits the escaped buffer, whatever was written of frames that do not fit and whatever was cut off by failures and resets; it may get others |
| OutboundPump.LoadedCanComplete | src/ncp-spinel/SpinelNCPInstance-DataPump.cpp:385-626 | from wherever any run has come to, a frame in the slot is at most four steps from a completed write: none gets stuck |
| OutboundPump.WithoutCallback | src/ncp-spinel/SpinelNCPInstance-DataPump.cpp:385-626 | without a callback, a detached NCP, a read that brings nothing or fails, and the end of a write lead back to the head of the loop, and from there to the frame in the slot or to waiting |
| OutboundPump.AlwaysArrivesIff | src/ncp-spinel/SpinelNCPInstance-DataPump.cpp:530-626 | a frame arrives in every run in which it alone is completed exactly when it has 1 to 1298 octets and fits the escaped buffer |
| OutboundPump.OnePacketFollows | src/ncp-spinel/SpinelNCPInstance-DataPump.cpp:385-626 | the run that reads one packet and writes it, with any octets if it does not fit |
| TaskQueue.CallbackExactlyOnce | src/ncp-spinel/SpinelNCPInstance.cpp:288-306 | in every run a task's callback is called at most once, exactly once when its owner is destroyed, and every task that is not queued is destroyed |
| TaskQueue.ResetSettlesAll | src/ncp-spinel/SpinelNCPInstance.cpp:5417-5424 | after a reset every task ever handed over has had its callback called exactly once |
| TaskQueue.ResetAll | src/ncp-spinel/SpinelNCPInstance.cpp:5417-5424 | resetting ends, with the queue empty, when each callback and reaction starts finitely many tasks, nested finitely deep, as they do in this model |
| TaskQueue.ResetReports | src/ncp-spinel/SpinelNCPInstance.cpp:5417-5424 | every task still waiting in the queue at a reset is told the status of the reset |
| ResetLoop.EndsIff | src/ncp-spinel/SpinelNCPInstance.cpp:5417-5424 | for any callbacks, given by what they add to the queue, resetting ends exactly when the tasks in the queue, and those their callbacks queue in turn, are nested finitely deep |
| ResetLoop.EndsIffNoneLeadsBack | src/ncp-spinel/SpinelNCPInstance.cpp:5417-5424 | with finitely many kinds of task, resetting ends exactly when no kind that the queue leads to leads back to itself |
| ResetLoop.CycleNeverWithin | src/ncp-spinel/SpinelNCPInstance.cpp:5417-5424 | a kind that leads back to itself is nested without end |
| ResetTasks.ResetFrontIsTurn | src/ncp-spinel/SpinelNCPInstance.cpp:5417-5424 | one turn of the reset loop of the task queue is one turn of this loop, the kind of a task being the callback it has left |
| ResetTasks.ResetIsLoop | src/ncp-spinel/SpinelNCPInstance.cpp:5417-5424 | the reset of the task queue is this loop, turn by turn, until the queue is empty |
| ResetTasks.StartAdds | src/ncp-spinel/SpinelNCPInstance.cpp:288-306 | what starting a task adds to the queue, with the callbacks left: tasks that are refused, that finish or end at once, that are queued, and wake tasks |
| ResetLoop.SelfQueueingNeverEnds | src/ncp-spinel/SpinelNCPInstance.cpp:5417-5424 | resetting never ends when a callback queues a task with the same callback |
| ResetLoop.TurnsThroughLevel | src/ncp-spinel/SpinelNCPInstance.cpp:5417-5424 | the loop works through the queue level by level: all tasks first, then all that their callbacks queued |
| TaskQueue.EventsInQueueOrder | src/ncp-spinel/SpinelNCPInstance-Protothreads.cpp:619-632 | in every run events go to tasks in the order of queueing, never back, and only when all tasks queued before are destroyed |
| TaskQueue.DrainStopsAtFirstWaiting | src/ncp-spinel/SpinelNCPInstance-Protothreads.cpp:619-632 | an event passes through the tasks that end on it and stops at the first one that does not |
| TaskQueue.EventReaches | src/ncp-spinel/SpinelNCPInstance-Protothreads.cpp:610-632 | in every run, an event reaches the front task and every task that those before it make way for by ending on it |
| TaskQueue.FaultStopsEvents | src/ncp-spinel/SpinelNCPInstance-Protothreads.cpp:610-618 | in the fault state an event changes nothing |
| TaskQueue.SleepingTaskIsPrecededByWake | src/ncp-spinel/SpinelNCPInstance.cpp:293-304 | in every run, a task other than a wake task that is queued while the NCP sleeps and can be woken joins the queue with a new wake task right before it, behind all that was there and all that its own start queued |
| TaskQueue.OtherTaskJoinsAlone | src/ncp-spinel/SpinelNCPInstance.cpp:293-304 | in every run, a wake task, or any task while the NCP is awake or cannot be woken, joins the queue alone, right behind what its own start queued |
| TaskQueue.QuietStartQueues | src/ncp-spinel/SpinelNCPInstance.cpp:288-306 | a task that only waits on its starting event is queued, calls nobody, and brings a wake task exactly when the NCP sleeps, can be woken, and it is not one itself |
| TaskQueue.WakeStaysInFront | src/ncp-spinel/SpinelNCPInstance.cpp:293-304 | in every run such a task has a wake task right before it until it reaches the front |
| TaskQueue.WakeRecursionIsOneDeep | src/ncp-spinel/SpinelNCPInstance.cpp:293-304 | starting the wake task only queues it: the recursion goes one level deep |
| TaskQueue.DetachedIsRefused | src/ncp-spinel/SpinelNCPInstance.cpp:290-292 | a task handed over while detached is told InvalidWhenDisabled, destroyed and not queued |
| TaskQueue.EndedAtOnceIsCanceled | src/ncp-spinel/SpinelNCPTask.cpp:39-51 | a task that ends on its starting event without finishing is told Canceled |
| TaskQueue.EndedIsCanceled | src/ncp-spinel/SpinelNCPTask.cpp:39-51 | a front task that ends without ever having finished is told Canceled, at once |
| TaskQueue.FinishIsReported | src/ncp-spinel/SpinelNCPTask.cpp:44-51 | a task that finishes while its callback is installed has that status reported |
| TaskQueue.FinishAtStartIsReported | src/ncp-spinel/SpinelNCPTask.cpp:44-51 | in every run, a task that finishes on its starting event has that status reported |
| TaskQueue.Run | src/ncp-spinel/SpinelNCPInstance-Protothreads.cpp:610-632 | the invariant behind these holds after every run of starts, events and resets |
| TaskQueue.Scheduler.StartNewTask | src/ncp-spinel/SpinelNCPInstance.cpp:288-306 | starting a task in place, nested starts included, is the specified transition |
| TaskQueue.Scheduler.FinishTask | src/ncp-spinel/SpinelNCPTask.cpp:44-51 | finishing in place calls an installed callback once and forgets it |
| TaskQueue.Scheduler.DestroyTask | src/ncp-spinel/SpinelNCPTask.cpp:39-42 | destruction finishes with Canceled first |
| TaskQueue.Scheduler.ProcessEvent | src/ncp-spinel/SpinelNCPInstance-Protothreads.cpp:610-632 | the draining loop is the specified transition, and does nothing in the fault state |
| TaskQueue.Scheduler.Reset | src/ncp-spinel/SpinelNCPInstance.cpp:5417-5424 | the reset loop, with tasks nested finitely deep, ends and is the specified transition |
| TaskQueue.Scheduler.constructor | src/ncp-spinel/SpinelNCPInstance.h:511 | at first there is no task |
| SendCommand.Task.Run | src/ncp-spinel/SpinelNCPTaskSendCommand.cpp:306-409 | a run attempts exactly the planned commands in order, each with its own fate, and reports exactly the stated status; seen from outside: lock and unlock bracket all or none of the list; a failed unlock decides; otherwise a refused lock, or else the last command of the list if it failed, is what is heard; otherwise the final check, Ok or Timeout, or else the unpacker of the reply |
| SendCommand.Task.SendList | src/ncp-spinel/SpinelNCPTaskSendCommand.cpp:337-351 | the loop sends the whole list whatever the replies, and the status of the last command counts |
| SendCommand.Task.SendNext | src/ncp-spinel/SpinelNCPTask.cpp:61-100 | one attempt is recorded with its outcome, whose status is what the next test sees |
| SendCommand.SendSucceeds | src/ncp-spinel/SpinelNCPTask.cpp:61-100 | a command succeeds exactly when it fits, finds the slot free, is written and answered, with an OK answer unless it is a reset |
| SendCommand.SendInFigures | src/ncp-spinel/SpinelNCPTask.cpp:61-100 | one attempt, in figures: a frame of 1 to 1299 octets is loaded if the slot is free; what is not loaded, written or answered has status 7; the answer to command 1 does not matter; any other answer is translated |
| SendCommand.TranslateIsFaithful | src/ncp-spinel/SpinelNCPInstance.cpp:307-350 | no failure status of the NCP is translated to Ok, and none but busy to Busy |
| SendCommand.TranslateInFigures | src/ncp-spinel/SpinelNCPInstance.cpp:307-350 | the ten NCP statuses that have a status of their own, in figures |
| SendCommand.TranslateOther | src/ncp-spinel/SpinelNCPInstance.cpp:307-350 | any other NCP status goes by its low 16 bits into 0xEA0000 to 0xEAFFFF |
| SendCommand.LockBracketsList | src/ncp-spinel/SpinelNCPTaskSendCommand.cpp:320-404 | what a run attempts, seen from outside: with a lock, lock first, the whole list in order if the lock was granted or busy and none of it otherwise, unlock last; without one, the list in order |
| SendCommand.UnlockFailureOverrides | src/ncp-spinel/SpinelNCPTaskSendCommand.cpp:389-406 | what a run reports when its last attempt, the unlock, failed: that status, whatever happened before |
| SendCommand.ReportsOkIff | src/ncp-spinel/SpinelNCPTaskSendCommand.cpp:337-404 | Ok is reported exactly when the lock was granted or busy, the last command succeeded, the final check (or else the reply unpacker) was content and the unlock succeeded |
| SendCommand.OkMeansAllSucceededIff | src/ncp-spinel/SpinelNCPTaskSendCommand.cpp:337-351 | Ok vouches for every command exactly when the list has at most one, or ends in one that can never be sent |
| SendCommand.FirstUnansweredReportsOk | src/ncp-spinel/SpinelNCPTaskSendCommand.cpp:337-351 | a run whose first command is never answered and that yet reports Ok, for every list of two or more whose last command fits |
| SendCommand.EmptyList | src/ncp-spinel/SpinelNCPTaskSendCommand.cpp:337-351 | what a run with an empty list reports: a busy lock as a failure, and without a lock whatever the status held before |
| SendCommand.DecisiveDecides | src/ncp-spinel/SpinelNCPTaskSendCommand.cpp:337-406 | what a run reports when its unlock, if any, went well: the status of a refused lock, or else of the last command if it failed, or else what the check or the unpacker says |
| Spinel.PackUintRoundTrip | third_party/openthread/src/ncp/spinel.c:765-900 | little-endian packing of n octets loses nothing below 256^n |
| Spinel.UintOfRoundTrip | third_party/openthread/src/ncp/spinel.c:384-550 | any octets read as a little-endian integer and packed again are the same octets |
| Spinel.UintRoundTrip | third_party/openthread/src/ncp/spinel.c:238-314 | a packed integer below the limit is read back with its length, whatever follows |
| Spinel.UintRoundTripIff | third_party/openthread/src/ncp/spinel.c:238-314 | a packed integer is read back, whatever follows, exactly when it is below 2097151 |
| Spinel.EncodeUintInFigures | third_party/openthread/src/ncp/spinel.c:290-314 | a packed integer takes one, two or three octets, seven bits each, lowest first, as stated |
| Spinel.UnpackPacked | third_party/openthread/src/ncp/spinel.c:384-550 | a fixed-width integer is read back, whatever follows, exactly when the data have at most 32767 octets |
| Spinel.DecodeUint | third_party/openthread/src/ncp/spinel.c:238-266 | a packed integer that is accepted is below the limit and lies within the data |
| Spinel.TextRoundTrip | third_party/openthread/src/ncp/spinel.c:550-590 | text is read back up to its first zero exactly if it looks like UTF-8 and has fewer than 32767 octets |
| Spinel.LooksLikeUtf8Iff | third_party/openthread/src/ncp/spinel.c:178-234 | what is taken for UTF-8 is exactly what is made up of one- to four-octet forms of numbers of up to 7, 11, 16 and 21 bits, overlong forms included |
| Spinel.BlockRoundTrip | third_party/openthread/src/ncp/spinel.c:593-645 | a block is read back, whatever follows, exactly when it is below the frame limit and the data below the packing limit |
| Spinel.UnpackBlock | third_party/openthread/src/ncp/spinel.c:593-645 | a block that is accepted lies within the data and below the frame limit |
| ThreadDataset.RoundTripIff | src/ncp-spinel/SpinelNCPThreadDataset.cpp:215-713 | parsing the written frame gives back the dataset exactly when every field that is set is good: data not empty, the name free of zeros and UTF-8, the entry below 1300 octets |
| ThreadDataset.ParseIsReplay | src/ncp-spinel/SpinelNCPThreadDataset.cpp:215-250 | parsing any written frame of up to fourteen entries drops, refuses or sets each field as its own entry says, in order, and fails if one is refused |
| ThreadDataset.InterpretsOwn | src/ncp-spinel/SpinelNCPThreadDataset.cpp:253-480 | the entry written for a field is read as that field, as the field with its name cut short, or refused, as stated |
| ThreadDataset.ReplayOutcome | src/ncp-spinel/SpinelNCPThreadDataset.cpp:215-250 | after a successful parse each field holds what its own entry says and no other |
| ThreadDataset.SameFields | src/ncp-spinel/SpinelNCPThreadDataset.cpp:37-53 | two datasets that agree under all fourteen keys are equal |
| ThreadDataset.PayloadInFigures | src/ncp-spinel/SpinelNCPThreadDataset.cpp:483-713 | the octets written for each kind of field: its key, and its value as stated |
| ThreadDataset.WrittenInOrder | src/ncp-spinel/SpinelNCPThreadDataset.cpp:483-713 | of every dataset the fields that are set are written, and no others, in the order stated |
| ThreadDataset.InterpretsIff | src/ncp-spinel/SpinelNCPThreadDataset.cpp:253-480 | on any entry, whoever wrote it: exactly the fourteen keys are known, and a known key is taken exactly when its value is long enough, not empty, a prefix of 64 bits, channels below 32, or text, as stated |
| ThreadDataset.ReadsWhatIsThere | src/ncp-spinel/SpinelNCPThreadDataset.cpp:253-480 | on any entry that is taken: the field read has that key and would be written as the octets that were there, a mask holding exactly the channels listed |
| ThreadDataset.ParsesEntry | src/ncp-spinel/SpinelNCPThreadDataset.cpp:215-250 | any entry at the head of a frame: a known one is stored, an unknown one skipped, and a bad one makes the frame be refused |
| ThreadDataset.OperationalDataset.SetFromSpinelFrame | src/ncp-spinel/SpinelNCPThreadDataset.cpp:215-250 | the parsing loop sets what the frame says, and a frame that fails to parse leaves all fourteen fields unset |
| ThreadDataset.OperationalDataset.ConvertToSpinelFrame | src/ncp-spinel/SpinelNCPThreadDataset.cpp:483-713 | appending the entry of each field that is set, in the fixed order, gives exactly the specified frame |
| ThreadDataset.OperationalDataset.ParseDatasetEntry | src/ncp-spinel/SpinelNCPThreadDataset.cpp:253-480 | the switch over the keys sets one field, ignores an unknown key, or fails and changes nothing |
| ThreadDataset.OperationalDataset.Store | src/ncp-spinel/SpinelNCPThreadDataset.cpp:253-480 | storing a field changes that field only |
| ThreadDataset.OperationalDataset.Clear | src/ncp-spinel/SpinelNCPThreadDataset.cpp:37-53 | clearing unsets all fourteen fields |
| ThreadDataset.OperationalDataset.constructor | src/ncp-spinel/SpinelNCPThreadDataset.h:32-89 | a new dataset has no field set |
| Channels.UnpackChannelMask | src/ncp-spinel/SpinelNCPInstance.cpp:681-714 | the unpacking loop gives the mask of the listed channels, and fails exactly when one is 32 or more |
| Channels.ConvertChannelMask | src/ncp-spinel/SpinelNCPInstance.cpp:4419-4434 | the packing loop lists the channels of the mask |
| Channels.ChannelsOfSorted | src/ncp-spinel/SpinelNCPInstance.cpp:4419-4434 | packing lists every channel of the mask once, in increasing order |
| Channels.MaskRoundTrip | src/ncp-spinel/SpinelNCPInstance.cpp:681-714 | unpacking a packed 32-bit mask is the identity |
| Channels.RepackSorts | src/ncp-spinel/SpinelNCPInstance.cpp:4419-4434 | packing an unpacked list gives the one increasing list of the same channels |
| Channels.ConvertChannelList | src/ncp-spinel/SpinelNCPInstance.cpp:4467-4548 | for every text, the table is left exactly when some range does not lie in it; otherwise bit c mod 8 of data octet c div 8 is set exactly when c is named, for c up to 127, and the seventeenth data octet is zero |
| Channels.PackBits | src/ncp-spinel/SpinelNCPInstance.cpp:4517-4537 | packing the table eight to an octet never stores the last, incomplete octet |
| Channels.SentIsNamedIff | src/ncp-spinel/SpinelNCPInstance.cpp:4517-4544 | what is sent is what was named exactly when channel 128 is not named |
| Channels.Channel128IsTakenAndNamed | src/ncp-spinel/SpinelNCPInstance.h:58-59 | the text "128" is within the table and names a channel that is not sent |
| Channels.MarkRange | src/ncp-spinel/SpinelNCPInstance.cpp:4512-4514 | marking a range sets its channels in the table and no others, and stays inside exactly when the range does |
| Channels.SplitAtColons | src/ncp-spinel/SpinelNCPInstance.cpp:4487-4494 | the splitting loop gives the parts between colons |
| Channels.SplitJoins | src/ncp-spinel/SpinelNCPInstance.cpp:4487-4494 | the parts joined again are the text |
| Channels.SplitSeparates | src/ncp-spinel/SpinelNCPInstance.cpp:4487-4494 | no part contains a separator |
| Channels.SplitIs | src/ncp-spinel/SpinelNCPInstance.cpp:4487-4494 | the parts are the one list without separators that the text is joined from |
| Channels.NamedInWords | src/ncp-spinel/SpinelNCPInstance.cpp:4496-4514 | "a" names the channel it reads as and "a-b" the channels from a to b |
| Channels.NamedInTurn | src/ncp-spinel/SpinelNCPInstance.cpp:4487-4514 | "t:u" names what t names and what u names |
| IPv6.ApplyMask | src/util/IPv6Helpers.cpp:48-64 | masking in place keeps the first bits and clears the others |
| IPv6.MaskedAgree | src/util/IPv6Helpers.cpp:48-64 | two addresses are equal once masked exactly when their first bits agree |
| IPv6.MaskedAll | src/util/IPv6Helpers.cpp:48-64 | a mask of 128 bits or more is the identity |
| IPv6.MaskedBit | src/util/IPv6Helpers.cpp:48-64 | of a masked address the first bits are as they were and all others are zero |
| IPv6.MaskedAgreeInBits | src/util/IPv6Helpers.cpp:48-64 | two addresses are equal once masked exactly when they agree bit by bit up to the mask |
| IPv6.MaskedIdempotent | src/wfantund/NCPInstanceBase-Addresses.cpp:41-45 | masking twice is masking once |
| OnMeshPrefixes.Table.HandleReport | src/ncp-spinel/SpinelNCPInstance.cpp:5427-5528 | for every table and every report, every NCP row ends up as often as stated and no other row changes |
| OnMeshPrefixes.Table.TakeReport | src/ncp-spinel/SpinelNCPInstance.cpp:5433-5511 | the first loop adds each reported non-local row that is missing and takes it off the copy, stopping at the first struct that does not unpack |
| OnMeshPrefixes.Table.RemoveLeftovers | src/ncp-spinel/SpinelNCPInstance.cpp:5513-5527 | the second loop removes what is left of the NCP's rows, in any order |
| OnMeshPrefixes.Table.WasAdded | src/wfantund/NCPInstanceBase-Addresses.cpp:941-968 | the table: a row of the NCP's is inserted if no equal one is found |
| OnMeshPrefixes.Table.WasRemoved | src/wfantund/NCPInstanceBase-Addresses.cpp:982-1002 | the table: one equal row of the NCP's is found and removed |
| OnMeshPrefixes.Table.Find | src/wfantund/NCPInstanceBase-Addresses.cpp:900-922 | the search finds a matching row exactly when there is one |
| OnMeshPrefixes.Table.constructor | src/wfantund/NCPInstanceBase-Addresses.cpp:453-453 | at first the table is empty |
| OnMeshPrefixes.ReportIsTheTruth | src/ncp-spinel/SpinelNCPInstance.cpp:5427-5528 | after a report the NCP's rows are exactly the rows reported as not local, and nobody else's have changed |
| OnMeshPrefixes.OrderAndRepetitionIrrelevant | src/ncp-spinel/SpinelNCPInstance.cpp:5427-5528 | two reports of the same rows, in any order and with any repetitions, lead to the same table |
| OnMeshPrefixes.RowsStayUnique | src/ncp-spinel/SpinelNCPInstance.cpp:5427-5528 | no row of the NCP's is ever there twice |
| OnMeshPrefixes.ReportIsIdempotent | src/ncp-spinel/SpinelNCPInstance.cpp:5427-5528 | the same report again changes nothing |
| OnMeshPrefixes.ReportRoundTrip | src/ncp-spinel/SpinelNCPInstance.cpp:5433-5469 | the items of a packed report are read as they were packed, and a tail that does not unpack does no harm |
| OnMeshPrefixes.NcpMatchIsEquality | src/wfantund/NCPInstanceBase-Addresses.cpp:255-276 | looking up an NCP row finds equal rows and no others |
| RingBuffer.Ring.Run | src/util/RingBuffer.h:91-237 | every run of operations without a pop of nothing from a full ring leaves what a bounded queue holds |
| RingBuffer.Ring.PushAll | src/util/RingBuffer.h:91-104 | pushing appends all the values or, without room, refuses and changes nothing |
| RingBuffer.Ring.PopMany | src/util/RingBuffer.h:106-128 | popping drops as many as there are; popping nothing from a full ring rotates it by the place where it starts |
| RingBuffer.Ring.PullMany | src/util/RingBuffer.h:130-149 | pulling returns the front elements and drops them |
| RingBuffer.Ring.WriteOne | src/util/RingBuffer.h:173-187 | writing appends, or refuses when full |
| RingBuffer.Ring.ForceWriteOne | src/util/RingBuffer.h:189-202 | force-writing appends, the oldest element making room when full |
| RingBuffer.Ring.RemoveOne | src/util/RingBuffer.h:217-230 | removing drops the front element, if any |
| RingBuffer.Ring.ClearAll | src/util/RingBuffer.h:232-237 | clearing empties the ring |
| RingBuffer.Ring.constructor | src/util/RingBuffer.h:45-48 | a new ring is empty |
| RingBuffer.Ring.Iterate | src/util/RingBuffer.h:296-374 | the forward iterator visits exactly the contents, front to back, and stops, in every state |
| RingBuffer.Ring.IterateBackwards | src/util/RingBuffer.h:339-386 | the reverse iterator visits exactly the contents, back to front, and stops, in every state |
| RingBuffer.Ring.DataPtrIsFront | src/util/RingBuffer.h:75-89 | the contiguous data offered are the front elements, and none exactly when empty or full |
| RingBuffer.Ring.DrainTwice | src/util/RingBuffer.h:75-128 | while not full, two rounds of taking and popping what is offered return everything in order |
| RingBuffer.PopZeroFromFullIff | src/util/RingBuffer.h:106-128 | that rotation leaves the queue as it was, whatever it holds, exactly when the ring starts at the first place |
| RingBuffer.PopZeroSwapsTwo | src/util/RingBuffer.h:106-128 | after force-writing 1, 2, 3 into a ring of two, popping nothing turns 2, 3 into 3, 2 |
| RingBuffer.Ring.Rebase | src/util/RingBuffer.h:123-125 | starting again at the first place when the indices meet keeps the contents unless the ring is full, which it rotates |
| RingBuffer.Ring.DrainRound | src/util/RingBuffer.h:75-128 | while not full, one round of taking and popping what is offered returns the front up to the end of the buffer |
| RingBuffer.ForceWritesKeepLast | src/util/RingBuffer.h:189-202 | a history kept by force-writing holds the most recent values, as many as fit |
| RingBuffer.FirstInFirstOut | src/util/RingBuffer.h:91-237 | in every run the queue ends up as what it held and all that was let in, in order of arrival, without as many of the first of these as were taken out; a push lets in all or nothing, a forced write takes one out when full |
| RingBuffer.BoundedAlways | src/util/RingBuffer.h:91-237 | the queue never holds more than fits |
| DBusValues.ReadWritten | src/util/DBUSHelpers.cpp:85-439 | every value that can be written is read back as stated, for all types and nestings, exactly when no entry of a map that the reader meets holds a C string or a set of int, and otherwise not at all; lists of maps are not looked into |
| DBusValues.ReceiveWritten | src/util/DBUSHelpers.cpp:85-439 | every value that can be written is received as stated exactly when no map entry in it, at any level and in lists of maps too, holds a C string or a set of int, and otherwise nothing is received |
| DBusValues.RoundTripIff | src/util/DBUSHelpers.cpp:85-439 | a value is read back as it was exactly when it can be written and is built from texts without zeros, flags, numbers other than int8_t and float, non-empty data and non-empty maps |
| DBusValues.RoundTripWidens | src/util/DBUSHelpers.cpp:85-439 | every nested value of these and int8_t, float, octet vectors and C strings can be written, and comes back, widened, exactly when no map entry holds a C string |
| DBusValues.CStringEntryIsLost | src/util/DBUSHelpers.cpp:366-439 | a map with a C string as its one entry is written with a signature that does not match and is not read back |
| DBusValues.WriteSucceedsIff | src/util/DBUSHelpers.cpp:167-363 | writing throws exactly when there is an empty value or a foreign type at some level |
| DBusValues.WrittenLists | src/util/DBUSHelpers.cpp:167-363 | lists and sets of texts, sets of int and octets are written as arrays of "s", "i" and "y" with the elements in order |
| DBusValues.WrittenMap | src/util/DBUSHelpers.cpp:167-439 | a map is written as an array of "{sv}", one entry after the other: its key, and its value, as it is written alone, in a variant of its declared signature |
| DBusValues.WrittenMapList | src/util/DBUSHelpers.cpp:167-363 | a list of maps is written as an array of "a{sv}", each map as it is written alone, in order |
| DBusValues.SignaturesMatchIff | src/util/DBUSHelpers.cpp:366-439 | the declared signatures match what is written, at every level, exactly when no map entry holds a C string or a set of int |
| DBusValues.TypeStringIsSignature | src/util/DBUSHelpers.cpp:366-416 | the declared signature of a value is the signature of what is written for it, but for C strings and sets of int |
| DBusValues.BackInPlace | src/util/DBUSHelpers.cpp:66-78 | entries with keys in order come back in place |
| DBusValues.MapHoldsLastValues | src/util/DBUSHelpers.cpp:42-82 | a dictionary with keys in any order and repeated at will is read as a sorted map that holds exactly the last value of each key |
| DBusValues.PutStores | src/util/DBUSHelpers.cpp:66-78 | storing under a key puts the value there, leaves all other keys alone and keeps the order |
| DBusValues.BeforeIff | src/util/DBUSHelpers.cpp:66-78 | keys are ordered by their first difference, a text coming before those it begins |
| DBusValues.AnyFromIter | src/util/DBUSHelpers.cpp:85-164 | the reader, run on a message, gives what is specified, and nothing of a variant declared as something else |
| DBusValues.ValueMapFromIter | src/util/DBUSHelpers.cpp:42-82 | the loop over dictionary entries gives what is specified, and throws on a key that is no string |
| PacketMatcher.LessIsStrictTotalOrder | src/util/IPv6PacketMatcher.cpp:299-428 | the ten-field comparison is a strict total order whose incomparable rules are equal |
| PacketMatcher.LessIsBefore | src/util/IPv6PacketMatcher.cpp:364-428 | the comparison is the dictionary order of the fields |
| PacketMatcher.FindMatch | src/util/IPv6PacketMatcher.cpp:430-452 | the search returns the least matching rule, or the end exactly when none matches |
| PacketMatcher.LearntRuleMatchesAnswers | src/util/IPv6PacketMatcher.cpp:148-241 | a rule learnt from an outbound packet matches inbound exactly the IPv6 packets of the same kind, for ICMP also the same type, with addresses and, for TCP and UDP, ports swapped; next header 255 stands for all kinds and 254 for none |
| PacketMatcher.LearntInboundMatchesAnswers | src/util/IPv6PacketMatcher.cpp:100-297 | a rule learnt from an inbound packet matches outbound exactly the like answers to it, from any address if it went to a multicast one |
| PacketMatcher.MatchesDropFirewall | src/wfantund/NCPInstanceBase.cpp:178-219 | the packets that the drop rules match, in octets: hop-by-hop options to ff02::16, ICMP types 133 and 134 to ff02::2, and ICMP types 135 to 137 |
| PacketMatcher.DropRulesMatch | src/wfantund/NCPInstanceBase.cpp:178-219 | some drop rule matches exactly those packets |
| PacketMatcher.DropRulesIncrease | src/wfantund/NCPInstanceBase.cpp:178-219 | the order in which the set visits the drop rules |
| PacketMatcher.LearntRuleMatchesItsPacket | src/util/IPv6PacketMatcher.cpp:100-297 | a rule learnt from an IPv6 packet matches it in its own direction exactly when its next header is not 254 |
| PacketMatcher.MaskedRuleMatchesPrefix | src/util/IPv6PacketMatcher.cpp:148-198 | a rule with only a remote mask matches exactly the packets whose remote address agrees in the masked bits |
| PacketMatcher.FieldsOfLayout | src/util/IPv6PacketMatcher.cpp:52-60 | the fields are read where an IPv6 header, the ports and the ICMP type have them |
| PacketMatcher.MutableRule.UpdateFromInboundPacket | src/util/IPv6PacketMatcher.cpp:100-145 | learning in place from an inbound packet fills the rule in as specified |
| PacketMatcher.MutableRule.UpdateFromOutboundPacket | src/util/IPv6PacketMatcher.cpp:200-241 | learning in place from an outbound packet fills the rule in as specified |
| PacketMatcher.MutableRule.Clear | src/util/IPv6PacketMatcher.cpp:92-98 | clearing leaves a rule that asks for nothing |

## Left out

- Crc.FcsIsClockAll: only the table-driven variant is modelled, not the alternative that is compiled out.
- Hdlc.Resynchronises: payloads of 1 to buffer size minus 2 octets; others are not delivered, as `Hdlc.RoundTripIff` says.
- DataPump.EncodeFrame: a store past the end of the escaped buffer is counted but not made; what it does to the length and the callback that lie behind it is not modelled.
- DataPump.EncodeBody: the same.
- DataPump.PutTrailer: the same.
- OutboundPump.EveryRunIsOrderly: of a frame that does not fit the escaped buffer anything may be written, but damage to the memory behind that buffer, the callback included, is not modelled.
- OutboundPump.LoadsFindAllEmpty: the same.
- OutboundPump.NoCallbackIsLost: the same.
- TaskQueue.CallbackExactlyOnce: callbacks may start tasks but do not re-enter the finish of their own task or reset the queue; each callback and reaction starts finitely many tasks, nested finitely deep, and a single event passes through finitely many tasks.
- TaskQueue.ResetAll: a callback that leads back to itself cannot be expressed there; `ResetLoop` says when resetting ends in general, and `ResetTasks` that it is the same loop.
- TaskQueue.Scheduler.Reset: the same.
- OutboundPump.CompletedFramesArrive: damage to the memory behind the escaped buffer is not modelled either; frames of more than 1298 octets and frames that do not fit need not arrive, as `OutboundPump.AlwaysArrivesIff` says, and what a receiver makes of frames that were cut off is left open.
- SendCommand.Task.Run: a run whose lock property, if any, is a key that can be packed, and that reaches its own end; a task that is reset in the middle is covered by `TaskQueue` only. How a reply is unpacked is left open.
- ThreadDataset.RoundTripIff: for frames with values; the form with keys only, used to ask for values, is not modelled.
- Channels.ConvertChannelList: how a number is read from text is left open; a store outside the 129-entry table is noted but not made, and then nothing is said of the data.
- Channels.MaskRoundTrip: a 32-bit mask is the set of its one-bits; shifts and bitwise operations on words are not modelled.
- OnMeshPrefixes.Table.WasAdded: SLAAC addresses, route refreshes and callbacks are not modelled, and only rows of the NCP's are added.
- OnMeshPrefixes.Table.WasRemoved: the same.
- OnMeshPrefixes.Table.HandleReport: SLAAC addresses, route refreshes and callbacks that adding and removing a prefix also cause, and rows of other origins, are not modelled. The multimap is a multiset of rows, without its order.
- RingBuffer.Ring.PullMany: the caller's buffer is a sequence that is returned.
- DBusValues.ReadWritten: libdbus itself, its UTF-8 checks and its limits are not modelled, nor what it does when a variant is opened with an empty signature, of which nothing is taken to come back; doubles are the reals they denote.
- PacketMatcher.FindMatch: the set is given as the increasing sequence in which it is visited; insertion is the library's.
- PacketMatcher.LearntRuleMatchesItsPacket: the program reads 44 octets of the packet's buffer without looking at its length, so packets have at least 44 octets.
- Frames that fail the check and look like text, the debug stream, and what is done with a delivered frame.
- The encrypter, the length-prefixed variant of the framing and data dumps, which are compile-time options.
- Sockets, the TUN interface, serial ports, logging, files, time, and hardware reset.
- The control interface, the D-Bus API and the tables of property handlers, which only dispatch.
- Services and off-mesh routes, whose reconciliation follows the on-mesh prefixes' with a coarser comparison.
- Transaction identifiers and the matching of replies to commands, which are part of the fates of commands.
- The read operation of the ring buffer, which is never used.
- Format strings of the Spinel library, its other data types and its iterators.
- Unpackers that only produce text, statistics, the connman plugin, the web application, object pools and callback stores.
