# Verification models of the TV service

Dafny models of the self-contained algorithms of the TV service, each proved against a specification that
states what the algorithm is for. `dafny verify dfyconfig.toml` checks everything.

| part | files | what is proved |
|---|---|---|
| link to the panel board | Words, Crc32, CrcResidue, SerialPort, FbcFrame, FbcStream, FbcProtocol, FbcCommunication | the three forms of the checksum agree with a bit-serial definition and have its residue; frames, alone or back to back, survive any chunking, and exactly which time-outs; short bursts are detected; 32-bit values cross all layers |
| firmware upgrade | Text, UpgradePlan, FbcUpgrade | the retrying transfer refines "the flash equals the file", whatever is lost, torn or repeated, and gives up for two reasons only |
| delayed message queue | MsgQueue, QueueProtocol | safety over every interleaving of senders and consumer, and exactly when removing is safe |
| event serialisers | TvParcel, ScanEvent, EasEvent | the array forms agree with the Parcel forms and lose nothing |
| project-info string | ProjectInfo | what is printed passes the check and is recovered exactly, what is damaged is refused, and what was read is kept for good |
| subtitle compositor | Subtitle | the flat buffer is a painter's fold; exactly when clipping is right |
| entry sort | EntrySort | sorted, stable, a permutation, and terminating |
| rating table | RatingTree | the tree keeps the stream of entries, and look-up finds exactly what was saved |
| quantised settings | TvFactory | bounds and drift of values saved and read back |
| tuner requests | FrontEnd | skipping equal requests is sound, and exactly when |

Objects whose methods update their fields are classes, loops are loops, and each such method is proved equal
to a function of the old state; the lemmas are about those functions.

Conventions of the models:

- Unsigned words are bounded integers. Exclusive-or and inclusive-or are defined bit by bit in `Words`; shifts
  right and masks with 2^k - 1 are written as division and remainder (`Low`, `Up`, `Get8`).
- The serial line is a sequence of bytes together with a list of polls: 0 for a poll that times out, k for one
  that finds at most k bytes. `Silent` stands for a reader that goes on waiting when the list is used up.
- `Overrun` and `Undefined` stand for inputs on which the program itself has no defined behaviour: an announced
  frame length below 4 or above 512, commands of 504 to 511 bytes, and replies longer than the caller's buffer.
- The device that is upgraded, the panel board, the tuner driver, the disk and the clock are parameters: every
  theorem holds for all their answers, within what its statement says of them.
- The code is taken as compiled with SUPPORT_ADTV.
- Sections to be transferred must lie inside the upgrade file; the program does not check it.

What the proofs found out about the code as it is, each with its exact condition:

- A frame of exactly 512 bytes is accepted, but nothing of it is copied out (`FbcFrame.RoundTrip`); a buffer of
  zeros is handed on instead, and an acknowledgement of that length is itself acknowledged
  (`FbcProtocol.CFbcProtocol.HandleSerialEvent`, `FbcProtocol.EachAnsweredOnce`).
- A leader is passed over if an odd number of reads times out between its two bytes, because the first slot keeps the
  last leader byte (`FbcStream.LeaderFoundIff`).
- A get request leaves the port whole exactly below 256 bytes (`FbcProtocol.CFbcProtocol.FbcGetBatchValue`).
- `removeMsg` leaves one of two neighbours of the type (`MsgQueue.RemovesAllIff`), and clearing while the
  consumer is awake makes the next message be handled early (`QueueProtocol.RemovalIsHarmlessIff`,
  `QueueProtocol.ClearIsHarmlessIff`).
- A subtitle region that starts left of or above the bitmap is smeared unless it reaches the far edge
  (`Subtitle.PaintsIdeallyIff`).
- An answered project-id request counts as failed, so the panel type never carries the id, and what was read
  is kept only if the board did not answer (`ProjectInfo.ProjectIdNeverReported`,
  `ProjectInfo.KeptIffUnanswered`, `ProjectInfo.AnsweredIdIsLost`).
- Saving white balance values that were read lowers them each time (`TvFactory.GainDrifts`,
  `TvFactory.OffsetDrifts`), and choosing the same colour temperature again halves the blue gain again
  (`TvFactory.CTvFactory.FbcSetColorTemperature`).
- A retune to another ISDB-T bandwidth is skipped (`FrontEnd.SkipSoundIff`), and a request of a known kind that
  failed is tried again exactly if forced (`FrontEnd.RetriedIff`, `FrontEnd.RecoversIff`).
- The rating groups take the region number of their first entry (`RatingTree.KeptExactlyIff`).

## Model

| member | source | states |
|---|---|---|
| Crc32.Calcrc32 | tvfbclinker/CFbcProtocol.cpp:211-227 | the nibble-table loop computes the bit-serial CRC-32 (the reflected CRC of section 8 of RFC 1952) of any stretch of a buffer, continued from any start value; 0 for a null pointer |
| Crc32.NibbleTable | tvfbclinker/CFbcProtocol.cpp:213-215 | each of the sixteen constants is four clocks of the shift register on its index |
| Crc32.ShiftsLinear | tvfbclinker/CFbcProtocol.cpp:161-170 | the register is linear over exclusive-or, for any number of clocks |
| Crc32.ByteStepIsEightClocks | tvfbclinker/CFbcProtocol.cpp:203-205 | one step with the generated byte table equals feeding the eight bits of the byte |
| Crc32.NibbleStepsAreEightClocks | tvfbclinker/CFbcProtocol.cpp:223-224 | two steps with the nibble table equal feeding the same eight bits |
| Crc32.Chaining | tvfbclinker/CFbcProtocol.cpp:211-227 | the checksum of a concatenation is the checksum of the second part continued from that of the first, for all byte strings |
| Crc32.BurstDetected | tvfbclinker/CFbcProtocol.cpp:211-227 | two equal-length messages whose bits differ only inside 32 consecutive bits never have the same checksum |
| Crc32.FourByteBurstDetected | tvfbclinker/CFbcProtocol.cpp:211-227 | the same for differences inside four consecutive bytes, wherever they stand |
| Crc32.FeedInjective | tvfbclinker/CFbcProtocol.cpp:222-225 | feeding the same bits to two different registers leaves them different: the step is a bijection |
| CrcResidue.Residue | tvfbclinker/CFbcProtocol.cpp:211-227 | every message with its own checksum behind it, low byte first, has the checksum 0x2144DF1C: the result is complemented |
| CrcResidue.LeadingZeroNoticed | tvfbclinker/CFbcProtocol.cpp:211-227 | a zero byte in front always changes the checksum: the register does not start at 0 |
| CrcResidue.CheckValue | tvfbclinker/CFbcProtocol.cpp:211-227 | the checksum of one zero byte is 0xD202EF8D |
| FbcProtocol.CFbcProtocol.InitCrc32Table | tvfbclinker/CFbcProtocol.cpp:157-171 | the nested loops fill entry i with eight clocks of the register on i, for all 256 entries |
| FbcProtocol.CFbcProtocol.GetCrc32 | tvfbclinker/CFbcProtocol.cpp:200-209 | the byte-table loop computes the same checksum as the nibble-table loop started from 0 |
| SerialPort.CSerialPort.ReadFile | tvfbclinker/CSerialPort.cpp:35-97 | one read call returns the in-order concatenation of its partial reads, never more than asked, and leaves the rest on the line; it stops at the first poll that times out or finds nothing |
| SerialPort.ReadCollects | tvfbclinker/CSerialPort.cpp:49-92 | one read call collects what is wanted, as far as the line has it and the polls bring it before one times out |
| SerialPort.CSerialPort.CollectAll | tvfbclinker/CSerialPort.cpp:49-92 | the collecting loop gathers a prefix of the line, poll by poll, of the length the schedule of polls determines |
| SerialPort.CSerialPort.Collect | tvfbclinker/CSerialPort.cpp:50-91 | one turn of that loop: what a poll brought is appended, and the loop goes on only if something came and something is still wanted |
| SerialPort.CSerialPort.PollAndRead | tvfbclinker/CSerialPort.cpp:55-70 | a poll that is ready delivers the next bytes of the line, at most as many as there is room for |
| FbcFrame.ScanBehindNoise | tvfbclinker/CFbcProtocol.cpp:317-330 | the two-byte leader hunt stops right behind noise and leader exactly when the noise is one it reads through in pairs without matching; otherwise it has stopped earlier |
| FbcFrame.GatherSucceeds | tvfbclinker/CFbcProtocol.cpp:332-341 | however the bytes are cut into pieces, as many successful polls as bytes suffice to collect them |
| FbcFrame.ReceiveWellShaped | tvfbclinker/CFbcProtocol.cpp:305-376 | behind such noise any byte string of 4 to 512 bytes with a leader and its own length is judged as one frame, whatever the chunking and whatever follows |
| FbcFrame.CheckFrame | tvfbclinker/CFbcProtocol.cpp:361-375 | every frame the encoder builds, up to 512 bytes, is well shaped and passes the receiver's checksum test |
| FbcFrame.FrameLayout | tvfbclinker/CFbcProtocol.cpp:513-530 | a frame byte by byte: two bytes 0x5A, the length of all in two bytes and the low one first, the flag, the payload, and the checksum of all before it in four bytes and the lowest first |
| FbcFrame.RoundTrip | tvfbclinker/CFbcProtocol.cpp:305-376 | receiving what the encoder sent is independent of chunking, noise and what follows, and copies out the whole frame if and only if its length is below 512; at 512 nothing is copied |
| FbcFrame.BurstRejected | tvfbclinker/CFbcProtocol.cpp:361-375 | a frame altered only within four consecutive flag or payload bytes is always rejected |
| FbcFrame.AlteredChecksumRejected | tvfbclinker/CFbcProtocol.cpp:361-375 | a frame with only its checksum bytes altered is rejected too |
| FbcStream.ScanIsHunt | tvfbclinker/CFbcProtocol.cpp:317-330 | the loop with its two slots is a hunt of three phases, one read at a time: what a time-out leaves in the first slot counts as a leader byte again |
| FbcStream.LeaderFoundIff | tvfbclinker/CFbcProtocol.cpp:317-330 | with reads that time out anywhere, the hunt stops right behind the leader if and only if the noise before left no half leader over and an even number of reads timed out between the two leader bytes |
| FbcStream.ReadyIffConsumed | tvfbclinker/CFbcProtocol.cpp:317-330 | without time-outs the noise that leaves no half leader over is the noise read through in pairs |
| FbcStream.RoundTripTimed | tvfbclinker/CFbcProtocol.cpp:305-376 | the round trip with time-outs before the leader and inside it |
| FbcStream.OddGapLosesFrame | tvfbclinker/CFbcProtocol.cpp:317-330 | an odd number of time-outs between the leader bytes loses the frame, unless another leader byte follows |
| FbcStream.FramesInOrder | tvfbclinker/CFbcProtocol.cpp:305-376 | well-shaped byte strings sent back to back, on a line whose polls find something, are judged one by one and in order, and nothing else is taken off the line |
| FbcStream.StreamRoundTrip | tvfbclinker/CFbcProtocol.cpp:305-376 | what the encoder built for any number of packets comes out frame by frame and in order, whole for each frame shorter than the buffer |
| FbcStream.GatherLeavesSuffix | tvfbclinker/CFbcProtocol.cpp:332-341 | the polls left over by a read are the last ones of the schedule |
| FbcProtocol.AddCrc | tvfbclinker/CFbcUpgrade.cpp:114-126 | the checksum of the first bytes is placed behind them, low byte first, and nothing else changes |
| FbcProtocol.CFbcProtocol.BuildFrame | tvfbclinker/CFbcProtocol.cpp:513-530 | the buffer filled in place holds the frame: leader, length, flag, payload, checksum |
| FbcProtocol.CFbcProtocol.SendAckCmd | tvfbclinker/CFbcProtocol.cpp:173-198 | exactly one acknowledgement frame, positive or negative, leaves the port, under the same length and checksum rule as every other frame |
| FbcProtocol.CFbcProtocol.FbcSetBatchValue | tvfbclinker/CFbcProtocol.cpp:486-535 | a command leaves the port as one frame; nothing is sent during an upgrade or for 512 bytes and more; 504 to 511 bytes overrun the frame buffer |
| FbcProtocol.CFbcProtocol.FbcGetBatchValue | tvfbclinker/CFbcProtocol.cpp:537-599 | the request leaves the port cut to the low byte of its length, so whole exactly below 256 bytes; the payload of the reply replaces the start of the command buffer and the return code is the number of bytes received; a reply that does not fit the buffer is kept apart |
| FbcProtocol.CFbcProtocol.FindLeader | tvfbclinker/CFbcProtocol.cpp:317-330 | the reading loop follows the leader hunt, byte by byte |
| FbcProtocol.CFbcProtocol.ReadExactly | tvfbclinker/CFbcProtocol.cpp:332-341 | the accumulating loop ends with exactly the bytes wanted, in order, however many reads it takes |
| FbcProtocol.CFbcProtocol.Judge | tvfbclinker/CFbcProtocol.cpp:361-375 | the frame in the buffer is accepted exactly if the checksum at its end is that of the bytes before |
| FbcProtocol.CFbcProtocol.ReadFrame | tvfbclinker/CFbcProtocol.cpp:332-375 | length and rest are read and judged, with the cases where the announced length does not fit the buffer kept apart |
| FbcProtocol.CFbcProtocol.UartReadData | tvfbclinker/CFbcProtocol.cpp:305-376 | one call on any line, poll schedule and result buffer behaves as the receiver function: same verdict, same rest of the line, the accepted bytes copied out and nothing else changed; the length, -1, or 0 without a buffer is returned |
| FbcProtocol.CFbcProtocol.HandleSerialEvent | tvfbclinker/CFbcProtocol.cpp:448-469 | one frame in, and out at most one acknowledgement: a negative one for a damaged frame, none for an acknowledgement, a positive one otherwise; exactly what is positively acknowledged is handed on with its length, in a buffer cleared before, so that a frame of 512 bytes is handed on as zeros |
| FbcProtocol.CFbcProtocol.ThreadLoop | tvfbclinker/CFbcProtocol.cpp:411-479 | over any number of serial events: the verdicts, the answers sent and what is handed on, in order |
| FbcProtocol.DamagedIsRefused | tvfbclinker/CFbcProtocol.cpp:448-469 | a frame damaged within four consecutive flag or payload bytes is answered with the frame of FF 80 01, and with nothing else, and is not handed on |
| FbcProtocol.EachAnsweredOnce | tvfbclinker/CFbcProtocol.cpp:411-479 | packets sent back to back are each answered once and in order, with the frame of FF FE 7F, but for an acknowledgement shorter than 512 bytes, which gets no answer; and all but those are handed on with their lengths |
| FbcProtocol.AcknowledgementsEnd | tvfbclinker/CFbcProtocol.cpp:455-468 | an acknowledgement is accepted and never answered, so two ends cannot acknowledge each other for ever |
| FbcCommunication.CfbcSetValueInt | libtv/fbcutils/CFbcCommunication.cpp:36-57 | a one- or four-byte value leaves the port as one frame; any other width and the release command send nothing |
| FbcCommunication.CfbcGetValueInt | libtv/fbcutils/CFbcCommunication.cpp:59-79 | request sent, reply stripped, and the bytes put into the result variable: one byte replaces it, four are or-ed into what it held, negative or not; a reply of more than 15 bytes does not fit |
| FbcCommunication.ValueTransport | libtv/fbcutils/CFbcCommunication.cpp:36-79 | every 32-bit value set, framed, received in any pieces behind noise, stripped and reassembled is or-ed into the result variable, so a cleared one ends up equal to it |
| FbcCommunication.ByteTransport | libtv/fbcutils/CFbcCommunication.cpp:36-79 | a one-byte value arrives cut to its low eight bits, whatever the result variable held, so unchanged if and only if it fits a byte |
| FbcUpgrade.CheckPartition | tvfbclinker/CFbcUpgrade.cpp:281-303 | accepts exactly when a part is present and the stored checksum is that of the code bytes followed by the data bytes |
| FbcUpgrade.CodeThenData | tvfbclinker/CFbcUpgrade.cpp:281-303 | the bytes checked: the code first, the data behind it, a missing part adding nothing |
| FbcUpgrade.CFbcUpgrade.SendUpgradeCmd | tvfbclinker/CFbcUpgrade.cpp:221-260 | the upgrade request is a frame like every other on the link; a failed send sets the error code |
| FbcUpgrade.CFbcUpgrade.FillUpgradeCmd | tvfbclinker/CFbcUpgrade.cpp:227-248 | the request without its checksum, with the new baud rate low byte first if one was set |
| FbcUpgrade.RequestBytes | tvfbclinker/CFbcUpgrade.cpp:221-260 | the request as it goes out, byte by byte: 18 bytes with the new baud rate readable behind the fill bytes, or 14 without one |
| UpgradePlan.SplitTiles | tvfbclinker/CFbcUpgrade.cpp:458-461 | the blocks of a section are 0x10000 bytes long but for the last, lie end to end without gap or overlap, and fill the section |
| UpgradePlan.AdjustCovers | tvfbclinker/CFbcUpgrade.cpp:451-454 | the adjusted section reaches from 0x49000 to the old end if it is listed at 0x49030, and is the listed one otherwise |
| UpgradePlan.PlanCovers | tvfbclinker/CFbcUpgrade.cpp:441-461 | an address lies in some planned block if and only if a listed section stands for it: its own addresses, and for the one at 0x49030 those from 0x49000 on |
| UpgradePlan.OnPlanIsListed | tvfbclinker/CFbcUpgrade.cpp:441-461 | what is planned is listed, or lies in the 0x30 addresses below a section listed at 0x49030 |
| UpgradePlan.CommandIsReadable | tvfbclinker/CFbcUpgrade.cpp:464 | start and count can be read back from the text of the block command |
| UpgradePlan.CommandExample | tvfbclinker/CFbcUpgrade.cpp:464 | the text for start 0xabc and count 0xdef, letter by letter |
| FbcUpgrade.CFbcUpgrade.SendBlock | tvfbclinker/CFbcUpgrade.cpp:463-490 | command, data and checksum leave the port in this order up to the first send that fails, of which any first part may reach the line, and the device may write the data only where the command says |
| FbcUpgrade.CFbcUpgrade.FindAck | tvfbclinker/CFbcUpgrade.cpp:496-507 | an answer counts as an acknowledgement exactly if three leader bytes in a row stand in it, its last byte not among them |
| FbcUpgrade.AckNeedsOneMore | tvfbclinker/CFbcUpgrade.cpp:496-507 | three leader bytes count wherever they stand in the answer, if a byte follows them; three bytes or fewer never do |
| FbcUpgrade.CFbcUpgrade.SendOnce | tvfbclinker/CFbcUpgrade.cpp:463-507 | one attempt: what was sent, what the flash holds and whether it was acknowledged follow from the attempt's faults and the device's answer |
| FbcUpgrade.CFbcUpgrade.TakeTurn | tvfbclinker/CFbcUpgrade.cpp:458-538 | one attempt at the next block: the block is passed exactly if the device acknowledged this attempt, tried again if it was sent whole and not acknowledged, and the transfer is given up exactly with a failed send or a fourth unacknowledged transmission, and with an error |
| FbcUpgrade.CFbcUpgrade.TransferSection | tvfbclinker/CFbcUpgrade.cpp:456-538 | the block loop of a section terminates, bytes left before retries left; its log tells every attempt made, block by block, with the device's answers, and ends with every block acknowledged unless an end was asked for from outside or the section was given up for one of the two reasons |
| FbcUpgrade.CFbcUpgrade.Transfer | tvfbclinker/CFbcUpgrade.cpp:437-540 | whatever line, device and outside do, the transfer terminates, its log tells every attempt made, block by block, with the device's answers, and the flash has changed at most at addresses the listed sections stand for, and there only to the file's bytes; it ends in one of three ways: every block of every section answered with an acknowledgement of the device and all these bytes equal to the file; an outside stop that a look at the exit flag has found; or an error code after four unacknowledged transmissions of one block or a failed send, whose torn remainder is all that stands behind the log. A device that acknowledges one of any four transmissions in a row gets the whole file |
| FbcUpgrade.CFbcUpgrade.AckedMeansAcknowledged | tvfbclinker/CFbcUpgrade.cpp:496-531 | each block the log calls acknowledged was acknowledged by the device, on the last of the attempts made at it, and the attempts follow one another in the order of the blocks |
| FbcUpgrade.CFbcUpgrade.FourTimesAtMost | tvfbclinker/CFbcUpgrade.cpp:509-524 | all bytes put on the line since the start, torn transmissions included, are at most four transmissions of every block the log names |
| FbcUpgrade.CFbcUpgrade.ResponsiveNeverGivesUp | tvfbclinker/CFbcUpgrade.cpp:509-538 | with no failing send and one acknowledgement among any four transmissions in a row neither reason for giving up can arise |
| UpgradePlan.FlashContents | tvfbclinker/CFbcUpgrade.cpp:463-507 | after any mixture of lost, repeated and unacknowledged writes each address holds the file's byte if some block over it was written and its old byte otherwise |
| UpgradePlan.CompleteTransferInstallsFile | tvfbclinker/CFbcUpgrade.cpp:441-539 | a complete transfer leaves the flash equal to the file on every listed section, and unchanged outside the listed sections and the 0x30 bytes below 0x49030 |
| UpgradePlan.PartialTransferIsHarmless | tvfbclinker/CFbcUpgrade.cpp:441-539 | a transfer cut short anywhere has only put file bytes at their own addresses, inside the listed sections or in the 0x30 bytes below 0x49030 |
| MsgQueue.CMsgQueueThread.SendMsg | tvutils/CMsgQueue.cpp:41-53 | the message is stamped and inserted behind everything due no later |
| MsgQueue.CMsgQueueThread.RemoveMsg | tvutils/CMsgQueue.cpp:55-68 | the removal loop, whose index also advances past the element that moves up, leaves the list RemoveType describes; the consumer is woken exactly if something went |
| MsgQueue.InsertKeepsOrder | tvutils/CMsgQueue.cpp:45-47 | insertion keeps the list sorted and puts the message behind all that are due at the same time |
| MsgQueue.InsertAdds | tvutils/CMsgQueue.cpp:47 | insertion adds just the message |
| MsgQueue.RemoveKeepsOrder | tvutils/CMsgQueue.cpp:59-64 | removal keeps the list sorted and adds nothing |
| MsgQueue.RemoveKeepsOthers | tvutils/CMsgQueue.cpp:59-64 | removal loses only messages of the given type |
| MsgQueue.RemovesAllIff | tvutils/CMsgQueue.cpp:59-64 | all messages of the type are removed if and only if no two of them are neighbours |
| MsgQueue.RunKeepsHalf | tvutils/CMsgQueue.cpp:59-64 | of a run of messages of the type every second one stays, beginning with the second, whatever stands around the run |
| QueueProtocol.EveryInterleavingIsSound | tvutils/CMsgQueue.cpp:41-128 | over every interleaving of a sender's two steps under the lock, the clock and the consumer's unlocked looks: nothing is handled before it is due, messages come out by due time and first-in first-out among equals, sent equals handled plus queued, and the empty list is never indexed |
| QueueProtocol.StepKeeps | tvutils/CMsgQueue.cpp:41-128 | every single step, removal with an intact guard included, keeps that invariant |
| QueueProtocol.Perform | tvutils/CMsgQueue.cpp:41-128 | each operation of the queue object does to its list what the step of the protocol does to the queue, whatever the state |
| QueueProtocol.SendKeepsOrder | tvutils/CMsgQueue.cpp:44-47 | a message sent while others are being handled goes behind everything handled and everything due no later |
| QueueProtocol.RemovalIsHarmlessIff | tvutils/CMsgQueue.cpp:55-74 | a removal or clearing is followed only by punctual handling if and only if, before it, the consumer is asleep, or a removal leaves the head or puts behind it a message due by the time the consumer has already settled on; otherwise some course without further removals handles a message early or indexes the empty list |
| QueueProtocol.SafeToRemoveIsExact | tvutils/CMsgQueue.cpp:55-74 | that condition on the state before agrees with what the consumer needs of the state after |
| QueueProtocol.ClearIsHarmlessIff | tvutils/CMsgQueue.cpp:70-74 | a clearing is followed only by punctual handling if and only if the consumer is asleep, or a sender still holds the lock and the clearing has to wait |
| QueueProtocol.BrokenGuardFails | tvutils/CMsgQueue.cpp:95-118 | from any state whose guard is broken, a run without any removal that goes wrong |
| QueueProtocol.EmptyLookTakesNext | tvutils/CMsgQueue.cpp:95-118 | a consumer that finds the list empty at its look handles whatever is sent next at once, early if it was sent with a delay |
| QueueProtocol.ClearedBehindWakeUp | tvutils/CMsgQueue.cpp:70-99 | clearing the list between the wake-up and the look brings the consumer there, three steps from the start |
| ScanEvent.WriteParcel | tvserver/TvService.cpp:99-175 | the reference encoder writes the stream of integers and strings, for all counts within the arrays |
| ScanEvent.FillArrays | tvserver/DroidTvServiceIntf.cpp:106-181 | the computed offsets assign every slot of both arrays exactly once, for all counts, and the arrays equal the integers and the strings of the Parcel in order |
| ScanEvent.FillInOrder | tvserver/DroidTvServiceIntf.cpp:106-181 | each offset expression names the next free slot of its array, from the first assignment to the last |
| ScanEvent.ArraysDecode | tvserver/DroidTvServiceIntf.cpp:106-181 | a reader that takes the counts from slots 22 and 4 * mAcnt + 24 recovers every transmitted field |
| ScanEvent.ArraysDetermineEvent | tvserver/DroidTvServiceIntf.cpp:106-181 | two events with equal arrays agree on every transmitted field |
| ScanEvent.StreamProjects | tvserver/TvService.cpp:102-175 | the integers and the strings of the stream, section by section |
| TvParcel.TvHidlParcel.PutInt | tvserver/DroidTvServiceIntf.cpp:108 | an assignment to the next free slot keeps the array equal to the integers written so far |
| TvParcel.ProjectionsConcat | tvserver/TvService.cpp:102-175 | the integers of two streams joined are the integers of both, and likewise the strings |
| EasEvent.WriteParcel | tvserver/TvService.cpp:475-533 | the reference encoder writes the list of integers, for all counts within the arrays, negative ones included |
| EasEvent.FillArray | tvserver/DroidTvServiceIntf.cpp:416-476 | the running index never passes 810 of the 1024 slots and the slots before it hold the integers of the Parcel |
| EasEvent.StreamParses | tvserver/DroidTvServiceIntf.cpp:420-476 | the encoding delimits itself: a reader recovers every transmitted field and stops at its end, whatever follows in the array |
| EasEvent.StreamDeterminesEvent | tvserver/DroidTvServiceIntf.cpp:420-476 | two events with the same filled array agree on every transmitted field |
| EasEvent.ManyInverts | tvserver/DroidTvServiceIntf.cpp:444-476 | if each element can be read back whatever follows, so can a list of announced length |
| Subtitle.CTvSubtitle.ClearBitmap | libtv/tv/CTvSubtitle.cpp:136-145 | every pixel is cleared, row by row |
| Subtitle.CTvSubtitle.PutPixel | libtv/tv/CTvSubtitle.cpp:207-221 | one palette index at one pixel: beyond the palette it is skipped, transparent colours write the alpha only; no other pixel of the flat buffer changes |
| Subtitle.CTvSubtitle.BlitRow | libtv/tv/CTvSubtitle.cpp:202-222 | the pointer walk along a row paints exactly its pixels |
| Subtitle.CTvSubtitle.BlitRows | libtv/tv/CTvSubtitle.cpp:196-227 | the pointer walk down the rows paints exactly the clipped rectangle; every offset lies in the buffer, for any region |
| Subtitle.CTvSubtitle.PaintRegion | libtv/tv/CTvSubtitle.cpp:163-229 | clipping and painting of a region with any position and size, null pixels included |
| Subtitle.CTvSubtitle.ShowSub | libtv/tv/CTvSubtitle.cpp:148-235 | after the callback every pixel is the painter's fold over the regions from a clear bitmap, later regions over earlier ones |
| Subtitle.PaintsIdeallyIff | libtv/tv/CTvSubtitle.cpp:176-194 | a region is painted as it should be, whatever its pixels and palette, if and only if nothing of it is painted, or along each axis it does not start before the bitmap or reaches the far edge; the length correction at lines 179 and 189 adds 0 |
| Subtitle.PaintedIsIdeal | libtv/tv/CTvSubtitle.cpp:156-230 | if every region meets that condition the bitmap is that of a painter who clips properly |
| Subtitle.LastOpaqueShows | libtv/tv/CTvSubtitle.cpp:156-230 | what shows at a pixel is red, green and blue of the last region with an opaque pixel there, and its alpha unless a later transparent pixel cleared it |
| Subtitle.ReadsInside | libtv/tv/CTvSubtitle.cpp:197-223 | such a region is read only inside its own width * height pixels |
| Subtitle.PixelsApart | libtv/tv/CTvSubtitle.cpp:198-204 | different pixels occupy different bytes |
| Subtitle.CTvSubtitle.PixelBytes | libtv/tv/CTvSubtitle.cpp:198-213 | red, green, blue and alpha stand in this order in the four bytes from 4 * (y * width + x) on |
| ProjectInfo.CalCRC32 | libtv/fbcutils/fbcutils.cpp:273-290 | the second copy of the nibble loop computes the same checksum of a text, continued from any start value; 0 for a null pointer |
| ProjectInfo.IsProjectInfoValid | libtv/fbcutils/fbcutils.cpp:292-332 | the version if the text is long enough, its checksum matches its first eight digits, and a version above 0 follows; -1 otherwise, the buffer's left-over characters included in the version number |
| ProjectInfo.PrintedIsValid | libtv/fbcutils/fbcutils.cpp:380-408 | every string printed as checksum, comma and a text starting with v001 passes the check as version 1 |
| ProjectInfo.DamagedIsRefused | libtv/fbcutils/fbcutils.cpp:292-332 | a valid string damaged within four consecutive characters behind its checksum is refused, by the check and by the reader |
| ProjectInfo.WrongChecksumIsRefused | libtv/fbcutils/fbcutils.cpp:306 | a text printed behind any other checksum than its own is refused |
| ProjectInfo.VersionIff | libtv/fbcutils/fbcutils.cpp:307-320 | a printed text passes if and only if it begins with v or V and three hexadecimal digits that do not make 0; the version is the number they make |
| ProjectInfo.Interpret | libtv/fbcutils/fbcutils.cpp:482-501 | checking, splitting at commas and storing the items, for any string |
| ProjectInfo.RecoveredIff | libtv/fbcutils/fbcutils.cpp:393-408 | printing for a panel name and reading back gives all six items exactly if and only if the name is not empty, has no comma and at most 63 characters |
| ProjectInfo.BoardRoundTrip | libtv/fbcutils/fbcutils.cpp:334-425 | an uncached read from the board gives back the six items if and only if the reported panel name is of that kind; a missing name is replaced by the panel type |
| ProjectInfo.PrototypeRoundTrip | libtv/fbcutils/fbcutils.cpp:372-382 | a prototype board gives the fixed six items, which are not kept |
| ProjectInfo.OtherSources | libtv/fbcutils/fbcutils.cpp:334-346 | without the board as source: nothing for the key, the boot environment's string otherwise, and what was kept stays |
| ProjectInfo.KeptForGood | libtv/fbcutils/fbcutils.cpp:360-369 | once a read was kept, every later read from the board gives the same result, whatever the board answers by then and whatever calls came between |
| ProjectInfo.ProjectIdNeverReported | libtv/fbcutils/fbcutils.cpp:384-391 | over the serial link the return code is the number of bytes received, so an answered project-id request counts as failed: the panel type is always fbc_0, and a read is complete if and only if that request went unanswered and a panel name was reported |
| ProjectInfo.KeptIffUnanswered | libtv/fbcutils/fbcutils.cpp:360-425 | a first read from a board that is not a prototype is kept if and only if the project-id request went unanswered and a panel name was reported |
| ProjectInfo.AnsweredIdIsLost | libtv/fbcutils/fbcutils.cpp:384-391 | a board that answers with id 7 in a frame that passes the check: the panel type is fbc_0 and the string is not kept |
| ProjectInfo.ProjectInfoReader.GetProjectInfoOriData | libtv/fbcutils/fbcutils.cpp:334-425 | the string and the cache after a call, for every source, answer and cache state |
| ProjectInfo.ProjectInfoReader.BuildString | libtv/fbcutils/fbcutils.cpp:371-409 | the text built by successive appends, behind its checksum |
| ProjectInfo.ProjectInfoReader.GetProjectInfo | libtv/fbcutils/fbcutils.cpp:462-502 | the result of a call and the cache after it |
| ProjectInfo.ItemsPlain | libtv/fbcutils/fbcutils.cpp:487-495 | no item holds a comma |
| ProjectInfo.FilledByPosition | libtv/fbcutils/fbcutils.cpp:487-501 | version 1 stores the first six items in its order, cut to 63 characters |
| ProjectInfo.FilledByPositionOther | libtv/fbcutils/fbcutils.cpp:487-501 | any other version stores the panel name third |
| Text.ReadHexPadded | libtv/fbcutils/fbcutils.cpp:304-305 | reading the printed eight digits gives back the number |
| Text.ReadHexText | tvfbclinker/CFbcUpgrade.cpp:464 | reading a number printed without padding gives it back |
| Text.ReadDecText | libtv/fbcutils/fbcutils.cpp:385 | a number printed in decimal digits is the number they make |
| EntrySort.SortEntries | tvserver/MemoryLeakTrackUtil.cpp:113-139 | the exchange sort terminates with the entries a permutation of the input, sizes not increasing, stack traces not increasing among entries of one size, and entries that compare equal in their original order |
| EntrySort.LargestFirst | tvserver/MemoryLeakTrackUtil.cpp:113-139 | in a descending list sizes do not increase, and among entries of one size stack traces do not |
| EntrySort.LexLessAt | tvserver/MemoryLeakTrackUtil.cpp:122-131 | one stack trace is less exactly if it has the smaller number at the first place where they differ |
| EntrySort.Sweep | tvserver/MemoryLeakTrackUtil.cpp:117-138 | a sweep keeps the entries and removes an inversion if it moved anything; if not, all neighbours are in order |
| EntrySort.Exchange | tvserver/MemoryLeakTrackUtil.cpp:132-137 | an exchange of neighbours that stand the wrong way round removes exactly one inversion |
| EntrySort.NeedsSwap | tvserver/MemoryLeakTrackUtil.cpp:119-131 | the comparison loop decides exactly the lexicographic order of (size, backtrace) |
| EntrySort.StrictWeakOrder | tvserver/MemoryLeakTrackUtil.cpp:122-131 | the comparison is a strict weak order; entries are incomparable exactly if size and stack trace agree |
| EntrySort.ExchangeRemovesOne | tvserver/MemoryLeakTrackUtil.cpp:132-137 | the inversion count drops by exactly one |
| EntrySort.StableOrderIsUnique | tvserver/MemoryLeakTrackUtil.cpp:113-139 | only one arrangement meets the sort's contract |
| RatingTree.GetElementPointerByName | libtv/tv/CTvRrt.cpp:25-43 | the recursive search returns what its last child's search returns |
| RatingTree.SaveDataToXml | libtv/tv/CTvRrt.cpp:91-172 | an entry joins the last group if dimension name, region name and dimension id agree, and opens a group otherwise; the file is written if writing succeeds |
| RatingTree.DocumentDetermines | libtv/tv/CTvRrt.cpp:91-172 | the document determines its groups, descriptions included |
| RatingTree.GroupsBeginAtChanges | libtv/tv/CTvRrt.cpp:123-161 | there are exactly as many groups as changes of (dimension name, region name, dimension id) along the stream |
| RatingTree.EntriesKept | libtv/tv/CTvRrt.cpp:91-161 | all entries are kept in order; only the region number may be that of the group's first entry |
| RatingTree.KeptExactlyIff | libtv/tv/CTvRrt.cpp:125-137 | flattening the tree gives back the saved entries if and only if neighbouring entries of a group agree on the region number |
| RatingTree.RrtDataUpdate | libtv/tv/CTvRrt.cpp:532-596 | a received table becomes the document of its entries in order, value 0 of every dimension left out and empty texts replaced by the ones before; whatever was written to the disk earlier, the file holds the document as of the last write that succeeded |
| RatingTree.SaveDimensions | libtv/tv/CTvRrt.cpp:564-585 | the dimensions of a section, numbered from 0 |
| RatingTree.SaveValues | libtv/tv/CTvRrt.cpp:570-580 | the values of a dimension from 1 on |
| RatingTree.MultipleStringParser | libtv/tv/CTvRrt.cpp:606-617 | the first string, or the text that was there if there is none |
| RatingTree.GetRRTRating | libtv/tv/CTvRrt.cpp:274-332 | the nested search over the file, with the names a failing search leaves behind |
| RatingTree.FindDefinition | libtv/tv/CTvRrt.cpp:310-319 | the first definition with the value id |
| RatingTree.SelectIsFirstMatch | libtv/tv/CTvRrt.cpp:294-325 | the search succeeds exactly if some entry matches by its group's region number, and gives the names and abbreviated text of the first |
| RatingTree.LookupFindsSaved | libtv/tv/CTvRrt.cpp:274-332 | if neighbours of a group agree on the region number and triples are distinct, every saved triple is found with its own abbreviated text and every other triple fails |
| RatingTree.UpdateThenLookup | libtv/tv/CTvRrt.cpp:274-596 | for a received table whose regions have numbers and names of their own, looking up in the file finds exactly the entries the last successful write covered, each with its own names and text; if no write succeeded the file is the one before |
| RatingTree.TableLookedUp | libtv/tv/CTvRrt.cpp:274-596 | told by the received table alone: once the last write succeeded, a triple is found if and only if the table has a value, other than value 0, with these numbers, and gives the first string of the region's name, of the dimension's name and of the value's abbreviation, where there is one |
| RatingTree.ValueAt | libtv/tv/CTvRrt.cpp:570-580 | the entry of a value has its own first strings, or for a missing text that of the value before |
| RatingTree.StreamHas | libtv/tv/CTvRrt.cpp:532-596 | every value but value 0 has its entry |
| RatingTree.StreamOnly | libtv/tv/CTvRrt.cpp:532-596 | and there is no other entry |
| TvFactory.GainReadBack | libtv/tv/CTvFactory.cpp:1078-1090 | a saved gain reads back between its clamped value and 71 below it, monotonically, for every integer |
| TvFactory.OffsetReadBack | libtv/tv/CTvFactory.cpp:1092-1116 | a saved offset reads back 8 to 79 below its clamped value, monotonically, for every integer; the lowest offset below the range of offsets |
| TvFactory.BoundsReached | libtv/tv/CTvFactory.cpp:1143-1212 | both bounds are met by concrete values |
| TvFactory.GainDrifts | libtv/tv/CTvFactory.cpp:1162-1204 | for every byte the board may hold, saving what was read costs one step each time: the first round takes anything above 31 to 31, and n rounds end n steps lower, down to 0 |
| TvFactory.OffsetDrifts | libtv/tv/CTvFactory.cpp:1165-1207 | the same for offsets, for every byte: the first round takes it into 127 to 159, and each later round costs a step down to the lowest |
| TvFactory.SaveThenGet | libtv/tv/CTvFactory.cpp:759-784 | each of the six values of a saved mode reads back within its bounds, independent of the other five; modes with another mode byte are unaffected |
| TvFactory.CTvFactory.WhiteBalancePramSave | libtv/tv/CTvFactory.cpp:759-784 | six values saved for a mode replace exactly that mode's bytes on the board |
| TvFactory.CTvFactory.ColorTempBatchSet | libtv/tv/CTvFactory.cpp:1143-1176 | the six bytes of one mode are set; -1 without a board |
| TvFactory.CTvFactory.ColorTempBatchGet | libtv/tv/CTvFactory.cpp:1178-1212 | gains of 0 to 2047 and offsets of -1024 to 1023, each the largest value that does not exceed its stored byte; setting them again lowers every byte but 0 and 255 by one; the caller's own values without a board |
| TvFactory.CTvFactory.GetItemFromBatch | libtv/tv/CTvFactory.cpp:1047-1076 | the item asked for, converted for its kind; 0 for an unknown item; without a board what the uninitialised parameters convert to |
| TvFactory.CTvFactory.FbcSetColorTemperature | libtv/tv/CTvFactory.cpp:1129-1141 | choosing a colour temperature halves the blue gain of the mode and lowers the other five items by a step, each time; -1 without a board |
| TvFactory.FloorThenCeiling | libtv/tv/CTvFactory.cpp:187-214 | scaling up by a / b and rounding down is undone by scaling back and rounding up, for every non-negative value and every a >= b |
| TvFactory.BacklightExactIff | libtv/tv/CTvFactory.cpp:187-214 | a backlight setting reads back as set if and only if it is between 0 and 100 |
| TvFactory.BacklightScale | libtv/tv/CTvFactory.cpp:187-196 | the byte set for a percentage is the largest that does not exceed it on a scale of 0 to 255 |
| TvFactory.BacklightReads | libtv/tv/CTvFactory.cpp:198-214 | the percentage read is the smallest that is not below the byte |
| TvFactory.CTvFactory.FbcSetBacklight | libtv/tv/CTvFactory.cpp:187-196 | afterwards the board's byte reads back as the value exactly for percentages; -1 without a board |
| TvFactory.CTvFactory.FbcGetBacklight | libtv/tv/CTvFactory.cpp:198-214 | always a percentage |
| FrontEnd.GetAfterSet | libtv/tv/CFrontEnd.cpp:1091-1100 | the byte set is read back cut to eight bits, and the other three bytes of the mode are untouched |
| FrontEnd.FEMode.Set8 | libtv/tv/CFrontEnd.cpp:1091-1095 | the same as the object's own update |
| FrontEnd.SameCommandsIff | libtv/tv/CFrontEnd.cpp:1122-1159 | requests that compare equal put the same calls into the tuner if and only if they are not ISDB-T requests of different bandwidths |
| FrontEnd.SameIfCommandsAre | libtv/tv/CFrontEnd.cpp:1122-1159 | digital requests that put the same calls into the tuner, and agree in generation and stream, compare equal |
| FrontEnd.SameIsEquivalence | libtv/tv/CFrontEnd.cpp:1102-1159 | the comparison is symmetric and transitive, and reflexive exactly on requests of a known kind |
| FrontEnd.SkippingIsSound | libtv/tv/CFrontEnd.cpp:414-521 | over any run of requests whose calls succeed, on any tuner that settles, skipping equal requests leaves the tuner as if every request had been sent, provided that no request but a forced one differs from the one directly before it in its ISDB-T bandwidth only |
| FrontEnd.SkippingIsSoundIff | libtv/tv/CFrontEnd.cpp:414-521 | on a tuner of registers that condition is exact: skipping is right after every request of the run if and only if it holds |
| FrontEnd.SkipSoundIff | libtv/tv/CFrontEnd.cpp:422-425 | on a tuner that keeps what it is told, skipping an equal request is right if and only if it is not an ISDB-T request for another bandwidth |
| FrontEnd.RegistersSettle | libtv/tv/CFrontEnd.cpp:480-518 | such a tuner settles: sending a request again changes nothing |
| FrontEnd.RequestReachesTuner | libtv/tv/CFrontEnd.cpp:429-518 | every member of a request reaches the tuner register of its kind, and nothing another kind uses is touched |
| FrontEnd.Members | libtv/tv/CFrontEnd.cpp:1109-1121 | each member is read under its own name, the two bytes of the mode from its low end |
| FrontEnd.AnalogReachesTuner | libtv/tv/CFrontEnd.cpp:456-474 | an analog request sets frequency, standards, audio mode, AFC and sound system |
| FrontEnd.StandardsRoundTripIff | libtv/tv/CFrontEnd.cpp:606-694 | video and audio standard put into one bit pattern are read back exactly in the combinations the tuner knows, if the patterns share no bits |
| FrontEnd.RetriedIff | libtv/tv/CFrontEnd.cpp:422-521 | after a request failed at any of its calls, repeating it makes all its calls if and only if the repeat is forced or the request is of no known kind, and otherwise changes nothing |
| FrontEnd.RecoversIff | libtv/tv/CFrontEnd.cpp:422-521 | on a tuner of registers the repeat ends as if the request had succeeded at once if and only if it is sent, or every call that was missed would have changed nothing |
| FrontEnd.CFrontEnd.SaveCurrentParas | libtv/tv/CFrontEnd.cpp:364-400 | the request and the slots older callers read, the fourth kept unless the request is analog |
| FrontEnd.CFrontEnd.SetPara | libtv/tv/CFrontEnd.cpp:414-521 | an equal request changes nothing unless forced; any other is remembered and its calls made in order up to the first that fails, which decides the return code; on whatever tuner, the call is one step of the run the theorems are about |
| FrontEnd.CFrontEnd.SetProperties | libtv/tv/CFrontEnd.cpp:508-518 | the second call, if the request has one |

## Left out

- SerialPort.CSerialPort.PollAndRead: a read that fails with -1 and the terminator written one byte behind a short read are not modelled; both are outside the bytes delivered.
- FbcProtocol.CFbcProtocol.FbcGetBatchValue: the reply is a parameter; the unsynchronised hand-over between the waiting caller and the receiving thread (sendDataAndWaitReply, processData) is not modelled, and neither is the CEC branch.
- FbcProtocol.CFbcProtocol.HandleSerialEvent: what processData makes of the frame handed on, and the optional resend of the unmute command, are not modelled.
- FbcUpgrade.CFbcUpgrade.Transfer: delays, the observer's notifications, the percentage and the final reboot command are not modelled; the list of sections is a parameter and must lie inside the file.
- UpgradePlan.CompleteTransferInstallsFile: the flash is at least as long as the file, and the device writes nothing but blocks it was sent.
- FbcProtocol.CFbcProtocol.ThreadLoop: events of the CEC device and the waiting while an upgrade runs are not modelled.
- FbcStream.StreamRoundTrip: for frames back to back every poll finds something; time-outs are described for one frame.
- QueueProtocol.EveryInterleavingIsSound: a waiting consumer may go on at any time, so wake-ups that come late, early or without cause are all covered; that a message is handled eventually is not claimed. A sender's clock read and its insertion are two steps, between which it holds the lock; removing and clearing are one step each. The unlocked size tests are single steps; a data race inside one is not modelled.
- ScanEvent.FillArrays: strings are sequences of characters; the conversion to 16-bit strings is not modelled. mVctType, mSat_polarisation and the front-end parameters are not transmitted by either encoder.
- EasEvent.FillArray: the slots behind the running index are not described.
- Subtitle.CTvSubtitle.ShowSub: the lock and the observer's notification are not modelled; pixels are a function of the offset from the region's pointer, so reads outside the region have some value.
- ProjectInfo.ProjectIdNeverReported: replies of more than 15 bytes, which overflow the 7-byte command buffer, are not described.
- ProjectInfo.ProjectInfoReader.GetProjectInfo: overlong answers of the board, which overflow the program's 64-byte buffers, and numbers above the range of strtoul are not modelled.
- EntrySort.SortEntries: needs at least one entry; with none the loop bound count - 1 wraps around and the program reads outside the array.
- RatingTree.SaveDataToXml: an element found is addressed by its place in the tree instead of a pointer; escaping of text in the file, and texts longer than their 2048-byte fields, are not modelled.
- RatingTree.GetRRTRating: the length fields beside each text are the texts' lengths and are left out.
- TvFactory.BacklightExactIff: overflow of value * 255 for values beyond eight million is not modelled.
- FrontEnd.CFrontEnd.SetPara: parsing of the request text is not modelled, a request is the map of its members; which base byte is which kind and the bits of the video standards are parameters.
- Dispatchers, forwarding layers, device input and output, and the other getters and setters of the panel board: forwarding without an algorithm of its own.
- initBlocksInfo, parseUpgradeInfo and loadUpgradeFile: they read a header layout whose offsets are not part of this model.
- CDTVTvPlayer::readMediaInfoFromFile: the writer of its format is not part of the repository.
