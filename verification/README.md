# PhysiCar: verified models

PhysiCar drives a small robot car: a LiDAR and its SDK, a laser-odometry scan matcher, a driver node
that talks to the motor, servo and sensor boards, a joystick node, a web server, and a tool server
that wakes chat sessions. This project models the parts of it whose correctness is a matter of
algorithms and state, and proves what they promise.

| file | models |
|---|---|
| Words.dfy, Scaling.dfy, Options.dfy | machine words as bits; products and orders; optional values |
| Crc32.dfy | the table-driven CRC-32 of the LiDAR SDK: equal to a textbook division with 1 to 4 zero bytes appended; which errors it finds |
| AnswerCodec.dfy | the LiDAR answer decoder, byte by byte and in place, its message buffer, and the command encoder |
| AsyncTransceiver.dfy | receive thread and decoder thread around a queue of buffers, over every interleaving |
| ScanNode.dfy, ScanHolder.dfy, AscendScan.dfy, ScanPublish.dfy | a LiDAR sample; double-buffered scan assembly; angle repair and sort; angle compensation and the published message |
| AngleRepair.dfy, PublishedScan.dfy | the same repair and publication in whole numbers: which angle each sample gets, and where each is published |
| GridIndex.dfy | the uniform grid that replaces brute-force nearest neighbour in the scan matcher |
| DriverControl.dfy | speed commands, odometry feedback, brake, watchdog and teleop lease of the driver node |
| DriveRuns.dfy | the driver told from its messages: corrections, steering, the lease |
| SpeedHold.dfy | generations, duration holds and dead-men of the web server |
| SpeedRequests.dfy | what its clients asked for against what it commanded |
| DriveChain.dfy | a hold of the web server and the watchdog of the driver on one clock |
| DeadmanChain.dfy | the dead-man of a closed speed stream and the driver, with and without a working bridge |
| JoyLease.dfy | the joystick node, and its lease at the driver |
| JoyEngagement.dfy | the joystick told from its messages: when it has the drive and what it sends |
| WakeTickets.dfy | one-shot wake tickets with cancellation, eviction and delivery |
| SerialFrames.dfy | the Rosmaster serial frames, sent and received |

Every stateful component appears twice: as the code has it (a class whose methods update fields, or
a loop over an array) and as a function on values. The methods are proved equal to the function, and
the properties are proved of the function, over every run. Threads, coroutines and callbacks are
atomic steps in any order: a step is what happens under one lock, between two awaits, or in one
callback. Clocks are parameters. Floating-point values are real numbers. `dafny verify
dfyconfig.toml` checks the whole project.

What the code does and its comments or documentation do not say (the model follows the code):

- `redeem` says False for an expired ticket; it does not look at the age of a ticket
  (`RedeemIgnoresAge`, `OldTicketRedeems`). Only a later `reserve` does (`HeldUntilPurged`).
- The checksum of a buffer of 65536 bytes or more covers only its first `length mod 65536` bytes
  (`EveryByteCovered`), and a trailing zero byte is invisible to it if the length is not 3 modulo 4,
  or the checksum is all ones (`TrailingZeroIff`).
- The answer decoder and the serial receiver do not look at a mismatching second header byte again:
  an odd run of stray 0xA5, or 0xFF, costs the next packet, an even one does not
  (`PacketArrivesIff`, `FrameArrivesIff`).
- A command payload of 256 bytes or more is sent without its checksum (`CommandRoundTrip`, `WholeFrame`).
- A stop command while the car is moving leaves the motor command as it was until the next odometry
  message; no tick of the watchdog helps (`StopIsImmediateIff`, `MovingCarKeepsDriving`).
- A joystick that goes stale releases the drive without a zero (`ReleaseSendsZeroIffLive`,
  `DroppedJoystickKeepsSpeed`); the watchdog stops the car (`SilentJoystickIsStopped`).
- The second pass of the angle repair has no effect (`PassesCompose`).
- Published intensities are those of other samples than the ranges whenever the data are reordered
  (`IntensityMatchesRange`); flipping an odd number of samples above one leaves a slot unwritten
  (`EverySlotWritten`).

## Model

| member | source | states |
|---|---|---|
| Crc32.BitRev | physicar_lidar/sdk/src/sl_crc.cpp:38-50 | the loop that sets one output bit for each input bit found set mirrors the low bits of the word |
| Crc32.CrcEngine.Init | physicar_lidar/sdk/src/sl_crc.cpp:52-69 | every one of the 256 table entries is what eight clocks of the mirrored register make of its index |
| Crc32.CrcEngine.TableEntry | physicar_lidar/sdk/src/sl_crc.cpp:60-67 | the shift-and-fold loop computes that entry |
| Crc32.CrcEngine.Cal | physicar_lidar/sdk/src/sl_crc.cpp:71-90 | table-driven register over the input, then over 1 to 4 zero bytes, complemented: equal to feeding every bit of input and padding one at a time |
| Crc32.CrcEngine.Bytes | physicar_lidar/sdk/src/sl_crc.cpp:79-83 | one table lookup for each input byte equals eight clocks for each byte |
| Crc32.CrcEngine.Zeros | physicar_lidar/sdk/src/sl_crc.cpp:85-88 | the padding loop feeds that many zero bytes |
| Crc32.CrcEngine.GetResult | physicar_lidar/sdk/src/sl_crc.cpp:92-101 | builds the table once; the result is the bitwise reference checksum of the first `len mod 65536` bytes, the length being narrowed to 16 bits on the way to `cal` |
| Crc32.StepLinear | physicar_lidar/sdk/src/sl_crc.cpp:62-65 | one clock of the register is linear over exclusive-or |
| Crc32.FeedIsFold | physicar_lidar/sdk/src/sl_crc.cpp:80-81 | feeding up to 32 bits one at a time is folding them in at once and then clocking |
| Crc32.LookupIsFeed | physicar_lidar/sdk/src/sl_crc.cpp:80-81 | a table lookup advances the register exactly as the eight bits of the byte do |
| Crc32.ReferenceIsDivision | physicar_lidar/sdk/src/sl_crc.cpp:71-101 | the reference checksum is the mirrored remainder of the textbook shift-register division of input and padding by 0x04C11DB7 |
| Crc32.StepInjective | physicar_lidar/sdk/src/sl_crc.cpp:62-65 | one clock never loses information: equal results come from equal registers |
| Crc32.FeedInjective | physicar_lidar/sdk/src/sl_crc.cpp:79-88 | the register after any bits determines the register before them |
| Crc32.BurstDetected | physicar_lidar/sdk/src/sl_crc.cpp:71-90 | two different inputs of equal length that differ only inside a window of 32 transmitted bits have different checksums |
| Crc32.ByteChangeDetected | physicar_lidar/sdk/src/sl_crc.cpp:71-90 | changing any single byte changes the checksum |
| Crc32.EveryByteCovered | physicar_lidar/sdk/src/sl_crc.cpp:92-101 | the checksum of a buffer reacts to a change of each of its bytes if and only if the buffer is shorter than 65536 bytes |
| Crc32.StepsFixOnlyClear | physicar_lidar/sdk/src/sl_crc.cpp:62-65 | a register that any power of two of clocks leaves as it was is clear, if one clock fixes only the clear one, as the polynomial has an even number of bits |
| Crc32.FourZerosFixOnlyClear | physicar_lidar/sdk/src/sl_crc.cpp:85-88 | four zero bytes leave the register as it was if and only if it is clear |
| Crc32.TrailingZeroIff | physicar_lidar/sdk/src/sl_crc.cpp:77-89 | appending a zero byte leaves the checksum as it was if and only if the length is not 3 modulo 4 or the checksum is all ones |
| Crc32.EmptyLooksLikeZero | physicar_lidar/sdk/src/sl_crc.cpp:77-89 | for instance no data and one zero byte |
| AnswerCodec.DecodeConcat | physicar_lidar/sdk/src/sl_lidarprotocol_codec.cpp:142-233 | decoding two buffers one after the other is decoding their concatenation, state and messages alike |
| AnswerCodec.DecodePrefix | physicar_lidar/sdk/src/sl_lidarprotocol_codec.cpp:142-233 | more bytes only extend the list of delivered messages |
| AnswerCodec.PacketDecodes | physicar_lidar/sdk/src/sl_lidarprotocol_codec.cpp:154-229 | from the first sync state a packet without the loop flag yields exactly its answer, or nothing if it is empty, and leaves the decoder there again |
| AnswerCodec.SizeFieldDecodes | physicar_lidar/sdk/src/sl_lidarprotocol_codec.cpp:170-191 | four size bytes in any values are split into a 30-bit size and a loop flag |
| AnswerCodec.StreamRoundTrip | physicar_lidar/sdk/src/sl_lidarprotocol_codec.cpp:154-229 | any list of packets with any noise between them that cannot be mistaken for a header decodes to exactly the non-empty answers in order |
| AnswerCodec.NoSyncIsHarmless | physicar_lidar/sdk/src/sl_lidarprotocol_codec.cpp:155-169 | noise without 0xA5 is such noise |
| AnswerCodec.NoiseDecodes | physicar_lidar/sdk/src/sl_lidarprotocol_codec.cpp:155-169 | noise without a header keeps the decoder in its sync states, and in the first one exactly when it ends with an even run of 0xA5 |
| AnswerCodec.OddRunLosesSync | physicar_lidar/sdk/src/sl_lidarprotocol_codec.cpp:160-169 | after an odd run of 0xA5 a packet is decoded as if its first sync byte were missing, the next byte not being taken for a first sync byte |
| AnswerCodec.DeliveryCost | physicar_lidar/sdk/src/sl_lidarprotocol_codec.cpp:154-229 | from any state, header and payload of every delivered answer are among the bytes behind the decoder and those it is given |
| AnswerCodec.PacketArrivesIff | physicar_lidar/sdk/src/sl_lidarprotocol_codec.cpp:155-229 | a packet after noise without a header is delivered if and only if the noise ends with an even run of 0xA5, whatever the bytes of the packet are |
| AnswerCodec.LoneSyncSwallowsPacket | physicar_lidar/sdk/src/sl_lidarprotocol_codec.cpp:160-169 | one stray 0xA5 in front of a packet without another 0xA5 loses the packet |
| AnswerCodec.LoopModeDecodes | physicar_lidar/sdk/src/sl_lidarprotocol_codec.cpp:180-184 | after one loop-flagged header all further bytes are payload, cut into answers of the same size and type |
| AnswerCodec.PiecesCover | physicar_lidar/sdk/src/sl_lidarprotocol_codec.cpp:208-212 | those pieces and the unfinished remainder are all the bytes, in order |
| AnswerCodec.ProtocolCodec.constructor | physicar_lidar/sdk/src/sl_lidarprotocol_codec.cpp:58-64 | a new codec waits for the first sync byte |
| AnswerCodec.ProtocolCodec.SetMessageListener | physicar_lidar/sdk/src/sl_lidarprotocol_codec.cpp:72-76 | a listener may come and go without disturbing the decoder |
| AnswerCodec.ProtocolCodec.OnDecodeReset | physicar_lidar/sdk/src/sl_lidarprotocol_codec.cpp:132-139 | reset returns to the first sync state from any state and drops the buffer |
| AnswerCodec.ProtocolCodec.OnDecodeData | physicar_lidar/sdk/src/sl_lidarprotocol_codec.cpp:142-233 | the in-place decoder, on any bytes in any state, ends in the state and delivers the messages of the decoding function, and every payload write is inside the allocated buffer |
| AnswerCodec.ProtocolCodec.DecodeByte | physicar_lidar/sdk/src/sl_lidarprotocol_codec.cpp:150-232 | one byte: next state, delivery and memory invariant |
| AnswerCodec.ProtocolCodec.SizeByte | physicar_lidar/sdk/src/sl_lidarprotocol_codec.cpp:170-191 | the raw overwrite of the length field byte by byte builds the received size |
| AnswerCodec.ProtocolCodec.EndOfHeader | physicar_lidar/sdk/src/sl_lidarprotocol_codec.cpp:176-189 | flags are split off and a buffer of at least the size is provided |
| AnswerCodec.ProtocolCodec.PayloadByte | physicar_lidar/sdk/src/sl_lidarprotocol_codec.cpp:205-229 | the write at the receive position is in bounds; a full payload is delivered as a copy and the decoder rewinds in loop mode or returns to the first sync state |
| AnswerCodec.SetByteEffect | physicar_lidar/sdk/src/sl_lidarprotocol_codec.cpp:173-174 | overwriting byte k of the length field leaves the bytes received so far in front and the field below 2^32 |
| AnswerCodec.ProtocolMessage.constructor | physicar_lidar/sdk/src/sl_async_transceiver.cpp:53-61 | an empty message |
| AnswerCodec.ProtocolMessage.Copy | physicar_lidar/sdk/src/sl_async_transceiver.cpp:77-89 | a copy has its own buffer of exactly the length, with the same bytes if the source has any; a cleaned source is copied too |
| AnswerCodec.ProtocolMessage.SetDataBuf | physicar_lidar/sdk/src/sl_async_transceiver.cpp:113-121 | an outer buffer is adopted without copying |
| AnswerCodec.ProtocolMessage.FillData | physicar_lidar/sdk/src/sl_async_transceiver.cpp:123-129 | the message has the new size, room for it, and the given bytes |
| AnswerCodec.ProtocolMessage.CleanData | physicar_lidar/sdk/src/sl_async_transceiver.cpp:131-143 | the buffer is given up; the length becomes 1 only if there was one |
| AnswerCodec.ProtocolMessage.ChangeBufSize | physicar_lidar/sdk/src/sl_async_transceiver.cpp:145-176 | the buffer is kept exactly when it has the size, or is less than twice as big and no compaction is forced; otherwise it is replaced by one of exactly the size |
| AnswerCodec.TxByte | physicar_lidar/sdk/src/sl_lidarprotocol_codec.cpp:98-122 | the byte the encoder chooses for a position is that of the frame |
| AnswerCodec.OnEncodeData | physicar_lidar/sdk/src/sl_lidarprotocol_codec.cpp:91-130 | the encoder writes as much of the frame as the buffer has room for and nothing behind it |
| AnswerCodec.CommandRoundTrip | physicar_lidar/sdk/src/sl_lidarprotocol_codec.cpp:78-130 | a device that checks sync, size and checksum gets command and payload back if and only if the payload flag fits the payload and the payload fits the one-byte size |
| AnswerCodec.WholeFrame | physicar_lidar/sdk/src/sl_lidarprotocol_codec.cpp:78-130 | what goes out: 0xA5 and the command alone; with the size, the payload and a checksum over all of it; or, from 256 bytes of payload on, one byte of it more than the size byte says and no checksum |
| AnswerCodec.XorOctetBits | physicar_lidar/sdk/src/sl_lidarprotocol_codec.cpp:125 | the checksum combines bytes bit by bit |
| AnswerCodec.FrameXorsToZero | physicar_lidar/sdk/src/sl_lidarprotocol_codec.cpp:112-126 | a frame with its checksum exclusive-ors to zero |
| AsyncTransceiver.EveryRunKeepsInv | physicar_lidar/sdk/src/sl_async_transceiver.cpp:299-409 | over every interleaving of the two threads, of resets and of closing, also between the test of the decoder loop and its take, bytes decoded, in hand, queued, held and discarded are the bytes read, in order |
| AsyncTransceiver.ReceivedIsRead | physicar_lidar/sdk/src/sl_async_transceiver.cpp:311-335 | the bytes counted as received are those the channel gave, all of them and in order |
| AsyncTransceiver.ReplayIsDecode | physicar_lidar/sdk/src/sl_async_transceiver.cpp:380-405 | without a reset, decoding buffer by buffer is decoding the concatenation |
| AsyncTransceiver.ThreadedRefinesSequential | physicar_lidar/sdk/src/sl_async_transceiver.cpp:299-409 | whatever the split into reads and the interleaving, the messages delivered are a prefix of those of one pass over the bytes read, and all of them once nothing is on its way |
| AsyncTransceiver.ChunkingIsInvisible | physicar_lidar/sdk/src/sl_async_transceiver.cpp:309-367 | two runs that read the same bytes never disagree on a message, however reads were split and threads scheduled |
| AsyncTransceiver.ResetsRefineSequential | physicar_lidar/sdk/src/sl_async_transceiver.cpp:377-401 | with resets, the messages are those of a single-threaded decoder reset at the same places, and the bytes decoded are a prefix of those read |
| AsyncTransceiver.AfterReset | physicar_lidar/sdk/src/sl_lidarprotocol_codec.cpp:66-68 | leaving loop mode takes the decoder out of it: whatever state the bytes before left it in, those decoded after the reset are decoded from the first sync state, over every interleaving |
| AsyncTransceiver.PacketsAfterReset | physicar_lidar/sdk/src/sl_lidarprotocol_codec.cpp:132-139 | so every packet decoded after a reset arrives |
| AsyncTransceiver.StopIsPrompt | physicar_lidar/sdk/src/sl_async_transceiver.cpp:235-257 | once closing has begun the decoder thread finishes at most the buffer it has, or one more if it had passed its test |
| AsyncTransceiver.CanDrain | physicar_lidar/sdk/src/sl_async_transceiver.cpp:361-405 | from every reachable state of a working link pushing, testing, taking and decoding empty the queue |
| AsyncTransceiver.AsyncTransceiver.constructor | physicar_lidar/sdk/src/sl_async_transceiver.cpp:179-186 | a transceiver that is not working, with an empty queue |
| AsyncTransceiver.AsyncTransceiver.OpenChannelAndBind | physicar_lidar/sdk/src/sl_async_transceiver.cpp:193-231 | opened for the first time, both threads running |
| AsyncTransceiver.AsyncTransceiver.ReadBuffer | physicar_lidar/sdk/src/sl_async_transceiver.cpp:331-335 | the receive thread reads a buffer |
| AsyncTransceiver.AsyncTransceiver.PushBuffer | physicar_lidar/sdk/src/sl_async_transceiver.cpp:361-364 | the buffer goes to the back of the queue |
| AsyncTransceiver.AsyncTransceiver.StartDecoder | physicar_lidar/sdk/src/sl_async_transceiver.cpp:372-377 | the decoder thread starts with a reset |
| AsyncTransceiver.AsyncTransceiver.TestWorking | physicar_lidar/sdk/src/sl_async_transceiver.cpp:380 | the loop test of the decoder thread, as a step of its own |
| AsyncTransceiver.AsyncTransceiver.TakeBuffer | physicar_lidar/sdk/src/sl_async_transceiver.cpp:382-398 | after the test, even if closing has begun since: the front buffer, or another round |
| AsyncTransceiver.AsyncTransceiver.DecodeBuffer | physicar_lidar/sdk/src/sl_async_transceiver.cpp:400-404 | the taken buffer is decoded whole |
| AsyncTransceiver.AsyncTransceiver.ResetDecoder | physicar_lidar/sdk/src/sl_lidarprotocol_codec.cpp:66-68 | leaving loop mode puts the decoder back in its first sync state, between buffers |
| AsyncTransceiver.AsyncTransceiver.EndReceiving | physicar_lidar/sdk/src/sl_async_transceiver.cpp:311-347 | a channel error or an empty read ends the receive thread |
| AsyncTransceiver.AsyncTransceiver.Stop | physicar_lidar/sdk/src/sl_async_transceiver.cpp:235-242 | closing tells both threads to stop |
| AsyncTransceiver.AsyncTransceiver.DiscardQueue | physicar_lidar/sdk/src/sl_async_transceiver.cpp:253-257 | what is still queued at closing is discarded undecoded |
| AsyncTransceiver.DecodeAsActions | physicar_lidar/sdk/src/sl_async_transceiver.cpp:401-404 | decoding a buffer in one call is decoding its bytes one at a time |
| GridIndex.NeighbourCells | physicar_laser_odom/include/physicar_laser_odom/scan_matcher.hpp:203-222 | a point at least one cell inside the origin and a query less than one cell away lie in neighbouring cells, although coordinates are truncated toward zero and the query may lie outside the grid |
| GridIndex.GridIndex.constructor | physicar_laser_odom/include/physicar_laser_odom/scan_matcher.hpp:203-224 | every cell holds, in ascending order, exactly the indices of the points truncated into it, and every write is inside the grid |
| GridIndex.BoundingBox | physicar_laser_odom/include/physicar_laser_odom/scan_matcher.hpp:207-212 | the box bounds every point; if no coordinate exceeds 1e9, the initial corner, each side touches a point |
| GridIndex.GridFrame | physicar_laser_odom/include/physicar_laser_odom/scan_matcher.hpp:213-222 | a point inside the box, a cell away from the origin, has cell coordinates inside the grid |
| GridIndex.GridIndex.InsertAll | physicar_laser_odom/include/physicar_laser_odom/scan_matcher.hpp:219-223 | all points end up in their cells |
| GridIndex.GridIndex.Insert | physicar_laser_odom/include/physicar_laser_odom/scan_matcher.hpp:220-222 | appending one index keeps all cells right |
| GridIndex.GridIndex.FindNearest | physicar_laser_odom/include/physicar_laser_odom/scan_matcher.hpp:226-248 | for every query and every limit up to the squared cell size: a point is found if and only if some point is closer than the limit, the distance is the minimum over all points, the index attains it, and ties go to the earlier cell and then the lower index |
| GridIndex.GridIndex.Search | physicar_laser_odom/include/physicar_laser_odom/scan_matcher.hpp:230-247 | the 3 x 3 search returns the best point among the cells around the query, each visited in bounds |
| GridIndex.GridIndex.SearchCell | physicar_laser_odom/include/physicar_laser_odom/scan_matcher.hpp:237-245 | scanning one cell keeps the best so far in search order |
| GridIndex.GridIndex.FarPointsAreFar | physicar_laser_odom/include/physicar_laser_odom/scan_matcher.hpp:230-236 | a point outside the nine cells is not closer than the limit |
| GridIndex.GridIndex.Measure | physicar_laser_odom/include/physicar_laser_odom/scan_matcher.hpp:238-240 | the squared distance |
| GridIndex.Correspond | physicar_laser_odom/include/physicar_laser_odom/scan_matcher.hpp:121-132 | as the matcher uses it, the index agrees with brute force for every source point: -1 if nothing is in range, otherwise a nearest point |
| WakeTickets.EvictOldest | physicar_tools/pcwake.py:76-77 | the eviction loop leaves fewer than the limit and takes nothing newer than what it leaves |
| WakeTickets.EveryRunKeepsInv | physicar_tools/pcwake.py:54-159 | over every interleaving of lock regions, half-finished redeems included, tables, queues and the place of every wake agree |
| WakeTickets.TablesDisjointAndBounded | physicar_tools/pcwake.py:44-51 | tickets, redeemed and cancelled tables are pairwise disjoint, hold at most 200, 200 and 199 entries, and each queue at most 50 |
| WakeTickets.EveryWakeInOnePlace | physicar_tools/pcwake.py:54-159 | every id ever issued is in exactly one place: ticket, being redeemed, queued, delivered, cancelled, expired or evicted, or dropped by overflow |
| WakeTickets.DeliveredAtMostOnce | physicar_tools/pcwake.py:147-159 | no wake is delivered twice, to one session or to two |
| WakeTickets.DeliveredInOrder | physicar_tools/pcwake.py:54-63 | what a session was given followed by what is queued for it is what was queued, in order, without what was dropped or cancelled |
| WakeTickets.WakeSaysItsMessage | physicar_tools/pcwake.py:83-95 | over every run a wake reserved for a session and redeemed with a note is queued for and given to that session only, and says the first 500 characters of the reserved message and, if there is a note, a dash and the first 500 characters of the note |
| WakeTickets.FinalStays | physicar_tools/pcwake.py:54-159 | delivered, cancelled, expired and dropped are final |
| WakeTickets.FinalForever | physicar_tools/pcwake.py:54-159 | and stay so over every continuation |
| WakeTickets.CancelIsFinal | physicar_tools/pcwake.py:98-116 | a cancel that returned True means the wake is never delivered afterwards, in any continuation with any half-finished redeems |
| WakeTickets.CancellableExactly | physicar_tools/pcwake.py:104-110 | cancel removes something exactly when the wake is a ticket or queued |
| WakeTickets.HalfRedeemedCannotBeCancelled | physicar_tools/pcwake.py:86-95 | between the two locks of a redeem cancel finds nothing to remove |
| WakeTickets.RedeemIgnoresAge | physicar_tools/pcwake.py:83-95 | a held ticket redeems at any time: its wake is queued, and a redeem at any other time differs in nothing but the recorded time |
| WakeTickets.OldTicketRedeems | physicar_tools/pcwake.py:83-95 | a ticket of any age above the limit, reserved and then redeemed, is queued, unlike what the doc comment of redeem says |
| WakeTickets.HeldUntilPurged | physicar_tools/pcwake.py:66-95 | over every continuation in which nobody redeems or cancels it a ticket is still held if and only if no reservation found it over the age limit or among the oldest it made room for |
| WakeTickets.ReserveExpires | physicar_tools/pcwake.py:73-77 | a reservation expires a ticket exactly when it is over the age limit or among the oldest that had to make room |
| WakeTickets.ReserveEvictsOldest | physicar_tools/pcwake.py:73-80 | a ticket under the age limit is lost to a reservation only if that fills the table, and never while an older one is kept |
| WakeTickets.QueueKeepsNewest | physicar_tools/pcwake.py:57-63 | the new wake is the last of its queue, which loses its first if and only if it was full |
| WakeTickets.PcWake.constructor | physicar_tools/pcwake.py:43-51 | empty tables |
| WakeTickets.PcWake.ReserveTicket | physicar_tools/pcwake.py:66-80 | purge, evict, issue: the whole new state; nothing without a session |
| WakeTickets.PcWake.RedeemFirstHalf | physicar_tools/pcwake.py:86-91 | the first lock region of redeem |
| WakeTickets.PcWake.Enqueue | physicar_tools/pcwake.py:54-63 | the second one: oldest out of a full queue, the wake in |
| WakeTickets.PcWake.EnqueueLocked | physicar_tools/pcwake.py:57-63 | the queue update under the lock; False without a session |
| WakeTickets.PcWake.Redeem | physicar_tools/pcwake.py:83-95 | True exactly when the ticket existed, its wake then being queued; what the wake says is WakeSaysItsMessage |
| WakeTickets.PcWake.FilterQueues | physicar_tools/pcwake.py:106-110 | every queue loses the wake and the result tells whether one did |
| WakeTickets.PcWake.RemoveWake | physicar_tools/pcwake.py:104-110 | tickets and queues lose the wake |
| WakeTickets.PcWake.RecordCancellation | physicar_tools/pcwake.py:111-115 | the cancellation is recorded and the table kept below its limit |
| WakeTickets.PcWake.CancelWake | physicar_tools/pcwake.py:98-116 | the whole of cancel |
| WakeTickets.PcWake.Status | physicar_tools/pcwake.py:119-135 | pending exactly for a held ticket; redeemed and cancelled only for wakes that were, with their age |
| WakeTickets.PcWake.DrainOnce | physicar_tools/pcwake.py:151-155 | takes and empties the queue of the session |
| ScanHolder.CurrentIsTurn | physicar_lidar/sdk/src/sl_lidar_driver.cpp:272-315 | what is being collected is the stretch of pushes since the last sync sample, nothing after a rewind |
| ScanHolder.ClosedIsLastTurn | physicar_lidar/sdk/src/sl_lidar_driver.cpp:279-294 | the finished scan is the last turn: a sync sample and all that followed it up to the next sync sample, without a rewind between |
| ScanHolder.NoTurnNoScan | physicar_lidar/sdk/src/sl_lidar_driver.cpp:279-300 | there is no finished scan as long as no turn was completed |
| ScanHolder.ClosedShape | physicar_lidar/sdk/src/sl_lidar_driver.cpp:279-307 | a finished scan is not empty, and its first sample alone carries the sync bit |
| ScanHolder.PublishedShape | physicar_lidar/sdk/src/sl_lidar_driver.cpp:302-308 | a published scan has 1 to N samples, and its first alone carries the sync bit if and only if N is above 1 or the turn had one sample |
| ScanHolder.CountsTurns | physicar_lidar/sdk/src/sl_lidar_driver.cpp:279-284 | finished scans are counted one for each event that ends a turn and none for any other |
| ScanHolder.TurnByFlags | physicar_lidar/sdk/src/sl_lidar_driver.cpp:279-300 | a sample with the lowest flag bit, samples without it and another one with it make one finished scan of all but the last |
| ScanHolder.ScanDataHolder.constructor | physicar_lidar/sdk/src/sl_lidar_driver.cpp:241-250 | two empty buffers, nothing published |
| ScanHolder.ScanDataHolder.Reset | physicar_lidar/sdk/src/sl_lidar_driver.cpp:257-265 | everything forgotten |
| ScanHolder.ScanDataHolder.PushScanNodeData | physicar_lidar/sdk/src/sl_lidar_driver.cpp:272-310 | for every sequence of pushes and rewinds the published buffer holds the last finished turn, capped to its first N - 1 samples and its latest, with the timestamp of its first; a scan is announced, to the waiter and to the poller, exactly when the push ends a turn; the producer never writes the published buffer |
| ScanHolder.ScanDataHolder.CheckNewScanSignalAndReset | physicar_lidar/sdk/src/sl_lidar_driver.cpp:267-270 | whether a scan was finished since the last look |
| ScanHolder.ScanDataHolder.FinishCurrentScanAndSwap | physicar_lidar/sdk/src/sl_lidar_driver.cpp:341-347 | the buffers change roles and the new operating one is empty |
| ScanHolder.ScanDataHolder.RewindCurrentScanData | physicar_lidar/sdk/src/sl_lidar_driver.cpp:312-315 | drops what is being collected, not what is published |
| ScanHolder.ClosedStays | physicar_lidar/sdk/src/sl_lidar_driver.cpp:272-315 | once a scan was finished there is one after any further pushes and rewinds, so that a signalled consumer may lock later |
| ScanHolder.ScanDataHolder.WaitSignal | physicar_lidar/sdk/src/sl_lidar_driver.cpp:317-319 | the wait consumes the signal; it succeeds only if a scan was finished |
| ScanHolder.ScanDataHolder.LockAndCopy | physicar_lidar/sdk/src/sl_lidar_driver.cpp:321-332 | at the lock the consumer gets the turn finished last by then, cut to its room, with the time it began |
| ScanHolder.ScanDataHolder.GrabScan | physicar_lidar/sdk/src/sl_lidar_driver.cpp:783-800 | both in a row: once for each signal |
| ScanNode.DegreesRoundTrip | physicar_lidar/sdk/src/sl_lidar_driver.cpp:102-110 | writing back an angle just read changes nothing, and angles read are below 360 |
| AscendScan.Ascend | physicar_lidar/sdk/src/sl_lidar_driver.cpp:128-184 | fails exactly when every distance is zero and then leaves the buffer as it was; otherwise the buffer is a sorted permutation of the repaired scan, distance, quality and flag triples are permuted and samples with a distance keep their angle |
| AscendScan.TuneHeadPass | physicar_lidar/sdk/src/sl_lidar_driver.cpp:134-151 | the first pass gives the samples before the first valid one their angles and finds out whether there is one |
| AscendScan.TuneTailPass | physicar_lidar/sdk/src/sl_lidar_driver.cpp:153-168 | the second pass gives the samples after the last valid one their angles |
| AscendScan.FillPass | physicar_lidar/sdk/src/sl_lidar_driver.cpp:170-178 | the third pass gives every invalid sample but the first an angle by its position |
| AscendScan.SortByAngle | physicar_lidar/sdk/src/sl_lidar_driver.cpp:180-181 | ascending by angle, a permutation |
| AscendScan.PassesCompose | physicar_lidar/sdk/src/sl_lidar_driver.cpp:134-178 | the three passes together are one repair, in which the second pass has no effect |
| AscendScan.ReadingsPermute | physicar_lidar/sdk/src/sl_lidar_driver.cpp:180-181 | reordering permutes the readings |
| AscendScan.RepairKeepsValid | physicar_lidar/sdk/src/sl_lidar_driver.cpp:134-178 | repairs leave samples with a distance alone |
| AscendScan.Promises | physicar_lidar/sdk/src/sl_lidar_driver.cpp:128-184 | any reordering of the repaired scan keeps readings and valid samples |
| AngleRepair.BackIs | physicar_lidar/sdk/src/sl_lidar_driver.cpp:141-149 | k samples before a valid one the angle is k spacings lower, a spacing being 65536 over the number of samples rounded up, and never below zero |
| AngleRepair.FillAngleIs | physicar_lidar/sdk/src/sl_lidar_driver.cpp:170-178 | a sample placed by its index gets the front angle plus its share of 65536, rounded down, modulo 65536 |
| AngleRepair.RepairedAngles | physicar_lidar/sdk/src/sl_lidar_driver.cpp:134-178 | the whole repair in whole numbers: which angle every sample of the scan ends up with, everything else of it unchanged |
| ScanPublish.AngleCompensate | physicar_lidar/src/rplidar_node.cpp:487-505 | every write is inside the array and the offset stays 0; each slot ends with what the last sample written to it left, or nothing |
| ScanPublish.BucketInRange | physicar_lidar/src/rplidar_node.cpp:495-497 | the bucket of a sample is inside the array |
| ScanPublish.BucketMonotone | physicar_lidar/src/rplidar_node.cpp:495-496 | samples in ascending order of angle have buckets in ascending order |
| ScanPublish.SlotIsLastCovering | physicar_lidar/src/rplidar_node.cpp:493-505 | a slot holds the highest-index valid sample whose bucket lies in the last m slots up to it, or zero if there is none; the clamp to the last slot changes nothing |
| ScanPublish.SlotIsGreatestAngle | physicar_lidar/src/rplidar_node.cpp:493-505 | which on a sorted scan is the one with the greatest angle among them |
| ScanPublish.PublishScan | physicar_lidar/src/rplidar_node.cpp:260-283 | every write is inside the message; a range is that of the last sample mapped to its slot, infinity for distance zero; an intensity is read at the slot, not at that sample |
| ScanPublish.EverySlotWritten | physicar_lidar/src/rplidar_node.cpp:264-276 | every range slot is written if and only if there is no flip, the count is even or it is at most 1 |
| ScanPublish.WrittenOnce | physicar_lidar/src/rplidar_node.cpp:264-276 | and in those cases written once |
| ScanPublish.IntensityMatchesRange | physicar_lidar/src/rplidar_node.cpp:265-283 | range and intensity of every slot come from the same sample if and only if the remapping does nothing |
| PublishedScan.BucketIs | physicar_lidar/src/rplidar_node.cpp:495-496 | the bucket of an angle of q 65536ths of the circle is the whole part of q * 90 * m / 16384 |
| PublishedScan.SlotHolds | physicar_lidar/src/rplidar_node.cpp:487-505 | slot s holds the last sample with a distance whose angle lies in the m sectors of the 360 * m up to s, zero without one |
| PublishedScan.SampleIsAtItsPlace | physicar_lidar/src/rplidar_node.cpp:264-283 | for an even number of samples, or no flip, the distance of each in metres, infinite for zero, stands at its index counted from the other end if mirrored and half-way round if flipped; the intensity there is a quarter of the quality of the sample that has that index |
| DriverControl.EveryRunKeepsInv | physicar_bringup/src/physicar_driver_node.cpp:867-932 | over every run of commands, odometry, ticks and status messages: target within 3, adjustment within 0.5; a target outside the dead zone has a motor command of its sign between 0.01 and 3.5; braking means a target inside it; a target inside it without braking means motor off |
| DriverControl.OdomCorrects | physicar_bringup/src/physicar_driver_node.cpp:928-931 | the motor is driven harder than the target exactly when the predicted speed falls short of it |
| DriverControl.PredictsAlongLine | physicar_bringup/src/physicar_driver_node.cpp:908-928 | the prediction is exact for a car that accelerates evenly |
| DriverControl.MeasuredAtOdometry | physicar_bringup/src/physicar_driver_node.cpp:911-914 | the time of the measured speed is that of some odometry message of the run, or 0 |
| DriverControl.StaleFeedbackIsIgnored | physicar_bringup/src/physicar_driver_node.cpp:873-900 | in every run a speed command that no odometry message precedes by half a second or less drives the motor at the commanded speed itself |
| DriverControl.BrakeOpposesMotion | physicar_bringup/src/physicar_driver_node.cpp:916-926 | an odometry sample while braking ends the brake with the motor off at 0.3 m/s or below, and opposes the motion at 0.3 above |
| DriverControl.StopIsImmediateIff | physicar_bringup/src/physicar_driver_node.cpp:873-881 | a stop command turns the motor off at once if and only if the measured speed is stale or at most 0.3 (or the motor was off); otherwise it leaves the motor command as it was |
| DriverControl.BrakeWaitsForOdometry | physicar_bringup/src/physicar_driver_node.cpp:794-803 | while braking, no number of watchdog ticks moves the motor: only odometry or another speed command does |
| DriverControl.MovingCarKeepsDriving | physicar_bringup/src/physicar_driver_node.cpp:873-881 | from the start: drive off, one odometry message and a stop leave the motor driven at 1 m/s with target 0, over every continuation without odometry and commands |
| DriverControl.TargetIsDue | physicar_bringup/src/physicar_driver_node.cpp:791-803 | in every run the target is the last command let through, from any source, until the first tick more than the timeout after it, and 0 from then on |
| DriverControl.EngagedExactly | physicar_bringup/src/physicar_driver_node.cpp:835-862 | the gate is closed exactly while the latest status of some source is a drive lease no older than its own timeout |
| DriverControl.SourcesAreLatest | physicar_bringup/src/physicar_driver_node.cpp:854-862 | the table holds the latest status of each source, an empty name read as "unknown" and a timeout of 0 or less as half a second |
| DriverControl.GatedRunsChangeNothing | physicar_bringup/src/physicar_driver_node.cpp:720-727 | while leased, any number of /speed, /steering and /cmd_vel messages change nothing |
| DriveRuns.ClampIsNearest | physicar_bringup/src/physicar_driver_node.cpp:868 | a limited value is in range, and none in range is nearer to the one asked for |
| DriveRuns.OdometryRemembered | physicar_bringup/src/physicar_driver_node.cpp:911-914 | in every run the measured speed, its time and the sample the prediction starts from are those of the latest odometry message |
| DriveRuns.CorrectedAlongLine | physicar_bringup/src/physicar_driver_node.cpp:908-931 | in every run an odometry message adds to the target of a driven car one and a half times what the line through the last two messages, followed for 0.2 s, falls short of it, at most 0.5, the sum not crossing 0.01 |
| DriveRuns.CorrectedWithoutLine | physicar_bringup/src/physicar_driver_node.cpp:908-931 | the same with the message taken by itself if it is the first or within a millisecond of the one before |
| DriveRuns.CorrectionIsCarried | physicar_bringup/src/physicar_driver_node.cpp:873-901 | until the next odometry message every speed commanded within 0.5 s of the last gets the same correction added |
| DriveRuns.SteeringIsLastAsked | physicar_bringup/src/physicar_driver_node.cpp:888-950 | in every run the wheels stand as the last steering message or velocity command let through asks, within 20 degrees |
| DriveRuns.GateFromMessages | physicar_bringup/src/physicar_driver_node.cpp:835-862 | in every run the gate is closed if and only if some status message takes the drive, is the latest of its source, an empty name being the same as "unknown", and is no older than the time it names, half a second without one |
| DriverControl.DriverNode.constructor | physicar_bringup/src/physicar_driver_node.cpp:1306-1335 | the node starts at rest with no leases |
| DriverControl.DriverNode.SetSpeed | physicar_bringup/src/physicar_driver_node.cpp:867-886 | the whole new state after a speed command |
| DriverControl.DriverNode.GetAdjustedSpeed | physicar_bringup/src/physicar_driver_node.cpp:895-901 | the motor command for the target, the adjustment dropped when feedback is stale |
| DriverControl.DriverNode.OdomCallback | physicar_bringup/src/physicar_driver_node.cpp:905-932 | the whole new state after an odometry message |
| DriverControl.DriverNode.SetSteering | physicar_bringup/src/physicar_driver_node.cpp:888-893 | the steering angle within 20 degrees; nothing else changes |
| DriverControl.DriverNode.CommandWatchdog | physicar_bringup/src/physicar_driver_node.cpp:794-803 | one tick of the watchdog |
| DriverControl.DriverNode.DriveEngaged | physicar_bringup/src/physicar_driver_node.cpp:835-842 | whether some source holds a drive lease |
| DriverControl.DriverNode.SpeedCallback | physicar_bringup/src/physicar_driver_node.cpp:720-723 | /speed behind the gate |
| DriverControl.DriverNode.SteeringCallback | physicar_bringup/src/physicar_driver_node.cpp:724-727 | /steering behind the gate |
| DriverControl.DriverNode.CmdVelCallback | physicar_bringup/src/physicar_driver_node.cpp:936-950 | /cmd_vel behind the gate: speed and steering |
| DriverControl.DriverNode.TeleopStatusCallback | physicar_bringup/src/physicar_driver_node.cpp:854-862 | a status message replaces the entry of its source |
| SpeedHold.EveryRunKeepsInv | physicar_webserver/physicar_webserver/routers/hw.py:447-602 | over every interleaving of requests, frames, closes, holds and dead-men the generations say who commanded last |
| SpeedHold.KeepAliveCarriesNewest | physicar_webserver/physicar_webserver/routers/hw.py:475-487 | in every run each keep-alive carries the value of the newest speed command, the one that started its hold, with no other command and no dead-man zero between |
| SpeedHold.TakenOverNeverPublishes | physicar_webserver/physicar_webserver/routers/hw.py:478-494 | after another command or a dead-man zero a hold publishes nothing any more, its final zero included |
| SpeedHold.EndingIsLast | physicar_webserver/physicar_webserver/routers/hw.py:475-494 | a hold ends once and says nothing afterwards |
| SpeedHold.HoldActs | physicar_webserver/physicar_webserver/routers/hw.py:478-494 | a hold resumed, the first time or after a sleep, is superseded if and only if its command is no longer the newest, else stopped with a zero if and only if its duration is over |
| SpeedHold.DeadmanExactly | physicar_webserver/physicar_webserver/routers/hw.py:585-600 | a dead-man whose grace is over zeroes its axis if and only if no command for that axis came since its stream closed |
| SpeedHold.DeadmanActs | physicar_webserver/physicar_webserver/routers/hw.py:589-600 | once its grace is over it always does one or the other |
| SpeedRequests.CommandsAsAsked | physicar_webserver/physicar_webserver/routers/hw.py:505-635 | in every run the commands are those the clients asked for by request or by a frame on an open stream: axis, value, order, each once, none for a rejected one |
| SpeedRequests.RejectedChangesNothing | physicar_webserver/physicar_webserver/routers/hw.py:520-522 | a request or frame on a bridge that is not ready, with a duration out of range or on a closed stream changes nothing |
| SpeedRequests.OpenedIsOpen | physicar_webserver/physicar_webserver/routers/hw.py:564-583 | a stream that was opened and not closed has its axis, and counts as used from its first frame on a ready bridge |
| SpeedRequests.ClosingLeavesDeadman | physicar_webserver/physicar_webserver/routers/hw.py:585-602 | closing a stream leaves a dead-man if and only if such a frame arrived, and otherwise no trace |
| SpeedHold.SpeedServer.constructor | physicar_webserver/physicar_webserver/routers/hw.py:447-460 | both counters start at 0 |
| SpeedHold.SpeedServer.BumpSpeedGen | physicar_webserver/physicar_webserver/routers/hw.py:463-466 | a new generation |
| SpeedHold.SpeedServer.SetSpeed | physicar_webserver/physicar_webserver/routers/hw.py:505-541 | a speed request: rejected, one-shot or with a hold |
| SpeedHold.SpeedServer.SetSteering | physicar_webserver/physicar_webserver/routers/hw.py:614-635 | a steering request |
| SpeedHold.SpeedServer.FrameReceived | physicar_webserver/physicar_webserver/routers/hw.py:567-582 | a frame on a control stream is published and takes its axis over; what is published is CommandsAsAsked and FrameDrives |
| SpeedHold.SpeedServer.StreamClosed | physicar_webserver/physicar_webserver/routers/hw.py:585-602 | a closed stream that sent something leaves a dead-man |
| SpeedHold.SpeedServer.ResumeHold | physicar_webserver/physicar_webserver/routers/hw.py:475-494 | a hold from one await to the next |
| SpeedHold.SpeedServer.ResumeDeadman | physicar_webserver/physicar_webserver/routers/hw.py:589-600 | a dead-man from one await to the next |
| DriveChain.OneEntry | physicar_webserver/physicar_webserver/routers/hw.py:475-602 | a step of the server publishes at most one speed |
| DriveChain.UnreachableIsSilent | physicar_webserver/physicar_webserver/routers/hw.py:484-601 | without a ready bridge and a publisher a step publishes nothing |
| DriveChain.FrameDrives | physicar_webserver/physicar_webserver/routers/hw.py:567-582 | a frame on an open speed stream leaves an unleased driver with its value, limited, as target, commanded at that moment |
| DriveChain.PostDrives | physicar_webserver/physicar_webserver/routers/hw.py:505-527 | and so does a request, with or without a duration |
| DriveChain.PostBegins | physicar_webserver/physicar_webserver/routers/hw.py:524-535 | a request with a duration on a ready bridge and an unleased driver begins a hold at its value |
| DriveChain.RunKeepsGoing | physicar_webserver/physicar_webserver/routers/hw.py:475-494 | while the hold lives the driver was commanded no more than a keep-alive period before the hold is due again |
| DriveChain.HoldDrives | physicar_webserver/physicar_webserver/routers/hw.py:475-494 | if the hold is woken at most cmd_timeout - 0.2 s late, its messages are let through and nobody else commands a speed, the driver target is its value while it runs and 0 from its end on, in every interleaving with everything else |
| DriveChain.HoldLasts | physicar_webserver/physicar_webserver/routers/hw.py:475-487 | under the same promises the hold, and with it the target, is there for its whole duration |
| DriveChain.WatchdogNeverFires | physicar_bringup/src/physicar_driver_node.cpp:794-803 | under the same promises no tick of the watchdog changes anything, during the hold or after it |
| DriveChain.HoldEnds | physicar_webserver/physicar_webserver/routers/hw.py:476-492 | under the same promises the hold is over and the target 0 before anything later than the duration plus twice the lateness |
| DriveChain.TooLateIsStopped | physicar_bringup/src/physicar_driver_node.cpp:794-803 | the bound is tight: a tick that finds the hold overdue by more than that stops the car while the hold still runs |
| DeadmanChain.CloseBegins | physicar_webserver/physicar_webserver/routers/hw.py:585-602 | closing a speed stream that sent something leaves a dead-man for the newest command |
| DeadmanChain.RunKeepsAwaiting | physicar_webserver/physicar_webserver/routers/hw.py:589-600 | until the dead-man acts it waits with its generation current; afterwards no hold is left to publish |
| DeadmanChain.DeadmanWaits | physicar_webserver/physicar_webserver/routers/hw.py:589-590 | no dead-man acts before its grace is over |
| DeadmanChain.DeadmanStops | physicar_webserver/physicar_webserver/routers/hw.py:585-600 | a speed stream closes and nobody commands anew: if the zero gets through, the driver target is 0 from the grace plus twice the lateness on, although a hold may have been driving |
| DeadmanChain.DeadmanOrWatchdogStops | physicar_bringup/src/physicar_driver_node.cpp:794-803 | whether or not it gets through: the first tick more than the timeout after that finds the car stopped or stops it, and it stays so |
| JoyLease.EngagedIffLastOperated | physicar_teleop/src/joy_teleop_node.cpp:413-416 | with no engage button a live tick engages the drive if and only if the last operated tick is at most 0.3 s old, in every run and whatever the clock did; OperatedMeans says in raw terms which ticks are operated |
| JoyEngagement.OperatedMeans | physicar_teleop/src/joy_teleop_node.cpp:405-408 | a tick is operated if and only if the node is on, there is no engage button, and the latest message, at most 0.5 s old, has a mapped drive stick off zero and at or outside the dead zone or held the e-stop |
| JoyLease.EngagedIffOperatedRecently | physicar_teleop/src/joy_teleop_node.cpp:413-416 | with a clock that does not go back: if and only if some operated tick lies in the last 0.3 s |
| JoyLease.InputIsLastOperated | physicar_teleop/src/joy_teleop_node.cpp:495-498 | the remembered input time is that of the last operated tick, -1 if there was none |
| JoyEngagement.EngagedFromInputs | physicar_teleop/src/joy_teleop_node.cpp:461-500 | after every tick of every run with ticks in order, from raw axes, buttons, parameters and times: engaged if and only if the node is on, the latest joystick message is at most 0.5 s old and, with an engage button, that is pressed in it, without one, some tick of the last 0.3 s found, in such a message, a mapped stick off zero and at or outside the dead zone or the e-stop held |
| JoyEngagement.RemembersLatest | physicar_teleop/src/joy_teleop_node.cpp:440-449 | message, time and e-stop remembered are those of the latest joystick message, the e-stop by the mapping in force when it came |
| JoyEngagement.TickCommands | physicar_teleop/src/joy_teleop_node.cpp:510-521 | a live tick of an engaged joystick without e-stop sends exactly the speed and steering angle the raw axes of its latest message ask for, and its status |
| JoyEngagement.SpeedStickCommands | physicar_teleop/src/joy_teleop_node.cpp:389-396 | the speed of a stick: 0 unmapped or inside the dead zone, in proportion to the maximum up to 1 and the maximum beyond, the other way if inverted |
| JoyEngagement.SteeringStickCommands | physicar_teleop/src/joy_teleop_node.cpp:389-396 | the same for the steering angle |
| JoyLease.ReleasedMeansStopped | physicar_teleop/src/joy_teleop_node.cpp:461-548 | in every run without a release by staleness, whenever the joystick does not have the drive the last speed it sent is 0 |
| JoyLease.ReleaseSendsZeroIffLive | physicar_teleop/src/joy_teleop_node.cpp:469-525 | a tick that releases the drive sends a zero if and only if it is live; the stale path sends none |
| JoyLease.SpeedFollowsStick | physicar_teleop/src/joy_teleop_node.cpp:389-396 | a stick commands nothing inside its dead zone or unmapped, otherwise a speed of its own direction, or the opposite one if inverted, never above the maximum |
| JoyLease.HoldSendsOnlyZero | physicar_teleop/src/joy_teleop_node.cpp:510-521 | with no engage button a tick commands a speed only if it finds the controls in use; for the rest of the hold it sends zeros |
| JoyLease.EstopSendsOnlyZero | physicar_teleop/src/joy_teleop_node.cpp:495-528 | while the e-stop is held no tick sends a speed but 0, and with no engage button every live tick sends it |
| JoyLease.EveryRunIsMirrored | physicar_teleop/src/joy_teleop_node.cpp:418-437 | over every run of both nodes the entry of the driver for the joystick says whether the joystick has the drive |
| JoyLease.LeaseExactly | physicar_teleop/src/joy_teleop_node.cpp:427-436 | the lease of the joystick holds exactly while it has the drive and its last status is at most 0.5 s old, so a node that dies loses it |
| JoyLease.ReleaseStopsAndYields | physicar_teleop/src/joy_teleop_node.cpp:522-525 | a live release reaches the driver as target 0 and steering 0 and opens the gate unless another source holds it |
| JoyLease.DroppedJoystickKeepsSpeed | physicar_teleop/src/joy_teleop_node.cpp:469-480 | from the start: a pushed stick, a tick, and a tick 0.6 s later leave the drive released with the full speed as the last one sent |
| JoyLease.StaleTickIsQuiet | physicar_teleop/src/joy_teleop_node.cpp:472-480 | a stale tick sends a released status and nothing else |
| JoyLease.SilentJoystickIsStopped | physicar_bringup/src/physicar_driver_node.cpp:794-803 | after the last speed of a joystick that drops out the driver target is that speed until the first tick more than the timeout later and 0 from then on, unless somebody commands it |
| JoyLease.JoyTeleop.constructor | physicar_teleop/src/joy_teleop_node.cpp:550-569 | the node starts without a joystick, not engaged |
| JoyLease.JoyTeleop.OnJoyMessage | physicar_teleop/src/joy_teleop_node.cpp:440-459 | a joystick message is remembered with its time; the e-stop follows its button |
| JoyLease.JoyTeleop.OnTick | physicar_teleop/src/joy_teleop_node.cpp:461-548 | the whole new state and every drive message of a tick |
| JoyLease.JoyTeleop.LiveTick | physicar_teleop/src/joy_teleop_node.cpp:482-528 | the part after the guards |
| JoyLease.JoyTeleop.PublishDrive | physicar_teleop/src/joy_teleop_node.cpp:510-528 | the drive messages: command, released zero, e-stop zero or none |
| JoyLease.JoyTeleop.SetParameters | physicar_teleop/src/joy_teleop_node.cpp:307-325 | switching off sends a zero speed and steering and a released status |
| SerialFrames.SendCmd | physicar_bringup/src/physicar_driver_node.cpp:187-194 | the bytes of the command followed by the low byte of complement plus their sum, the 16-bit wrap of the sum included |
| SerialFrames.ComplementCancelsHeader | physicar_bringup/src/physicar_driver_node.cpp:175-190 | for every identifier the complement cancels both header bytes modulo 256 |
| SerialFrames.ReceiveLoop | physicar_bringup/src/physicar_driver_node.cpp:200-263 | the loop with blocking reads delivers exactly the reports of the read-by-read automaton, and meets the undefined access exactly when that does |
| SerialFrames.ReadHeader | physicar_bringup/src/physicar_driver_node.cpp:206-229 | hunting for the two header bytes, then length and function code |
| SerialFrames.ReadBody | physicar_bringup/src/physicar_driver_node.cpp:234-240 | reading the body, abandoned by a failed read |
| SerialFrames.BodySum | physicar_bringup/src/physicar_driver_node.cpp:243-244 | the 16-bit sum |
| SerialFrames.FrameArrives | physicar_bringup/src/physicar_driver_node.cpp:222-260 | a frame with intact header and length is consumed exactly, and delivered if and only if function code, data and checksum still sum up |
| SerialFrames.FrameRoundTrip | physicar_bringup/src/physicar_driver_node.cpp:143-260 | what send_cmd lays out, with the identifier of the board, comes back with the same function code and data for every data length 0 to 63 |
| SerialFrames.WireFormat | physicar_bringup/src/physicar_driver_node.cpp:175-194 | a frame is 0xFF, the identifier, the length plus 3, the function code, the data and the sum of length, code and data modulo 256; the driver has 0xFC, the board 0xFB |
| SerialFrames.BrokenOffIsForgotten | physicar_bringup/src/physicar_driver_node.cpp:206-240 | a frame broken off by a failed read, wherever, delivers nothing, and what follows is received as if it had never begun |
| SerialFrames.TooLongIsDropped | physicar_bringup/src/physicar_driver_node.cpp:231-232 | a longer frame without another 0xFF delivers nothing |
| SerialFrames.DataErrorDetected | physicar_bringup/src/physicar_driver_node.cpp:242-251 | a frame with any single data byte changed is rejected, and only that frame |
| SerialFrames.ErrorsPassIff | physicar_bringup/src/physicar_driver_node.cpp:242-251 | several errors pass if and only if they cancel modulo 256 |
| SerialFrames.NoiseReceived | physicar_bringup/src/physicar_driver_node.cpp:222-225 | noise without a header delivers nothing and leaves the receiver hunting exactly when it ends with an even run of 0xFF |
| SerialFrames.DeliveryCost | physicar_bringup/src/physicar_driver_node.cpp:222-260 | from any state, header, data and checksum of every report are among the bytes behind the receiver and those it reads |
| SerialFrames.FrameArrivesIff | physicar_bringup/src/physicar_driver_node.cpp:222-260 | a frame after noise without a header, failed reads included, is delivered if and only if the noise ends with an even run of 0xFF, the byte after 0xFF not being taken for a head, whatever the bytes of the frame are |
| SerialFrames.LoneHeadSwallowsFrame | physicar_bringup/src/physicar_driver_node.cpp:222-225 | a stray 0xFF in front of a frame without another 0xFF: nothing at all is delivered |
| SerialFrames.SessionRoundTrip | physicar_bringup/src/physicar_driver_node.cpp:200-263 | over a whole session, with noise that holds no header and ends with even runs of 0xFF and with damaged frames, the reports are exactly the frames that still sum up, in order |
| SerialFrames.WildExactly | physicar_bringup/src/physicar_driver_node.cpp:231-245 | a run reaches the read before an empty body if and only if a header with a length of 2 is read while the receiver hunts |

## Left out

- Rounding of floating-point numbers, NaN and infinities: arithmetic is over real numbers, so a comparison at an exact boundary may fall differently in the code.
- Overflow of `nx * ny` and of the `int` conversions in the grid for scans of astronomic extent.
- An empty target scan for the grid: the matcher returns before it builds one (scan_matcher.hpp:99-100).
- Poses, normals, the least-squares step and convergence of the scan matcher: numeric library code.
- The channel of the transceiver: opening, reading and writing are steps with the bytes as a parameter; sending and opening a second time are not modelled.
- A reset of the LiDAR decoder inside the window in which it has released its lock for the listener: the delivery is atomic here.
- An event wait of the decoder thread that fails outright (sl_async_transceiver.cpp:388-395) and would take from an empty queue.
- The assignment operator and the filling constructor of `ProtocolMessage`: the same steps as its copy constructor and `fillData`.
- Aliasing in `fillData`: the source of the copy is a value.
- The sample unpackers and `RawSampleNodeHolder` of the LiDAR driver.
- `std::sort` as an algorithm: any ascending permutation is allowed where the code leaves the order of equal angles open; the model picks one.
- A reset of the scan holder while a consumer waits.
- The publishing path without angle compensation, which searches for the first and last valid sample before it calls `publish_scan`.
- The servo and ESC maps, battery compensation of the motor command and the conversion between radians and degrees: the model stops at the speed handed to the servo controller and at angles in degrees; the arc tangent of a velocity command is a parameter.
- The camera half of the lease, of the joystick node and of the driver: the same rules with other controls.
- A clock that moves during one callback: a callback reads it once.
- Transit time between web server and driver, which adds to the lateness of a hold; steering messages of the web server in `DriveChain`.
- The display mirror of commands in the web server, the HTTP responses beyond the outcome of a hold, and frames that are not valid JSON, which change nothing.
- Clock granularity that lets a sleeping coroutine wake early.
- The mapping of the joystick as JSON and its file: a new mapping is one step.
- `tickets` of the wake module, its long-poll waiting, and formatting of ages: `drain` is one look at the queue.
- Truncation of wake messages counts characters; conversion of other values to text is left out.
- What `parse_data` makes of a report, diagnostics, the two-millisecond delay and failing writes on the serial line.
- The behaviour after a frame of length 2, which reads the byte before an empty buffer: the model stops there (`WildExactly`).
