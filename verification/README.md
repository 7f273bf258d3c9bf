# Verified model of the Meshtastic firmware's stateful components

A Dafny 4.11 model of the parts of the Meshtastic firmware (and its UF2 converter) that keep state or compute something
delicate. Classes keep the program's fields, and their methods follow the program's branches. Where whole histories matter,
the method's new state is a function of the old one (`Step`, `AckStep`, `Due`, `RecoveryStep`, ...), and what the program
promises is proved about that function over all inputs and all runs. `dafny verify dfyconfig.toml` verifies everything.

| files | component | main results |
|---|---|---|
| `Common.dfy` | what the others share | |
| `Crc16.dfy` | checksum of the file transfer | It equals polynomial long division by 0x1021 (ITU-T V.41, section 2), so every error confined to 16 consecutive bits is detected, whatever the length. |
| `XModem.dfy`, `XModemTransfer.dfy` | XModem adapter, and a sender joined to a receiver | Under any burst errors a transfer ends, with the file delivered as far as there is room or not at all, and the exact condition for each; a receiver's file is a prefix of the source under loss, repetition and reordering. |
| `EInkDynamicDisplay.dfy`, `EInkUpdates.dfy`, `EInkRuns.dfy` | E-Ink refresh decisions and their worker thread | Which frames are turned away, skipped, or drawn with which refresh, exactly. Over every interleaving of harmless updates each full refresh is ended exactly once and nothing is drawn meanwhile, and over no other; in every run a request turned away comes back until a mode is decided; consecutive fast refreshes are limited. |
| `SafeFile.dfy` | safe file replacement, copy and rename | Crash safety at every point of a whole save, and the exact conditions under which success means the written bytes; one corrupted byte means failure with the old file intact. |
| `GpioLogic.dfy` | network of logical pins | After any run of sets every transformer drives its function, even with reconverging splitters. |
| `Uf2.dfy`, `Uf2Write.dfy`, `HexToUf2.dfy`, `HexLines.dfy` | UF2 and Intel HEX converter | Reading gives the flat memory image; it inverts writing; HEX to UF2 to binary keeps the last byte written to every address, and which bytes those are is said about the characters of the file. |
| `AirTime.dfy`, `DutyCycle.dfy` | airtime accounting and duty-cycle gate | All five arrays agree with a log of everything sent and received; the gate bounds what is sent in any 60 clock minutes. |
| `FusionMath.dfy`, `FusionAhrs.dfy` | orientation filter over the reals | Matrices of unit quaternions are orthogonal and multiplicative; gravity, accelerations and heading agree; rejected sensors recover in time. |
| `OpenLocationCode.dfy`, `GpsUpdateScheduling.dfy` | position codes, GPS search times | The code's cell contains the position; the lock-time prediction settles; the wrapped wait is the true one. |

## What the properties assume, exactly

Some promises hold of the program only under a condition. Each such condition is proved to be the exact one, or a concrete
run is given that breaks the promise without it:

- A transfer starts in step if and only if the sender's end-of-file flag is clear or the file fits one packet
  (`StartInStep`). The flag is cleared only when EOT is sent, so a session that was given up can leave it set
  (`StaleFlagReached`), and then only the first chunk arrives (`CleanTransferIff`). Seeking back is right if and only if the
  packet number is below 65536 (`SeekFindsChunk`, `RefusedAfterWrap`); without refusals files of any length arrive.
- Opening a file for writing empties it, but not on the STM32WL, where writes go to its end. There a received file, and a
  saved one, where it fits, are exactly the new bytes if and only if the name, or the temporary name, was absent or empty before
  (`CleanTransferIff`, `SaveWithOneBadCell`, `SaveAfterCrash`).
- An E-Ink run keeps the display's bookkeeping right if and only if every update is harmless (`RunSoundIff`): not one that
  decides on a full refresh in the very millisecond of the last drawing, and not one that draws a full refresh for a frame
  left undecided. Either shows (`HarmShows`, `SameMillisecondBreaks`, `LoneBlockingBreaks`).
- After a save that succeeds, with no left-over, the name holds exactly the written bytes if and only if they fit, and a copy
  of them fits beside the temporary file once the old file is gone (`SaveAsRoomAllows`, `SaveWithOneBadCell`). Neither the
  writes nor the copy loop look at the number of bytes taken: missing bytes whose hash is zero, and a copy cut short, go
  unnoticed (`SaveOnFullFlash`, `SaveWithoutRoom`). Two errors can cancel in the hash (`HashMisses`). Every crash point is
  recoverable if and only if the save fails, or a copy fits, or the name ends up with what it had (`SaveAtomically`).
- An XModem receiver acknowledges data that a full flash did not take: what was received is stored as far as there is room
  (`TransferAllOrNothing`). The transfer is delivered if and only if no packet is hit by as many bursts in a row as it has
  retries (`DeliveredIff`).
- A pin that a transformer drives may be set by hand without harm if and only if to the value the transformer would drive
  (`DrivenByHand`). Attaching a transformer does not update it; that is harmless if and only if none of its inputs is set or
  its output is right already (`AttachedSettledIff`). The tracker's board file attaches one late
  (`TrackerPowerAttachedLate`, `TrackerCatchesUp`).
- UF2 files can be read back if and only if their blocks are in order (`ConvertFromUf2`); for a converted HEX file that is
  if and only if its pages ascend (`HexToBinary`).
- The duty-cycle gate bounds the airtime if and only if the bound fits the 32 bits of the sum (`GateBoundsAirtimeIff`).
- At most `period` sensor samples are ignored in a row, across resets of the orientation filter, if and only if rejection is
  off or the gain ramp outlasts the update that starts it, at a gain of 0.5 for intervals of at most 3 seconds
  (`CountAcrossResetsIff`, `ProlongedByReset`). With zero samples during the ramp it can be more at any interval
  (`ZerosProlong`), unless rejection is off or the ramp never ends (`CountWithZerosIff`).
- The wait for the next GPS search is right if and only if it is below 2^31 ms, or over by a time whose low 32 bits are at
  most 2^31 (`MsUntilNextSearch`); the search time, if and only if the low 32 bits of the start of this search exceed those
  of the end of the last one, or no time has passed (`ElapsedSearchMs`).

## Where code and documentation differ

The model follows the code.

- `meshtastic-firmware/src/SafeFile.h:20-21` promises that closing replaces the old file atomically. The code removes the old
  file before the new one has its name; in between only the temporary file is there, and complete. On the nRF52 `close()`
  compares nothing.
- `meshtastic-firmware/bin/uf2conv.py:69` announces that a block with bad magic is skipped; forming that message fails with a
  type error, so such a file cannot be read. The messages of the failing assertions have the same fault and fail just as well.

## How the environment is modelled

The clock, the outcome of opening, removing and renaming files, the noise on the channel, the busy line, and whether a frame
equals the previous one are parameters. `FileSystem.history` in `SafeFile` and `trace` in `EInkDynamicDisplay` record what
happened, for the properties to speak about; `log` in `AirTime` is ghost. 32-bit and 16-bit wrap-around is written out.
Python's failures, an assertion, an index or type error, a value that does not fit a packed field, are `Err`.

## Model

| member | source | states |
|---|---|---|
| Crc16.ComputeCrc | meshtastic-firmware/src/xmodem.cpp:67-81 | the loop over the buffer computes the fold of the five shift-and-xor assignments |
| Crc16.ByteStepIsDivision | meshtastic-firmware/src/xmodem.cpp:71-75 | those five assignments are division by 0x1021 with eight bits brought down at once |
| Crc16.CrcIsRemainder | meshtastic-firmware/src/xmodem.cpp:67-81 | the checksum of every message is the remainder of message * x^16 under bit-by-bit long division by x^16 + x^12 + x^5 + 1 |
| Crc16.CrcLinear | meshtastic-firmware/src/xmodem.cpp:67-81 | the checksum of the xor of two buffers of equal length is the xor of their checksums |
| Crc16.BurstHasRemainder | meshtastic-firmware/src/xmodem.cpp:67-81 | a bit pattern of any length with all its ones within 16 consecutive positions, and at least one, never divides to zero |
| Crc16.CrcDetectsBurst | meshtastic-firmware/src/xmodem.cpp:67-95 | a buffer of any length hit by a non-zero error within 16 consecutive bits no longer has its checksum |
| XModem.XModemAdapter.HandlePacket | meshtastic-firmware/src/xmodem.cpp:115-277 | the whole new state of the adapter, and whether a packet was announced, for every packet in every state |
| XModem.OpensNamedFile | meshtastic-firmware/src/xmodem.cpp:120-163 | an idle adapter opens the file that the packet names, up to its first zero byte or, without one, up to that of the old buffer beyond it; SOH writes it, STX reads it if it is there, and otherwise it refuses; CAN then removes that file |
| XModem.EndsReception | meshtastic-firmware/src/xmodem.cpp:188-207 | EOT and CAN are acknowledged and end a reception, CAN without the file; a transmission goes on |
| XModem.StrayPackets | meshtastic-firmware/src/xmodem.cpp:180-186 | what does not belong to the session is answered with CAN or, with no session or another control character, not at all; and when exactly a packet is announced |
| XModem.SeekWraps | meshtastic-firmware/src/xmodem.cpp:257 | the seek is 32-bit arithmetic, for every packet number |
| XModemTransfer.ChunkExtendsPrefix | meshtastic-firmware/src/xmodem.cpp:149-156 | the chunks of 128 bytes tile the file; exactly the last one is short, empty if the size is a multiple of 128 |
| XModemTransfer.SeekFindsChunk | meshtastic-firmware/src/xmodem.cpp:257 | seeking finds the start of packet k exactly as long as k is below 65536 |
| XModemTransfer.RefusedAfterWrap | meshtastic-firmware/src/xmodem.cpp:241-267 | from packet 65536 on a refusal sends the chunk that had the same 16-bit number in the first round, and the receiver appends it as far as there is room |
| XModemTransfer.SendChunkSends | meshtastic-firmware/src/xmodem.cpp:145-157 | reading on from the end of the previous chunk puts chunk k into packet k, with the end-of-file flag exactly on the last |
| XModemTransfer.AckAdvances | meshtastic-firmware/src/xmodem.cpp:208-235 | from packet k of a file an acknowledgement leads to packet k + 1 with fresh retries, and after the last packet to EOT and a cleared flag |
| XModemTransfer.NakRepeats | meshtastic-firmware/src/xmodem.cpp:241-267 | a refusal sends the very same packet again with one retry less, or ends the session |
| XModemTransfer.DataAccepted | meshtastic-firmware/src/xmodem.cpp:165-175 | a receiver that has the first k - 1 chunks, as far as there was room, and gets packet k has the first k |
| XModemTransfer.BurstIsRefused | meshtastic-firmware/src/xmodem.cpp:167-179 | a packet hit by a burst changes nothing at the receiver but its answer, which is NAK |
| XModemTransfer.DeliverToReceiver | meshtastic-firmware/src/xmodem.cpp:164-207 | one delivery to the receiver keeps both ends in step and uses up budget |
| XModemTransfer.DeliverToSender | meshtastic-firmware/src/xmodem.cpp:208-271 | one delivery to the sender keeps both ends in step and uses up budget, so a transfer cannot go on for ever |
| XModemTransfer.StartInStep | meshtastic-firmware/src/xmodem.cpp:120-158 | a session between idle adapters starts in step if and only if the sender's end-of-file flag is clear or the file fits one packet |
| XModemTransfer.CleanDelivers | meshtastic-firmware/src/xmodem.cpp:164-240 | on a clean channel, from packet k on, the whole file arrives, however often the packet number wraps around, and is stored as far as there is room |
| XModemTransfer.CleanTransferIff | meshtastic-firmware/src/xmodem.cpp:120-240 | a session on a clean channel: the received name holds exactly the sender's file if and only if it fits and the end-of-file flag was clear or the file is at most 128 bytes, where nothing was found under the name; where it fits and arrives, if and only if nothing was found, that is if opening empties files, or the name was absent or empty; with the flag set only the first chunk arrives |
| XModemTransfer.StaleFlagReached | meshtastic-firmware/src/xmodem.cpp:120-163 | an adapter just declared that gives up a one-packet file is left idle with the end-of-file flag set |
| XModemTransfer.RunStaysInStep | meshtastic-firmware/src/xmodem.cpp:115-277 | every run of deliveries under bursts stays in step, and has ended once it is as long as the budget |
| XModemTransfer.TransferAllOrNothing | meshtastic-firmware/src/xmodem.cpp:171-271 | whatever bursts hit, the ended transfer leaves the receiver either the sender's file after what was found in its own, as far as there is room, if it handled EOT, or no such file, if it handled CAN; and when exactly that is the sender's file alone |
| XModemTransfer.PacketRound | meshtastic-firmware/src/xmodem.cpp:164-271 | a data packet and its reply: hit with its last retry it cancels, hit before that it is sent again with one retry less, and otherwise the next one follows with all retries, or EOT |
| XModemTransfer.DeliveredIff | meshtastic-firmware/src/xmodem.cpp:208-271 | EOT is handled if and only if no packet is hit by as many bursts in a row as it has retries, the first as many as the sender starts with, each other one 25 |
| XModemTransfer.TransferDeliversIff | meshtastic-firmware/src/xmodem.cpp:188-271 | then the receiver has the file, and otherwise no such file |
| XModemTransfer.FewBurstsDeliver | meshtastic-firmware/src/xmodem.cpp:208-271 | in particular with fewer bursts in the whole transfer than the retries the sender starts with; and when exactly it is the sender's file alone |
| XModemTransfer.ResendLimit | meshtastic-firmware/src/xmodem.cpp:241-252 | after an acknowledgement a packet is repeated at most 24 times, unchanged, and the 25th refusal cancels |
| XModemTransfer.ReplyDecreases | meshtastic-firmware/src/xmodem.cpp:208-271 | every ACK or NAK handled while transmitting ends the session, or leaves fewer packets, or as many with fewer retries and the same packet again |
| XModemTransfer.RepliesEndSession | meshtastic-firmware/src/xmodem.cpp:208-271 | hence any mixture of ACKs and NAKs ends the session within a fixed number of replies |
| XModemTransfer.ReceivedOncePerNumber | meshtastic-firmware/src/xmodem.cpp:165-207 | under any loss, duplication and reordering, and past an early EOT or CAN, the received file, unless removed by CAN, is what was found in it and, as far as there is room, one intact payload for each 16-bit number up to the one before packetno, in order of arrival |
| XModemTransfer.ReceivedIsPrefix | meshtastic-firmware/src/xmodem.cpp:165-207 | hence what was received is a prefix of the source at every moment if every intact packet k carries chunk k and 16 bits can count the packets |
| XModemTransfer.NeverBothHalves | meshtastic-firmware/src/xmodem.cpp:115-277 | an adapter is never receiving and transmitting at once, whatever arrives and whichever opens are refused |
| XModemTransfer.PickedChunks | meshtastic-firmware/src/xmodem.cpp:165-180 | payloads picked for numbers 1 to n are the first n chunks in order |
| EInkDynamicDisplay.Panel.CheckDueFrame | meshtastic-firmware/src/graphics/EInkDynamicDisplay.cpp:264-370 | the chain of checks decides as one priority list; `EInkUpdates.ModeOfFlags` says for which frames |
| EInkDynamicDisplay.Panel.Update | meshtastic-firmware/src/graphics/EInkDynamicDisplay.cpp:96-108 | the new state of the whole display after an update; `EInkUpdates.UpdateIs` says what it is |
| EInkDynamicDisplay.Panel.Perform | meshtastic-firmware/src/graphics/EInkDynamicDisplay.cpp:27-45 | every public operation does one step of the state machine |
| EInkUpdates.ModeOfFlags | meshtastic-firmware/src/graphics/EInkDynamicDisplay.cpp:264-370 | a due frame gets a full refresh, a fast one, is skipped or left undecided under four conditions on its flags, the count and the inputs, each exact; it is skipped if and only if it matches the previous one, is neither cosmetic nor demands FAST, and is not redrawn in full |
| EInkUpdates.Prepared | meshtastic-firmware/src/graphics/EInkDynamicDisplay.cpp:193-230 | the flags an update works on: the first frame demands FAST, and the request that the last frame turned away has left is added |
| EInkUpdates.ScreenedOutIs | meshtastic-firmware/src/graphics/EInkDynamicDisplay.cpp:233-261 | turned away if and only if the display is still busy, less than 30 s passed for a background frame, or less than 1 s for a responsive one, for the reason that names the strongest request |
| EInkUpdates.DeterminedMode | meshtastic-firmware/src/graphics/EInkDynamicDisplay.cpp:143-190 | the exact frames that are turned away, refreshed in full or fast, skipped, and left undecided |
| EInkUpdates.UpdateIs | meshtastic-firmware/src/graphics/EInkDynamicDisplay.cpp:96-140 | the whole new state after an update: what reaches the panel and in which order, the counters, clocks and the notification |
| EInkUpdates.FlagsAsked | meshtastic-firmware/src/graphics/EInkDynamicDisplay.cpp:41-45 | a flag added is there besides those before |
| EInkUpdates.FramesAsked | meshtastic-firmware/src/graphics/EInkDynamicDisplay.cpp:27-38 | a display is an update with BACKGROUND, a forced one with RESPONSIVE |
| EInkUpdates.RefreshEnds | meshtastic-firmware/src/graphics/EInkDynamicDisplay.cpp:477-518 | the thread looks again after 100 ms while the display is busy, and ends the refresh when it is idle; a join waits for the end |
| EInkRuns.Extend | meshtastic-firmware/src/graphics/EInkDynamicDisplay.cpp:111-129 | what may follow in a history where each full refresh is ended once, before anything else is drawn |
| EInkRuns.UpdateSoundIff | meshtastic-firmware/src/graphics/EInkDynamicDisplay.cpp:96-140 | an update keeps the invariant if and only if it is harmless: turned away early, or with a full refresh decided only if it is also drawn, and nothing full drawn for an undecided frame |
| EInkRuns.StepSoundIff | meshtastic-firmware/src/graphics/EInkDynamicDisplay.cpp:27-140 | every operation keeps the invariant, an update exactly if it is harmless |
| EInkRuns.RunSoundIff | meshtastic-firmware/src/graphics/EInkDynamicDisplay.cpp:27-140 | over every interleaving of updates, thread turns and joins: each full refresh is ended exactly once, nothing is drawn while one is in flight, and a running refresh has its poll pending on an enabled thread, at every point, if and only if every update is harmless |
| EInkRuns.HarmShows | meshtastic-firmware/src/graphics/EInkDynamicDisplay.cpp:96-140 | after an update that is not, some continuation ends a refresh that never began or draws over one never ended |
| EInkRuns.SameMillisecondBreaks | meshtastic-firmware/src/graphics/EInkDisplay2.cpp:51-62 | such a run from the start: a cosmetic frame in the millisecond of the last drawing |
| EInkRuns.LoneBlockingBreaks | meshtastic-firmware/src/graphics/EInkDynamicDisplay.cpp:143-190 | another: a frame flagged only BACKGROUND and BLOCKING just after a full refresh |
| EInkRuns.ThreadEndsRefresh | meshtastic-firmware/src/graphics/EInkDynamicDisplay.cpp:497-518 | the worker thread alone ends a refresh in flight, in the turn after the busy line has gone idle |
| EInkRuns.UpdateRemembers | meshtastic-firmware/src/graphics/EInkDynamicDisplay.cpp:143-230 | one update remembers the strongest request it saw exactly if the frame was turned away |
| EInkRuns.OwedIsRemembered | meshtastic-firmware/src/graphics/EInkDynamicDisplay.cpp:211-230 | over every run: what is promoted is the strongest request turned away since a mode was last decided, and every later update works on flags at least that strong |
| EInkRuns.UpdateCounts | meshtastic-firmware/src/graphics/EInkDynamicDisplay.cpp:86-93 | one update: back to zero with FULL, otherwise at most one more, and below the limit unless forced |
| EInkRuns.FastRefreshLimit | meshtastic-firmware/src/graphics/EInkDynamicDisplay.cpp:321-341 | over every run the count never exceeds the limit plus the fast refreshes forced since the last full one |
| SafeFile.OneByteChangesHash | meshtastic-firmware/src/SafeFile.cpp:40-51 | one changed byte anywhere changes the hash |
| SafeFile.HashMisses | meshtastic-firmware/src/SafeFile.cpp:40-51 | and what it cannot see: two bytes that change places, a zero byte missing at the end |
| SafeFile.HashWithLeftOver | meshtastic-firmware/src/SafeFile.cpp:40-51 | bytes left over in front of the new ones go unnoticed exactly if their own hash is zero |
| SafeFile.FileSystem.OpenWrite | meshtastic-firmware/src/platform/stm32wl/STM32_LittleFS_File.cpp:55-80 | opening for writing empties the file or, as on the STM32WL, goes on at its end |
| SafeFile.CopyFile | meshtastic-firmware/src/FSCommon.cpp:40-69 | the target becomes what it holds once opened and the source as far as it fits, and still counts as success; the source is there at every point |
| SafeFile.RenameFile | meshtastic-firmware/src/FSCommon.cpp:79-100 | the target takes over the contents, as far as a copy fits; at every point but the last of a success the source is intact |
| SafeFile.Writer.constructor | meshtastic-firmware/src/SafeFile.cpp:6-33 | a fully atomic open leaves the file itself alone, any other has a crash point at which it is gone; the temporary file keeps its left-over where opening does not empty it |
| SafeFile.Writer.WriteByte | meshtastic-firmware/src/SafeFile.cpp:35-42 | the byte is hashed and appended if it fits; a closed file takes nothing |
| SafeFile.Writer.Write | meshtastic-firmware/src/SafeFile.cpp:44-54 | the same for a buffer |
| SafeFile.Writer.TestReadback | meshtastic-firmware/src/SafeFile.cpp:96-121 | true exactly if the temporary file can be read and has the hash |
| SafeFile.Writer.Replace | meshtastic-firmware/src/SafeFile.cpp:76-92 | the old file goes and the temporary one takes its name, as far as a copy fits; every crash point is recoverable if and only if this fails, or the name ends up with everything or with what it had |
| SafeFile.Writer.Close | meshtastic-firmware/src/SafeFile.cpp:61-93 | true exactly if the hash of the temporary file is that of the written bytes and every operation works; on a mismatch nothing is touched; the same exact condition for recoverable crash points; on the nRF52 nothing is compared |
| SafeFile.WriteAll | meshtastic-firmware/src/SafeFile.cpp:44-54 | any number of writes leaves the file itself alone at every point |
| SafeFile.SaveAtomically | meshtastic-firmware/src/SafeFile.cpp:30-93 | a whole atomic save: when exactly it succeeds; then the name has the left-over and what the flash took, complete if and only if a copy fits; at every crash point the name has its old contents, or the name or its temporary name has all of that, if and only if the save fails, a copy fits, or the name ends up with what it had |
| SafeFile.SaveWithOneBadCell | meshtastic-firmware/src/SafeFile.cpp:30-121 | with at most one corrupted byte: success means the name has exactly the written bytes, where everything fits, if and only if the temporary file was emptied, absent or empty at opening, and where it was, if and only if everything fits; a corrupted byte means false and the old file intact, if none is missing |
| SafeFile.HashOfMissing | meshtastic-firmware/src/SafeFile.cpp:40-51 | bytes missing at the end go unnoticed exactly if their own hash is zero |
| SafeFile.SaveAsRoomAllows | meshtastic-firmware/src/SafeFile.cpp:35-121 | with no corrupted byte and no left-over: exactly the written bytes if and only if they and their copy fit; and success if and only if everything works and the missing bytes have hash zero |
| SafeFile.SaveOnFullFlash | meshtastic-firmware/src/SafeFile.cpp:35-54 | a full flash: success, the old contents gone, and an empty file |
| SafeFile.SaveAfterCrash | meshtastic-firmware/src/platform/stm32wl/STM32_LittleFS_File.cpp:57-77 | on the STM32WL, a left-over [7, 7] and a save of [1]: success, and the name has [7, 7, 1] |
| SafeFile.SaveWithoutRoom | meshtastic-firmware/src/FSCommon.cpp:59-67 | a copy without room: success, and an empty file |
| GpioLogic.GpioPin.Set | meshtastic-firmware/src/GpioLogic.h:16-20 | setting a pin makes it carry the value, leaves every pin it cannot reach alone and every settled transformer that does not drive it settled; it terminates |
| GpioLogic.GpioPin.SetHardware | meshtastic-firmware/src/GpioLogic.cpp:13-17 | the same for a hardware pin |
| GpioLogic.GpioPin.SetVirtual | meshtastic-firmware/src/GpioLogic.cpp:4-11 | the same for a virtual pin, which updates its dependent only if it changes |
| GpioLogic.GpioPin.SetSplitter | meshtastic-firmware/src/GpioLogic.h:151-155 | the same for a splitter, which sets two pins in order |
| GpioLogic.GpioTransformer.Unary | meshtastic-firmware/src/GpioLogic.cpp:26-34 | attaches itself as the one dependent, without an update |
| GpioLogic.GpioTransformer.Binary | meshtastic-firmware/src/GpioLogic.cpp:60-71 | the same for two inputs |
| GpioLogic.GpioTransformer.Update | meshtastic-firmware/src/GpioLogic.cpp:39-100 | the transformer ends up settled, which `GateDrives` says in levels, and whatever was settled still is |
| GpioLogic.CarriesLevels | meshtastic-firmware/src/GpioLogic.h:151-155 | a pin that carries a value has it at every pin it is split into |
| GpioLogic.GateDrives | meshtastic-firmware/src/GpioLogic.cpp:39-100 | a settled transformer drives its input, or its opposite; the input that is set alone; on if and only if both, at least one, or exactly one of its two inputs is on |
| GpioLogic.ConeIsBelow | meshtastic-firmware/src/GpioLogic.h:64-160 | what a pin reaches lies strictly below it: no value ever comes back |
| GpioLogic.ConeThroughSplitter | meshtastic-firmware/src/GpioLogic.h:145-160 | what a pin reaches it reaches through its one driver |
| GpioLogic.TreeMeetsCone | meshtastic-firmware/src/GpioLogic.h:145-160 | the pins behind a splitter and the pins a setting reaches meet only if one root lies in the other |
| GpioLogic.SidesApart | meshtastic-firmware/src/GpioLogic.h:151-155 | setting the second side of a splitter does not disturb the first, even if both reconverge on one gate |
| GpioLogic.OneDriver | meshtastic-firmware/src/GpioLogic.cpp:60-100 | no two transformers drive the same pin, directly or through splitters |
| GpioLogic.LeafEffect | meshtastic-firmware/src/GpioLogic.cpp:4-11 | one changed level concerns only the transformer it feeds and the one that drives it |
| GpioLogic.DependentEffect | meshtastic-firmware/src/GpioLogic.cpp:4-11 | the change of a virtual pin and the update it triggers together have the effect of a set |
| GpioLogic.SplitterEffect | meshtastic-firmware/src/GpioLogic.h:151-155 | two sets in order have the effect of one |
| GpioLogic.OutputEffect | meshtastic-firmware/src/GpioLogic.cpp:73-100 | setting the output settles the transformer: its inputs lie above and have not moved |
| GpioLogic.CarriesKept | meshtastic-firmware/src/GpioLogic.h:145-160 | a split value stays while its pins do |
| GpioLogic.DrivenByHand | meshtastic-firmware/src/GpioLogic.cpp:21-24 | setting by hand a pin that a transformer drives leaves it settled if and only if the value is the one it would drive |
| GpioLogic.Drive | meshtastic-firmware/src/GpioLogic.cpp:4-100 | on any settled network, after any run of sets every transformer with a set input drives the function of its current inputs |
| GpioLogic.AttachedSettledIff | meshtastic-firmware/src/GpioLogic.cpp:26-71 | attaching a transformer leaves a settled network settled if and only if none of its inputs is set or its output already carries its function |
| GpioLogic.LateOneSettles | meshtastic-firmware/src/GpioLogic.cpp:4-100 | otherwise the first set that changes one of its inputs, directly or through others, settles the network |
| GpioLogic.BuildTracker | meshtastic-firmware/src/platform/extra_variants/heltec_wireless_tracker/variant.cpp:14-39 | the tracker's network is acyclic with one driver per pin |
| GpioLogic.TrackerPower | meshtastic-firmware/src/platform/extra_variants/heltec_wireless_tracker/variant.cpp:34-38 | the regulator is on exactly if GPS or screen is, when the gate is attached before the first set |
| GpioLogic.TrackerPowerAttachedLate | meshtastic-firmware/src/platform/extra_variants/heltec_wireless_tracker/variant.cpp:23-38 | the board's own order attaches it after the first set and leaves the regulator unset although the screen is on |
| GpioLogic.TrackerCatchesUp | meshtastic-firmware/src/platform/extra_variants/heltec_wireless_tracker/variant.cpp:23-38 | until the first set of the GPS enable signal, whichever way, which turns it on |
| Uf2.WordOfLe32 | meshtastic-firmware/bin/uf2conv.py:67 | unpacking a little-endian word inverts packing it |
| Uf2.NothingBeyond | meshtastic-firmware/bin/uf2conv.py:78-92 | blocks in order leave nothing beyond the end of the last |
| Uf2.FlatMore | meshtastic-firmware/bin/uf2conv.py:81-92 | one more block in order adds zeros for the gap and then its data to the flat image |
| Uf2.Pad | meshtastic-firmware/bin/uf2conv.py:88-90 | the padding loop adds exactly that many zeros |
| Uf2.AppendChunk | meshtastic-firmware/bin/uf2conv.py:77-92 | a block is taken exactly if the blocks so far and it are in order, and the output stays their flat image |
| Uf2.ConvertFromUf2 | meshtastic-firmware/bin/uf2conv.py:59-93 | reading succeeds if and only if the blocks are well formed and in order, and yields their zero-filled memory image |
| Uf2.ReaderFields | meshtastic-firmware/bin/uf2conv.py:64-92 | what the reader looks at in a block, byte by byte: the magic, the no-flash bit, the address, the length of at most 476, and the data |
| Uf2.FollowsIff | meshtastic-firmware/bin/uf2conv.py:81-87 | a block may come next if and only if it starts at most 10485760 bytes beyond the end of the last, and a multiple of four |
| Uf2Write.BlockReadsBack | meshtastic-firmware/bin/uf2conv.py:117-132 | a written block is well formed and reads back as its address and data |
| Uf2Write.EncodedReadsBack | meshtastic-firmware/bin/uf2conv.py:113-134 | a written file reads back as its chunks, in order and number |
| Uf2Write.PageOfContent | meshtastic-firmware/bin/uf2conv.py:114-131 | the zero-filled chunk of the content is the page of the padded content |
| Uf2Write.FillUp | meshtastic-firmware/bin/uf2conv.py:109-110 | the filling loops fill up with zeros to the size |
| Uf2Write.PageTooFar | meshtastic-firmware/bin/uf2conv.py:119-129 | an address, count or family that does not fit its word makes the file impossible |
| Uf2Write.ConvertToUf2 | meshtastic-firmware/bin/uf2conv.py:106-135 | the written file encodes the pages of the content from the start address on, or fails exactly if a field does not fit |
| Uf2Write.PagesFlat | meshtastic-firmware/bin/uf2conv.py:111-134 | the pages laid out flat are the content padded with zeros |
| Uf2Write.RoundTrip | meshtastic-firmware/bin/uf2conv.py:59-135 | reading inverts writing, up to fewer than 256 zeros that fill the last page |
| Uf2Write.BlockLayout | meshtastic-firmware/bin/uf2conv.py:113-132 | a written block byte by byte: the magic, the family flag, the four numbers, the data and the zeros |
| Uf2Write.ContentInMemory | meshtastic-firmware/bin/uf2conv.py:113-131 | the written pages have the content in memory from the start address on |
| HexToUf2.Block.constructor | meshtastic-firmware/bin/uf2conv.py:138-141 | a zeroed page |
| HexToUf2.Block.Encode | meshtastic-firmware/bin/uf2conv.py:143-163 | the same 512 bytes that the other writer makes for this page, or an error exactly if a field does not fit |
| HexToUf2.ParseRecord | meshtastic-firmware/bin/uf2conv.py:175-179 | the pairs of digits after the colon, a last lone character left over, or an error |
| HexToUf2.WriteByte | meshtastic-firmware/bin/uf2conv.py:193-197 | the byte goes into the page opened last or into a new one, and no other page changes |
| HexToUf2.WriteData | meshtastic-firmware/bin/uf2conv.py:188-199 | the data bytes of a record go to consecutive addresses |
| HexToUf2.ProcessRecord | meshtastic-firmware/bin/uf2conv.py:180-199 | each record type sets the upper address, writes, ends or fails, as `HexLines.HexLineMeaning` says in digits |
| HexToUf2.ConvertFromHexToUf2 | meshtastic-firmware/bin/uf2conv.py:166-204 | the file encodes the pages of all writes up to the end record, which `HexLines.OneMoreLine` says in digits, or fails exactly if a line or a field does |
| HexToUf2.EncodeAll | meshtastic-firmware/bin/uf2conv.py:200-204 | the blocks in order, numbered from 0 |
| HexToUf2.PutByteSamePage | meshtastic-firmware/bin/uf2conv.py:194-197 | a write into the page opened last changes that one byte of memory |
| HexToUf2.PutByteNewPage | meshtastic-firmware/bin/uf2conv.py:194-197 | a write into a new page beyond the others changes that one byte of memory |
| HexToUf2.AscendingIsInOrder | meshtastic-firmware/bin/uf2conv.py:82-87 | pages can be read back if and only if they ascend without being revisited, with gaps of at most 10 MB |
| HexToUf2.PagesHoldWrites | meshtastic-firmware/bin/uf2conv.py:188-199 | then memory has at each address the byte last written to it |
| HexToUf2.WritesWithinPages | meshtastic-firmware/bin/uf2conv.py:188-199 | and every written address lies within the image |
| HexToUf2.HexToBinary | meshtastic-firmware/bin/uf2conv.py:59-204 | HEX to UF2 to binary: readable if and only if the pages ascend, and then every address has the byte last written to it, zero if none, and no written byte is lost |
| HexLines.PairReads | meshtastic-firmware/bin/uf2conv.py:178 | the value of every pair of characters: two hex digits, or one and a carriage return, or an error |
| HexLines.HexLineMeaning | meshtastic-firmware/bin/uf2conv.py:173-199 | what a hex line does, by its digits: type, address, data, and the upper address 65536 or 16 times the big-endian number in digits 9 to 12 |
| HexLines.OtherLines | meshtastic-firmware/bin/uf2conv.py:173-178 | an empty line and an unreadable pair are errors; a line that does not start with a colon is skipped |
| HexLines.OneMoreLine | meshtastic-firmware/bin/uf2conv.py:173-199 | over a whole file: a data record adds its bytes, in order, at the upper address that the last address record before it has set |
| HexLines.EndOfLines | meshtastic-firmware/bin/uf2conv.py:186-187 | nothing after the end-of-file record is looked at, and a line before it that fails makes the file fail |
| AirTime.CellSlots | meshtastic-firmware/src/airtime.cpp:39-47 | the cell of the next slot is the one to clear; every other keeps its slot |
| AirTime.RingTick | meshtastic-firmware/src/airtime.cpp:196-207 | when the slot moves on, clearing one cell makes every cell the total of its slot again |
| AirTime.RingLog | meshtastic-firmware/src/airtime.cpp:20-31 | a report added to the current cell does too |
| AirTime.ShiftTick | meshtastic-firmware/src/airtime.cpp:52-72 | shifting by one hour makes every cell the total of its hour again |
| AirTime.ShiftLog | meshtastic-firmware/src/airtime.cpp:15-28 | a report added to the first cell does too |
| AirTime.PeriodIndexChanges | meshtastic-firmware/src/airtime.cpp:34-37 | the stored index changes exactly when the hour does |
| AirTime.CellsAreWindow | meshtastic-firmware/src/airtime.cpp:39-47 | the slots of the cells are exactly the window, each once |
| AirTime.RingSumIsWindow | meshtastic-firmware/src/airtime.cpp:103-121 | the sum of a ring is the airtime logged in exactly its window, in 32 bits |
| AirTime.AirTime.constructor | meshtastic-firmware/src/airtime.h:53-79 | the cells agree with an empty log |
| AirTime.AirTime.LogAirtime | meshtastic-firmware/src/airtime.cpp:12-32 | every cell still agrees with the log, longer by this report |
| AirTime.AirTime.AirtimeRotatePeriod | meshtastic-firmware/src/airtime.cpp:49-73 | the hourly registers shift exactly when the hour changes |
| AirTime.AirTime.RunOnce | meshtastic-firmware/src/airtime.cpp:162-210 | after every tick all cells of all five arrays are the totals of exactly their slots over the log: no rotation is missed or doubled |
| AirTime.AirTime.Initialise | meshtastic-firmware/src/airtime.cpp:169-192 | the first tick clears all cells and starts the log again |
| AirTime.AirTime.Advance | meshtastic-firmware/src/airtime.cpp:193-208 | every later tick |
| AirTime.AirTime.Sum | meshtastic-firmware/src/airtime.cpp:105-108 | the 32-bit sum of an array |
| AirTime.AirTime.IsTxAllowedChannelUtil | meshtastic-firmware/src/airtime.cpp:103-132 | true exactly if the airtime logged in the last six slots is below the limit |
| AirTime.AirTime.IsTxAllowedAirUtil | meshtastic-firmware/src/airtime.cpp:113-145 | true exactly if overridden, unlimited, or less than half the duty cycle was sent in the window |
| AirTime.SlotMeaning | meshtastic-firmware/src/airtime.cpp:34-47 | a slot is 10, 60 or 3600 seconds |
| AirTime.WindowInSeconds | meshtastic-firmware/src/airtime.cpp:103-121 | the airtime of a window of slots is that logged between two seconds |
| AirTime.GatesInSeconds | meshtastic-firmware/src/airtime.cpp:103-145 | the gates by the clock: less than 24000 ms, or 15000 if polite, of all kinds in the minute up to the end of this ten-second slot, and less than half the duty cycle sent in the hour up to the end of this minute |
| DutyCycle.LaterWindowHoldsLess | meshtastic-firmware/src/airtime.cpp:113-121 | a window that ends later holds no more, if nothing was logged since |
| DutyCycle.SmallWindow | meshtastic-firmware/src/airtime.cpp:134-145 | below 2^32 ms the gate is open exactly if the window is below half the duty cycle |
| DutyCycle.GateBoundsAirtime | meshtastic-firmware/src/airtime.cpp:134-145 | if every transmission passed the gate and lasted at most p, any 60 consecutive clock minutes carry less than half the duty cycle plus p |
| DutyCycle.WrappedSumOpensGate | meshtastic-firmware/src/airtime.cpp:113-121 | a log that passes the gate but breaks the bound, for every p so long that the 32-bit sum can wrap around |
| DutyCycle.GateBoundsAirtimeIff | meshtastic-firmware/src/airtime.cpp:113-145 | the bound holds over all logs if and only if it fits 32 bits |
| DutyCycle.SendIfAllowed | meshtastic-firmware/src/airtime.cpp:12-32 | asking the gate, sending and reporting keeps the log gated; it sends exactly if the gate is open |
| DutyCycle.GatedMore | meshtastic-firmware/src/airtime.cpp:134-145 | one more gated transmission keeps a log gated |
| FusionMath.HomogeneousOfProduct | meshtastic-firmware/src/Fusion/FusionMath.h:366-480 | the quadratic form of the rotation matrix turns products into products, for all quaternions |
| FusionMath.NormOfProduct | meshtastic-firmware/src/Fusion/FusionMath.h:366-379 | the squared norm of a product is the product of the squared norms |
| FusionMath.UnitIsHomogeneous | meshtastic-firmware/src/Fusion/FusionMath.h:457-480 | on unit quaternions that form is the program's matrix |
| FusionMath.MatrixOfProduct | meshtastic-firmware/src/Fusion/FusionMath.h:366-480 | the matrix of a product of unit quaternions is the product of their matrices |
| FusionMath.MatrixOrthogonal | meshtastic-firmware/src/Fusion/FusionMath.h:457-480 | the matrix of a unit quaternion is orthogonal |
| FusionAhrs.GravityIsThirdRow | meshtastic-firmware/src/Fusion/FusionAhrs.c:420-424 | gravity in the sensor frame is the third row of the rotation matrix |
| FusionAhrs.HalfGravityIsHalf | meshtastic-firmware/src/Fusion/FusionAhrs.c:241-265 | the update's half gravity is half of it, with the sign of the convention |
| FusionAhrs.EarthIsRotated | meshtastic-firmware/src/Fusion/FusionAhrs.c:446-478 | the Earth acceleration is the matrix times the accelerometer, less 1 g in the direction of the convention |
| FusionAhrs.RotatedGravity | meshtastic-firmware/src/Fusion/FusionAhrs.c:415-424 | gravity rotated to the Earth frame is the vertical |
| FusionAhrs.RotatedLinearIsEarth | meshtastic-firmware/src/Fusion/FusionAhrs.c:415-478 | rotating the linear acceleration gives the Earth acceleration, in all three conventions |
| FusionAhrs.AtRest | meshtastic-firmware/src/Fusion/FusionAhrs.c:415-478 | a sensor at rest has no acceleration: it measures gravity upwards, in the NED convention downwards |
| FusionAhrs.HeadingKeepsGravity | meshtastic-firmware/src/Fusion/FusionAhrs.c:526-539 | setting the heading leaves the direction of gravity, and the norm, unchanged |
| FusionAhrs.HeadingIsSet | meshtastic-firmware/src/Fusion/FusionAhrs.c:526-539 | and the yaw afterwards has the direction of the heading asked for |
| FusionAhrs.Ahrs.Update | meshtastic-firmware/src/Fusion/FusionAhrs.c:120-216 | one update takes each sensor one step of the recovery machine, after a reset if the gyroscope is out of range |
| FusionAhrs.Feed | meshtastic-firmware/src/Fusion/FusionAhrs.c:120-216 | feeding a new filter takes each sensor through the run of the specification |
| FusionAhrs.RecoveryBounds | meshtastic-firmware/src/Fusion/FusionAhrs.c:150-216 | over every run with fixed settings the trigger stays in [0, period], the timeout is 0 or the period, and at most `period` samples are ignored in a row, once for every reset since one was last let through and once more |
| FusionAhrs.InitialisingAccepts | meshtastic-firmware/src/Fusion/FusionAhrs.c:137-163 | a non-zero sample is let through while the filter initialises |
| FusionAhrs.SampleMeaning | meshtastic-firmware/src/Fusion/FusionAhrs.c:150-180 | what one sample does in a run: a zero one nothing; one below the threshold is let through and takes 9 off the trigger; another adds 1 and is ignored unless a recovery is under way or begins, which ends when the trigger is back at 0 |
| FusionAhrs.RampKeepsRecovery | meshtastic-firmware/src/Fusion/FusionAhrs.c:137-145 | the gain goes from 10 to the one set in 3 seconds |
| FusionAhrs.RejectedRun | meshtastic-firmware/src/Fusion/FusionAhrs.c:158-174 | below the period every sample over the threshold is ignored |
| FusionAhrs.ResetsProlong | meshtastic-firmware/src/Fusion/FusionAhrs.c:128-174 | the bound is met: n resets with ramps that end at once, and n + 1 times `period` ignored in a row |
| FusionAhrs.ProlongedByReset | meshtastic-firmware/src/Fusion/FusionAhrs.c:120-180 | the filter itself driven to twice `period` |
| FusionAhrs.CountAcrossResetsIff | meshtastic-firmware/src/Fusion/FusionAhrs.c:97-180 | with samples at fixed intervals at most `period` are ignored in a row in every run if and only if rejection is off or the ramp outlasts the update that starts it |
| FusionAhrs.ZerosProlong | meshtastic-firmware/src/Fusion/FusionAhrs.c:128-180 | zero samples while the gain is ramped down, before and after a reset, and twice `period` ignored in a row, at any interval |
| FusionAhrs.CountWithZerosIff | meshtastic-firmware/src/Fusion/FusionAhrs.c:97-180 | with samples at fixed intervals, zero samples among them, at most `period` are ignored in a row in every run if and only if rejection is off or the ramp never ends |
| FusionAhrs.CountInEveryRunIff | meshtastic-firmware/src/Fusion/FusionAhrs.c:97-180 | whatever the intervals, if and only if rejection is off or the gain is the initial one |
| OpenLocationCode.NormaliseLongitude | meshtastic-firmware/src/gps/GeoCoord.cpp:279-282 | the longitude is brought into [-180, 180) by whole turns, and one already there is left alone |
| OpenLocationCode.GridPart | meshtastic-firmware/src/gps/GeoCoord.cpp:289-297 | five divisions by 5 and by 4 leave the quotients by 3125 and 1024 |
| OpenLocationCode.GridQuotients | meshtastic-firmware/src/gps/GeoCoord.cpp:289-297 | repeated division composes |
| OpenLocationCode.PairPart | meshtastic-firmware/src/gps/GeoCoord.cpp:303-315 | the interleaved digits are the base-20 digits of latitude and longitude, around the plus sign |
| OpenLocationCode.QuotientDigits | meshtastic-firmware/src/gps/GeoCoord.cpp:305-311 | the i-th repeated quotient has the i-th base-20 digit as remainder |
| OpenLocationCode.Base20 | meshtastic-firmware/src/gps/GeoCoord.cpp:305-311 | five digits determine the number |
| OpenLocationCode.DecodePairs | meshtastic-firmware/src/gps/GeoCoord.cpp:303-315 | decoding the digits gives the two numbers back |
| OpenLocationCode.CellOfFloor | meshtastic-firmware/src/gps/GeoCoord.cpp:283-300 | rounding down to fine units and then to cells is rounding down to cells |
| OpenLocationCode.LatLongToOLC | meshtastic-firmware/src/gps/GeoCoord.cpp:261-331 | ten digits of the specification around a plus sign, whose decoded 1/8000-degree cell contains the position, for every latitude (at the poles the outermost cell) and every longitude |
| OpenLocationCode.DigitOfAlphabet | meshtastic-firmware/src/gps/GeoCoord.cpp:264 | the characters that encode are those of the specification, in its order |
| OpenLocationCode.Poles | meshtastic-firmware/src/gps/GeoCoord.cpp:267-278 | positions at and beyond the poles get the southernmost and the northernmost cell |
| GpsUpdateScheduling.Scheduler.InformGotLock | meshtastic-firmware/src/gps/GPSUpdateScheduling.cpp:13-18 | the end of the search, and the prediction smoothed with the measured time |
| GpsUpdateScheduling.Scheduler.UpdateLockTimePrediction | meshtastic-firmware/src/gps/GPSUpdateScheduling.cpp:90-112 | the first time is ignored, the second starts the filter, the others weigh 1/5 |
| GpsUpdateScheduling.Scheduler.MsUntilNextSearch | meshtastic-firmware/src/gps/GPSUpdateScheduling.cpp:32-49 | the wait on the wrapping clock is the true wait, or nothing if over, if and only if it is below 2^31 ms, or over by a time whose low 32 bits are at most 2^31 |
| GpsUpdateScheduling.Scheduler.ElapsedSearchMs | meshtastic-firmware/src/gps/GPSUpdateScheduling.cpp:53-62 | during a search it is the true time since the start if and only if no time has passed or the low 32 bits of the start exceed those of the last end; after a search it is 0 if and only if no time has passed or they do not |
| GpsUpdateScheduling.SearchTimeLost | meshtastic-firmware/src/gps/GPSUpdateScheduling.cpp:53-62 | a search that starts just after the clock has wrapped around, for which it stays 0 |
| GpsUpdateScheduling.ReadsSigned | meshtastic-firmware/src/gps/GPSUpdateScheduling.cpp:41-46 | the exact differences that survive 32-bit subtraction and the signed reading, and those that do where negative ones count as zero |
| GpsUpdateScheduling.LockTimeMeasured | meshtastic-firmware/src/gps/GPSUpdateScheduling.cpp:95-97 | a lock within 2^31 ms is measured right across a wrap-around of the clock, a later one as 0 |
| GpsUpdateScheduling.PredictionWithinRange | meshtastic-firmware/src/gps/GPSUpdateScheduling.cpp:90-112 | from the second lock on the prediction stays within the range of the lock times seen since |
| GpsUpdateScheduling.FirstLockIgnored | meshtastic-firmware/src/gps/GPSUpdateScheduling.cpp:99-103 | the first lock time never counts, and the second one is the prediction |
| GpsUpdateScheduling.MovesAFifth | meshtastic-firmware/src/gps/GPSUpdateScheduling.cpp:105-107 | from the third on the prediction is four parts the old one and one part the new time, rounded down |
| GpsUpdateScheduling.OneLockCloser | meshtastic-firmware/src/gps/GPSUpdateScheduling.cpp:105-107 | under a constant lock time L the distance from [L - 4, L] falls with every lock until it is zero, and then nothing moves |
| GpsUpdateScheduling.PredictionSettles | meshtastic-firmware/src/gps/GPSUpdateScheduling.cpp:105-107 | so the prediction settles there, after no more locks than it was milliseconds away |

## Left out

- XModem: a write stores what fits, and what it stores is right; a closed handle reads nothing; seeking sets the position. Locking, logging and observers are not part of this model.
- XModem after the delivery of EOT or CAN: the composition stops there. Its acknowledgement reaches an idle sender, which answers CAN, and CAN removes the receiver's file.
- XModemTransfer.StartInStep: the acknowledgement of the file name packet is delivered to whoever sent that packet, not to the sender of the file.
- XModemTransfer.FewBurstsDeliver: under noise, for files of fewer than 65536 packets only, as `packetno` has 16 bits; `RefusedAfterWrap` says what a refusal does beyond.
- XModemTransfer.NakRepeats: below packet 65536; `RefusedAfterWrap` is about the rest. `ResendLimit` and `RepliesEndSession` have the same limit.
- XModemTransfer.ReceivedIsPrefix: for files of fewer than 65536 packets, the number that `packetno` can count, and within one session: after an EOT or CAN no packet that opens another.
- XModemTransfer.ReceivedOncePerNumber: within one session, in the same sense.
- E-Ink: the image hash and the ghost pixels are inputs, one clock reading serves one update, the scheduler's timing and `mainDelay` are not modelled, and every method is one atomic step, so interrupts inside `checkNotification` are not covered.
- SafeFile: flash operations are atomic and a copy stores what it writes as far as it fits; effects below the file level and locking are not modelled.
- SafeFile.SaveAtomically: not for the nRF52, where the file is removed first and nothing is read back, and whose file layer is not part of this model; nor without `fullAtomic`: `Writer.constructor` states the crash point at which the file is gone.
- GpioLogic: pins of all kinds are one class with a kind, in place of a class hierarchy; the power-management and monitored-LED pins elsewhere in the firmware are not modelled.
- HexToUf2: only the alphabet that the converter's main routine lets through (hex digits, colon, CR, LF).
- UF2: the start address that reading leaves behind in a global, the C-array output, drives and the command line.
- AirTime: the mirror arrays `air_period_tx` and `air_period_rx`, which nothing here reads; percentages are over the reals; `getSilentMinutes`, which walks the buckets by position and not by age.
- AirTime.AirTime.RunOnce: not beyond 2^32 - 1 seconds since boot.
- Orientation filter: normalisation, integration and feedback; whether the gyroscope is out of range, a sample is zero or its error is below the threshold are inputs of `Update`. Over the reals, without rounding; sines and cosines are parameters related by their identities.
- FusionAhrs.RecoveryBounds: for fixed settings, with a period below 2^31; changing the settings in the middle of a run is not modelled.
- OpenLocationCode.LatLongToOLC: over the reals, without rounding, and for the code length the firmware uses.
- GpsUpdateScheduling.Scheduler.UpdateLockTimePrediction: the weight 0.2 is exactly 1/5 and the arithmetic is not rounded but cut off; the counter of searches does not wrap around; the configuration that sets the interval, and `searchedTooLong`, are not modelled.
- The other coordinate formats, the power state machine, screens, radio, mesh routing and module code are not part of this model, nor is the simulated shoreline monitor.
