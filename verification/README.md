# Verified models of the io-edge-hub firmware

This project models the logic layers of the FreeRTOS io-edge-hub firmware and of its host tools in
Dafny, and proves what they promise. Every file is one component; a module comment at its head says what
it stands for.

Code that changes state in the firmware is imperative here too: classes with the same fields, buffers
as arrays, the same loops. Each method is proved against a value-level description (`View()`, `Image()`,
`Process`, `Feed`, ...), and the promises are proved about that description. Concurrency and power loss
are step systems: the steps are the atomic accesses, and the theorems quantify over every sequence of
steps.

## What is proved

**Firmware over UDP** (`FwProtocol`, `FwUdp`, `FwUpg`, `GoBackN`, `OffGrid`, `BackOnGrid`, `StaleReply`,
`UpgradeTool`, `UpgradeRun`). The network may lose, duplicate, delay and reorder anything; the device
drops commands when its queue is full, may fail to post a reply, and may send a reply buffer while it is
being refilled. In every such run the device holds a prefix of the image that ends at a frame boundary, the host is never ahead of it,
and a finished host means a complete image. Any window whose frames are worked off in order is stored in
full, and if the reply to the last of them is heard the host confirms at least that window; no run has
more than a fixed number of windows, and no reachable state short of giving up is a dead end.
`UpgradeTool` proves the same for the tool's own loops calling the device's own code. `UpgradeRun` is the
whole upgrade, in which network and device go on after END until the reboot: an accepted image and its swap
request stay in slot1 exactly as long as no late copy of START is worked off, and a report of success is true
but for what `LateAnswers` lists. `FwUpg` holds under arbitrary bus failures and loss of power.

**Power-fail-safe configuration** (`ConfigRecord`, `TornHeader`, `ConfigRuns`, `ConfigStore`,
`ParamStore`). What a boot that can read the flash finds after any sequence of saves that complete, fail, or
are cut at any byte, and of boots that can or cannot read it: always a whole configuration, the last
acknowledged one or one under way since. A boot that cannot read it uses the defaults. The hypotheses are
that nothing is saved after such a boot, that what a cut has left does not collide under the CRC, and that
generations do not wrap; for one save each is shown to be exact. For cuts between flash operations nothing
is asked of the CRC except about one generation number.

**Log ring** (`LogRing`, `LogTask`). Free-running 32-bit indices, byte-by-byte copies and emission, any
interleaving.

**Modbus** (`BitOps`, `RegMap`, `MbPdu`, `MbTheorems`, `MbServer`, `RtuFrame`, `MbTcp`, `TcpReplies`). The
decoder, its registers and counters; RTU framing, error detection and accounting; TCP stream reassembly, and
when every reply goes out once and in order.

**WebSocket** (`WsFrame`, `WsSession`, `Sha1`, `Base64`). The receiver inverts the frame format for every
split of the stream; streaming SHA-1 is the standard's; Base64 round trip.

**CAN** (`CanProtocol`, `CanLockstep`, `CanTool`, `CanQueue`, `KeyBuffer`, `IntFlash`, `BootRescue`,
`BootCan`, `FwCan`). The lockstep between tool and device, also of the tool's own code on the boot loader's
own code from the fingerprint to CONFIRM; when it survives the application's bounded queue; and the rescue
into slot0: for every sequence of frames and every behaviour of the flash, what slot0 holds when CONFIRM is
answered, told by the frames alone.

**Below all of them** (`Bytes`, `Lfsr`, `RegBits`, `Crc`, `CrcDetection`, `NorFlash`, `W25q`,
`FlashAreas`). The three CRC loops are polynomial division on bit sequences; burst detection follows from
that. The flash drivers and the page splitters.

## Where the code differs from what it says

- `src/storage/config_store.c:15-16` says a torn write always leaves a CRC mismatch. For generation
  0xC95AE817 it does not: a bare header passes. `TornHeader.HeaderPassesIff` shows that this is the only
  such generation, `ConfigRuns.OperationAtomicIff` what follows.
- `src/web/ws.c:684-697` completes a frame only after storing a byte, so a frame without payload never
  completes and swallows what follows (`WsFrame.StreamReadIff`).
- `tools/firmware_upgrade.py:100-105` takes the first datagram after END as its answer without looking at
  its type. A reply from before the transfer that reads as success deceives it, a second copy of START's
  answer for instance (`StaleReply.StartAnswerDeceives`); a late data reply does exactly for image lengths
  of 1 modulo 256 (`StaleReply.DeceivedIff`).
- A late copy of START that is worked off after END begins a new session: slot1 is erased, the swap request
  with it, and the answer reads as END's success (`UpgradeRun.LateStart`). Which later answers can be taken
  for END's: `UpgradeRun.LateAnswers`.
- `src/fw/fw_udp.c:100-109` refills a reply buffer whose callback may still be pending. The mixture that
  goes out acknowledges no more than is stored, but may end where no frame ends; the host then sends a
  window of which the device wants no frame, and a round without losses does not bring it to the end of
  that window (`OffGrid.OffGridReached`, `OffGrid.WindowStoredIff`). Windows can therefore end at any byte,
  until the host hears a whole reply (`BackOnGrid.RoundRealigns`).
- `src/fw/fw_udp.c:259-265` does not check the length of END against the message buffer
  (`FwProtocol.CopyFitsIff`); `src/net/udp_task.c:81` lets 1408 bytes through, three too many
  (`FwProtocol.LongestEnd`).
- `src/storage/intflash.c:50-51` computes the end of the range in 32 bits. A call that wraps passes the
  check and returns 0; it erases nothing, unless the wrapped end is still inside the sector of its begin:
  then exactly that sector is erased (`IntFlash.EraseCoversIff`, `IntFlash.WrappedErases`). No caller in
  the firmware does this.
- `src/boot/mcuboot/flash_map_backend.c:85` and `:113` let offset plus length wrap; an accepted write or erase
  then leaves its area, that of slot0 towards the boot loader (`FlashAreas.AreaBoundIff`,
  `FlashAreas.AreaWraps`, `FlashAreas.BootErasedIff`, `FlashAreas.EraseWraps`).
- `src/boot/boot_can.c:369-373` leaves an open session open when the erase for a new START fails: CONFIRM
  still answers with the magic over a slot that has lost bytes (`BootRescue.DamagedRun`). The rescue is
  sound exactly when every byte lost was 0xFF anyway (`BootRescue.SoundIff`), in particular when no START
  since the last accepted one has failed its erase (`BootRescue.IntactSound`).
- `src/web/ws.c:337-342` may queue a header and then fail on the payload; the next frames are then taken
  for that payload (`WsFrame.HeaderAlone`).
- `src/storage/config_store.c:86-109` returns -1 when a slot cannot be read, which `src/main.c:250-252` only
  logs. A save after that is acknowledged but may be lost at the next boot, which then loads the older of two
  configurations (`ConfigRuns.SaveUnreadIff`, `ConfigRuns.SaveUnreadLost`).
- `src/modbus/tcp.c:105-108` keeps one reply that there was no memory for, and goes on serving: the next reply
  overtakes it, or takes its place (`TcpReplies.OrderIff`, `TcpReplies.NeverSent`).
- `src/fw/fw_can.c:307` ignores a full queue. The tool sends 64 frames before it reads, the queue holds 32:
  a transfer to the application completes if and only if its worker keeps up (`CanQueue.CompleteIff`,
  `CanQueue.SlowWorkerLoses`).
- A generation number that wraps makes a completed save lose to the older one
  (`ConfigRuns.SaveSurvivesIff`).

## Model

| member | source | states |
|---|---|---|
| Bytes.LeRoundTrip | src/util/io_bytes.c:34-40 | little-endian bytes read back give the number, for every width that holds it |
| Bytes.BeRoundTrip | src/util/io_bytes.c:26-32 | the same, big-endian |
| Bytes.LeBytes | src/util/io_bytes.c:14-18 | a number comes from one byte string only: encoding the value read gives the bytes back |
| Bytes.BeBytes | src/util/io_bytes.c:3-12 | the same, big-endian |
| Bytes.Le32RoundTrip | src/util/io_bytes.c:14-40 | io_get_le32 undoes io_put_le32 |
| Bytes.Le16RoundTrip | src/storage/config_store.c:34-43 | get_le16 undoes put_le16 |
| Bytes.Be16RoundTrip | src/util/io_bytes.c:3-24 | io_get_be16 undoes io_put_be16 |
| Lfsr.BurstDetected | src/util/io_crc.c:3-25 | two messages that differ only inside a window no wider than the register leave different remainders |
| Lfsr.ResidueZero | src/modbus/rtu_frame.c:100-102 | feeding a register its own contents leaves zero, and nothing else of that length does |
| Crc.FoldIsDivision | src/util/io_crc.c:3-13 | the reflected 16-bit loop is division by its polynomial of the message's bits |
| Crc.FoldIeeeIsDivision | src/util/io_crc.c:15-25 | the same for the 32-bit loop |
| Crc.Crc16Modbus | src/util/io_crc.c:3-13 | the nested loops compute that function |
| Crc.Crc32Ieee | src/util/io_crc.c:15-25 | the nested loops compute that function |
| Crc.ParallelStep | src/fw/fw_upg.c:71-82 | the byte-parallel step equals eight bit-serial steps of polynomial 0x8408, for every register and byte |
| Crc.Crc16Ccitt | src/web/ws.c:250-259 | the byte-parallel loop is the bit-serial CRC for every seed and message |
| Crc.FoldAppend | src/fw/fw_upg.c:272-289 | folding over any chunks equals one pass |
| CrcDetection.AcceptedIffResidueZero | src/modbus/rtu_frame.c:100-102 | a frame passes exactly when the whole of it, CRC included, divides evenly |
| CrcDetection.BurstRejected | src/modbus/rtu_frame.c:100-109 | no burst of up to 16 bits turns one valid frame into another |
| CrcDetection.TwoByteErrorRejected | src/modbus/rtu_frame.c:100-109 | no change inside two adjacent bytes of a valid frame is accepted |
| CrcDetection.OddFlipsRejected | src/util/io_crc.c:3-13 | no odd number of flipped bits is accepted |
| CrcDetection.SealedOk | src/modbus/rtu_frame.c:130-135 | a body with its CRC appended is a valid frame |
| CrcDetection.Crc32WindowInjective | src/util/io_crc.c:15-25 | two values of one 4-byte field never give a record the same CRC-32 |
| NorFlash.ProgrammedSplit | tests/fake_flash.c:33-43 | two adjoining programs are one of the joined data, with programming only clearing bits |
| NorFlash.ProgrammedBlank | tests/fake_flash.c:33-43 | programming blank bytes stores the data |
| W25q.NoWrap | src/storage/w25qxx.c:121-142 | a program the driver lets through never wraps inside its page |
| W25q.Flash.Read | src/storage/w25qxx.c:99-119 | returns exactly the range, in bursts, or fails; what it refuses |
| W25q.Flash.Write | src/storage/w25qxx.c:121-142 | at most one page; a failure has stored some first bytes and changed nothing else |
| W25q.Flash.Erase | src/storage/w25qxx.c:153-181 | blanks exactly the range, or a leading part of whole sectors, by commands that erase aligned blocks; ends; when it succeeds |
| FwUpg.FirstKeyhashIsFirst | src/fw/fw_upg.c:118-137 | the hash used is that of the earliest 32-byte KEYHASH entry |
| FwUpg.Session.PageFlush | src/fw/fw_upg.c:144-153 | a full or partial page extends slot1 by exactly the buffered bytes |
| FwUpg.Session.Start | src/fw/fw_upg.c:157-189 | the three refusals in order; on success an empty session over a blank slot |
| FwUpg.Session.Write | src/fw/fw_upg.c:191-231 | on success slot1 and page buffer hold all accepted data followed by this; too much data fails the session |
| FwUpg.Session.TlvKeyhashGet | src/fw/fw_upg.c:86-140 | the walk ends on any content and finds the first KEYHASH entry exactly when there is a sound one |
| FwUpg.Session.Abort | src/fw/fw_upg.c:233-241 | nothing is received any more |
| FwUpg.Session.Finish | src/fw/fw_upg.c:248-308 | 0 only if slot1 holds exactly the accepted stream, of the announced length, with the expected CRC and the built-in key hash; on working flash exactly then |
| FwProtocol.FrameParses | src/fw/fw_udp.c:252-259 | every frame of the tool is taken as the data command it carries |
| FwProtocol.V2ReplyValue | src/fw/fw_udp.c:171-185 | a data reply carries the received count |
| FwProtocol.CopyFitsIff | src/fw/fw_udp.c:236-265 | of a datagram as it is handed over, what is copied fits the message buffer exactly when it is not an END of more than 1405 bytes; what runs over is the datagram itself, at most three bytes of it |
| FwProtocol.LongestEnd | src/net/udp_task.c:79-87 | an END datagram of 1408 bytes runs three bytes over |
| FwUdp.Task.Cmd | src/fw/fw_udp.c:220-273 | which datagrams are taken, what is queued, and the drop at a full queue |
| FwUdp.Task.Reply | src/fw/fw_udp.c:100-109 | the next of two buffers is refilled, whatever it still holds |
| FwUdp.Task.SendReply | src/fw/fw_udp.c:88-98 | what a callback sends, also in the middle of a refill |
| FwUdp.Task.OnStart | src/fw/fw_udp.c:145-161 | the three status values and what they mean; a running transfer is left alone |
| FwUdp.Task.OnData | src/fw/fw_udp.c:171-185 | data counts only at the expected offset; the reply always carries the received count |
| FwUdp.Task.OnEnd | src/fw/fw_udp.c:187-209 | ok exactly when the image is complete, its CRC and key hash are right and the swap was requested |
| FwUdp.Task.Work | src/fw/fw_udp.c:133-215 | one round of the worker: what each command does and answers in any state, and which buffer the answer goes to; on a running transfer it is one device step of the protocol |
| GoBackN.FrameStored | src/fw/fw_udp.c:171-185 | what a frame of the image does to a transfer of the image |
| GoBackN.TornAcks | src/fw/fw_udp.c:77-109 | even a half-refilled reply buffer acknowledges no more than is stored |
| GoBackN.ActionKeeps | src/fw/fw_udp.c:133-273 | whatever network and device do keeps the invariant and loses no stored byte |
| GoBackN.StepKeeps | tools/firmware_upgrade.py:146-189 | so does every step of the host |
| GoBackN.Safety | tools/firmware_upgrade.py:146-189 | in every run: stored is a prefix of the image ending at a frame boundary, the host is not ahead, done means complete |
| GoBackN.WindowStored | tools/firmware_upgrade.py:154-161 | once a window's frames are worked off in order, in any company and from any state, everything up to its end is stored |
| GoBackN.RoundConfirms | tools/firmware_upgrade.py:151-189 | from any state at the begin of a window on the frame grid, whatever company the frames are in: once they are worked off and the whole reply to the last is heard, the window is confirmed to its end and the next begins there |
| OffGrid.WindowStoredIff | tools/firmware_upgrade.py:154-161 | worked off in order and alone, the frames of a window take the device to its end if and only if the window begins on the frame grid or the device is there already |
| OffGrid.OffGridReached | src/fw/fw_udp.c:88-109 | for every image of four frames a run, in which datagrams are late but none is lost, after which a window begins off that grid |
| BackOnGrid.ReplyOnGrid | src/fw/fw_udp.c:171-185 | the whole reply to any command acknowledges up to the end of a frame |
| BackOnGrid.WholeStaysOnGrid | tools/firmware_upgrade.py:146-189 | in every run in which no reply is sent half refilled, whatever else happens, every window begins on the grid |
| BackOnGrid.RoundRealigns | tools/firmware_upgrade.py:163-189 | from any window, on the grid or off it: once the whole reply to a command just worked off is heard, and no torn one, the next window begins on the grid, at what the device had then or later |
| GoBackN.RoundsBounded | tools/firmware_upgrade.py:153-189 | no run has more than 10 n + 9 windows |
| GoBackN.Completable | tools/firmware_upgrade.py:146-189 | from every state of the invariant where the host has not given up the transfer can be completed |
| GoBackN.NoDeadEnd | tools/firmware_upgrade.py:146-189 | every run that has not given up can be continued to a complete transfer |
| StaleReply.DeceivedIff | tools/firmware_upgrade.py:100-105 | a reply other than END's own can be read as its success if and only if one left from before the transfer reads so, or the image length is 1 modulo 256 |
| StaleReply.StartAnswerDeceives | tools/firmware_upgrade.py:82-105 | START's own answer is such a reply, for every image |
| UpgradeTool.Link.Event | src/fw/fw_udp.c:88-273 | one event of network or device, on the real device objects, keeps the protocol invariant |
| UpgradeTool.SendV2 | tools/firmware_upgrade.py:146-189 | the tool's loops end; a normal return means the device holds the image |
| UpgradeTool.SendWindow | tools/firmware_upgrade.py:154-161 | every frame of the window is sent |
| UpgradeTool.Collect | tools/firmware_upgrade.py:163-181 | the confirmed offset never passes what is stored; progress resets the retries |
| UpgradeTool.KeyhashFromImage | tools/firmware_upgrade.py:37-50 | the loop finds the first KEYHASH entry, or an error |
| UpgradeTool.FingerprintsAgree | tools/firmware_upgrade.py:37-50 | for a signed image the tool announces the fingerprint the device will find |
| UpgradeRun.Epilogue.WorkOff | src/fw/fw_udp.c:133-215 | whatever command is worked off once END has been sent keeps what is known of slot1, the swap request and the replies under way |
| UpgradeRun.Epilogue.WorkEnd | src/fw/fw_udp.c:187-209 | END itself: accepted exactly when the swap request is and slot1's key hash is right |
| UpgradeRun.Epilogue.WorkAfter | src/fw/fw_udp.c:133-215 | after that, data and further copies of END change neither image nor request |
| UpgradeRun.Epilogue.WorkStart | src/fw/fw_upg.c:157-189 | but a copy of START erases both and is answered with success |
| UpgradeRun.LateAnswers | tools/firmware_upgrade.py:100-110 | of the answers to late commands, START's and, for counts of 1 modulo 256, data's read as END's success; a refused START's and a second END's read as its rejection |
| UpgradeRun.LateStart | src/fw/fw_udp.c:145-161 | after an accepted END one copy of START, still in the network, undoes the upgrade of any signed image |
| UpgradeRun.Deploy | tools/firmware_upgrade.py:98-110 | after the transfer, END or its answer may be lost, and late datagrams and answers come before, between and after: a report of success is true unless the answer was from before the transfer, a START had been worked off when it came, or the length is 1 modulo 256 |
| UpgradeRun.Upgrade | tools/firmware_upgrade.py:73-110 | the whole upgrade, any exchange of which may be lost: that report; after an accepted END slot1 keeps image and swap request if and only if no START is worked off until the reboot; END does not refuse a signed image with the device's key |
| ConfigRecord.RecordReadsBack | src/storage/config_store.c:58-69 | a written record is accepted and read as it was |
| ConfigRecord.AcceptedIsRecord | src/storage/config_store.c:58-69 | nothing else is accepted |
| ConfigRecord.TornVerdict | src/storage/config_store.c:111-136 | exactly when a record cut after any number of bytes is accepted |
| TornHeader.HeaderPassesIff | src/storage/config_store.c:111-130 | a bare header passes the CRC check for one generation and no other |
| TornHeader.OperationCutCollides | src/storage/config_store.c:127-130 | what that means for a save cut between operations |
| ConfigRuns.AfterCut | src/storage/config_store.c:86-109 | what a boot finds after a save cut anywhere |
| ConfigRuns.SaveAtomicIff | src/storage/config_store.c:111-136 | a save is atomic at every byte if and only if no cut of it collides |
| ConfigRuns.OperationAtomicIff | src/storage/config_store.c:111-136 | between operations every save is atomic except that of generation 0xC95AE817 |
| ConfigRuns.SaveSurvivesIff | src/storage/config_store.c:103-119 | a completed save is loaded at the next boot if and only if its generation did not wrap |
| ConfigRuns.SaveUnreadIff | src/storage/config_store.c:97-119 | a save completed after a boot that could not read the flash is loaded at the next boot if and only if slot B holds no generation above 1 |
| ConfigRuns.SaveUnreadLost | src/main.c:250-252 | otherwise it is lost, and so may be the one before: over generations 5 and 4 the next boot loads generation 4 |
| ConfigRuns.EventRight | src/storage/config_store.c:86-136 | one save or boot, however it goes, loads or keeps the right configuration, provided nothing is saved after a boot that could not read the flash |
| ConfigRuns.RunSafe | src/storage/config_store.c:86-136 | so does every run of saves, failures, power cuts at any byte and boots that can or cannot read the flash, with that proviso, in which no cut that happens collides |
| ConfigRuns.BootSafe | src/storage/config_store.c:86-136 | the same from any flash contents |
| ConfigRuns.OperationGuardedIff | src/storage/config_store.c:127-130 | between operations that is exactly that generation 0xC95AE817 is not cut after its header |
| ConfigRuns.OperationRunSafe | src/storage/config_store.c:86-136 | every such run with power lost or saves failing between flash operations, with no other hypothesis on the CRC |
| ConfigRuns.OperationBootSafe | src/storage/config_store.c:86-136 | the same from any flash contents |
| ConfigStore.Store.SlotRead | src/storage/config_store.c:58-69 | valid, invalid or flash error, and what is read |
| ConfigStore.Store.Init | src/storage/config_store.c:86-109 | the newest valid slot is in use, slot A on a tie, defaults if none |
| ConfigStore.Store.WritePages | src/storage/config_store.c:72-84 | page by page is one unrestricted program |
| ConfigStore.Store.Save | src/storage/config_store.c:111-136 | the flash is as after a save cut at some byte, complete if 0 is returned; nothing outside the slot changes |
| ConfigStore.Store.EraseAll | src/storage/config_store.c:138-147 | defaults in use, and loaded at the next boot |
| ConfigStore.Store.Get | src/storage/config_store.c:149-156 | defaults before the first init |
| ParamStore.SaveLoadIff | src/modbus/regmap.c:207-278 | parameters survive saving and loading if and only if their IP address is valid |
| ParamStore.HoldingRegSave | src/modbus/regmap.c:232-254 | what is saved, and that a save error leaves a cut |
| ParamStore.HoldingRegLoad | src/modbus/regmap.c:258-278 | what is taken over |
| LogRing.UnreadKept | src/sys/log.c:84-95 | no producer step touches a byte that is still to go out |
| LogRing.SpaceExact | src/sys/log.c:82-85 | the space test on wrapping 32-bit indices is the true one |
| LogRing.ProducedKeeps | src/sys/log.c:68-103 | each step of a producer keeps the invariant |
| LogRing.LoggedKeeps | src/sys/log.c:185-230 | each step of the logger keeps it |
| LogRing.Safety | src/sys/log.c:68-230 | in every interleaving: output followed by ring contents is the accepted lines in lock order, notices only between lines |
| LogRing.FlushSees | src/sys/log.c:169-181 | equal head and tail, loaded at different times, mean that what was accepted by then has gone out |
| LogTask.Log.Push | src/sys/log.c:68-103 | with the logger running in between: a line goes in whole, or did not fit |
| LogTask.Log.LoggerStep | src/sys/log.c:185-230 | each shared access of the logger is a step of the model |
| LogTask.Log.CopyIn | src/sys/log.c:87-94 | the two memcpy parts fill the right places |
| BitOps.SetBitThenTest | src/modbus/regmap.c:168-182 | writing one output bit sets that bit and leaves the other seven |
| RegMap.Regs.Read | src/modbus/regmap.c:79-88 | register value, live clock halves, 0 out of range |
| RegMap.Regs.Write | src/modbus/regmap.c:120-165 | the new registers and the side effect of every address; equal values do nothing |
| RegMap.Regs.WriteBit | src/modbus/regmap.c:168-182 | the bit is written, the upper byte cleared, the outputs set |
| RegMap.Regs.CoilRead | src/modbus/regmap.c:185-192 | the output bit, or an error out of range |
| RegMap.Regs.DiscreteRead | src/modbus/regmap.c:195-202 | the input bit, or an error out of range |
| RegMap.WriteRegsRange | src/modbus/mb_server.c:568-579 | writing several succeeds exactly in range; a failure has done exactly the part in range |
| RegMap.WriteRegsStores | src/modbus/mb_server.c:568-579 | after success each register in range holds what it settles to, no other has changed |
| RegMap.WriteCoilsRange | src/modbus/mb_server.c:494-514 | the same for coils |
| RegMap.WriteCoilsStores | src/modbus/mb_server.c:494-514 | after success each coil in range is as written, the others as before |
| RegMap.SameWriteSilent | src/modbus/regmap.c:126-128 | writing what is there changes nothing and causes nothing |
| MbPdu.PackBitsPacks | src/modbus/mb_server.c:157-184 | bits go low bit first, padding is zero |
| MbTheorems.WriteRegsExact | src/modbus/mb_server.c:529-585 | FC16 succeeds exactly when address plus quantity is in the map; the registers either way; the exception code |
| MbTheorems.ReadRegsExact | src/modbus/mb_server.c:247-294 | FC03 of any address and quantity answers exactly for ranges in the map, otherwise with which exception |
| MbTheorems.WrittenRegsReadBack | src/modbus/mb_server.c:529-585 | FC03 after FC16 returns the words written, except live clock and self-clearing triggers |
| MbTheorems.WriteCoilsExact | src/modbus/mb_server.c:469-521 | FC15 succeeds exactly when the range is in the map |
| MbTheorems.ReadCoilsExact | src/modbus/mb_server.c:131-185 | the same for FC01, despite 16-bit address arithmetic |
| MbTheorems.WrittenCoilsReadBack | src/modbus/mb_server.c:469-521 | FC01 after FC15 returns the bits written, zero padded |
| MbTheorems.ReplyShape | src/modbus/mb_server.c:589-631 | every answer begins with the function code or is a two-byte exception, and fits a frame |
| MbTheorems.DecoderCounts | src/modbus/mb_server.c:589-606 | what one message adds to the five counters |
| MbServer.Server.DiagCount | src/modbus/mb_server.c:64-69 | one counter, modulo 2^16 |
| MbServer.Server.ReadBitsRsp | src/modbus/mb_server.c:131-240 | FC01 and FC02 fill the buffer with the packed bits, or answer an exception |
| MbServer.Server.ReadWordsRsp | src/modbus/mb_server.c:247-343 | FC03 and FC04 fill it with the words |
| MbServer.Server.WriteOneRsp | src/modbus/mb_server.c:350-404 | FC05 and FC06 write and echo |
| MbServer.Server.DiagnosticsRsp | src/modbus/mb_server.c:411-461 | FC08: echo, clear, counters |
| MbServer.Server.WriteCoilsRsp | src/modbus/mb_server.c:469-521 | FC15: checks in order, coils one by one |
| MbServer.Server.WriteRegsRsp | src/modbus/mb_server.c:529-585 | FC16: checks in order, one odd byte tolerated, registers one by one |
| MbServer.Server.Process | src/modbus/mb_server.c:589-631 | the whole decoder: reply, registers and counters |
| RtuFrame.CorruptedFrameInert | src/modbus/rtu_frame.c:97-109 | a frame corrupted inside two adjacent bytes changes no register and is not answered |
| RtuFrame.BurstInert | src/modbus/rtu_frame.c:97-109 | the same for any burst of up to 16 bits |
| RtuFrame.ExpiryAccounts | src/modbus/rtu_frame.c:77-128 | every silence after bytes adds one bus message and is answered or counted as unanswered, never both; the other three counters |
| RtuFrame.RunAccounts | src/modbus/rtu_frame.c:77-128 | over every run of silences without a clear all five counters are exact modulo 2^16, and bus messages are answers plus unanswered |
| RtuFrame.AnswerSealed | src/modbus/rtu_frame.c:123-138 | only frames for this unit are answered, by a valid frame from it |
| RtuFrame.BroadcastActs | src/modbus/rtu_frame.c:117-128 | a broadcast does what the same request to this unit does, silently |
| RtuFrame.Rtu.Feed | src/modbus/rtu_frame.c:55-75 | buffer and overflow depend only on the bytes since the last silence |
| RtuFrame.Rtu.Expired | src/modbus/rtu_frame.c:77-139 | what a silence does, on the real buffers |
| RtuFrame.Rtu.Bind | src/modbus/rtu_frame.c:141-148 | unit set, buffer empty |
| RtuFrame.T35IsLeast | src/modbus/rtu_frame.c:150-163 | up to 19200 baud the fewest whole milliseconds covering 3.5 characters |
| MbTcp.FramesCover | src/modbus/tcp.c:59-67 | frames and rest together are the stream |
| MbTcp.RestIncomplete | src/modbus/tcp.c:147-149 | what is left over is not yet a frame |
| MbTcp.FramesAppend | src/modbus/tcp.c:116-157 | framing is independent of segmentation |
| MbTcp.SegmentationInert | src/modbus/tcp.c:116-157 | however a stretch of the stream is cut: same frames, same rest, same replies, registers and counters |
| MbTcp.PduIsTheRest | src/modbus/mbtcp_adu.c:77-92 | framer and MBAP layer clamp alike: the decoder gets the whole rest of a frame |
| MbTcp.ReplyIsOneFrame | src/modbus/mbtcp_adu.c:41-118 | every reply is exactly one frame of the framer, transaction and unit echoed |
| MbTcp.Conn.AduProcess | src/modbus/mbtcp_adu.c:41-118 | the MBAP layer: protocol error, broadcast, silence, reply |
| MbTcp.Conn.ProcessFrame | src/modbus/tcp.c:69-112 | a frame is served once and its reply given to tcp_write once; what each answer of tcp_write leads to: the reply kept, closing |
| MbTcp.Conn.Receive | src/modbus/tcp.c:116-157 | frames handed over and bytes kept are those of the one-shot framer, and registers, counters and replies exactly what those frames make of them; always progress, never an overrun |
| MbTcp.Conn.Poll | src/modbus/tcp.c:159-186 | the reply kept is given to tcp_write again, kept on or gone; what closes the connection |
| TcpReplies.OrderIff | src/modbus/tcp.c:100-111 | every reply of a connection goes out, once and in order, if and only if no tcp_write fails and no reply is made while another is kept |
| TcpReplies.NeverSent | src/modbus/tcp.c:105-108 | a reply whose place another took never goes out |
| WsFrame.FeedAppend | src/web/ws.c:612-707 | the receiver's state depends only on the bytes, not on how they are cut |
| WsFrame.FrameRead | src/web/ws.c:612-707 | one frame with payload, any length form, masked or not, is taken apart correctly |
| WsFrame.Swallow | src/web/ws.c:684-697 | a frame without payload never completes; the session ends when the buffer is full |
| WsFrame.StreamRead | src/web/ws.c:612-707 | a stream of frames delivers exactly its messages |
| WsFrame.StreamReadIff | src/web/ws.c:612-707 | it does so if and only if no frame is empty |
| WsFrame.SendRoundTrip | src/web/ws.c:310-343 | the receiver, fed whatever ws_send sends: opcode and payload are delivered; close, unknown opcodes and too long a payload end the session; an empty frame does not complete |
| WsFrame.SendDecodes | src/web/ws.c:310-343 | a decoder of section 5.2 of RFC 6455 takes every frame sent apart into its opcode and payload, close frames and empty payloads included |
| WsFrame.HeaderAlone | src/web/ws.c:337-342 | after a header without its payload the next bytes are taken for it |
| WsSession.Session.Feed | src/web/ws.c:612-707 | ws_feed on its own buffers is that receiver |
| WsSession.Session.FrameDone | src/web/ws.c:563-608 | which frames are handed over and which end the session |
| WsSession.Session.Send | src/web/ws.c:310-343 | on the wire is nothing, the header alone or the whole frame, and nothing if the window has no room |
| Sha1.PaddedWhole | src/web/ws.c:138-149 | the padding is the shortest to whole blocks |
| Sha1.Context.Block | src/web/ws.c:71-116 | one block is the standard's compression |
| Sha1.Context.Update | src/web/ws.c:118-136 | any split of a message gives the same state |
| Sha1.Context.PadZeros | src/web/ws.c:143-146 | the padding loop ends, after exactly the zeros of the standard |
| Sha1.Context.Final | src/web/ws.c:138-157 | the result is the one-shot hash of everything fed |
| Base64.RoundTrip | src/web/ws.c:164-243 | decoding an encoding returns the bytes if they fit, and fails otherwise |
| Base64.B64Encode | src/web/ws.c:164-194 | the loop computes the encoding |
| Base64.B64Decode | src/web/ws.c:217-243 | the accumulator loop computes the decoding, in place, within the destination |
| CanLockstep.ReceiveKeeps | tools/firmware_upgrade_can.py:162-176 | the reply read is the offset sent, or UPDATE_SUCCESS at the end |
| CanLockstep.Safety | tools/firmware_upgrade_can.py:152-177 | in every interleaving no unexpected, unread or error reply; done means the image is stored |
| CanLockstep.Progress | tools/firmware_upgrade_can.py:152-177 | no deadlock before the end |
| CanLockstep.Terminates | tools/firmware_upgrade_can.py:152-177 | every run is finite |
| CanTool.Link.Handle | src/boot/boot_can.c:428-451 | the boot loader's data handler is the device of that protocol |
| CanTool.SendData | tools/firmware_upgrade_can.py:152-177 | the tool's loop on that code, for every image: it ends with UPDATE_SUCCESS, no error exit is taken, no reply is left, slot0 holds the image |
| CanTool.SendKeyhash | tools/firmware_upgrade_can.py:135-140 | after the five frames the boot loader has put together the fingerprint, and nothing else has changed |
| CanTool.Install | tools/firmware_upgrade_can.py:260-276 | fingerprint, START, image and CONFIRM on a quiet bus and a working flash, from any state: installed, slot0 being the image, if and only if the fingerprint is the built-in one and the length fits; the boot sectors are untouched |
| CanQueue.CompleteIff | src/fw/fw_can.c:297-310 | every run of the data phase against the application that can go no further is complete if and only if no frame met a full queue; otherwise the tool waits in vain |
| CanQueue.SlowWorkerLoses | src/fw/fw_can.c:297-310 | a worker that takes nothing for 33 frames loses one |
| IntFlash.SweptCovers | src/storage/intflash.c:62-73 | the range is blank, sectors it does not meet are untouched |
| IntFlash.EraseCoversIff | src/storage/intflash.c:42-91 | what an accepted call leaves: its range blank if the true end is in the flash; otherwise the sector of its begin, if the wrapped end is inside it, or nothing at all |
| IntFlash.WrappedHarmlessIff | src/storage/intflash.c:42-91 | a wrapped call leaves every flash as it is if and only if the end computed is not inside the sector of its begin |
| IntFlash.WrappedErases | src/storage/intflash.c:42-91 | a wrapped call that erases 128 KB, also below its address |
| IntFlash.Flash.Erase | src/storage/intflash.c:42-91 | which sectors are erased, also on failure |
| IntFlash.Flash.Write | src/storage/intflash.c:93-125 | words and bytes together are one program of the buffer |
| KeyBuffer.Chunks.HandleKeyhash | src/boot/boot_can.c:323-334 | a sound chunk replaces the earlier copy, any other is ignored |
| KeyBuffer.Chunks.TakeKey | src/boot/boot_can.c:352-355 | a complete fingerprint is put together and used up |
| BootRescue.SlotSwept | src/boot/boot_can.c:367-373 | erasing for an image blanks its place and leaves sectors 0 to 3 alone, also when it fails half way |
| BootRescue.RunHolds | src/boot/boot_can.c:323-476 | every conversation keeps the invariant: chunks, boot sectors, and every byte of an open session's place told by the frames |
| BootRescue.ConfirmExact | src/boot/boot_can.c:383-406 | for any frames and any behaviour of the flash: when CONFIRM is answered with the magic, slot0 is exactly the data since the last accepted START, as many bytes as it announced, but for what a failed erase has blanked since; a complete fingerprint was the built-in one |
| BootRescue.SoundIff | src/boot/boot_can.c:369-373 | slot0 is that data if and only if every blanked byte was 0xFF |
| BootRescue.IntactSound | src/boot/boot_can.c:347-381 | and it is if no START since has failed its erase |
| BootRescue.FailedEraseDamages | src/boot/boot_can.c:369-373 | after a complete transfer a START whose erase fails makes CONFIRM answer over a damaged slot |
| BootRescue.DamagedRun | src/boot/boot_can.c:369-373 | such a run |
| BootCan.Session.Start | src/boot/boot_can.c:347-381 | the value-level START: a wrong fingerprint and an impossible length refused, a failed erase leaving the session as it was |
| BootCan.Session.ConfirmSession | src/boot/boot_can.c:383-406 | the value-level CONFIRM |
| BootCan.Session.HandleData | src/boot/boot_can.c:428-451 | the value-level data step: appended data, overruns ending the session, replies every 512 bytes and at the end |
| BootCan.Session.HandleFrame | src/boot/boot_can.c:454-476 | one step of the conversation |
| BootCan.Session.Serve | src/boot/boot_can.c:485-561 | the session is what the frames handled make of it; an installed image is exactly the data frames' since the last accepted START, without exception on a flash that erases; boot sectors untouched |
| FwCan.Channel.Start | src/fw/fw_can.c:134-176 | whatever went on is dropped, a complete fingerprint must be the built-in one, frames queued meanwhile are dropped; when a session begins |
| FwCan.Channel.Data | src/fw/fw_can.c:228-249 | the same flow control as the boot loader |
| FwCan.Channel.ConfirmUpdate | src/fw/fw_can.c:178-203 | confirmed only for a complete image with the right key, and after the swap request |
| FwCan.Channel.Arrived | src/fw/fw_can.c:297-310 | a full queue drops the frame |
| FwCan.Channel.Work | src/fw/fw_can.c:268-293 | one round of the task: what each frame does and is answered, refused commands included, and when the queue is emptied; only CONFIRM of a complete, right image answers with the magic or requests the swap |
| FlashAreas.LfProg | src/storage/lfs_port.c:61-80 | one unrestricted program, never outside the block |
| FlashAreas.LfErase | src/storage/lfs_port.c:92-101 | the block and nothing else |
| FlashAreas.AreaWrite | src/boot/mcuboot/flash_map_backend.c:80-109 | in the NOR flash: one unrestricted program up to the end of the chip; never outside the area unless the sum wraps |
| FlashAreas.AreaWriteSlot0 | src/boot/mcuboot/flash_map_backend.c:80-93 | in slot0: one program of the chip, never below the area unless the sum wraps |
| FlashAreas.AreaBoundIff | src/boot/mcuboot/flash_map_backend.c:85-88 | an accepted write to any area stays in it if and only if its true end does, or the chip refuses it, or it is empty |
| FlashAreas.AreaWraps | src/boot/mcuboot/flash_map_backend.c:85-88 | two that do not: of the scratch area into slot1, of slot0 into the boot loader |
| FlashAreas.AreaErase | src/boot/mcuboot/flash_map_backend.c:111-120 | in the NOR flash: which range is blank, also on failure, when it succeeds, and never outside the area unless the sum wraps |
| FlashAreas.AreaEraseSlot0 | src/boot/mcuboot/flash_map_backend.c:111-120 | in slot0: which sectors are erased |
| FlashAreas.BootErasedIff | src/boot/mcuboot/flash_map_backend.c:111-120 | an accepted erase of slot0 spares the boot loader's sectors if and only if its address does not wrap |
| FlashAreas.EraseWraps | src/boot/mcuboot/flash_map_backend.c:111-120 | one that erases the boot loader's last sector |
| FlashAreas.GetSectors | src/boot/mcuboot/flash_map_backend.c:136-170 | sectors tile the area; slot0's are the chip's own |

## Left out

- The legacy UDP command 0x02 carries no offset and is not safe against duplicates; only 0x06 is modelled.
- UpgradeRun.Upgrade: the reboot and the version query after it. boot_set_pending's trailer in slot1 is a field of its own, emptied by an erase of the slot.
- GoBackN.Safety: datagrams and pending replies of earlier upgrades are assumed gone when START is answered, and the flash works; flash failures are covered by the contracts of `FwUpg.Session`.
- GoBackN.TornAcks: the tcpip thread may interrupt the worker in the middle of a refill, never the other way round (priorities 4 and 3); old low bytes under new high ones are not considered.
- FwUdp.Task.Cmd: the buffer behind an END command is unbounded here; what a longer END overwrites in the firmware is not modelled.
- FwUpg.Session.Write: buffers within SLOT1_SIZE of 4 GB, for which the 32-bit sum would wrap; no such buffer fits the address space.
- The queue, the two reply buffers and the callbacks of lwIP are modelled as bounded sequences and atomic steps; a buffer refill is observed by any number of copied bytes.
- W25q.Flash.Write: an interrupted page program leaves a prefix of whole bytes; a byte half programmed is not modelled.
- W25q.Flash.Erase: an interrupted block erase leaves the block as it was or blank.
- ConfigRuns.RunSafe: config_store_erase_all is not an event of the runs; power loss between its two erases is not claimed to be atomic.
- LogRing.Safety: the UART takes every chunk whole; the 100 ms limit of one transmission is not modelled, nor an exact count of dropped lines (reading and clearing the counter are separate steps).
- LogTask.Log.Push: the formatting of lines and the wake-up of the logger.
- MbServer.Server.Process: requests come as a value, not through a pointer; the register bank has no concurrent writers.
- RtuFrame.Rtu.Expired: bytes that arrive while a frame is being processed.
- MbTcp.Conn.Receive: the clock behind the time-out of a half frame, which may be up at any poll, and the choice of a slot at accept are left out; the reply is built beside the decoder's buffer, not around it.
- WsSession.Session.Send: the 64-bit length form, which shifts a 32-bit value; no window has room for such a frame.
- The WebSocket commands, the upload they drive, the push of values and the handshake's header scan.
- BootCan.Session.Serve: probe, acknowledge, trace and version frames; the idle time-out may come at any time.
- FwCan.Channel.Work: the version query and the reboot.
- CanLockstep.Safety: the bus loses and reorders nothing; for frames lost at the application's queue see `CanQueue`.
- CanTool.Install: the reboot into the boot loader, its probe, and the version query at the end.
- IntFlash.Flash.Write: addresses outside the flash, which the code does not refuse; what the chip does there is not modelled.
- FlashAreas.AreaWriteSlot0: ranges that wrap to addresses outside the flash, for the same reason.
- littlefs, lwIP, FreeRTOS, MCUboot's own verification and swap, HAL drivers, history files, the HTTP and FTP servers, the shell and the sampling of inputs.
