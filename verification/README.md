# Verification model of Oizys

A Dafny model of the parts of Oizys whose correctness is hard to see from any one function, with
proofs about all inputs, all runs and all interleavings. `dafny verify dfyconfig.toml` checks it.

Where the program changes state in place, so does the model: classes and arrays with loops, each
method proved against a specification on values. What Oizys promises is then proved about those
specifications.

- **Desktop to dock.** `Strips` (the 64 by 16 grid, rectangles, fingerprints), `DamageLedger` and
  `DamageMap` (which strips are owed, and the class that keeps it in place), `Scanout` (one head, the
  strip cache and the dock's rotating buffers), `Staleness` (how far behind they can be), `Abandoned` and
  `AbandonedExample` (frames that fail on the way), `Mailbox` and `CaptureOutput` (the one-deep mailbox in
  front of it), `Delivery` (all queues together, end to end).
- **Bytes on the wire.** `Blocks`, `Cmac`, `Sealing`, `ControlChannel` (a session of sealed messages), `Der`.
- **Display settling.** `Desk` and `DeskSettle` (what one settle does), `DeskAgree`, `DeskRest` and
  `DeskAdopt` (where settling comes to rest, by one snapshot and with new ones),
  `Debounce` (when it runs), `DeskWatch` (both together, answering their own callbacks),
  `DisplayKeeper` (the module that does both in place).
- **The zone profiler.** `Profiler`.
- **Colour matching.** `Calibration` (fit and solve), `Http` (the request parser), `CaptureSession`
  (the sitting that collects the readings).
- **The app.** `Settings` (drafts, saved values and the file), `SidecarLadder` (connecting the iPad).
- **Settings.** `HeadList`, `Config`, `Utf8` (what the store does to broken characters). `Texts` and
  `Common` are shared.

## What the proofs found

- Three dock buffers and a 32-bit frame number: 2^32 is not a multiple of three, so a keyframe whose
  repeats straddle the wrap misses a buffer (`Scanout.RotationReachesAll` says exactly when).
- A frame that fails leaves its plan and its encodings behind. The header says that the next frame repairs
  it (`include/oizys_encode.h:48-51`); it does exactly when it reads every strip that is ahead of the record
  and still differs from it (`Abandoned.MadeGoodIff`), which rectangles covering what changed since the
  failed frame need not ask for. Otherwise a strip's old fingerprint goes on record for its new content, and
  when the strip goes back to the old, neither rectangles nor sweep nor keepalive find out
  (`AbandonedExample.ChangeLost`). The shipped driver stops the output after a failure, so no frame follows.
- A repayment by the refresh clock that fails spends only its frame number. Were the clock to go on, the
  third repeat would make up for one such failure with two buffers and not with three.
- Blanking sends two black frames, which leaves one of three buffers lit.
- Settling comes to rest exactly when the snapshot and the remembered seats agree. A settle that adopts
  heads out of place, five seconds after displays came or went, takes a snapshot that never does: if
  displays come or go again before it is replaced, the desk is reset every 0.4 s until the next adoption,
  thirteen commits at most.
- Time in a zone opened directly inside itself is counted again for each level.
- A request whose head is 8190 to 8192 bytes is accepted whole but refused when a read ends inside its
  blank line.
- Turning the Sidecar switch off and on during a connect lets a second connect out beside the first.
- A stand-down of half an hour becomes five minutes when the user connects and disconnects by hand.
- The sequence number of the control session, which is also the first counter of a message, moves only
  behind a message that was written; one that was enciphered and not written shares its counter blocks with
  the next.
- A public key with an empty modulus or exponent is assembled but is not valid DER.
- After `config reset` the panel shows dropped drafts until the next listing.
- A device name cut inside a character is mended by the store into a different one, except where the
  cut leaves the bytes EF or EF BF.
- A production build accepts and stores `log.level` and `capture.dump_frames` but never shows them.

## Model

| member | source | states |
|---|---|---|
| Strips.StripsTileSurface | Sources/OizysCore/encode.c:21-36 | strips of 64 by 16 pixels tile the surface in raster order: pixel (x, y) lies in strip (y / 16) * ((width + 63) / 64) + x / 64 and in no other, also where width or height is no multiple of 64 or 16 |
| Strips.StripOnSurface | Sources/OizysCore/encode.c:21-36 | no strip is empty or leaves the surface |
| Strips.MacroTileIsSquare | Sources/OizysCore/encode.c:115-123 | two strips share a macro tile exactly when they lie in the same 256 by 64 pixels |
| Strips.FingerprintSeesCell | Sources/OizysCore/encode.c:61-87 | a strip's fingerprint changes exactly when one of that strip's own pixels does |
| Strips.FingerprintsDetermineSurface | Sources/OizysCore/encode.c:61-107 | two surfaces have the same list of fingerprints exactly when they agree on every pixel |
| Strips.TouchesWhatItOverlaps | Sources/OizysCore/encode.c:188-208 | a rectangle inside the surface touches exactly the strips it shares a pixel with |
| Strips.CoverCompose | Sources/OizysCore/capture_frame.c:218-235 | rectangles covering a change from one frame to a second, joined to those from the second to a third, cover the change from the first to the third |
| Strips.UntouchedStripUnchanged | Sources/OizysCore/encode.c:210-248 | a strip that none of the covering rectangles touches has the fingerprint it had, so it need not be read |
| DamageLedger.OwedListExact | Sources/OizysCore/encode.c:125-139 | the list handed to the driver has every owing strip, no other, none twice, in raster order |
| DamageLedger.PlanDirtyOwesExactly | Sources/OizysCore/encode.c:210-248 | a plan, full or fast, in pixels: it reads all strips while a keyframe is owed, without rectangles or with one that leaves the surface, else those that share a pixel with a rectangle and one row in eight; it puts on record what it reads; and it owes what was owed and three repeats of each strip in the same 256 by 64 pixels as one found moved |
| DamageLedger.PlanOwesExactly | Sources/OizysCore/encode.c:150-186 | so after a full plan a strip is owed exactly when it was owed before or some strip in the same 256 by 64 pixels differs from what is on record |
| DamageLedger.AbandonedFullPlanLosesNothing | Sources/OizysCore/encode.c:150-186 | a full plan that is never presented loses no damage: the next full plan owes what either would have owed, against the same record (fast plans: `Abandoned.AbandonedFastPlan`) |
| DamageLedger.FastPlanIsFullPlan | Sources/OizysCore/encode.c:210-248 | with rectangles that cover the change since the recorded surface, the fast plan leaves the same map as reading the whole surface |
| DamageLedger.SweepTurnReads | Sources/OizysCore/encode.c:225-243 | on its sweep turn a strip is read whatever the rectangles claim |
| DamageLedger.PlanReadsOrCarries | Sources/OizysCore/encode.c:225-248 | a plan puts on record a strip's true content or what was there before, and owes full repeats whenever the record moves |
| DamageLedger.RecordAtMostEightFramesOld | Sources/OizysCore/encode.c:225-243 | in any eight consecutive frames, with any rectangles and across the wrap of the sweep counter, each strip's record is its true content as of one of them |
| DamageLedger.RecordAmongLastEight | Sources/OizysCore/encode.c:225-248 | at the end of any run of eight frames or more each strip's record is its true content as of one of the last eight |
| DamageLedger.SweepRepairs | Sources/OizysCore/encode.c:225-243 | a surface held for the last eight frames is on record in full however wrong the rectangles are |
| DamageMap.OizysDamageMap.constructor | Sources/OizysCore/encode.c:11-19 | a fresh map owes a keyframe, with nothing on record |
| DamageMap.OizysDamageMap.ChargeMacroTile | Sources/OizysCore/encode.c:115-123 | exactly the strips on the surface in the same 256 by 64 pixels owe three repeats; no other debt moves |
| DamageMap.OizysDamageMap.ChargeStrip | Sources/OizysCore/encode.c:150-160 | a strip whose fingerprint moved charges exactly the strips in the same 256 by 64 pixels, and one that did not charges nothing |
| DamageMap.OizysDamageMap.Owed | Sources/OizysCore/encode.c:125-139 | the output buffer holds the ledger's owed list and its length is returned |
| DamageMap.OizysDamageMap.SettlePlan | Sources/OizysCore/encode.c:150-168 | the in-place row and column loops charge as the ledger does, and report the owed list and the number of presentations |
| DamageMap.OizysDamageMap.FingerprintMarked | Sources/OizysCore/encode.c:223-245 | marked strips get their true fingerprint and all others keep the recorded one |
| DamageMap.OizysDamageMap.FingerprintAll | Sources/OizysCore/encode.c:89-107 | every strip gets its true fingerprint |
| DamageMap.OizysDamageMap.Plan | Sources/OizysCore/encode.c:170-186 | a full plan in place is the ledger's full plan |
| DamageMap.OizysDamageMap.MarkRect | Sources/OizysCore/encode.c:188-208 | a rectangle on the surface marks exactly the strips it touches; one that leaves the surface is refused |
| DamageMap.OizysDamageMap.MarkRow | Sources/OizysCore/encode.c:232-243 | marks one row of strips and nothing else |
| DamageMap.OizysDamageMap.MarkSweep | Sources/OizysCore/encode.c:232-243 | marks exactly the rows whose sweep turn it is |
| DamageMap.OizysDamageMap.PlanDirty | Sources/OizysCore/encode.c:210-248 | a fast plan in place is the ledger's fast plan, with its fall back to a full plan |
| DamageMap.OizysDamageMap.Presented | Sources/OizysCore/encode.c:250-262 | a presentation puts the pending fingerprints on record and takes one repeat off every debt, or clears all debt after a keyframe |
| Scanout.RotationReachesAll | Sources/OizysCore/driver.c:1093-1122 | a keyframe's repeats reach every dock buffer exactly when there are two buffers or the 32-bit frame number does not wrap among them; with three buffers 2^32 is no multiple |
| Scanout.SendKeepsInv | Sources/OizysCore/driver.c:1793-1819 | sending what is owed and publishing it keeps every buffer accounted for by the remaining debt, and when a keyframe is owed brings that about whatever the buffers held |
| Scanout.PresentKeepsInv | Sources/OizysCore/driver.c:2038-2111 | after every frame, whatever its rectangles, each dock buffer holds each strip as recorded or is one of the next presentations that strip still owes |
| Scanout.RefreshKeepsInv | Sources/OizysCore/driver.c:1906-1980 | the same after every tick of the refresh clock: repayment, keepalive, blanking, waking and deferred recoding |
| Scanout.QuietHeadIsShown | Sources/OizysCore/encode.c:125-168 | nothing owed means nothing outdated in any dock buffer |
| Scanout.PresentRecords | Sources/OizysCore/driver.c:2038-2111 | a presented frame is on record in full if a full pass was due or its rectangles cover the change |
| Scanout.PresentSettles | Sources/OizysCore/driver.c:2038-2111 | after a frame the head is lit, at the settings in force, with no keyframe pending |
| Scanout.RefreshKeepsRecord | Sources/OizysCore/driver.c:1906-1980 | the refresh clock never changes what is on record |
| Scanout.PresentTakesPlan | Sources/OizysCore/driver.c:2038-2111 | every frame, also one that owes nothing, takes up exactly one plan |
| Scanout.FrameSends | Sources/OizysCore/driver.c:2038-2111 | a frame on a lit head sends the strips that owe after its plan, once, to the next buffer, at their planned content, and leaves every other strip of every buffer; nothing owed, nothing is sent |
| Scanout.FrameRepaintsAll | Sources/OizysCore/driver.c:2038-2111 | under a keyframe, waking or with changed settings it sends every strip to every buffer at the frame's content |
| Scanout.TickSilent | Sources/OizysCore/driver.c:1906-1980 | a tick does nothing before the first frame, while a recode waits, on a head that stays blank and on one that owes nothing |
| Scanout.TickBlanks | Sources/OizysCore/driver.c:1679-1690 | standby sends black to the next two buffers and leaves what is owed and on record |
| Scanout.TickFindsSettings | Sources/OizysCore/driver.c:1906-1980 | changed settings make a tick send nothing and leave a recode to the next frame |
| Scanout.TickRepaintsAll | Sources/OizysCore/driver.c:1906-1980 | a keepalive that is due, or waking, sends every strip again to every buffer, after which nothing is owed |
| Scanout.TickRepays | Sources/OizysCore/driver.c:1906-1980 | otherwise a tick sends the strips that owe, once, to the next buffer, at their recorded content, and takes one off each debt |
| Scanout.RefreshPaysDebt | Sources/OizysCore/driver.c:1906-1980 | a tick with nothing else going on takes exactly one off each debt |
| Scanout.ThreeTicksMakeQuiet | Sources/OizysCore/driver.c:1906-1980 | three such ticks leave nothing owed |
| Staleness.TickFollows | Sources/OizysCore/driver.c:1906-1980 | ticks between frames keep the invariant and leave the record where the ledgers of the frames left it |
| Staleness.CaptureFollows | Sources/OizysCore/driver.c:2038-2111 | a frame keeps the invariant and adds one plan taken to the run of ledgers, whatever its rectangles |
| Staleness.ThreeTicksShow | Sources/OizysCore/driver.c:1906-1980 | three ticks pay whatever a head owes, also a blanked one, without touching the record |
| Staleness.AtMostTenFramesBehind | Sources/OizysCore/encode.c:225-262 | bounded staleness in the middle of any interleaving of frames with arbitrary rectangles and ticks, nothing paid up: after ten frames or more, while no full repaint is pending, every dock buffer holds every strip as it was in one of the last ten frames, at the settings in force |
| Staleness.FrameLights | Sources/OizysCore/driver.c:2038-2111 | right behind a frame none is pending |
| Staleness.AtMostEightFramesBehind | Sources/OizysCore/encode.c:225-262 | and three ticks later, with no change of settings waiting, as it was in one of the last eight |
| Staleness.HeldSurfaceIsShown | Sources/OizysCore/encode.c:225-262 | a surface held for eight frames is then on every dock buffer, however wrong the rectangles |
| Scanout.TwoBuffersSurviveFailedRepay | Sources/OizysCore/driver.c:1972-1976 | a repayment by the refresh clock whose transfer fails spends a frame number and changes nothing else; over two buffers every outdated buffer is still inside its strip's debt |
| Scanout.FailedRepayMadeUpIff | Sources/OizysCore/driver.c:1972-1976 | with two repeats still owed and the next buffer lacking the strip, a failed repayment would be made up for by the next exactly with two buffers |
| Scanout.ChangeOwesTwo | Sources/OizysCore/driver.c:2038-2111 | any change reaching a quiet head leaves such a state: one buffer written, two repeats owed, the next buffer lacking it |
| Scanout.LostRepeatIff | Sources/OizysCore/driver.c:1972-1976 | so a repayment that fails right behind the frame of a change would be made up for exactly over two buffers |
| Abandoned.PlanRecordsIff | Sources/OizysCore/encode.c:210-248 | a plan puts a surface on record exactly when its rectangles are not trusted, or it reads every strip that differs from the record |
| Abandoned.AbandonedFastPlan | Sources/OizysCore/encode.c:210-262 | an abandoned fast plan leaves the record alone and what it owed owed; the next one puts its surface on record exactly when it is read in full, or every strip of it that differs from the record still |
| Abandoned.FailedIsAdrift | Sources/OizysCore/driver.c:2070-2102 | a frame that fails, while encoding or in its transfer, leaves its plan, its encodings and the number spent, and publishes nothing: the cache may be ahead of the record, and those strips owe full repeats |
| Abandoned.MadeGoodIff | Sources/OizysCore/include/oizys_encode.h:48-51 | the next frame puts a head right that a failed frame left exactly when a full repaint is due, its rectangles are not trusted, or it reads every strip whose cached body is ahead of the record and whose content still differs from it |
| Abandoned.NextRecordsIff | Sources/OizysCore/include/oizys_encode.h:48-51 | and it puts its surface on record exactly when it is read in full or every strip of it that differs from the record is; then the head is right again |
| Abandoned.TickPublishesIff | Sources/OizysCore/driver.c:1906-1980 | a tick of the refresh clock before the next frame would publish the abandoned plan, which puts the head right exactly when everything planned had been encoded |
| Abandoned.TickAfterTransfer | Sources/OizysCore/driver.c:1906-1980 | so after a failed transfer it would |
| Abandoned.FailedChange | Sources/OizysCore/driver.c:2070-2102 | a change that fails in its transfer is in the cache and not on record |
| Abandoned.UnrereadGetsStuck | Sources/OizysCore/driver.c:1727-1754 | if the next frame does not read it, that frame and two ticks later nothing is owed for the strip, every buffer shows the change, and record and cache name the old content |
| Abandoned.FrameKeepsStuck | Sources/OizysCore/driver.c:2038-2111 | put back as it was, the strip is then shown wrong after every frame that keeps it so, whatever the rectangles, ... |
| Abandoned.TickKeepsStuck | Sources/OizysCore/driver.c:1906-1980 | ... and after every tick, a keepalive repaint of everything included |
| AbandonedExample.ChangeLost | Sources/OizysCore/driver.c:2070-2102 | such an input: three strips, one failed frame, one that arrives with rectangles covering all that changed since, and the change is stuck |
| Scanout.BlankReachesEveryBuffer | Sources/OizysCore/driver.c:1679-1690 | two black copies darken every dock buffer exactly when the dock has two |
| Mailbox.EnqueueIff | Sources/OizysCore/capture_frame.c:209-235 | a frame whose status is not 0, that is not valid, or that comes once disabled changes nothing; any other waits in the place of the one before, with a consume block on its way |
| Mailbox.EnqueueKeepsHistory | Sources/OizysCore/capture_frame.c:209-235 | the hint held with a waiting frame is the concatenation of the rectangles of every frame since the last consume, or unknown as soon as one had none or over 64, or all have over 64 together |
| CaptureOutput.OizysCaptureOutput.constructor | Sources/OizysCore/capture_frame.c:40-47 | an output starts enabled, empty and unscheduled |
| CaptureOutput.OizysCaptureOutput.MergeRects | Sources/OizysCore/capture_frame.c:218-235 | the in-place rectangle buffer and count, with -1 for unknown, are the union the specification asks for |
| CaptureOutput.OizysCaptureOutput.Enqueue | Sources/OizysCore/capture_frame.c:209-235 | a newer frame replaces a waiting one and releases it; one consume block is queued exactly while scheduled; accepted frames are consumed, replaced, discarded or pending |
| CaptureOutput.OizysCaptureOutput.Post | Sources/OizysCore/capture_frame.c:231-234 | the new frame waits with one more reference, and a consume block is queued only if none was scheduled |
| CaptureOutput.OizysCaptureOutput.Take | Sources/OizysCore/capture_frame.c:177-184 | the consumer empties the mailbox and gets the frame with its rectangles |
| CaptureOutput.OizysCaptureOutput.Keep | Sources/OizysCore/capture_frame.c:185-196 | the consumed frame becomes the one kept for repaints and the one before is released |
| CaptureOutput.OizysCaptureOutput.Retake | Sources/OizysCore/capture_frame.c:198-203 | a repaint takes one more reference to the last frame, and only while enabled |
| CaptureOutput.OizysCaptureOutput.Repaint | Sources/OizysCore/capture_frame.c:198-207 | a repaint presents the last frame while enabled, gives its reference back, and changes nothing else unless the driver fails |
| CaptureOutput.OizysCaptureOutput.Disable | Sources/OizysCore/capture_frame.c:49-57 | disabling releases what is waiting and what is kept, and counts a waiting frame as discarded |
| CaptureOutput.OizysCaptureOutput.Fail | Sources/OizysCore/capture_frame.c:59-67 | only the first failure is reported, and it disables the output |
| CaptureOutput.OizysCaptureOutput.Consume | Sources/OizysCore/capture_frame.c:177-196 | one consume block runs the whole sequence, presents only while enabled and gives back every reference it takes |
| CaptureOutput.OizysCaptureOutput.Destroy | Sources/OizysCore/capture_frame.c:252 | after destruction every reference to any frame that was taken has been given back exactly once |
| Delivery.StartInv | Sources/OizysCore/capture_frame.c:40-47 | a fresh output and a head whose dock buffers hold anything at all satisfy the system's invariant |
| Delivery.NextKeepsInv | Sources/OizysCore/capture_frame.c:177-235 | each step of capture, consume, present, keep, repaint, refresh, reconfigure, failure and disable keeps it |
| Delivery.RunKeepsInv | Sources/OizysCore/capture_frame.c:177-235 | so does every interleaving of them |
| Delivery.EnabledIff | Sources/OizysCore/capture_frame.c:49-67 | an output ends with being disabled or with a presentation, repaint or refresh that fails, and with nothing else, and never begins again |
| Delivery.NewestIsLastCapture | Sources/OizysCore/capture_frame.c:209-235 | over any run the newest frame is the last one whose status was 0, that was valid and that met an enabled output |
| Delivery.DockShowsLastCapture | Sources/OizysCore/capture_frame.c:177-235 | end to end: after any admissible interleaving, once the mailbox is empty and nothing is owed, every pixel of every dock buffer is that of the last frame that was complete and valid and met an enabled output, at the settings in force |
| Delivery.WaitingDrains | Sources/OizysCore/capture_frame.c:177-196 | a waiting frame taken, shown and kept, three ticks leave nothing owed |
| Delivery.RepaintDrains | Sources/OizysCore/capture_frame.c:198-207 | with none waiting and the head due for recoding, a repaint of the last frame and three ticks do |
| Delivery.RefreshDrains | Sources/OizysCore/driver.c:1906-1980 | with none waiting and no recoding due, they do behind one tick, which wakes a blanked head or finds that settings changed and a repaint is needed |
| Delivery.DrainingTerminates | Sources/OizysCore/capture_frame.c:177-248 | and it gets there from every state of an enabled output that has captured anything: whatever the worker has in hand, whatever waits, blanked or not, and with settings changed meanwhile |
| Cmac.LoopDoubles | Sources/OizysCore/crypto.c:20-76 | the 16-byte shift loop with its conditional 0x87 is doubling of the 128-bit string as section 2.3 of RFC 4493 defines it on bits |
| Cmac.ShiftedBytePacks | Sources/OizysCore/crypto.c:20-76 | each byte of the shift is the packing of the corresponding bits of the shifted string |
| Cmac.SubkeysAreDoubled | Sources/OizysCore/crypto.c:20-76 | the subkeys are what sixteen zero bytes are enciphered to, doubled once and twice on bits |
| Cmac.PaddedBits | Sources/OizysCore/crypto.c:20-76 | padding is a one bit and then zeros to the end of the block |
| Cmac.MacIsCbc | Sources/OizysCore/crypto.c:20-76 | the code is the cipher-block chain of the message's blocks, the last with the first subkey added if whole, and else padded and with the second, as section 2.4 of RFC 4493 has it |
| Cmac.DoubleInto | Sources/OizysCore/crypto.c:20-76 | a subkey computed in place is the doubled block |
| Cmac.LoadBlock | Sources/OizysCore/crypto.c:20-76 | block b, padded with one bit and zeros and mixed with K1 or K2 when it is the last, is the block section 2.4 of RFC 4493 chains |
| Cmac.AbsorbAll | Sources/OizysCore/crypto.c:20-76 | the block loop computes the cipher-block chain over the whole message |
| Cmac.AesCmac | Sources/OizysCore/crypto.c:20-76 | for every key and message, also the empty one, the tag written is that of section 2.4 of RFC 4493 over the given block cipher, and no other byte of the buffer changes |
| Sealing.CtrInvolution | Sources/OizysCore/crypto.c:78-102 | encrypting twice under the same key, nonce and first counter gives the text back, across the wrap of the 32-bit counter |
| Sealing.CounterBlockLayout | Sources/OizysCore/crypto.c:78-102 | a counter block is the nonce and then the counter as eight big-endian bytes |
| Sealing.CounterBlocksDistinct | Sources/OizysCore/crypto.c:78-102 | fewer than 2^32 blocks of one message never repeat a counter block, across the wrap too |
| Sealing.AesCtrXor | Sources/OizysCore/crypto.c:78-102 | the byte loop writes exactly the counter-mode text at its place in the buffer |
| Sealing.HeaderReadsBack | Sources/OizysCore/dl3.c:70-79 | the 16-byte header gives back type, sub, aux, sequence number and size field |
| Sealing.SizeCountsRestIff | Sources/OizysCore/dl3.c:70-79 | the size read back is the number of bytes after the first four of the frame exactly when 16 bits can count them |
| Sealing.OpenUndoesSeal | Sources/OizysCore/dl3.c:256-326 | opening a sealed body gives back its text, for every key, nonce, sequence number and text of up to 4096 bytes |
| Sealing.OpenedIff | Sources/OizysCore/dl3.c:293-326 | a body opens exactly when it is a tag behind at most 4096 bytes that fit the output, and authenticates |
| Sealing.SealUndoesOpen | Sources/OizysCore/dl3.c:293-326 | a body that opens is the only one its text seals to |
| Sealing.MacInputIff | Sources/OizysCore/dl3.c:302-315 | what is authenticated is, byte by byte, the nonce with the top bit of its first byte flipped, the sequence number as eight big-endian bytes, and the ciphertext |
| Sealing.MacInputInjective | Sources/OizysCore/dl3.c:302-315 | equal authenticated bytes are of one nonce, one number and one ciphertext |
| Sealing.AuthenticIff | Sources/OizysCore/dl3.c:302-325 | a body authenticates exactly when its last 16 bytes are the code of bytes so laid out |
| Sealing.FrameReadsBack | Sources/OizysCore/dl3.c:266-291 | a sealed frame reads back as type 4 with its length, sub, aux and number, and its body opens to the text under that number |
| Sealing.SealInto | Sources/OizysCore/dl3.c:266-291 | the frame is header, ciphertext and tag, and the rest of the buffer is untouched |
| Sealing.SealLive | Sources/OizysCore/dl3.c:266-291 | sealing fails exactly on a missing argument, a text over 4096 bytes or a short buffer, and then writes nothing |
| Sealing.SessionKeyInto | Sources/OizysCore/dl3.c:11-15 | the session key is the raw key with the constant folded into its last half, in place |
| Sealing.TagsDiffer | Sources/OizysCore/dl3.c:317-323 | the comparison that never stops early says whether the tags differ |
| Sealing.OpenCp | Sources/OizysCore/dl3.c:293-326 | a body is accepted exactly when it fits and its last 16 bytes are the tag; otherwise the output buffer keeps every byte |
| Sealing.SealCp | Sources/OizysCore/dl3.c:256-264 | a control message is sealed under the whitened key with the aux value of its id |
| Sealing.SealThenOpen | Sources/OizysCore/dl3.c:256-326 | what one end seals, byte for byte in its buffer, the other end opens |
| ControlChannel.CtrAt | Sources/OizysCore/crypto.c:78-102 | each 16 bytes of a message are enciphered under the counter block of their own place |
| ControlChannel.SessionDistinctIff | Sources/OizysCore/driver.c:475-491 | over a whole session the counter blocks are all different, as section 6.5 of NIST SP 800-38A demands, exactly when there are no more than 2^32 and no message that was enciphered and not written is followed by one with any text |
| ControlChannel.LossRepeats | Sources/OizysCore/driver.c:475-491 | behind a failed write the sequence number stands still, so the next text starts on the same counter block |
| ControlChannel.OizysControl.constructor | Sources/OizysCore/driver.c:466-470 | a session starts at sequence number zero, with the handshake's messages counted |
| ControlChannel.OizysControl.SendInner | Sources/OizysCore/driver.c:475-491 | a message is sealed under the session's number; that and the message counter move exactly when it was written, by its blocks and by one |
| Der.LengthReadsBack | Sources/OizysCore/crypto.c:164-178 | the length octets are the definite form that reads back as the length (section 8.1.3 of ITU-T X.690) |
| Der.ElementReadsBack | Sources/OizysCore/crypto.c:164-178 | tag, length and contents read back as the contents, whatever follows |
| Der.ContentsMinimal | Sources/OizysCore/crypto.c:180-193 | the contents octets have the number's value, and are its minimal non-negative form (section 8.3) exactly when there were any bytes |
| Der.IntegerReadsBack | Sources/OizysCore/crypto.c:180-193 | an INTEGER reads back as the number, exactly when it had bytes |
| Der.KeyReadsBack | Sources/OizysCore/crypto.c:195-238 | the public key reads back as a SEQUENCE of the two numbers exactly when neither was empty |
| Der.KeyFits | Sources/OizysCore/crypto.c:195-238 | the body behind its reserved header, and the whole key, fit the 512-byte buffer |
| Der.PutLength | Sources/OizysCore/crypto.c:164-178 | writes exactly the minimal length octets at the cursor and returns the advanced cursor |
| Der.PutInteger | Sources/OizysCore/crypto.c:180-193 | writes exactly the INTEGER at the cursor; nothing before or after it changes |
| Der.SkipZeros | Sources/OizysCore/crypto.c:180-186 | finds where a number's significant bytes start, never past its last byte |
| Der.PublicKey | Sources/OizysCore/crypto.c:195-238 | the bytes assembled in the buffer are the encoding of the key, and out-of-range lengths give none |
| DeskSettle.SettleSeatsHeads | Sources/OizysCore/display.c:253-400 | one settle leaves the heads where they land, on their own desktops, so healthy exactly when they land side by side; heads that were not healthy always do |
| DeskSettle.HeadsSeatedAt | Sources/OizysCore/display.c:293-349 | heads that were out of place end side by side and level: the first in the first remembered seat; else ending at the left edge of the native panel, level with its top; else the first two meeting at the middle of the main display, standing on its top |
| Desk.FirstSeatIff | Sources/OizysCore/display.c:317-338 | the first seat is the one remembered; else the one from which the row ends at the left edge of the native panel, level with its top; else the one whose head ends at the middle of the main display and stands on its top |
| DeskAgree.HealthyRestores | Sources/OizysCore/display.c:135-186 | from healthy heads one settle puts every remembered display in place, heads included |
| DeskAgree.EntryAfterSettle | Sources/OizysCore/display.c:135-186 | after one settle a remembered display is out of place exactly if it had been caught mirroring a head while its own master was online, or is a head that went to another seat |
| DeskSettle.ProperAfterSettle | Sources/OizysCore/display.c:384-400 | what the caller arranged still holds for the next settle |
| DeskSettle.SnapshotAfterSettle | Sources/OizysCore/display.c:351-400 | the snapshot pins the same displays after a settle as before, and the driver remembers the seats the settle aimed at |
| DeskAgree.SecondSettleNeeded | Sources/OizysCore/display.c:384-400 | where snapshot and seats agree, the second settle commits exactly when the first left something out of place |
| DeskAgree.HealthySettlesToRest | Sources/OizysCore/display.c:384-400 | where they agree and the heads are healthy, one settle is enough |
| DeskRest.RestAgrees | Sources/OizysCore/display.c:384-400 | where nothing is staged, snapshot and seats agree |
| DeskRest.TwoSettlesRestIff | Sources/OizysCore/display.c:294-400 | for any snapshot, with the heads in it or not: two settles bring the desk to rest, heads healthy and every remembered display back, exactly when no mirror set to be put back has a head in it and the heads are remembered all side by side, or in part where their seats are, or not at all |
| DeskRest.NeverRests | Sources/OizysCore/display.c:384-400 | where they do not agree every settle of every run commits |
| DeskRest.EarlySnapshotAgrees | Sources/OizysCore/display.c:115-129 | a snapshot from before the heads were made agrees with any seats |
| DeskAdopt.AdoptionRestoresNothing | Sources/OizysCore/display.c:465-467 | a desk is in place by its own snapshot |
| DeskAdopt.AdoptingSettleRests | Sources/OizysCore/display.c:453-471 | a settle that adopts the desk only seats the heads and leaves them healthy, and the next one that adopts stages nothing |
| DeskAdopt.AdoptedAgreesIff | Sources/OizysCore/display.c:465-467 | a snapshot taken now agrees with any seats exactly when the heads are healthy now |
| DeskAdopt.ScatteredAdoptionQuarrels | Sources/OizysCore/display.c:453-471 | a settle that adopts heads out of place leaves a snapshot by which the desk can never rest |
| DeskAdopt.ScatteredNeverRests | Sources/OizysCore/display.c:453-471 | two heads with a gap between them, adopted, are an instance |
| DeskWatch.ReadyKept | Sources/OizysCore/display.c:453-499 | callbacks and delayed blocks keep what the settles rely on |
| DeskWatch.EventPutsOff | Sources/OizysCore/display.c:453-499 | each callback or block puts the next settle off or is one, no earlier than due and 0.4 s before the next |
| DeskWatch.CommitsEnd | Sources/OizysCore/display.c:453-499 | once displays stop coming and going and nobody else touches the desk, at most thirteen settles commit, for any snapshot and any order of callbacks and late timers |
| DeskWatch.AgreedCommitsEnd | Sources/OizysCore/display.c:453-499 | and at most two where snapshot and seats agree |
| Debounce.AlwaysOneBlock | Sources/OizysCore/display.c:447-499 | over every order of callbacks and late timers one block is outstanding exactly while armed, and settles are one for each burst that ended |
| Debounce.SettlesOnlyWhenQuiet | Sources/OizysCore/display.c:453-471 | a settle runs only when 0.4 s have passed since the last counted callback |
| Debounce.OneSettlePerBurst | Sources/OizysCore/display.c:447-499 | with timers on time, exactly the settles the list of callbacks calls for, each 0.4 s behind the last of its burst, adopting the desk only five seconds after displays came or went |
| DisplayKeeper.OizysDisplays.TakeSnapshot | Sources/OizysCore/display.c:105-129 | the snapshot remembers every online display with origin, mode and master |
| DisplayKeeper.OizysDisplays.PlanRestore | Sources/OizysCore/display.c:135-186 | the loop stages exactly the operations that put each remembered display back |
| DisplayKeeper.OizysDisplays.HeadInMirrorSet | Sources/OizysCore/display.c:35-47 | a head is in a mirror set when it follows a display or one follows it |
| DisplayKeeper.OizysDisplays.HeadsAreHealthy | Sources/OizysCore/display.c:239-260 | the loop decides gapless, level and unmirrored |
| DisplayKeeper.OizysDisplays.DetachMirrorSet | Sources/OizysCore/display.c:49-62 | the loop stages the release of the head and of each display that follows it |
| DisplayKeeper.OizysDisplays.PlanArrange | Sources/OizysCore/display.c:294-348 | stages nothing for healthy heads, else releases them and seats them in a row that starts in the remembered seat, or ends at the native panel, or stands on the main display |
| DisplayKeeper.OizysDisplays.Settle | Sources/OizysCore/display.c:384-400 | one settle commits restore and seating in one transaction; new seats are remembered only if the server took it, and healthy heads where they are either way |
| DisplayKeeper.OizysDisplays.Reconfigured | Sources/OizysCore/display.c:478-499 | a callback moves the deadline and queues a block only when none is |
| DisplayKeeper.OizysDisplays.SettleNow | Sources/OizysCore/display.c:453-471 | an early block queues itself again; a due one settles the desk and disarms |
| DisplayKeeper.OizysDisplays.StartWatching | Sources/OizysCore/display.c:501-519 | watching starts for one or two heads and counts as a topology change; anything else is refused |
| Profiler.ExecuteAdds | Sources/OizysCore/profile.c:78-105 | a well-nested run of zones restores the stack and adds to each zone its calls, its own time and, as child time, that of other zones directly inside it |
| Profiler.ChildWithinTicks | Sources/OizysCore/profile.c:93-105 | a zone's child time never exceeds its total |
| Profiler.SelfTimesConserve | Sources/OizysCore/profile.c:138-155 | self times never truncate, and add up to the root zones' time plus whatever was spent directly inside its own zone |
| Profiler.AccountedOnceIff | Sources/OizysCore/profile.c:138-155 | every tick is accounted for once exactly when no time passed in a zone opened directly inside itself |
| Profiler.MergedConserves | Sources/OizysCore/profile.c:107-116 | the same over any number of threads |
| Profiler.ThreadStats.constructor | Sources/OizysCore/profile.c:45-57 | a thread starts with empty accumulators and no open zone |
| Profiler.ThreadStats.Push | Sources/OizysCore/profile.c:78-83 | opening a zone returns the time and deepens the stack only within its 32 places |
| Profiler.ThreadStats.Pop | Sources/OizysCore/profile.c:85-91 | closes the innermost zone and records the time |
| Profiler.ThreadStats.Record | Sources/OizysCore/profile.c:93-105 | adds to the zone and to the child time of the zone around it, unless that is the same zone |
| Profiler.Merge | Sources/OizysCore/profile.c:107-116 | the totals are the sums over all threads' accumulators |
| Calibration.FitIsBest | Sources/OizysCore/calibrate.c:29-59 | the fitted line has a smaller sum of squared log-space residuals than every other line, and no other does as well |
| Calibration.DenominatorSpread | Sources/OizysCore/calibrate.c:48-52 | the denominator is never negative, and zero exactly when all points of the fit have one abscissa |
| Calibration.PointsArePatches | Sources/OizysCore/calibrate.c:35-47 | the points of a channel are, in order, the logarithms of what was shown and of what was measured in that channel, of each patch with both between two hundredths and one |
| Calibration.NoSpreadIffOneLevel | Sources/OizysCore/calibrate.c:35-52 | with a logarithm that tells levels apart, it is zero exactly when every usable patch was shown at one level |
| Calibration.LawRecovered | Sources/OizysCore/calibrate.c:29-59 | data on a power law gives that law back exactly, and is then accepted exactly on count, spread and exponent |
| Calibration.PowerLawFitted | Sources/OizysCore/calibrate.c:29-64 | so a channel whose readings follow a power law is fitted with its scale and exponent |
| Calibration.FitChannel | Sources/OizysCore/calibrate.c:35-57 | the running sums over the usable patches give the line, or nothing by the four rejections |
| Calibration.Fit | Sources/OizysCore/calibrate.c:23-64 | a response is valid exactly when the count is right and all three channels fit |
| Calibration.SolutionFollows | Sources/OizysCore/calibrate.c:66-104 | at every level from none to full, the corrected display shows the reference's curve at the dimmer of the two scales, and the clip never bites; so matching only darkens |
| Calibration.CorrectedIsLevel | Sources/OizysCore/calibrate.c:98-112 | whatever the correction, the level sent is between none and full, and none for none |
| Calibration.SolveChannel | Sources/OizysCore/calibrate.c:74-92 | a channel is solved exactly when all four parameters are positive, and its correction follows the reference |
| Calibration.Solve | Sources/OizysCore/calibrate.c:66-96 | all three channels follow the reference, or the call fails |
| Http.PiecesRejoin | Sources/OizysApp/CalibrationSession.swift:217-219 | splitting a head or a request line loses nothing and leaves no separator in a piece |
| Http.RequestLineIff | Sources/OizysApp/CalibrationSession.swift:218-225 | a line reads as a verb and a path exactly when it is GET or POST, a path that begins with a slash and holds no space, and HTTP/1.1 or HTTP/1.0, with one space between them |
| Http.HeaderIff | Sources/OizysApp/CalibrationSession.swift:227-230 | a line reads as a header exactly when it is a name in any letter case, the first colon, and the value among spaces and tabs |
| Http.DeclaredLengthIff | Sources/OizysApp/CalibrationSession.swift:224-239 | header lines are accepted exactly when all are well formed, none is a transfer encoding and at most one, of digits and at most 4096, is a length |
| Http.AcceptedIff | Sources/OizysApp/CalibrationSession.swift:208-245 | a request is accepted, as this verb, path and body, exactly when its first blank line comes within 8192 bytes and head and body are acceptable together |
| Http.ParseRequest | Sources/OizysApp/CalibrationSession.swift:208-245 | the loop over the header lines, with its early refusals, computes the parse that `AcceptedIff` characterises |
| Http.AwaitedIff | Sources/OizysApp/CalibrationSession.swift:208-213 | every proper prefix of an accepted request is incomplete exactly when its head is at most 8189 bytes; between 8190 and 8192 the two limits disagree |
| Http.HandledIff | Sources/OizysApp/CalibrationSession.swift:271-289 | an accepted request is handled the same however it is split into reads, exactly when its head is at most 8189 bytes |
| Http.RefusedWhenCut | Sources/OizysApp/CalibrationSession.swift:271-289 | a longer one is refused when a read ends inside its blank line |
| Http.DecidedAtEnd | Sources/OizysApp/CalibrationSession.swift:271-289 | when the peer stops sending, what came is handled exactly if it is a request, and refused otherwise |
| CaptureSession.NextKeepsInv | Sources/OizysApp/CalibrationSession.swift:291-397 | every request, delivery, stop and timeout keeps the readings exactly those of the patches already due, in order |
| CaptureSession.SolvesWithAllReadings | Sources/OizysApp/CalibrationSession.swift:355-397 | whatever is asked in whatever order, the fit is given one reading for each level of each display, each the one taken when it was due and within range |
| CaptureSession.EntryLeadsToPage | Sources/OizysApp/CalibrationSession.swift:291-301 | the address in the code leads by a 303 to the page, and the page, served with 200, starts with the first patch of the first display |
| CaptureSession.PageAgain | Sources/OizysApp/CalibrationSession.swift:294-301 | asked for again while measuring, the page is served and changes nothing |
| CaptureSession.ServerOnlyMeasuresNothing | Sources/OizysApp/CalibrationSession.swift:294-312 | a server that is only tried out shows its page and takes no readings |
| CaptureSession.PostIff | Sources/OizysApp/CalibrationSession.swift:347-384 | a reading is taken, and answered with 200, exactly when it is the one that is due with each channel from none to full; any other gets 400 and changes nothing |
| CaptureSession.SittingCompletes | Sources/OizysApp/CalibrationSession.swift:355-384 | the readings of all patches of all displays posted in turn are all taken and end the measuring |
| CaptureSession.GivenIff | Sources/OizysApp/CalibrationSession.swift:386-396 | the readings go to the fit exactly when the last has come and its reply was delivered; an undelivered one fails the sitting |
| CaptureSession.EndedAnswersNothing | Sources/OizysApp/CalibrationSession.swift:181-190 | stopped, timed out or concluded, a sitting answers every request with 404 |
| CaptureSession.RepeatRefused | Sources/OizysApp/CalibrationSession.swift:347-353 | a reading posted twice is taken once |
| CaptureSession.EntryWorksOnce | Sources/OizysApp/CalibrationSession.swift:291-294 | the address in the code redirects at most once in any run |
| CaptureSession.ClosedAnswersNothing | Sources/OizysApp/CalibrationSession.swift:181-190 | after shutdown every request gets 404 and changes nothing |
| CaptureSession.CalibrationSession.Handle | Sources/OizysApp/CalibrationSession.swift:291-313 | each request is routed, answered and recorded as the session's rules say |
| CaptureSession.CalibrationSession.Ingest | Sources/OizysApp/CalibrationSession.swift:355-397 | the due reading is stored and the sitting moves to the next patch, display or to solving; any other is refused |
| CaptureSession.CalibrationSession.Delivered | Sources/OizysApp/CalibrationSession.swift:386-396 | the readings go to the fit once the last reply was delivered, and the server closes either way |
| Settings.FinishSetKeepsFaithful | Sources/OizysApp/OizysModel.swift:247-266 | a returned `config set`, failed or not, leaves each setting that no reset dropped showing its draft or else its saved value |
| Settings.FinishSetShows | Sources/OizysApp/OizysModel.swift:253-264 | a returned `config set` of a drafted key saves its value if it went well, and if it was of the draft's value ends the draft and shows the saved value, new or old |
| Settings.AcceptKeepsFaithful | Sources/OizysApp/OizysModel.swift:410-429 | a good listing leaves every setting so, dropped or not, and a failed one leaves them as they were |
| Settings.NextKeepsInv | Sources/OizysApp/OizysModel.swift:247-312 | every edit, submission, reset, refresh, command and answer keeps that, keeps each submitted draft under way, and keeps listings with no write behind them current |
| Settings.AlwaysFaithful | Sources/OizysApp/OizysModel.swift:247-312 | in every order of events each loaded setting shows its draft or else its saved value, except one whose draft a reset dropped and that no listing or edit has shown since |
| Settings.SettledShowsFile | Sources/OizysApp/OizysModel.swift:247-274 | once all commands are answered, resets among them or not, a listing came last, no draft is left that was submitted, and after a good listing the panel shows the file wherever no edit is unsubmitted |
| Settings.DraftIsLastEdit | Sources/OizysApp/OizysModel.swift:253-268 | over any run a key's draft is its last edit, until a `config set` of that very value has come back or a reset has gone well |
| Settings.FileIsLastSaved | Sources/OizysApp/OizysModel.swift:247-274 | over any run the file holds for each key what the last `config set` of it saved, or its default if a reset saved since |
| Settings.InOrder | Sources/OizysApp/OizysModel.swift:247-274 | commands run in the order submitted and report in the order they ran, and every write is followed by a listing |
| Settings.ResetFaithfulIff | Sources/OizysApp/OizysModel.swift:267-270 | right after a reset what is shown is right exactly when no loaded draft differed from its saved value |
| Settings.OizysModel.FirstIndex | Sources/OizysApp/OizysModel.swift:431-434 | finds the first setting with a key |
| Settings.OizysModel.EditSetting | Sources/OizysApp/OizysModel.swift:431-434 | an edit drafts the value and shows it |
| Settings.OizysModel.SetCompleted | Sources/OizysApp/OizysModel.swift:253-266 | a completion confirms, drops the matching draft and shows what is left |
| Settings.OizysModel.AcceptSettings | Sources/OizysApp/OizysModel.swift:410-429 | a listing replaces the saved values and shows drafts over them |
| SidecarLadder.NextKeepsInv | Sources/OizysApp/SidecarAuto.swift:110-231 | every trigger, timer and answer keeps one connect at most, none beside a running timer, with the count behind the rung |
| SidecarLadder.NeverPushes | Sources/OizysApp/SidecarAuto.swift:110-231 | in every order of events, while the switch is not turned off under a connect: one connect at a time, none beside an armed timer, at most six between two triggers |
| SidecarLadder.AsksIff | Sources/OizysApp/SidecarAuto.swift:118-181 | a decision asks for one connect exactly when switched on, with the iPad in reach, unconnected and not just taken away, the screen unlocked, the desk right if that matters, no connect out, and for an iPad in reach before no timer running and no stand-down on |
| SidecarLadder.NoneWhileForbidden | Sources/OizysApp/SidecarAuto.swift:118-181 | over any run, as long as the screen is locked, the desk is the wrong one, the iPad is away or connected, or the switch is off, no connect goes out |
| SidecarLadder.RefusedAgain | Sources/OizysApp/SidecarAuto.swift:209-225 | a refusal is followed by another attempt after 5, 10, 20, 40 and 60 seconds, and then by half an hour without any |
| SidecarLadder.OffAndOnIff | Sources/OizysApp/SidecarAuto.swift:118-129 | off and on again leaves at most one connect outstanding exactly when none was waiting |
| SidecarLadder.RefusalsStandDown | Sources/OizysApp/SidecarAuto.swift:209-225 | refusals use up exactly the rungs left, at least the ladder's seconds apart, and end in half an hour of standing down |
| SidecarLadder.StandDownKeptIff | Sources/OizysApp/SidecarAuto.swift:118-180 | a stand-down outlives an event exactly when the switch is on and the iPad, if the framework can tell, is in reach and unconnected; and then nothing is asked |
| SidecarLadder.StandDownHoldsIff | Sources/OizysApp/SidecarAuto.swift:118-180 | it is kept throughout a run before its end exactly when that holds of every event |
| SidecarLadder.HandDisconnectRespected | Sources/OizysApp/SidecarAuto.swift:154-163 | a display taken away by hand is left alone for five minutes |
| SidecarLadder.DisconnectAfterConnectRespected | Sources/OizysApp/SidecarAuto.swift:187-202 | so is one that the watcher itself connected |
| SidecarLadder.StaleRefusalArmsNothing | Sources/OizysApp/SidecarAuto.swift:187-202 | a refusal that comes after another trigger arms no timer and starts no stand-down of half an hour |
| SidecarLadder.OffHeedsNothing | Sources/OizysApp/SidecarAuto.swift:118-129 | switched off, the watcher forgets all it knew and heeds no answer to a connect still out |
| SidecarLadder.HandsShortenStandDown | Sources/OizysApp/SidecarAuto.swift:149-163 | connecting and disconnecting by hand cuts a half hour's stand-down to five minutes |
| SidecarLadder.SidecarAuto.Evaluate | Sources/OizysApp/SidecarAuto.swift:118-181 | a decision in place is the specification's: switched off it forgets everything; otherwise it asks for a connect only when free, unarmed, unlocked, at a desk and not standing down |
| SidecarLadder.SidecarAuto.Connect | Sources/OizysApp/SidecarAuto.swift:183-207 | a connect that is not taken arms the retry at once |
| SidecarLadder.SidecarAuto.Answered | Sources/OizysApp/SidecarAuto.swift:187-202 | an answer from before the last trigger only frees the watcher to decide again |
| SidecarLadder.SidecarAuto.ArmRetry | Sources/OizysApp/SidecarAuto.swift:209-225 | a refusal arms the timer for the next rung, and after the last one starts the stand-down with the ladder back at its foot |
| SidecarLadder.SidecarAuto.RetryFires | Sources/OizysApp/SidecarAuto.swift:220-224 | a fired timer is no longer armed when the watcher decides again, so the attempt count survives but the timer does not block it |
| HeadList.HeadListIff | Sources/OizysCore/config.c:193-218 | a list of heads is accepted exactly when it is names in any letter case among commas and spaces, at least one, and means the heads they name |
| HeadList.ReadHeadList | Sources/OizysCore/config.c:193-218 | the cursor loops compute the reading that `HeadListIff` characterises |
| Config.MeaningInRange | Sources/OizysCore/config.c:236-314 | whatever text parses, the value stored is in the field's declared range |
| Config.ClampedTo | Sources/OizysCore/config.c:236-251 | a number outside its range becomes the nearer end, and one inside stays |
| Config.NumberMeans | Sources/OizysCore/config.c:258-266 | so a whole-number field means the number without its fraction, or that end |
| Config.SwitchIff | Sources/OizysCore/config.c:175-191 | on is 1, true, yes or on, off is 0, false, no or off, in any letter case, and nothing else is either |
| Config.HeadRefIff | Sources/OizysCore/config.c:220-234 | the native panel's head is none, null or nothing, left or 0, right or 1, and nothing else |
| Config.LevelIff | Sources/OizysCore/config.c:300-309 | a log level is one of four words in any letter case, kept in lower case |
| Config.NameMeans | Sources/OizysCore/config.c:297-299 | a name is kept as far as its buffer holds it, one byte less than its size |
| Config.DefaultParses | Sources/OizysCore/config.c:348-355 | every built-in default parses |
| Config.LoadedInRanges | Sources/OizysCore/config.c:395-411 | every configuration loaded from any file, for any sound table and so for the driver's, has every field in its declared range |
| Config.RenderReadsBack | Sources/OizysCore/config.c:316-346 | every printed value but a double reads back as itself and fits the 64-byte buffer |
| Config.SetByEntry | Sources/OizysCore/config.c:381-386 | a field has the meaning of its own entry, wherever in the file it stands |
| Config.LeftAlone | Sources/OizysCore/config.c:381-386 | a field no entry sets, or only with text that will not parse, keeps its value |
| Config.OrderIrrelevant | Sources/OizysPlatform/ConfigStore.swift:15-20 | a file gives the same configuration in whatever order its keys are read |
| Utf8.Utf8Untouched | Sources/OizysPlatform/ConfigStore.swift:28-29 | a text that is UTF-8 is stored as it is |
| Utf8.Utf8Iff | Sources/OizysPlatform/ConfigStore.swift:28-29 | a text is UTF-8 exactly when it is the encodings of some Unicode scalar values, as section 3 of RFC 3629 has them, one after another |
| Utf8.BrokenIsMaximal | Sources/OizysPlatform/ConfigStore.swift:28-29 | a broken piece that the store replaces is as long as can be: it begins some encoding, or is one byte that begins none, and one byte longer it would not |
| Utf8.RepairedFirst | Sources/OizysPlatform/ConfigStore.swift:28-29 | characters are kept and each such piece becomes U+FFFD |
| Utf8.SurvivesIff | Sources/OizysPlatform/ConfigStore.swift:28-29 | a text repaired by the store and cut to its buffer again is the same exactly when it is UTF-8, or fills the buffer and breaks off in the bytes a replacement character begins with |
| Utf8.EndsReplacedIs | Sources/OizysPlatform/ConfigStore.swift:28-29 | the second case is UTF-8 followed by the bytes EF or EF BF |
| Utf8.EndsReplacedFrom | Sources/OizysPlatform/ConfigStore.swift:28-29 | and every such text is one |
| Config.StoredReadsBack | Sources/OizysCore/config.c:566-574 | the stored text of every field but a double reads back as the value set, or as the repaired name |
| Config.CutNameIsMended | Sources/OizysCore/config.c:297-299 | a name of 62 letters and an accented one comes back changed |
| Config.SetTakesEffect | Sources/OizysCore/config.c:559-576 | what `config set` accepted is what the next load has as the store keeps it, and no other field changes; it is the very value set exactly when that is no name, or a name whose bytes survive the store's repair of cut characters |
| Config.SetIsSeenIff | Sources/OizysCore/config.c:395-411 | a key that was set reads back with the very value set exactly when the build pins it to that, or does not pin it and the value survives the store |
| Config.PinnedIs | Sources/OizysCore/config.c:395-411 | a production build shows the level error and no dumping of frames, a verbose one the level debug, and all else as loaded |
| Config.OizysConfig.Apply | Sources/OizysCore/config.c:254-314 | 0 and one field changed when the text parses, -2 and nothing changed when it does not |
| Config.OizysConfig.Find | Sources/OizysCore/config.c:162-169 | the table loop finds a key's first field, or says there is none |
| Config.OizysConfig.LoadDefaults | Sources/OizysCore/config.c:348-355 | in place, every default parses and leaves every field in its declared range |
| Config.OizysConfig.ReadValue | Sources/OizysCore/config.c:381-386 | an unknown key or unparsable text is ignored |

## Left out

- The strip fingerprint is the strip's content itself; that a 64-bit checksum tells strips apart is not modelled.
- The strip codec (`wht.c`): an encoded strip is the content and the settings it was made with.
- The AES block function, HMAC and RSA are parameters or absent; no claim is made about security.
- USB transfers, pacing and the dock's firmware: a presentation reaches the buffer its trailer names, or fails and reaches none. In `Delivery` a head after a failed transfer is arbitrary; `Abandoned` says what it is.
- The pace of the refresh clock: in `Delivery` it may tick at any time between two consume blocks when no frame waits.
- ControlChannel.OizysControl.SendInner: whether the write goes through is a parameter, and memory does not run out.
- `Scanout` is on values: the driver keeps these fields in one large structure among its USB state. Aliasing inside it is not modelled.
- The number of dock buffers is fixed during a run, and `Delivery` and `Staleness` assume the frame number does not wrap in the middle of a rotation of three. `Staleness` speaks of a head whose changed settings, if any, have reached it with a frame.
- Frames skipped by the presenter for their pixel format or a missing base address; the row stride; overflow of 32-bit coordinates.
- `CaptureOutput` takes each locked section as one step, with the block dispatched at its end.
- `DeskSettle`, `DeskRest`, `DeskWatch` and `DisplayKeeper` take the window server to apply a committed transaction exactly, and a head's mode to be as wide as the head; the stand-alone `restore` and `arrange` entry points, DDC and mode lists are absent.
- Zones more than 32 deep, turning the profiler on or off inside a zone, resetting it, and overflow of the 64-bit ticks.
- Calibration.FitChannel: over the reals with the logarithm given as a function, so floating-point rounding, infinities and not-a-number are not modelled.
- Calibration.SolutionFollows: with exponentiation given by its laws over the reals, and before a level is rounded to one of 256.
- Stored corrections, the readings file and the choice of the reference display in `calibrate.c`.
- Http.ParseRequest: whether the head decodes as UTF-8 is a parameter, and each byte is its own character, so a separator followed by a combining mark, which Swift joins into one character, still separates; only space and tab are trimmed.
- Connection limits, time-outs of single connections, TLS, the page, and the panels that show the patches.
- Display sleep, ports, messages and the login item in `OizysModel`; a listing has each key once, as the driver prints it; no one else writes the file.
- SidecarLadder.NeverPushes: assumes the switch is not turned off under an unanswered connect; `OffAndOnIff` shows that this is needed.
- How the iPad is found by name, the desk gate's own questions, and the status line.
- Config.Fields: beyond being well formed, what the table holds (keys, defaults and ranges) is data; nothing is claimed about it.
- Config.RenderReadsBack: not for a double, which `%g` rounds.
- Config.SetTakesEffect: takes it that a stored JSON number reads back as the text it was written from and that a Swift string replaces each maximal piece of a broken character by one U+FFFD, and leaves out writes that fail and keys the table does not have.
- `strtod` is a parameter that reads decimal digits as their number; a character of a text stands for one byte, and texts end at their last character, so one with a NUL inside is not modelled.
- Reloading when the file changes, and the accessors that scale percentages.
- Enumerations to text, tables of port and display names, the user interface, packaging and the test programs: single facts that read off one body.
