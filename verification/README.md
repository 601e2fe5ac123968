# VamOS storage and update model

A Dafny model of the parts of VamOS that must never lose a device: the redundant A/B boot-control record and
the over-the-air update around it, the raw-disk editor that sets the one-shot normal request, the U-Boot
recipe that rewrites NOR flash, the factory flasher that must spare the identity region, the bounce-buffer
driver for SCM storage, and the clock service. `dafny verify dfyconfig.toml` checks everything.

## How to read it

Code that computes values is modelled by functions. Code that works step by step is modelled by methods with
loops, and by classes for objects that change (`Updater.Device`, `EdlDisk.Disk`, `EdlNormal.FatBootControl`,
`ScmStorage.Storage`, `Clock.Service`, `FactoryFlash.Flash`). Such a method is proved equal to a function, or
its contract gives the new state outright, and the theorems are about that function or state. A raised
exception is `Err`; its message is not modelled. Where a check decides what may be written, a lemma whose name ends
in `Exactly`, `Gate` or `Stored` says on bytes and fields, without naming the check, what it accepts.

| module | models |
|---|---|
| `Common`, `Bytes` | outcomes, slots, little-endian fields, splicing, rounding to sectors |
| `BootControl`, `BootControlCodec`, `BootControlText` | the 1024-byte GRUB environment block, its codec, and the grammar of the blocks that are accepted |
| `RedundantStore` | two copies of the record, selection, the six writers, crash atomicity, one trial per arming |
| `WriterOutcomes` | what each writer stores, field by field |
| `EspFiles` | the boot files of one ESP, the selector migration |
| `UpdaterDisk`, `UpdaterSteps` | what survives power loss; install, activate, trial boot, reconcile and commit as functions of the machine, with the power failing before any durable write |
| `UpdaterSafety`, `UpdaterProgress` | what every run keeps; when the steps succeed, and what happens outside the assumptions |
| `Updater` | the same operations as they run, changing a device step by step |
| `Watchdog` | the interleaving of the watchdog process, `commit` and the hardware timer |
| `EdlDisk`, `FatVolume`, `EdlNormal` | sectors and GPT, FAT16/FAT32 walk, `request_normal` over a whole disk |
| `FatFormat`, `FatFiles`, `FatWalk`, `GptFormat` | volumes, files and partition tables as a formatter writes them, and that the editor accepts exactly these |
| `UbootRecipe`, `UbootPrepare`, `UbootGates` | recipe validation, the NOR table, `prepare`, and what a NOR must show before anything is built |
| `FactoryManifest`, `FactoryChunks`, `FactoryFlash`, `FactoryRuns`, `FactoryGates` | manifest checks, chunk cache and pairing, flashing, identity, and when a region may be erased |
| `ScmStorage` | the read and write loops over the bounce buffer |
| `Clock` | restore, checkpoint and synchronize |

## What is assumed of the environment

- The boot selector is a step of the model (`UpdaterSteps.Machine.PoweredOn`), after README.md:307-319 and the branch
  structure that the update code relies on: an armed record is marked attempted on at least one copy, at its
  generation or one above, before the pending slot starts; a selector that can mark no copy starts the active
  slot. It may also consume requests and update diagnostics, one generation up, on any subset of the copies.
- Replacing one grubenv file is atomic, and so is saving `state.json`.
- The ESP of the running slot takes a record write unless the power fails; the other slot's ESP may refuse any
  write. `UpdaterProgress.RefusedCancelRearms` shows what happens otherwise.
- A copy that cannot be read stays unreadable until it is rewritten. The record inside an ESP image is older
  than the record of the device.
- `install` starts only while the running slot is the selected active one. The code does not check this;
  `UpdaterProgress.InstallDuringTrialCommits` shows why it matters.
- In the SCM driver a failed command changes nothing on the device. In the factory flash a failed operation may
  leave anything inside its own range.
- The chunk files keep their prepared sizes until they are flashed: the overlap checks look at the size of the
  operation, while the write takes the size of the file (`FactoryRuns.Sized`, which pairing provides).
- SHA-256, CRC-32, XZ, LZMA, UTF-16 decoding, signatures and downloads are parameters, and no property of them
  is used except that each is a function.

## What turned out not to hold in general

- `install` cancels a previous trial with a write that counts as done when either copy takes it. If only the
  copy on the target ESP took it, writing the ESP image over that copy selects the armed record again
  (`UpdaterProgress.RefusedCancelRearms`). It is safe if and only if the running slot took the write, or its own copy
  already was a stable record for that slot (`UpdaterProgress.CancelNeedsOwnCopy`).
- A trial can be left uncommitted with the watchdog timer off, so that only a reboot ends it, in two ways. `commit`
  gives up when the watchdog does not disarm within five seconds, and removes the healthy marker so that the timer
  can reset the trial; a watchdog that has read the marker by then disarms all the same
  (`Watchdog.StrandedIsReachable`). And when the commit record cannot be stored, the rollback raises as well
  (`UpdaterSafety.SettlingFailsAlike`), so the reboot behind it is never reached (`Watchdog.AbandonedIsReachable`,
  `UpdaterSafety.ConfirmedSound`). However a commit ends without effect, this can follow if and only if the watchdog
  was already past the marker or the timer off (`Watchdog.EndedCommitStrands`).
- The selector migration keeps what the board starts if and only if the primary loader is a selector with its
  kernel beside it, or a kernel with no other kernel beside it (`EspFiles.MigrationKeepsStart`). On an ESP whose
  kernel file differs from a primary loader that is itself a kernel, the migration switches kernels
  (`EspFiles.MigrationSwitchesKernels`); an ESP without a primary loader starts nothing before and the kernel after.

## Model

| member | source | states |
|---|---|---|
| BootControlCodec.RoundTrip | userspace/root/usr/lib/vamos/update.py:593-620 | encoding succeeds exactly on the records that satisfy every check and fit 1024 bytes, and decoding gives the record back |
| BootControlCodec.LegacyNul | userspace/root/usr/lib/vamos/update.py:622-636 | one NUL between the lines and the padding decodes to the same record as the canonical block |
| BootControlCodec.DecodedValid | userspace/root/usr/lib/vamos/update.py:622-680 | whatever block decodes, the result satisfies every check that encoding makes |
| BootControlCodec.Rewrite | userspace/root/usr/lib/vamos/update.py:593-680 | re-encoding the result of any block succeeds exactly when it fits, and decodes to the same known fields |
| BootControlCodec.DecodeBlock | userspace/root/usr/lib/vamos/update.py:622-680 | the line loop, which stops at the first refused line, computes the decoder |
| BootControlCodec.OrdinaryFits | userspace/root/usr/lib/vamos/update.py:593-620 | a valid record with 64-bit numbers and roots no longer than a PARTUUID reference always fits, so its encoding never fails |
| BootControlCodec.EncodedAscii | userspace/root/usr/lib/vamos/update.py:593-620 | an encoded block is 1024 ASCII characters, so it is the same as text and as bytes |
| BootControlText.EncodedIs | userspace/root/usr/lib/vamos/update.py:593-612 | an encoded block is the two header lines, fifteen `key=value` lines in their order with the text of each field, and `#` up to 1024 bytes |
| BootControlText.TextOf | userspace/root/usr/lib/vamos/update.py:596-606 | each line is its key, `=`, its value and a line feed |
| BootControlText.LineBreaks | userspace/root/usr/lib/vamos/update.py:632 | a line ends at LF, CR or CR LF, and the last one may be unfinished |
| BootControlText.KeyValue | userspace/root/usr/lib/vamos/update.py:634 | the key is what lies before the first `=`, the value all that follows |
| BootControlText.ParsesExactly | userspace/root/usr/lib/vamos/update.py:631-639 | lines are accepted exactly when each is ASCII with a `=` and no key repeats; the values are the texts behind the first `=` |
| BootControlText.IntExactly | userspace/root/usr/lib/vamos/update.py:640-669 | a number is exactly digits with single underscores between them, behind an optional sign, in any white space, and it has the value that the text denotes |
| BootControlText.RecordExactly | userspace/root/usr/lib/vamos/update.py:640-680 | values give the record `c` if and only if every present key says its field and every absent one has its default (requests `0`, USB `ncm`, counts `0`, stages `unknown`, slots `-`), counts are below 2^64, both roots are well-formed, and a trial is of the other slot |
| BootControlText.DecodesExactly | userspace/root/usr/lib/vamos/update.py:622-680 | a block decodes to `c` if and only if it is header, text, at most one NUL and padding, and the lines of the text say `c` |
| RedundantStore.NextIsAhead | userspace/root/usr/lib/vamos/update.py:751-903 | the record any of the six writers stores has one generation more than the selected one and more than either readable copy |
| RedundantStore.CrashAtomic | userspace/root/usr/lib/vamos/update.py:722-903 | for all six writers, after any number of per-copy writes and whichever copies accept, selection gives exactly the old or exactly the new record, the new one once a copy took it; reported success means the new one |
| RedundantStore.BlockHoldsRecord | userspace/root/usr/lib/vamos/update.py:709-720 | reading a copy back gives the record that was written |
| RedundantStore.OneTrial | userspace/root/usr/lib/vamos/update.py:722-833 | once one copy that stays readable is attempted at the armed generation or above, no sequence of EDL, USB, stage and normal requests, power cuts and losses of the other copy selects an armed record again |
| RedundantStore.SpentStays | userspace/root/usr/lib/vamos/update.py:777-833 | one such event keeps the armed generation at or below the generation of the copy that is no longer armed |
| RedundantStore.KeepsPhase | userspace/root/usr/lib/vamos/bootdiag.py:19-35 | the four request writers keep the phase of the selected record |
| RedundantStore.MarkSpends | userspace/root/usr/lib/vamos/update.py:127 | marking one copy attempted at the armed generation is enough, because the phase rank breaks the tie |
| WriterOutcomes.SelectedIsNewest | userspace/root/usr/lib/vamos/update.py:722-728 | the higher generation is selected; at equal generations stable before attempted before armed, then copy a |
| WriterOutcomes.EdlStored | userspace/root/usr/lib/vamos/update.py:777-803 | success selects the old record with generation + 1, EDL request set and normal request cleared; a cut write selects that or the old one; without a readable copy it raises and writes nothing |
| WriterOutcomes.UsbStored | userspace/root/usr/lib/vamos/update.py:806-833 | the same with the USB mode alone changed and both requests kept |
| WriterOutcomes.StageStored | userspace/root/usr/lib/vamos/bootdiag.py:19-35 | the same with the stage of this boot alone changed; another boot, slot or stage name raises, a stage that is already there writes nothing |
| WriterOutcomes.ControlStored | userspace/root/usr/lib/vamos/update.py:751-775 | active slot, pending slot, phase and roots as given, both requests cleared, USB mode and diagnostics kept; a trial of any but the other slot raises |
| WriterOutcomes.SettlesAndArms | userspace/root/usr/lib/vamos/update.py:906-917 | commit and rollback store a stable record for their slot; arming stores an armed one for the other slot, with the running one active |
| WriterOutcomes.SelectorStored | userspace/root/usr/lib/vamos/update.py:879-903 | the copy on the target is a stable record for the running slot with requests, USB mode and diagnostics kept |
| WriterOutcomes.NormalStored | tools/flash/edl_normal.py:291-304 | both copies become the newer record with generation + 1, the normal request set and the EDL request cleared, exactly when both can be read, the generation has room and the record can be stored |
| WriterOutcomes.FirstCopy | userspace/root/usr/lib/vamos/update.py:739-775 | a session that ends after one write has touched copy b for a stage and copy a for every other writer |
| WriterOutcomes.OnlyBootable | userspace/root/usr/lib/vamos/update.py:739-748 | a copy without loader or kernel beside it is never written |
| EspFiles.MigrationIsCrashSafe | userspace/root/usr/lib/vamos/update.py:836-876 | from a legacy, half-migrated or migrated ESP, however many migrations are interrupted wherever, every loader still starts the same kernel |
| EspFiles.MigrationCompletes | userspace/root/usr/lib/vamos/update.py:836-876 | a completed migration after any interrupted ones leaves the selector as both loaders, the kernel unchanged, and an ESP that passes verification |
| EspFiles.MigrationKeepsStart | userspace/root/usr/lib/vamos/update.py:836-876 | on any ESP, a completed migration keeps what the board starts if and only if the primary loader is a selector with a kernel, or a kernel alone or equal to the kernel file |
| EspFiles.MigrationSwitchesKernels | userspace/root/usr/lib/vamos/update.py:836-876 | a concrete ESP with two kernels, on which a completed migration makes the board start the other one |
| EspFiles.LoadableExactly | userspace/root/usr/lib/vamos/update.py:580-590 | an EFI image is one with MZ at 0, an offset at 60, PE and the machine number aa64 there, all within 4096 bytes |
| EspFiles.MigrationNeedsLoadable | userspace/root/usr/lib/vamos/update.py:836-876 | the record is replaced only behind a loadable kernel, the recovery loader behind a loadable EDL application too, the primary one behind a loadable selector too |
| EspFiles.MigrationOrder | userspace/root/usr/lib/vamos/update.py:836-876 | at any cut each file has its old or its new content, and is new only when record, EDL application, recovery and primary loader are new in this order |
| UpdaterDisk.RecordKeepsSafe | userspace/root/usr/lib/vamos/update.py:722-775 | a record that settles on an intact slot, or keeps or spends the trial, keeps the disk safe |
| UpdaterDisk.ArmKeepsSafe | userspace/root/usr/lib/vamos/update.py:906-994 | arming a slot that has just passed its checks keeps the disk safe |
| UpdaterSafety.RecordedCases | userspace/root/usr/lib/vamos/update.py:739-833 | wherever a write of the record is cut, only the two records differ, the selection is the old record or the new one, and success means the new one |
| UpdaterSafety.SettledSafe | userspace/root/usr/lib/vamos/update.py:910-917 | a stable record for an intact slot: safe at every cut, and with power left it fails only when the record cannot be encoded |
| UpdaterSafety.RequestedSound | userspace/root/usr/lib/vamos/update.py:777-833 | an EDL, USB or stage write cut anywhere keeps active slot, phase, pending slot and everything but the records |
| UpdaterSafety.StreamedHome | userspace/root/usr/lib/vamos/update.py:456-495 | only the target root file system changes; success means size, stream hash and read-back agree and the partition starts with the stream |
| UpdaterSafety.ShownHome | userspace/root/usr/lib/vamos/update.py:456-495 | while the target ESP shows arbitrary older records the selection stays on the running slot's copy; success means size, stream hash and read-back agree |
| UpdaterSafety.SelectorPreparedHome | userspace/root/usr/lib/vamos/update.py:879-903 | both copies end with the same stable record, both kernels are untouched, and the machine is sound at every cut |
| UpdaterSafety.StagedHome | userspace/root/usr/lib/vamos/update.py:1022-1058 | success means that the target holds the delivered system stream and the files of the delivered ESP, both contents valid, and state.json says verified |
| UpdaterSafety.ArmedSound | userspace/root/usr/lib/vamos/update.py:906-907 | arming is sound at every cut and the running slot stays active |
| UpdaterSafety.ActivatedSound | userspace/root/usr/lib/vamos/update.py:943-994 | only a target that passes its checks again is armed; a failure with power left keeps a stable selection stable |
| UpdaterSafety.VettedExactly | userspace/root/usr/lib/vamos/update.py:1079-1100 | the checks before arming pass exactly when the system has the recorded size and hash as it is on the target, the ESP has its hash unless customized, the system contents are good, and loader, recovery, kernel and EDL images can be loaded with equal loaders, a record, device tree and firmware |
| UpdaterSafety.ArmingGate | userspace/root/usr/lib/vamos/update.py:943-994 | a trial is armed only when all of that holds on the target as it is now; with any of it missing, a changed byte of the hashed system among others, the call fails and neither record is written |
| UpdaterSafety.GivenUpSound | userspace/root/usr/lib/vamos/update.py:943-994 | giving up settles on the running slot where a record can be stored, and leaves the state failed |
| UpdaterSafety.SelectorNeedsLoadable | userspace/root/usr/lib/vamos/update.py:879-903 | without loadable selector, kernel and EDL application on the target nothing is migrated or written |
| UpdaterSafety.InstalledSound | userspace/root/usr/lib/vamos/update.py:997-1076 | the running slot keeps kernel and root file system and stays active; success means a target with the delivered images, verified or armed; a failure with power left means a stable selection |
| UpdaterSafety.ReconciledSound | userspace/root/usr/lib/vamos/boot.py:139-160 | a started trial is noted, or the running slot settles after one that did not commit; otherwise nothing changes |
| UpdaterSafety.ConfirmedSound | userspace/root/usr/lib/vamos/boot.py:207-224 | the end of a commit is sound at every cut; when its record cannot be stored nothing is written and no reboot follows |
| UpdaterSafety.SettlingFailsAlike | userspace/root/usr/lib/vamos/boot.py:207-212 | whenever the commit record cannot be stored, neither can its rollback |
| UpdaterSafety.CommittedSound | userspace/root/usr/lib/vamos/boot.py:163-224 | the active slot changes only for a booting trial that passed its checks and saw the watchdog disarmed |
| WriterOutcomes.CommitRecordsHealth | userspace/root/usr/lib/vamos/boot.py:163-224 | after a successful commit the selected record has the healthy stage of this boot and slot |
| UpdaterSafety.PoweredOnSound | README.md:307-319 | the slot that starts is intact; a trial starts exactly when the record is armed and a copy took the mark, and is counted |
| UpdaterSafety.EdlRequestedSound | tools/flash/edl_normal.py:291-304 | the normal request written over USB, cut anywhere, keeps the machine sound and its trial state |
| UpdaterSafety.StepSound | userspace/root/usr/lib/vamos/update.py:943-1076 | every event keeps the machine sound, the active slot and what it runs |
| UpdaterSafety.EveryRun | userspace/root/usr/lib/vamos/update.py:943-1076 | at every event of every run of `Steps`, with the power failing anywhere: the active slot holds an untouched kernel and root file system, whenever the selected record is not stable the pending slot, as it is now, has the recorded system hash and everything else `ArmingGate` asks for, every started slot is intact, trials never outnumber armings, and only a supervised commit changes the active slot |
| UpdaterProgress.InstalledSucceeds | userspace/root/usr/lib/vamos/update.py:997-1076 | whole images that match their manifest, power for every write and room for the generations: the install succeeds, and with activation the trial is armed |
| UpdaterProgress.ActivatedSucceeds | userspace/root/usr/lib/vamos/update.py:943-994 | a staged target that passes its checks is armed with four writes |
| UpdaterProgress.CommittedSucceeds | userspace/root/usr/lib/vamos/boot.py:163-224 | a started trial that passes its checks with the watchdog disarmed is committed |
| UpdaterProgress.CancelNeedsOwnCopy | userspace/root/usr/lib/vamos/update.py:1005-1007 | once an older image overwrites the target ESP, the cancelling write survives if and only if the running slot took it, or its own copy and the image settle on that slot anyway |
| UpdaterProgress.RefusedCancelRearms | userspace/root/usr/lib/vamos/update.py:1005-1007 | a concrete armed record that comes back although the cancelling write counted as success |
| UpdaterProgress.InstallDuringTrialCommits | userspace/root/usr/lib/vamos/update.py:1003-1007 | an install started on an uncommitted trial makes the trial slot active with its first record |
| Updater.Device.SetBootControl | userspace/root/usr/lib/vamos/update.py:751-775 | refuses an inconsistent trial and an oversized record before any write; otherwise writes both copies, a first, as the step says |
| Updater.Device.RequestEdl | userspace/root/usr/lib/vamos/update.py:777-803 | sets the EDL request over the selected record on both copies, or fails with nothing written |
| Updater.Device.SetUsbMode | userspace/root/usr/lib/vamos/update.py:806-833 | sets the USB mode over the selected record on both copies, or fails with nothing written |
| Updater.Device.RecordStage | userspace/root/usr/lib/vamos/bootdiag.py:19-35 | writes the stage for the matching boot only, b first, and writes nothing when the stage is already there |
| Updater.Device.WriteSystem | userspace/root/usr/lib/vamos/update.py:456-495 | the chunk loop does what the step over the whole stream says, cut by any power budget |
| Updater.Device.WriteEsp | userspace/root/usr/lib/vamos/update.py:456-495 | the same for the ESP image, whose chunks show one file system after another |
| Updater.Device.WriteFiles | userspace/root/usr/lib/vamos/update.py:850-875 | cut by any power budget, the ESP holds exactly that prefix of the five migration writes |
| Updater.Device.PrepareDiskSelector | userspace/root/usr/lib/vamos/update.py:879-903 | checks the target's files, migrates the running slot, then writes the record to the target |
| Updater.Device.ActivateStaged | userspace/root/usr/lib/vamos/update.py:943-994 | checks, arms, and gives up on a record that cannot be stored, exactly as the step says |
| Updater.Device.StageImages | userspace/root/usr/lib/vamos/update.py:1022-1058 | both images, the selector, the content checks and the state, in this order |
| Updater.Device.Install | userspace/root/usr/lib/vamos/update.py:997-1076 | cancels, stages, and activates or gives up, exactly as the step says |
| Updater.Device.Reconcile | userspace/root/usr/lib/vamos/boot.py:139-160 | does what the step says |
| Updater.Device.Commit | userspace/root/usr/lib/vamos/boot.py:163-224 | does what the step says; the reboot of a failed commit comes only behind a rollback that returned |
| Updater.Device.PowerOn | README.md:307-319 | the selector consumes, marks and starts as the step says |
| Updater.Device.Run | userspace/root/usr/lib/vamos/update.py:943-1076 | a device fed any events goes through exactly the states of `Steps`, of which the whole-run theorem speaks |
| Watchdog.EveryRun | userspace/root/usr/lib/vamos/boot.py:91-224 | in every interleaving the timer is off only after the health diagnosis returned in that boot, and boot control becomes stable only in a commit step that saw the disarmed marker |
| Watchdog.DeadlineIsFinal | userspace/root/usr/lib/vamos/boot.py:118-125 | once the watchdog is past the health deadline when it is about to feed, the timer stays armed, it never feeds, looks for the marker or disarms again, and boot control does not become stable, up to the next restart |
| Watchdog.KeepsWatching | userspace/root/usr/lib/vamos/boot.py:110-125 | before the deadline a turn without the marker feeds the timer and comes back to the marker |
| Watchdog.OnlyMagicDisarms | userspace/root/usr/lib/vamos/boot.py:110-136 | the timer is off only in a boot in which the watchdog found the healthy marker and then wrote the magic character; one that raised or gave up leaves it running |
| Watchdog.CommitSawEverything | userspace/root/usr/lib/vamos/boot.py:163-212 | boot control becomes stable only at the end of one commit call that passed, in order, the ready marker, stage 1, the watchdog process, the diagnosis and the disarmed marker on a trial |
| Watchdog.EndedCommitStrands | userspace/root/usr/lib/vamos/boot.py:199-212 | however a commit ends on a trial it did not commit, short of a reboot, the watchdog left alone can strand the trial if and only if it was past the healthy marker or the timer off; after a failed rollback the timer is always off |
| Watchdog.StrandedIsReachable | userspace/root/usr/lib/vamos/boot.py:199-205 | a run of both processes that ends there after a refused commit |
| Watchdog.AbandonedIsReachable | userspace/root/usr/lib/vamos/boot.py:207-212 | a run that ends there after neither the commit nor its rollback could be stored |
| Watchdog.StrandedStays | userspace/root/usr/lib/vamos/boot.py:163-224 | from there no step of either process leads out, only a reset |
| EdlDisk.Disk.Read | tools/flash/edl_normal.py:86-96 | whole-sector reads return exactly the requested byte range |
| EdlDisk.Disk.WriteVerified | tools/flash/edl_normal.py:98-106 | an aligned write replaces exactly its bytes; a refused one nothing |
| EdlDisk.EspPartitions | tools/flash/edl_normal.py:135-163 | returns the two ESPs exactly when the GPT passes every check |
| EdlDisk.DescribedParts | tools/flash/edl_normal.py:135-163 | the two ESPs are sector-aligned, not empty, disjoint and behind header and entries |
| GptFormat.WrittenDescribes | tools/flash/edl_normal.py:135-163 | a table written with header, two ESP entries and checksums describes exactly these two ESPs |
| GptFormat.DescribedIsWritten | tools/flash/edl_normal.py:135-163 | whatever table describes two ESPs is written so |
| FatVolume.ChainDistinct | tools/flash/edl_normal.py:219-239 | a chain walk over arbitrary FAT bytes ends, and its clusters are distinct and inside the data area |
| FatVolume.LayoutSound | tools/flash/edl_normal.py:177-203 | the geometry checks place both FATs, the root directory and every cluster inside the ESP |
| FatVolume.WalkSound | tools/flash/edl_normal.py:241-273 | extents found in arbitrary bytes are disjoint, aligned, inside the data area and 1024 bytes in all; one extent with 4096-byte sectors |
| FatFormat.WrittenMounts | tools/flash/edl_normal.py:169-207 | the boot sector of a supported FAT16 or FAT32 volume, written field by field, is accepted with the layout of that volume |
| FatFormat.MountedIsWritten | tools/flash/edl_normal.py:169-207 | whatever boot sector is accepted is that of a supported volume |
| FatFiles.ChainExact | tools/flash/edl_normal.py:219-239 | a chain is found exactly when it is written, in all FAT copies in use, as distinct usable clusters up to an end mark |
| FatFiles.ScanExact | tools/flash/edl_normal.py:246-257 | a lookup succeeds exactly when one live entry has the name; first cluster from bytes 26 and, on FAT32, 20, size from 28 |
| FatWalk.WalkFinds | tools/flash/edl_normal.py:169-273 | an ESP that holds EFI/VAMOS/GRUBENV so written opens, at exactly the clusters of the record |
| FatWalk.WalkDescribes | tools/flash/edl_normal.py:169-273 | whatever ESP opens holds the record so written |
| GptFormat.RecordsFound | tools/flash/edl_normal.py:135-273 | on a disk so written, with two ESPs, both records are found at exactly their clusters, so `RequestNormal` succeeds when the records can be stored and the session lasts |
| GptFormat.FoundIsWritten | tools/flash/edl_normal.py:135-273 | whatever disk has its two records found is written so |
| EdlNormal.EntryInSector | tools/flash/edl_normal.py:227-234 | the sector of a FAT entry lies inside the FAT and holds the whole entry |
| EdlNormal.FatBootControl.ReadMetadata | tools/flash/edl_normal.py:214-217 | an answer from the snapshot is what the device would say |
| EdlNormal.FatBootControl.Chain | tools/flash/edl_normal.py:219-239 | the loop over cached FAT sectors finds the chain that the device holds |
| EdlNormal.FatBootControl.FindControl | tools/flash/edl_normal.py:241-273 | the three lookups find the extents that a walk over the device finds |
| EdlNormal.FatBootControl.Load | tools/flash/edl_normal.py:169-207 | the constructor succeeds, and with the same extents, exactly when a walk without snapshot and cache would |
| EdlNormal.FatBootControl.Payload | tools/flash/edl_normal.py:275-276 | the record is read from the device |
| EdlNormal.FatBootControl.Write | tools/flash/edl_normal.py:278-288 | a session lost after k writes leaves exactly the first k extents replaced and every other byte of the disk as it was |
| EdlNormal.FatBootControl.WriteExtent | tools/flash/edl_normal.py:281-288 | the sector read-modify-write of an extent splices exactly its bytes |
| EdlNormal.PatchFrame | tools/flash/edl_normal.py:278-288 | a patch changes no byte outside its extents |
| EdlNormal.PatchGather | tools/flash/edl_normal.py:275-288 | reading the extents after a patch gives its payload |
| EdlNormal.PatchedHolds | tools/flash/edl_normal.py:275-288 | after a completed write the record reads back from the device as the payload |
| EdlNormal.SingleSector | tools/flash/edl_normal.py:181-182 | with 4096-byte sectors a record is one extent in one sector, so writing a copy is one sector write |
| EdlNormal.FoundUnique | tools/flash/edl_normal.py:135-273 | a disk leads to at most one pair of records |
| EdlNormal.OnlySites | tools/flash/edl_normal.py:135-273 | a request goes to no other pair of places than the one the disk leads to |
| EdlNormal.RequestIsAtomic | tools/flash/edl_normal.py:291-304 | wherever a request is cut, selection gives the old record or the requested one |
| EdlNormal.RequestNormal | tools/flash/edl_normal.py:291-304 | on success the disk differs only inside the two records and both decode to the selected one with generation + 1, normal request set, EDL request cleared; when any check fails no byte is written; cut after k sector writes, k records are new, the backup first; where two records are found, it is made exactly when the requested record can be stored |
| UbootRecipe.Validate | tools/flash/uboot_recipe.py:25-60 | accepts exactly the manifests whose ranges, names, hashes and pairwise disjoint targets are in order |
| UbootRecipe.CheckReads | tools/flash/uboot_recipe.py:38-44 | collects the sizes of exactly eleven distinct known inputs |
| UbootRecipe.CheckCopies | tools/flash/uboot_recipe.py:53-60 | accepts exactly lists of copies that stay in their sources and in the template and do not overlap |
| UbootRecipe.ReadsCover | tools/flash/uboot_recipe.py:38-44 | an accepted list of inputs names every boot-chain partition, XBL among them |
| UbootPrepare.ReadPartitions | tools/flash/uboot_recipe.py:63-83 | the loop over the NOR table computes the partitions, or fails at the first bad entry |
| UbootPrepare.PartitionsBounded | tools/flash/uboot_recipe.py:63-83 | every partition is sector-aligned and clear of the primary and the backup table |
| UbootPrepare.PartitionsPrefix | tools/flash/uboot_recipe.py:63-83 | the partitions depend on the first six sectors alone |
| UbootPrepare.MatchInputs | tools/flash/uboot_recipe.py:93-103 | the loop that stops at a mismatch reads all inputs exactly when all of them match |
| UbootPrepare.SourcesSized | tools/flash/uboot_recipe.py:93-117 | every source has exactly the size the manifest gives it |
| UbootPrepare.MovedExact | tools/flash/uboot_recipe.py:121-125 | no slice of an accepted copy is cut short, and each moved byte is its source byte XOR the key |
| UbootPrepare.XorBit | tools/flash/uboot_recipe.py:124 | a bit of the moved byte is set exactly when it differs in source and key |
| UbootPrepare.CopiesExact | tools/flash/uboot_recipe.py:118-125 | the copy loop succeeds exactly when every target of the template is zero, keeps the length, and leaves source XOR key in the targets and the template elsewhere |
| UbootPrepare.OrderFree | tools/flash/uboot_recipe.py:121-125 | the result does not depend on the order of the copies |
| UbootPrepare.RunCopies | tools/flash/uboot_recipe.py:121-125 | the loop over the payload computes that result |
| UbootPrepare.RunPrepare | tools/flash/uboot_recipe.py:86-131 | the loop over the variants returns the first one that is not skipped |
| UbootPrepare.PrepareExact | tools/flash/uboot_recipe.py:86-131 | a changed result is the assembled, hash-checked payload with the old rest of XBL behind it; an unchanged one is what the NOR holds |
| UbootPrepare.NorFrame | tools/flash/uboot_recipe.py:127-130 | writing the result changes nothing but the first template-size bytes of XBL, and the table reads the same |
| UbootPrepare.SecondRunUnchanged | tools/flash/uboot_recipe.py:86-131 | when at most one variant matches the other partitions and none of them overlaps XBL, a second run reports no change |
| UbootGates.RecipeTerms | tools/flash/uboot_recipe.py:25-60 | an accepted recipe has version 1, product, NOR and XBL size, one to sixteen variants of eleven inputs, https templates and 64-digit hexadecimal hashes |
| UbootGates.TableExactly | tools/flash/uboot_recipe.py:63-83 | a partition table is read if and only if the NOR has full size, header and entries have their fields and checksums, every entry in use has a name and lies clear of both tables, and no name repeats |
| UbootGates.PartitionsGiven | tools/flash/uboot_recipe.py:72-83 | every partition is given by an entry of the table, with its name, first and last sector |
| UbootGates.EntriesGive | tools/flash/uboot_recipe.py:72-83 | every entry with a type gives a partition |
| UbootGates.PrepareGate | tools/flash/uboot_recipe.py:86-131 | a result is for a variant of which every input but XBL fills its partition and has its hash; a changed XBL comes from an XBL input with its hash, from a template of recorded size and hash, and has the recorded hash |
| UbootGates.SourcesExactly | tools/flash/uboot_recipe.py:104-112 | the sources are the inputs and, with a decoding, the decompressed piece, which is accepted exactly with dictionary and length fields in order and with its size and hash |
| UbootGates.ForeignRefused | tools/flash/uboot_recipe.py:93-131 | when every variant misses the hash of some partition but XBL, the call fails and nothing is built |
| UbootGates.PayloadExactly | tools/flash/uboot_recipe.py:113-126 | a payload is built if and only if the template has size and hash, is zero in every target, and the assembled payload has the recorded hash |
| UbootGates.PreparesExactly | tools/flash/uboot_recipe.py:86-131 | the first variant that the NOR shows decides: an XBL that is the result already is returned unchanged; otherwise the call succeeds if and only if a payload can be built, and returns exactly that payload, the old rest of XBL behind it, and the hash of the NOR that will hold them |
| UbootGates.NothingShown | tools/flash/uboot_recipe.py:86-131 | a recipe that is not accepted, a table that cannot be read, or no variant shown: the call fails |
| FactoryManifest.OperationsFor | tools/flash/prepare_rawprogram.py:31-56 | accepts exactly aligned, non-empty operations clear of the identity region |
| FactoryManifest.ValidateFactory | tools/flash/releases.py:67-101 | accepts exactly the manifests whose first two erases are the complement of the identity region and whose operations and objects are in order |
| FactoryManifest.CheckObjects | tools/flash/releases.py:90-100 | accepts exactly objects of which any two with one file name have one size and hash |
| FactoryManifest.DownloadAll | tools/flash/releases.py:109-138 | at the end every object is in the directory with its size and hash, although files are overwritten on the way |
| FactoryGates.ManifestExactly | tools/flash/releases.py:67-101 | a manifest is accepted if and only if it has product, versions, sector size and aligned sizes, opens with the two erases around the identity region, all operations are whole sectors of the image clear of that region, all objects have https names, sizes and hashes, and equal names mean equal objects |
| FactoryChunks.NamesDistinct | tools/flash/prepare_rawprogram.py:85-86 | different chunks have different file names |
| FactoryChunks.CheckCache | tools/flash/prepare_rawprogram.py:63-107 | a cache is valid exactly when marker, chunks and XML describe each other and the operations |
| FactoryChunks.PreparePayload | tools/flash/prepare_rawprogram.py:110-209 | a directory that comes out, kept, renewed or built, is a valid cache, so the next preparation reuses it |
| FactoryGates.ReuseExactly | tools/flash/prepare_rawprogram.py:63-107 | a prepared directory is reused if and only if it is of this payload and its hash or manifest, with size, hash and time of every chunk and the hash of the XML as recorded, and no other chunk in it |
| FactoryGates.ChunkExactly | tools/flash/prepare_rawprogram.py:140-170 | a chunk is made exactly of an object of recorded size and hash that decompresses to the size and hash of its operation |
| FactoryChunks.ProgramRank | tools/flash/flash_factory.py:15-25 | the program counter on the way is the place of the operation among all programs |
| FactoryChunks.PairOperations | tools/flash/flash_factory.py:15-25 | the k-th program operation gets chunk k, of its size and hash; an erase gets none |
| FactoryChunks.PrepareOperations | tools/flash/flash_factory.py:12-25 | all operations of both payloads in order, each paired |
| FactoryFlash.IdentityKept | tools/flash/persist.py:38-42 | a region with the ext4 magic and the identity label is never erased, whatever the GPT says |
| FactoryFlash.LabelledExactly | tools/flash/persist.py:38-42 | a superblock counts as provisioned exactly when it has the ext4 magic at 1080 and the sixteen-byte label at 1144 |
| FactoryGates.ListsExactly | tools/flash/persist.py:22-37 | the scan of the table raises exactly when an entry in use has no name or persist is not where it belongs, and otherwise says whether persist is there |
| FactoryGates.EraseExactly | tools/flash/persist.py:7-42 | the region may be erased if and only if the GPT is not blank, valid in every checked field and both checksums, and has no persist entry, and the region can be read and carries no label |
| FactoryGates.FlashRefuses | tools/flash/flash_factory.py:28-41 | a range beyond the device or into the identity region, or a GPT or region that cannot be judged, ends the call with nothing written |
| FactoryFlash.Flash.Decide | tools/flash/persist.py:7-42 | the loop over the entries computes the decision |
| FactoryFlash.Flash.FlashOperations | tools/flash/flash_factory.py:28-55 | checks first, then the operations in order; cut inside any operation, the disk is what that prefix and a torn range leave |
| FactoryRuns.PerformContent | tools/flash/flash_factory.py:42-53 | each byte ends up as the last operation over it stores it |
| FactoryRuns.PerformKeeps | tools/flash/flash_factory.py:42-53 | however a flash ends, a byte that no operation covers keeps its value |
| FactoryRuns.FactoryContent | tools/flash/flash_factory.py:28-55 | for an accepted manifest every byte of the image outside the identity region is what the last operation stores, whatever the disk held; the region is erased when the decision says so and kept otherwise; all bytes behind the image are kept |
| FactoryRuns.AttemptKeepsRegion | tools/flash/flash_factory.py:28-55 | one attempt, cut anywhere, keeps a labelled region |
| FactoryRuns.IdentitySurvives | tools/flash/persist.py:7-42 | no sequence of attempts, each cut anywhere, and of other changes to the rest of the disk changes a byte of a labelled region |
| ScmStorage.Storage.Read | kernel/patches/0100-driver-qcom-scm-storage.patch:118-171 | for every power-of-two block size up to the buffer, the first retlen bytes of the flat slice have arrived, all of it on success |
| ScmStorage.Storage.Write | kernel/patches/0100-driver-qcom-scm-storage.patch:173-233 | the device is the flat splice of the first retlen bytes, all of them on success |
| ScmStorage.Storage.ReadTurn | kernel/patches/0100-driver-qcom-scm-storage.patch:140-168 | one turn moves exactly its chunk, or fails and moves nothing |
| ScmStorage.Storage.WriteTurn | kernel/patches/0100-driver-qcom-scm-storage.patch:195-230 | one turn of read-modify-write or direct write splices exactly its chunk |
| ScmStorage.TransferAdvances | kernel/patches/0100-driver-qcom-scm-storage.patch:195-230 | a chunk behind the bytes already transferred extends the one flat splice |
| ScmStorage.PowersDivide | kernel/patches/0100-driver-qcom-scm-storage.patch:141-152 | a smaller power of two divides a larger one, so a full buffer holds whole blocks |
| Clock.BootFloor | userspace/root/usr/lib/vamos/clock.py:57-59 | the floor is valid, at least the build time, and at least a valid saved time |
| Clock.CheckpointKeeps | userspace/root/usr/lib/vamos/clock.py:76-83 | a valid saved time never decreases; an implausible clock raises and saves nothing |
| Clock.RestoreOnce | userspace/root/usr/lib/vamos/clock.py:86-100 | only the first call of a boot sets the clock, to the floor |
| Clock.SampleAccepted | userspace/root/usr/lib/vamos/clock.py:103-133 | exactly the sound samples that no better source outranks for 600 seconds are accepted; the clock steps only forward, and anything else changes nothing |
| Clock.LastDecides | userspace/root/usr/lib/vamos/clock.py:112-118 | looking at the latest accepted sample alone keeps the whole history of the boot ranked |
| Clock.NotedClock | userspace/root/usr/lib/vamos/clock.py:119-133 | an accepted sample more than a quarter second ahead steps the clock there and ends any adjustment; any other leaves the clock and slews it by the offset, at most 2000 seconds |
| Clock.EveryRun | userspace/root/usr/lib/vamos/clock.py:53-133 | over any run of `Steps` accepted samples respect their ranks for 600 seconds within a boot, only a power-on moves the clock back, no further than the floor, and a valid saved time stays valid and never decreases |
| Clock.Service.Synchronize | userspace/root/usr/lib/vamos/clock.py:103-133 | the method, with its clock calls in order, does what the step says |
| Clock.Service.Run | userspace/root/usr/lib/vamos/clock.py:53-133 | a service fed any events goes through the states of `Steps` |

## Left out

- Progress percentages, history files, log output, version strings in messages and `status`: they decide nothing.
- The update lock: `commit`, `reconcile` and the diagnostics do not take it, and concurrent writers of the record are not modelled; one writer runs at a time.
- Updater.Device.WriteEsp: the target ESP is modelled as the files it shows after each chunk, next to the bytes of the stream, not as FAT bytes under the image writer; the size of the partition is checked by the layout.
- Updater.Device.Commit: the stage-1, userdata, version and watchdog checks are one input; their order decides nothing. The forced reboot after a failed commit is a power-off.
- Updater.Device.StageImages: the progress saves of state.json change no field that decides anything and are no steps of their own.
- Transient read failures of an ESP, and installs started on an uncommitted trial, are outside the whole-run theorem; the second is shown to matter.
- Manifest loading, signature checks, URL resolution and image decompression: their result is the manifest and the stream of chunks.
- `expand_userdata`, `initialize_layout` and the userdata migration: orchestration of sfdisk, mkfs and rsync around simple sums.
- BootControlCodec.RoundTrip: text is ASCII; Python strings with other characters are refused by the encoder, and the model has none of their details.
- EdlDisk.Disk.Read: one request of the Firehose session either returns all sectors or fails; short files, timeouts and the USB transport are not modelled.
- EdlDisk.EspPartitions: an ESP described beyond the end of the device is refused when its first read fails.
- EdlNormal.RequestNormal: the disk model allows sector sizes from 512 to 4096 bytes; the editor uses 4096. A session lost inside one sector write is not modelled, a sector write is atomic.
- UbootPrepare.RunPrepare: JSON values have their types; booleans that pass for integers and missing keys are not modelled. The LZMA decoder and the download are functions of their arguments.
- FactoryFlash.Flash.FlashOperations: the call without a persist range, the progress callback and the geometry query are not modelled; the sector sizes of manifest and device agree.
- FactoryChunks.PreparePayload: the temporary directory, its replacement and removal are one step; the text of the rawprogram XML is an input.
- FactoryManifest.ValidateFactory: the version pattern is a parameter, and a URL is its scheme and last path element.
- ScmStorage.Storage.Write: offsets are unbounded, so a wrap-around of offset plus length, which the MTD core rules out, is not modelled; the erase operation and the probe are not modelled.
- Clock.Service.Synchronize: time is real-valued; `adjtime` itself never fails; parsing of chrony output and the service loop are not modelled. Stage 1 restores before anything else synchronizes.
- The other kernel patches, camera, Bluetooth, amplifier, hardware health, identity provisioning and shell scripts.
