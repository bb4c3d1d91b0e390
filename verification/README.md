# SimpleVM: verified models

SimpleVM runs virtual machines on macOS.  This project models the parts of it where state, failures and two-sided
protocols meet, and proves what they keep.

* **Snapshots and machine files** (`FileSystem`, `MachineFiles`, `SnapshotStore`, `SnapshotRuns`, `MachineStore`,
  `StorageLayout`, `PathTexts`, `CreatedMachines`).  The disk is a map from paths to nodes.  Every call of the file manager ends as done, failed or
  crashed, and calls that are not atomic may stop half way, so a statement about all outcomes is one about every
  failure point and every crash point.  A failure for which nothing on the disk is to blame, and every crash, is a
  breakdown; what has to succeed without one is proved too.  The stores are classes that work on such a disk step by step.  Each operation is
  specified by an effect, a relation between the disk before and after; histories are reasoned about from the effects.
* **Keyboard input** (`InputRouter`, `KeyboardRules`, `KeyboardMapping`, `KeyboardProfiles`).  The router is a class with the six fields
  of the original and the trace of the events it has sent.  What the trace means is what a guest keyboard makes of it:
  presses are counted for each key code, since two host chords may press the same guest key.  Dictionaries are walked in
  arbitrary order.
* **The guest-agent protocol** (`Framing`, `CutFrames`, `Json`, `GuestProtocol`, `RequestCodec`, `StatusCodec`, `SessionHelper`,
  `SessionAccept`, `Daemon`, `HostRequests`, `SessionBroker`).  Frames are read and written under arbitrary partial and interrupted
  calls.  The host's coder and the guest's validator are modelled independently over JSON values and then compared.  The
  two request/response hops are transition systems with timeouts, losses and late frames.
* **Clipboard** (`Clipboard`).  The synchronizer is a class over two clipboards, which others may change also while it
  awaits the guest; its step function is analysed for quiescence and for the number of writes.  The fingerprint is an arbitrary function.
* **Detection and completion** (`IsoDetector`, `ConnectionCompletion`, `ImageDownload`).  A chunked search, and two
  objects whose continuation must be resumed exactly once.

`Wrappers`, `Utf8` and `Texts` hold what is shared.  `dafny verify dfyconfig.toml` checks everything.

## What turned out false

Each of these has a lemma with a concrete input, or the exact condition under which the claim holds.

* A listed snapshot does not always have its files: `delete` removes the files first
  (`SnapshotRuns.InterruptedDeleteLosesFiles`).  No other failure or crash can do that.
* Restoring a snapshot gives back the firmware of a Windows machine alone.  Any other machine gets its disk back and
  keeps the firmware that it has (`SnapshotRuns.FirmwareIsNotRestored`; exact condition in `SnapshotRuns.RoundTrip`).
* The clipboards do not always become equal: a text that was sent once is not sent again after a text from the guest,
  and not applied when it comes back from the guest (`Clipboard.CopyingAgainIsNotSent`,
  `Clipboard.CopyingAgainIsNotApplied`; exact condition in `Clipboard.EqualExactlyIf`).  The user documentation
  says that fingerprints and change counters suppress echo loops; they do, and the guard suppresses these copies as well.
* A text copied on the host while the synchronizer awaits the guest can be overwritten and never sent: during the
  read (`Clipboard.CopyWhileReadingIsLost`), during a write (`Clipboard.CopyWhileWritingIsLost`) and after a write that
  was accepted (`Clipboard.CopyAfterWriteIsLost`; exact condition for all polls in `Clipboard.HostCopyStaysExactlyIf`).
* The loop that accepts session helpers does not survive every registration: a list among the capabilities raises a
  `TypeError` (`SessionAccept.ListCapabilityEndsLoop`), a frame that is nested too deeply a `RecursionError`
  (`SessionAccept.NestedFrameEndsLoop`), and neither is caught; exact condition in `SessionAccept.SurvivesExactlyIf`.
* For the same reason an error does not always close the connection to the session helper, and the daemon does not
  reply to every request: the exact conditions are in `SessionBroker.SessionBroker.Call` and `Daemon.HostUnderstands`.
* A reply can reach the wrong request if the guest is a legacy one
  (`HostRequests.LegacyRepliesCanBeMisattributed`).  With version 2 it cannot.
* Not every reply that the daemon passes on from the session helper decodes on the host
  (`StatusCodec.PassedOnDecodes` and `Daemon.HostUnderstands` have the exact condition), and not every helper's own
  registration is accepted (`SessionHelper.OwnRegistrationAccepted`).
* Not every string is an identifier that the guest accepts, although the host encodes it
  (`RequestCodec.GuestAcceptsHost`); the identifiers that the host makes are (`RequestCodec.AsciiSize`).
* A machine clone that returns may lack firmware files, because failures to copy them are ignored
  (`MachineStore.ManagedMachineStore.CloneFiles` says when it has them all).
* Rollback after a failed creation is itself one removal that may fail: `MachineStore.ManagedMachineStore.CreateFiles`
  leaves nothing behind if its failure was the only one.
* `GuestTools/README.md` says that X11 sessions do not advertise the clipboard.  The code goes by `WAYLAND_DISPLAY`
  first, so a session whose type variable says X11 does advertise it if that variable is set too
  (`SessionHelper.HostLearnsCapabilities`).

## Model

| member | source | states |
|---|---|---|
| `SnapshotRuns.RoundTrip` | Packages/SimpleVMCore/Sources/SimpleVMCore/Storage/SnapshotStore.swift:34-213 | Create a snapshot, let anything happen but its own deletion (guest writes, other creations, restores of this and other snapshots, other deletions, each of which may fail or crash), restore it: the disk is what it was.  efi-code, efi-vars and tpm-state are what they were, including which are absent, exactly if the machine is a Windows machine or the restore finds them so |
| `SnapshotRuns.FirmwareIsNotRestored` | Packages/SimpleVMCore/Sources/SimpleVMCore/Storage/SnapshotStore.swift:76-103 | For every machine that is not a Windows machine, and every disk on which a snapshot can be taken, there is a history of a snapshot, a write of the firmware and a restore that returns, after which the firmware is not what it was |
| `SnapshotRuns.LoseFirmware` | Packages/SimpleVMCore/Sources/SimpleVMCore/Storage/SnapshotStore.swift:34-104 | The same as a run of the store's own operations: unless a call breaks down, creation and restore return and the firmware of before is lost |
| `SnapshotRuns.RestoreLeavesFirmware` | Packages/SimpleVMCore/Sources/SimpleVMCore/Storage/SnapshotStore.swift:130-147 | Restoring such a machine leaves its firmware files exactly as it finds them |
| `SnapshotRuns.RestoreIsAtomic` | Packages/SimpleVMCore/Sources/SimpleVMCore/Storage/SnapshotStore.swift:130-177 | However a restore ends, disk and firmware are both the old ones or both the saved ones, and a normal return leaves no temporary files; for a machine that is not a Windows machine this is about the disk alone |
| `SnapshotRuns.GenerationExactly` | Packages/SimpleVMCore/Sources/SimpleVMCore/Storage/SnapshotStore.swift:149-157 | A machine has a state generation exactly if its disk lies in `State/current` |
| `SnapshotRuns.StateNeedsGeneration` | Packages/SimpleVMCore/Sources/SimpleVMCore/Storage/SnapshotStore.swift:149-157 | Without one a saved state is not restored, and nothing is changed |
| `SnapshotRuns.ListingHasFiles` | Packages/SimpleVMCore/Sources/SimpleVMCore/Storage/SnapshotStore.swift:34-128 | In every history a listed snapshot has its files, disk and firmware, holding exactly what there was to capture at its creation, unless its own deletion was interrupted; no other failure or crash can lose or change them |
| `SnapshotRuns.ListedCanBeRestored` | Packages/SimpleVMCore/Sources/SimpleVMCore/Storage/SnapshotStore.swift:91-177 | Such a snapshot can be restored: with the machine's own directory in order and its disk in place, its restore returns unless a call breaks down |
| `SnapshotRuns.InterruptedDeleteLosesFiles` | Packages/SimpleVMCore/Sources/SimpleVMCore/Storage/SnapshotStore.swift:110-127 | The exception is real: from every disk, among the ways `delete` can go call by call are a failure and a crash that leave a listed snapshot without files |
| `SnapshotRuns.FaultlessAgrees` | Packages/SimpleVMCore/Sources/SimpleVMCore/Storage/SnapshotStore.swift:34-128 | With no failed creation or deletion, the files under the snapshots directory are exactly those of the listed snapshots |
| `SnapshotRuns.HistoryKeeps` | Packages/SimpleVMCore/Sources/SimpleVMCore/Storage/SnapshotStore.swift:34-128 | Over any history without its deletion a snapshot's files never change |
| `SnapshotRuns.StepKeeps` | Packages/SimpleVMCore/Sources/SimpleVMCore/Storage/SnapshotStore.swift:34-128 | One operation, however it ends, changes the files of no snapshot but the one it deletes |
| `SnapshotRuns.RestoreKeepsSnapshots` | Packages/SimpleVMCore/Sources/SimpleVMCore/Storage/SnapshotStore.swift:91-177 | Restoring leaves the whole snapshots directory as it was |
| `SnapshotRuns.StepHealthy` | Packages/SimpleVMCore/Sources/SimpleVMCore/Storage/SnapshotStore.swift:34-128 | One operation loses or changes the files of a listed snapshot only if it is that snapshot's interrupted deletion |
| `SnapshotRuns.CreateAgrees` | Packages/SimpleVMCore/Sources/SimpleVMCore/Storage/SnapshotStore.swift:34-89 | A creation that returns keeps listing and files in exact agreement |
| `SnapshotRuns.FirstSnapshot` | Packages/SimpleVMCore/Sources/SimpleVMCore/Storage/SnapshotStore.swift:24-89 | Where no listing has been stored yet, a creation that returns lists its snapshot alone |
| `SnapshotRuns.DeleteAgrees` | Packages/SimpleVMCore/Sources/SimpleVMCore/Storage/SnapshotStore.swift:106-128 | A deletion that returns keeps listing and files in exact agreement |
| `SnapshotRuns.DeleteKeepsOrder` | Packages/SimpleVMCore/Sources/SimpleVMCore/Storage/SnapshotStore.swift:124-127 | A returned deletion takes the snapshot out of the listing and leaves the others as they are, in their order; one that is not listed changes nothing |
| `SnapshotStore.Store.Create` | Packages/SimpleVMCore/Sources/SimpleVMCore/Storage/SnapshotStore.swift:34-89 | Whatever fails or crashes, the listing is the old one, or the old one with the new snapshot last whose files hold what the machine held; a thrown error leaves the listing alone; other slots are kept; after one failure the Windows slot is empty or a whole clone.  With the disk there, a readable listing and no file in the way it returns, unless a call breaks down |
| `SnapshotStore.Store.Restore` | Packages/SimpleVMCore/Sources/SimpleVMCore/Storage/SnapshotStore.swift:91-104 | Dispatches to the two restores: the machine's state is the old one or a whole clone of the snapshot for every outcome, and the clone if it returns; one failure leaves no staging directory.  With the snapshot's disk file there and the machine's directory in order it returns, unless a call breaks down |
| `SnapshotStore.Store.Delete` | Packages/SimpleVMCore/Sources/SimpleVMCore/Storage/SnapshotStore.swift:106-128 | The ways it can go, call by call: files go before the listing, so if the snapshot is unlisted its files are gone, and a normal return means both; other slots are kept.  With a readable listing it returns, unless a call breaks down |
| `SnapshotStore.Store.RewriteWithout` | Packages/SimpleVMCore/Sources/SimpleVMCore/Storage/SnapshotStore.swift:124-127 | The listing is the old one without the snapshot, or the old one |
| `SnapshotStore.Store.RestoreWindowsState` | Packages/SimpleVMCore/Sources/SimpleVMCore/Storage/SnapshotStore.swift:149-177 | Crash atomicity: for every failure and crash point `State/current` is exactly the old tree or exactly the clone of the snapshot, and nothing else but the staging directory changes; a machine without a state generation is refused untouched |
| `SnapshotStore.Store.StageAndSwap` | Packages/SimpleVMCore/Sources/SimpleVMCore/Storage/SnapshotStore.swift:167-170 | Clone, swap, clean up: at each point the current generation is the old one or the whole image, and it succeeds unless a call breaks down |
| `SnapshotStore.Store.StageOrCleanUp` | Packages/SimpleVMCore/Sources/SimpleVMCore/Storage/SnapshotStore.swift:167-176 | A failure is cleaned up: a single one leaves nothing in the staging directory |
| `SnapshotStore.Store.SwapIn` | Packages/SimpleVMCore/Sources/SimpleVMCore/Storage/SnapshotStore.swift:169-170 | The staged tree takes the current one's place in one step |
| `SnapshotStore.Store.RestoreLegacyDisk` | Packages/SimpleVMCore/Sources/SimpleVMCore/Storage/SnapshotStore.swift:130-147 | The disk is the old one or the whole snapshot for every failure and crash point; a replacement left over from an interrupted restore is no obstacle: with the snapshot's and the machine's disk files there it returns, unless a call breaks down |
| `SnapshotStore.Store.CloneAndReplace` | Packages/SimpleVMCore/Sources/SimpleVMCore/Storage/SnapshotStore.swift:142-146 | The clone takes the disk's place in one step |
| `SnapshotStore.Store.CloneWindowsState` | Packages/SimpleVMCore/Sources/SimpleVMCore/Storage/SnapshotStore.swift:179-213 | On success the target is exactly the image of the source (disk, and those of the three firmware files that are there); only the target changes |
| `SnapshotStore.Store.CloneAll` | Packages/SimpleVMCore/Sources/SimpleVMCore/Storage/SnapshotStore.swift:199-212 | The loop over the firmware files extends the image to all of them |
| `SnapshotStore.Store.CloneFirmware` | Packages/SimpleVMCore/Sources/SimpleVMCore/Storage/SnapshotStore.swift:199-212 | One round: the image grows by that file, or stays as it is if the source lacks the file |
| `SnapshotStore.Store.CloneDisk` | Packages/SimpleVMCore/Sources/SimpleVMCore/Storage/SnapshotStore.swift:183-190 | The directory and the disk make the image without firmware |
| `SnapshotStore.Store.CloneToSlot` | Packages/SimpleVMCore/Sources/SimpleVMCore/Storage/SnapshotStore.swift:48-84 | The slot holds what is to be captured, or a single failure of a Windows clone leaves it empty; only the slot changes |
| `SnapshotStore.Store.CloneState` | Packages/SimpleVMCore/Sources/SimpleVMCore/Storage/SnapshotStore.swift:49-65 | A failed clone of a state generation is removed again |
| `SnapshotStore.Store.CloneLegacyDisk` | Packages/SimpleVMCore/Sources/SimpleVMCore/Storage/SnapshotStore.swift:77-78 | The slot becomes a copy of the disk |
| `SnapshotStore.Store.Describe` | Packages/SimpleVMCore/Sources/SimpleVMCore/Storage/SnapshotStore.swift:66-83 | The recorded relative paths are those of the slot |
| `SnapshotStore.Store.Save` | Packages/SimpleVMCore/Sources/SimpleVMCore/Storage/SnapshotStore.swift:226-240 | The listing afterwards is the given one, or after a failure the old one, and in a crash one of the two |
| `SnapshotStore.TouchesSlot` | Packages/SimpleVMCore/Sources/SimpleVMCore/Storage/SnapshotStore.swift:242-247 | A change in one snapshot's slot shows in no other slot and not in the listing |
| `SnapshotStore.GenerationApart` | Packages/SimpleVMCore/Sources/SimpleVMCore/Storage/SnapshotStore.swift:153-163 | The current generation, the staging directory and the snapshots never overlap |
| `SnapshotStore.ImageStable` | Packages/SimpleVMCore/Sources/SimpleVMCore/Storage/SnapshotStore.swift:179-213 | What is captured depends on the disk and the `QEMU` directory alone |
| `MachineFiles.ImageOfImage` | Packages/SimpleVMCore/Sources/SimpleVMCore/Storage/SnapshotStore.swift:179-213 | Cloning a clone gives the same image |
| `MachineFiles.ImageKeeps` | Packages/SimpleVMCore/Sources/SimpleVMCore/Storage/SnapshotStore.swift:187-211 | An image keeps the disk and each firmware file, including its absence |
| `MachineFiles.ImageHasOnly` | Packages/SimpleVMCore/Sources/SimpleVMCore/Storage/SnapshotStore.swift:179-213 | An image has nothing but the disk, the three firmware files and the directories above them |
| `FileSystem.Disk.Clone` | Packages/SimpleVMCore/Sources/SimpleVMCore/Storage/APFSCloneStorage.swift:5-20 | A success copies the whole tree to a free place; a failure or crash touches nothing but the destination and its missing parents |
| `FileSystem.Disk.Swap` | Packages/SimpleVMCore/Sources/SimpleVMCore/Storage/SnapshotStore.swift:215-224 | Both trees change places in one step, or nothing changes |
| `FileSystem.Disk.Replace` | Packages/SimpleVMCore/Sources/SimpleVMCore/Storage/SnapshotStore.swift:143-146 | The item takes the other's place in one step, or nothing changes |
| `MachineStore.ManagedMachineStore.CreateFiles` | Packages/SimpleVMCore/Sources/SimpleVMCore/Storage/ManagedMachineStore.swift:31-114 | All or nothing: an existing machine directory stays untouched and the call fails; after one failure no new directory is left; on return the directory is exactly that of a new machine with a disk of the returned capacity, and nothing outside it is lost.  It returns if the machine is new, the capacity fits, the base is there, no file is in the way and no call breaks down |
| `MachineStore.ManagedMachineStore.MakeMachineDirectory` | Packages/SimpleVMCore/Sources/SimpleVMCore/Storage/ManagedMachineStore.swift:38-43 | The directory is new and empty, or the call fails and an existing one stays as it was |
| `MachineStore.ManagedMachineStore.Populate` | Packages/SimpleVMCore/Sources/SimpleVMCore/Storage/ManagedMachineStore.swift:45-109 | The `do` block fills an empty directory with exactly the disk, the state directories and the backend directory, and touches nothing else |
| `MachineStore.ManagedMachineStore.FillGeneration` | Packages/SimpleVMCore/Sources/SimpleVMCore/Storage/ManagedMachineStore.swift:59-97 | The disk and the backend directory complete the machine's tree |
| `MachineStore.ManagedMachineStore.CreateDisk` | Packages/SimpleVMCore/Sources/SimpleVMCore/Storage/ManagedMachineStore.swift:59-83 | The disk has the base image's bytes as a prefix and zeros behind, and the returned capacity is its size: the larger of the base size and the aligned request |
| `MachineStore.ManagedMachineStore.MakeGeneration` | Packages/SimpleVMCore/Sources/SimpleVMCore/Storage/ManagedMachineStore.swift:46-58 | Windows machines get an empty `State/current`, others nothing |
| `MachineStore.ManagedMachineStore.Describe` | Packages/SimpleVMCore/Sources/SimpleVMCore/Storage/ManagedMachineStore.swift:99-109 | The returned relative paths lead back to the created files |
| `MachineStore.CreatedResolves` | Packages/SimpleVMCore/Sources/SimpleVMCore/Storage/ManagedMachineStore.swift:99-109 | What a creation returns resolves to the disk, with the returned size, and to the backend directory, where the snapshot store expects them |
| `CreatedMachines.CreatedIsPlaced` | Packages/SimpleVMCore/Sources/SimpleVMCore/Storage/ManagedMachineStore.swift:60-115 | By literal names: where a creation puts the disk and the backend's directory |
| `CreatedMachines.ClonedIsPlaced` | Packages/SimpleVMCore/Sources/SimpleVMCore/Storage/ManagedMachineStore.swift:137-159 | The same for a clone |
| `CreatedMachines.CreatedDiskHolds` | Packages/SimpleVMCore/Sources/SimpleVMCore/Storage/SparseDiskCreator.swift:6-36 | A new disk has the least multiple of 512 bytes that is enough, or the base image's size if that is more; it begins with the base image and has zeros behind it |
| `CreatedMachines.BesideTheDisk` | Packages/SimpleVMCore/Sources/SimpleVMCore/Storage/ManagedMachineStore.swift:84-115 | The backend's directory lies beside the disk, as `QEMU` or `Apple`, and a Windows machine has a state generation |
| `CreatedMachines.FirmwareIsCaptured` | Packages/SimpleVMCore/Sources/SimpleVMCore/Storage/SnapshotStore.swift:179-213 | For a Windows machine with QEMU, a snapshot captures efi-code.fd, efi-vars.fd and tpm-state from the very directory that the creation has made for them |
| `CreatedMachines.FirmwareComesBack` | Packages/SimpleVMCore/Sources/SimpleVMCore/Storage/SnapshotStore.swift:34-213 | Over every history with that snapshot and a returned restore, these files are what they were, and so is the disk |
| `CreatedMachines.CloneHasState` | Packages/SimpleVMCore/Sources/SimpleVMCore/Storage/ManagedMachineStore.swift:161-191 | A clone without a failed call has each of the seven state files exactly if its source has it, with the same content |
| `MachineStore.ManagedMachineStore.Initialize` | Packages/SimpleVMCore/Sources/SimpleVMCore/Storage/StorageLayout.swift:68-75 | Nothing is lost and only layout directories are added |
| `MachineStore.ManagedMachineStore.RemoveOrphanedMachines` | Packages/SimpleVMCore/Sources/SimpleVMCore/Storage/ManagedMachineStore.swift:190-204 | Nothing outside the directories of unreferenced machines changes, whatever fails, and on return none of those is left |
| `MachineStore.ManagedMachineStore.RemoveIfOrphaned` | Packages/SimpleVMCore/Sources/SimpleVMCore/Storage/ManagedMachineStore.swift:197-203 | One round of its loop removes the entry exactly if it is an unreferenced machine |
| `MachineStore.ManagedMachineStore.CloneFiles` | Packages/SimpleVMCore/Sources/SimpleVMCore/Storage/ManagedMachineStore.swift:139-158 | The clone's disk starts with the source's bytes; with no failed call it has all of the source's firmware files, and in no case a file the source lacks; the source directory is unchanged; a missing disk changes nothing; it returns under the conditions of `createFiles` |
| `MachineStore.ManagedMachineStore.CopyFirmwareState` | Packages/SimpleVMCore/Sources/SimpleVMCore/Storage/ManagedMachineStore.swift:160-188 | Failures are ignored: with none, each state file is copied as it is; files that the source lacks are not created; only the destination changes |
| `MachineStore.ManagedMachineStore.CopyStateFile` | Packages/SimpleVMCore/Sources/SimpleVMCore/Storage/ManagedMachineStore.swift:173-186 | One file, cloned or else copied |
| `MachineStore.AlignedIsLeast` | Packages/SimpleVMCore/Sources/SimpleVMCore/Storage/SparseDiskCreator.swift:6-12 | The aligned capacity is the least multiple of 512 at or above the request, and the 64-bit sum traps exactly if that multiple does not fit |
| `PathTexts.CreatedResolvesAsText` | Packages/SimpleVMCore/Sources/SimpleVMCore/Storage/ManagedMachineStore.swift:101-112 | The texts that a creation stores resolve to what it has made, and are the relative paths of it; cut at their slashes they are the literal names |
| `PathTexts.RecordResolvesAsText` | Packages/SimpleVMCore/Sources/SimpleVMCore/Storage/SnapshotStore.swift:49-70 | The same for the texts of a snapshot's record |
| `PathTexts.LayoutParts` | Packages/SimpleVMCore/Sources/SimpleVMCore/Storage/StorageLayout.swift:5-45 | The literal names of the layout's directories |
| `PathTexts.ListingParts` | Packages/SimpleVMCore/Sources/SimpleVMCore/Storage/SnapshotStore.swift:22-26 | The literal names on the way to the listing |
| `PathTexts.RestorePlaces` | Packages/SimpleVMCore/Sources/SimpleVMCore/Storage/SnapshotStore.swift:136-163 | The literal names of the places that a restore uses for a while, beside the current generation and beside the disk |
| `PathTexts.ResolveAgrees` | Packages/SimpleVMCore/Sources/SimpleVMCore/Storage/StorageLayout.swift:60-66 | Resolving a path of names and resolving its text succeed together, with the same result |
| `StorageLayout.RelativePathResolves` | Packages/SimpleVMCore/Sources/SimpleVMCore/Storage/StorageLayout.swift:51-66 | The relative path of a URL under the root resolves, and to the same standardized URL |
| `StorageLayout.ResolvedStaysInside` | Packages/SimpleVMCore/Sources/SimpleVMCore/Storage/StorageLayout.swift:51-66 | What resolves stays under the root, and its relative path is the tidied one |
| `StorageLayout.RelativePathIsInjective` | Packages/SimpleVMCore/Sources/SimpleVMCore/Storage/StorageLayout.swift:51-58 | Only URLs under the root have a relative path, and different ones have different paths |
| `StorageLayout.SplitJoin` | Packages/SimpleVMCore/Sources/SimpleVMCore/Storage/StorageLayout.swift:57-62 | Splitting what was joined with slashes gives the components back |
| `StorageLayout.StandardizedAppends` | Packages/SimpleVMCore/Sources/SimpleVMCore/Storage/StorageLayout.swift:60-66 | Without `..`, appended components stay behind what they are appended to |
| `StorageLayout.DotsGo` | Packages/SimpleVMCore/Sources/SimpleVMCore/Storage/StorageLayout.swift:51-58 | A dot changes nothing, two dots take back the name before them, and above the top there is nothing |
| `InputRouter.GuestInputRouter.Perform` | SimpleVMApp/Input/ImmersiveInputCapture.swift:363-528 | Over every sequence of operations the sent events make sense to a guest that replays them (modifier events really flip, keys go up only when down), key downs minus ups equal the active chords with that code, the replayed modifiers are `guestModifierFlags`, which are the normalized union of chord, pointer and (while a host modifier is held) latched modifiers, and at rest the guest holds nothing |
| `InputRouter.GuestInputRouter.NothingStuck` | SimpleVMApp/Input/ImmersiveInputCapture.swift:457-528 | With no chord, pointer or host modifier left, a guest that replays the events holds no key and no modifier |
| `InputRouter.EverythingReleased` | SimpleVMApp/Input/ImmersiveInputCapture.swift:399-494 | Releasing all host keys, the host modifiers and the pointer, in any order, leaves the guest with nothing |
| `InputRouter.LettingGo` | SimpleVMApp/Input/ImmersiveInputCapture.swift:399-494 | Operations that let go never bring a chord, a pointer or a host modifier back |
| `InputRouter.KeepsExactly` | SimpleVMApp/Input/ImmersiveInputCapture.swift:418-431 | A change of the host modifiers keeps exactly the chords whose own host modifiers are all down, unchanged |
| `InputRouter.PressedKeyStays` | SimpleVMApp/Input/ImmersiveInputCapture.swift:382-391 | A key's own host modifiers are those that are down when it is pressed: a later change keeps it exactly if all of these are down still |
| `InputRouter.CommandComesUp` | SimpleVMApp/Input/ImmersiveInputCapture.swift:434-437 | When Command comes up nothing stays latched: the guest holds exactly what the remaining chords and the pointer need |
| `InputRouter.LatchStays` | SimpleVMApp/Input/ImmersiveInputCapture.swift:438-454 | Otherwise a modifier stays latched exactly if some host modifier is still down and it is no Shift, Control or Option that has just come up |
| `InputRouter.NothingStaysLatched` | SimpleVMApp/Input/ImmersiveInputCapture.swift:417-455 | With Command and Shift down a chord with Control comes and goes, and then Command comes up: the guest holds nothing |
| `InputRouter.GuestHolds` | SimpleVMApp/Input/ImmersiveInputCapture.swift:494-507 | In every state the guest holds a modifier exactly if an active chord, the pointer or, while a host modifier is down, the latch has it |
| `InputRouter.PressAdds` | SimpleVMApp/Input/ImmersiveInputCapture.swift:376-401 | A new key adds its chord and leaves every other one; a repeated or active key changes nothing |
| `InputRouter.OperationMeans` | SimpleVMApp/Input/ImmersiveInputCapture.swift:403-492 | Release takes its own chord away, the pointer has the modifiers of its last beginning, a chord that is sent leaves all as it was, and releasing everything leaves nothing |
| `InputRouter.KeyEventCarries` | SimpleVMApp/Input/ImmersiveInputCapture.swift:547-560 | A key event carries the chord's key code and those of its modifiers that a keyboard has, and is no repetition |
| `InputRouter.ModifierKeys` | SimpleVMApp/Display/QEMUMachineDisplayView.swift:470-480 | The four keys that the router presses for modifiers, and the eight that count as modifiers |
| `InputRouter.LatchHolds` | SimpleVMApp/Input/ImmersiveInputCapture.swift:376-415 | After a key has come and gone, the guest holds exactly what the other chords and the pointer need and, while a host modifier is down, that key's modifiers: nothing that was latched before |
| `InputRouter.TargetHasChord` | SimpleVMApp/Input/ImmersiveInputCapture.swift:499-509 | The modifiers of an active chord are always held |
| `InputRouter.GuestInputRouter.PressKey` | SimpleVMApp/Input/ImmersiveInputCapture.swift:377-397 | Its new state, and its events: modifier flips and then the key going down, or none for a repeat or a key that is down |
| `InputRouter.GuestInputRouter.ReleaseKey` | SimpleVMApp/Input/ImmersiveInputCapture.swift:399-413 | Its new state, and its events: the key going up before modifiers are lifted, or none for an unknown key |
| `InputRouter.GuestInputRouter.UpdateHostModifiers` | SimpleVMApp/Input/ImmersiveInputCapture.swift:420-455 | Its new state: the chords that lost a modifier are released, in whatever order the dictionary gives them, and the latch is reduced |
| `InputRouter.GuestInputRouter.ReleaseLost` | SimpleVMApp/Input/ImmersiveInputCapture.swift:422-433 | Exactly the chords that need a modifier which is up now are dropped |
| `InputRouter.GuestInputRouter.AdoptHost` | SimpleVMApp/Input/ImmersiveInputCapture.swift:434-454 | The latch, the new host modifiers and one event for each modifier that changes |
| `InputRouter.GuestInputRouter.UpdateLatch` | SimpleVMApp/Input/ImmersiveInputCapture.swift:434-453 | The latched modifiers after a change of the host modifiers |
| `InputRouter.GuestInputRouter.ReleaseKeys` | SimpleVMApp/Input/ImmersiveInputCapture.swift:431-433 | Releasing keys one by one equals dropping their chords together |
| `InputRouter.GuestInputRouter.SendOneChord` | SimpleVMApp/Input/ImmersiveInputCapture.swift:462-477 | The key goes down and up between two changes of the modifiers; the state is as before |
| `InputRouter.GuestInputRouter.BeginPointerInteraction` | SimpleVMApp/Input/ImmersiveInputCapture.swift:415-418 | The pointer's modifiers are added with one event for each modifier that changes |
| `InputRouter.GuestInputRouter.EndPointerInteraction` | SimpleVMApp/Input/ImmersiveInputCapture.swift:457-460 | The pointer's modifiers are let go with one event for each modifier that changes |
| `InputRouter.GuestInputRouter.ReleaseEverything` | SimpleVMApp/Input/ImmersiveInputCapture.swift:479-494 | The initial state, with one event for each active chord and each held modifier |
| `InputRouter.GuestInputRouter.Synchronize` | SimpleVMApp/Input/ImmersiveInputCapture.swift:496-528 | Exactly one event for each modifier that changes, releases before presses, and the target is reached |
| `InputRouter.GuestInputRouter.LiftModifiers` | SimpleVMApp/Input/ImmersiveInputCapture.swift:517-521 | The first loop lifts exactly the modifiers that are not in the target |
| `InputRouter.GuestInputRouter.PressModifiers` | SimpleVMApp/Input/ImmersiveInputCapture.swift:522-526 | The second loop presses exactly the missing ones |
| `InputRouter.GuestInputRouter.EmitModifier` | SimpleVMApp/Input/ImmersiveInputCapture.swift:530-545 | The event flips its modifier and tells what is held then |
| `InputRouter.GuestInputRouter.EmitKey` | SimpleVMApp/Input/ImmersiveInputCapture.swift:547-562 | The event, and what it does to the replayed guest keyboard |
| `KeyboardMapping.KeyboardMappingSettings.BothPaths` | SimpleVMApp/Input/KeyboardMappingSettings.swift:50-71 | For every preset, custom rule set and host chord, `chord` is the look-up in the active entries, or else the normalized chord itself |
| `KeyboardMapping.KeyboardMappingSettings.Chord` | SimpleVMApp/Input/KeyboardMappingSettings.swift:50-71 | Custom mappings win over the preset's, which win over the identity |
| `KeyboardMapping.KeyboardMappingSettings.EffectiveExactly` | SimpleVMApp/Input/KeyboardMappingSettings.swift:209-219 | A custom mapping wins; without one the last `add` of the preset counts, unless the preset passes everything through; otherwise nothing is mapped |
| `KeyboardMapping.LessExactly` | SimpleVMApp/Input/KeyboardMappingSettings.swift:225-231 | The order of the list: key codes first, then the highest modifier in which two differ, Command before Option, Control and Shift |
| `KeyboardMapping.KeyboardMappingSettings.ActiveMappingEntries` | SimpleVMApp/Input/KeyboardMappingSettings.swift:221-232 | Strictly sorted, and exactly the effective mappings |
| `KeyboardMapping.KeyboardMappingSettings.Mappings` | SimpleVMApp/Input/KeyboardMappingSettings.swift:209-219 | The preset's entries, which never repeat a key, overridden by the custom mappings |
| `KeyboardMapping.KeyboardMappingSettings.MappingEntries` | SimpleVMApp/Input/KeyboardMappingSettings.swift:234-409 | Strictly sorted, with the last `add` of each host chord, for any table; none for passthrough |
| `KeyboardMapping.KeyboardMappingSettings.Activate` | SimpleVMApp/Input/KeyboardMappingSettings.swift:411-425 | The custom mappings are those of the rules, or none if a rule is wrong |
| `KeyboardMapping.OneListing` | SimpleVMApp/Input/KeyboardMappingSettings.swift:221-232 | A dictionary has only one strictly sorted list, so the order in which it is walked does not matter |
| `KeyboardMapping.SortedEntries` | SimpleVMApp/Input/KeyboardMappingSettings.swift:221-232 | Mapping and sorting a dictionary in any order gives that list |
| `KeyboardMapping.FromUnique` | SimpleVMApp/Input/KeyboardMappingSettings.swift:210-214 | The keys of a sorted listing are unique, and building a dictionary from it gives the dictionary back |
| `KeyboardMapping.ParsedExactly` | SimpleVMApp/Input/CustomKeyboardProfiles.swift:25-72 | Parsing succeeds exactly if every line can be read and no two map the same chord, with exactly the lines' mappings |
| `KeyboardMapping.ErrorNamesTheFirst` | SimpleVMApp/Input/CustomKeyboardProfiles.swift:33-60 | An error names the first line that makes the rules inconsistent |
| `KeyboardMapping.LineOrderDoesNotMatter` | SimpleVMApp/Input/CustomKeyboardProfiles.swift:25-72 | The same lines in another order give the same mappings, or an error as well |
| `KeyboardMapping.OrderDoesNotMatter` | SimpleVMApp/Input/CustomKeyboardProfiles.swift:25-72 | The same for rules that have been read |
| `KeyboardRules.ShortcutReadsBack` | SimpleVMApp/Input/CustomKeyboardProfiles.swift:75-116 | A shortcut written with any names of its modifiers, in any order and however often, and with any white space around the names, reads back as the key with exactly these modifiers |
| `KeyboardRules.ShortcutReadsExactly` | SimpleVMApp/Input/CustomKeyboardProfiles.swift:75-116 | A shortcut can be read exactly if it ends with a key and only modifiers come before that |
| `KeyboardRules.ModifierWords` | SimpleVMApp/Input/CustomKeyboardProfiles.swift:88-104 | The words that name the four modifiers, in any case; no others do |
| `Texts.LowercasedExactly` | SimpleVMApp/Input/CustomKeyboardProfiles.swift:89 | Each capital letter becomes the small one at its place of the alphabet, and all else stays |
| `KeyboardRules.RuleReadsBack` | SimpleVMApp/Input/CustomKeyboardProfiles.swift:31-53 | A rule with white space around it reads as what its two shortcuts say, and cannot be read if one of them cannot |
| `KeyboardRules.OtherLines` | SimpleVMApp/Input/CustomKeyboardProfiles.swift:31-43 | Empty lines and comments are no rules, and a line without an arrow or with two cannot be read |
| `KeyboardMapping.Parse` | SimpleVMApp/Input/CustomKeyboardProfiles.swift:25-72 | From the lines as they are written: strictly sorted entries with the lines' mappings, or the number of the first wrong line |
| `KeyboardProfiles.KeyboardProfileStore.UniqueName` | SimpleVMApp/Input/CustomKeyboardProfiles.swift:239-250 | Ends for every list of profiles with the first free name: the proposed one, or the least numbered one, whose number is at most the number of profiles plus one |
| `KeyboardProfiles.SuffixIsBounded` | SimpleVMApp/Input/CustomKeyboardProfiles.swift:243-248 | If all names tried so far are used, there are at least that many profiles |
| `KeyboardProfiles.AllTriesDiffer` | SimpleVMApp/Input/CustomKeyboardProfiles.swift:239-249 | The names that are tried are all different |
| `KeyboardProfiles.DecimalReadsBack` | SimpleVMApp/Input/CustomKeyboardProfiles.swift:245-249 | A number can be read back from its decimal text |
| `KeyboardProfiles.NumberedExactly` | SimpleVMApp/Input/CustomKeyboardProfiles.swift:243-248 | A numbered name is the proposed one, a blank and the one decimal text of the number |
| `KeyboardProfiles.DecimalIsPlain` | SimpleVMApp/Input/CustomKeyboardProfiles.swift:245-249 | That text has digits only, and no zero in front |
| `IsoDetector.Detect` | Packages/SimpleVMCore/Sources/SimpleVMCore/Images/ISOArchitectureDetector.swift:13-49 | For every file and every division into non-empty chunks the result is that of a search of the whole file; a failing read is thrown unless both markers were found before it |
| `IsoDetector.ClassifyExactly` | Packages/SimpleVMCore/Sources/SimpleVMCore/Images/ISOArchitectureDetector.swift:10-48 | Each of the four results, by which of the texts `BOOTAA64.EFI` and `BOOTX64.EFI` are in the data |
| `IsoDetector.ContainsExactly` | Packages/SimpleVMCore/Sources/SimpleVMCore/Images/ISOArchitectureDetector.swift:22-36 | A marker is found exactly if the data is something, the marker and something else |
| `IsoDetector.ContainsAcross` | Packages/SimpleVMCore/Sources/SimpleVMCore/Images/ISOArchitectureDetector.swift:22-36 | A marker is in the data and the next chunk exactly if it is in the data, or in the overlap and the chunk |
| `IsoDetector.SuffixAcross` | Packages/SimpleVMCore/Sources/SimpleVMCore/Images/ISOArchitectureDetector.swift:36 | The overlap of the overlap and a chunk is the end of everything read, also for chunks shorter than the overlap |
| `Framing.UniquelyDecodable` | Packages/SimpleVMCore/Sources/SimpleVMCore/GuestAgent/GuestAgentProtocol.swift:610-648 | Any sequence of non-empty payloads within 2 MiB is parsed back from its frames, whatever follows them |
| `Framing.ParseExactly` | GuestTools/src/simplevm_guest_tools/protocol.py:38-43 | What is read after any length: the host takes up to 2 MiB, the guest does so too but for nothing at all |
| `CutFrames.OnlySentMessages` | SimpleVMApp/Virtualization/GuestAgentSocketTransport.swift:25-46 | Wherever either side begins to read on a stream of frames, any of which a writer may have cut short: it gets a message that was sent as a whole, at its own place, or nothing that it can take for a message |
| `CutFrames.OnlyWhole` | GuestTools/src/simplevm_guest_tools/protocol.py:38-54 | Whatever a reader takes as length and payload inside one frame, or across the end of a cut one: it is the frame's whole payload, read from its beginning, or no text of an object with a member |
| `CutFrames.StatusIsMessage` | GuestTools/src/simplevm_guest_tools/protocol.py:115-129 | The legacy status request is a message in this sense |
| `CutFrames.InOnePiece` | SimpleVMApp/Virtualization/GuestAgentSocketTransport.swift:141-172 | Bytes without a zero lie inside one written piece, since every frame begins with a zero byte |
| `CutFrames.LeadIsWhite` | GuestTools/src/simplevm_guest_tools/protocol.py:38-54 | Up to three bytes of a header before a part of a message make the text of an object only if they are white space and the message is whole |
| `Framing.EncodingIsInjective` | GuestTools/src/simplevm_guest_tools/protocol.py:26-35 | Different sequences of payloads never give the same bytes |
| `Framing.NumberOfHeader` | GuestTools/src/simplevm_guest_tools/protocol.py:35-40 | The big-endian header reads back as the length |
| `Framing.ReadBack` | GuestTools/src/simplevm_guest_tools/protocol.py:38-54 | However the frames are cut into pieces, the guest's loop reads exactly the payloads that were sent |
| `Framing.Stream.GuestReadLoop` | GuestTools/src/simplevm_guest_tools/daemon.py:105-113 | Reads every whole frame in order until the stream ends |
| `Framing.Stream.GuestReadFrame` | GuestTools/src/simplevm_guest_tools/protocol.py:38-43 | The frame at the front of the stream, or an error for an empty, oversized or incomplete one |
| `Framing.Stream.GuestReadExact` | GuestTools/src/simplevm_guest_tools/protocol.py:80-92 | Exactly the wanted bytes under arbitrary partial reads, or the end of the stream |
| `Framing.Stream.HostReadFrame` | SimpleVMApp/Virtualization/GuestAgentSocketTransport.swift:25-40 | The frame at the front of the stream, or an error for an oversized or incomplete one |
| `Framing.Stream.HostReadExactly` | SimpleVMApp/Virtualization/GuestAgentSocketTransport.swift:174-208 | Exactly the wanted bytes under arbitrary partial and interrupted reads, or the error that ends the stream |
| `Framing.Stream.HostWrite` | SimpleVMApp/Virtualization/GuestAgentSocketTransport.swift:141-172 | Under arbitrary short and interrupted writes the stream gets a prefix of the frame, and the whole frame exactly if the call succeeds |
| `RequestCodec.GuestAcceptsHost` | GuestTools/src/simplevm_guest_tools/protocol.py:95-165 | What the host can encode, the guest accepts as the same request with the same identifier, exactly if it is no hello and the identifier has 1 to 256 bytes |
| `RequestCodec.HostAcceptsGuest` | Packages/SimpleVMCore/Sources/SimpleVMCore/GuestAgent/GuestAgentProtocol.swift:522-546 | Every new envelope that the guest accepts decodes on the host to the same request, and encodes to the same object again |
| `RequestCodec.ValidatedIsEncoded` | Packages/SimpleVMCore/Sources/SimpleVMCore/GuestAgent/GuestAgentProtocol.swift:128-216 | The guest's request validator accepts only what the host's encoder writes |
| `RequestCodec.HostReadsLegacy` | Packages/SimpleVMCore/Sources/SimpleVMCore/GuestAgent/GuestAgentProtocol.swift:536-545 | A legacy request that the guest accepts means the same to the host |
| `RequestCodec.LegacyExactly` | GuestTools/src/simplevm_guest_tools/protocol.py:115-131 | What the guest makes of any object with one key: exactly the four legacy requests are accepted, with empty bodies or the version 1 |
| `RequestCodec.BareRequests` | Packages/SimpleVMCore/Sources/SimpleVMCore/GuestAgent/GuestAgentProtocol.swift:536-545 | A request without an envelope is of version 1, unless it is a hello, which says its version |
| `RequestCodec.HostReadsItself` | Packages/SimpleVMCore/Sources/SimpleVMCore/GuestAgent/GuestAgentProtocol.swift:128-216 | What the host encodes it decodes as the same, exactly if the versions in it fit in 64 bits |
| `RequestCodec.EncodesExactly` | Packages/SimpleVMCore/Sources/SimpleVMCore/GuestAgent/GuestAgentProtocol.swift:201-215 | All requests can be encoded but texts over 1 MiB and sizes out of range |
| `RequestCodec.RequestDecodesExactly` | Packages/SimpleVMCore/Sources/SimpleVMCore/GuestAgent/GuestAgentProtocol.swift:128-170 | Which objects are requests for the host |
| `RequestCodec.OwnIdentifierIsAccepted` | GuestTools/src/simplevm_guest_tools/protocol.py:95-113 | A request with an identifier of the host's own, 36 ASCII characters, is accepted as what it is |
| `RequestCodec.AsciiSize` | SimpleVMApp/Virtualization/GuestAgentSocketTransport.swift:22-25 | ASCII text has one byte for each character |
| `Utf8.EncodedReadsBack` | GuestTools/src/simplevm_guest_tools/protocol.py:107 | The bytes of a character in UTF-8 read back as it, whatever follows them |
| `Utf8.SizeIsExact` | GuestTools/src/simplevm_guest_tools/protocol.py:148 | The size that limits are compared with is how many bytes the text has |
| `Json.StringsDecode` | Packages/SimpleVMCore/Sources/SimpleVMCore/GuestAgent/GuestAgentProtocol.swift:273-329 | A list of strings decodes to itself |
| `Json.AsIntExactly` | Packages/SimpleVMCore/Sources/SimpleVMCore/GuestAgent/GuestAgentProtocol.swift:573-581 | The host takes integers and whole reals for numbers, exactly if they fit in 64 bits |
| `StatusCodec.StatusSurvives` | GuestTools/src/simplevm_guest_tools/daemon.py:32-58 | Every status built from an accepted registration or none, and from any mount state, decodes on the host to what the guest meant |
| `StatusCodec.HostKnows` | GuestTools/src/simplevm_guest_tools/daemon.py:32-58 | What the host knows then, by literal names: versions, system, host name, addresses, distribution and the state of the mount |
| `StatusCodec.HostKnowsSession` | GuestTools/src/simplevm_guest_tools/daemon.py:42-47 | And of a session: its desktop, its type and its three capabilities |
| `StatusCodec.StatusDecodesExactly` | Packages/SimpleVMCore/Sources/SimpleVMCore/GuestAgent/GuestAgentProtocol.swift:273-356 | A status decodes on the host exactly if it has a version and a host name, and nothing in it is of a wrong kind |
| `StatusCodec.OldStatusDecodes` | Packages/SimpleVMCore/Sources/SimpleVMCore/GuestAgent/GuestAgentProtocol.swift:273-356 | The status of an old guest decodes with the rest filled in, and the first of its shared directories as the mount |
| `StatusCodec.ReplyDecodes` | Packages/SimpleVMCore/Sources/SimpleVMCore/GuestAgent/GuestAgentProtocol.swift:397-440 | What the host makes of any object with a type |
| `StatusCodec.MountNames` | Packages/SimpleVMCore/Sources/SimpleVMCore/GuestAgent/GuestAgentProtocol.swift:43-90 | What the host makes of a mount's state |
| `StatusCodec.CapabilitiesExactly` | Packages/SimpleVMCore/Sources/SimpleVMCore/GuestAgent/GuestAgentProtocol.swift:273-356 | Capabilities decode exactly if all are known names |
| `StatusCodec.LegacyStatusSurvives` | GuestTools/src/simplevm_guest_tools/protocol.py:168-172 | A status in the legacy form arrives as well, with its own protocol version and no identifier |
| `StatusCodec.LegacyRepliesDecode` | GuestTools/src/simplevm_guest_tools/protocol.py:168-172 | So do legacy acceptances, failures and hellos; a legacy clipboard text does not decode |
| `StatusCodec.AllCapabilities` | Packages/SimpleVMCore/Sources/SimpleVMCore/GuestAgent/GuestAgentProtocol.swift:311-329 | The decoded capabilities are the three base ones and the session's |
| `StatusCodec.CapabilitiesDecode` | Packages/SimpleVMCore/Sources/SimpleVMCore/GuestAgent/GuestAgentProtocol.swift:273-329 | A list of known capability names decodes to the capabilities they name |
| `StatusCodec.MountDecodes` | Packages/SimpleVMCore/Sources/SimpleVMCore/GuestAgent/GuestAgentProtocol.swift:43-62 | Each mount state of the guest has a defined host state |
| `StatusCodec.AcceptedIsValid` | GuestTools/src/simplevm_guest_tools/ipc.py:79-111 | An accepted registration names only known desktops, session types and capabilities |
| `StatusCodec.AcceptedExactly` | GuestTools/src/simplevm_guest_tools/ipc.py:80-111 | Exactly the registrations of sessions with known names, no capability twice and short texts are accepted, as the sessions that they are of; a whole real or a boolean passes for a user number that it equals |
| `StatusCodec.SharedMountStatus` | GuestTools/src/simplevm_guest_tools/operations.py:17-46 | From the lines of the mount table: which of the four states is reported, by the first line that mounts the share |
| `StatusCodec.MountLineReadsBack` | GuestTools/src/simplevm_guest_tools/operations.py:28-33 | A line that the kernel writes from fields is read as these fields, whatever white space ends it, if none of those before the mark is a lone hyphen |
| `StatusCodec.MountsShareExactly` | GuestTools/src/simplevm_guest_tools/operations.py:28-35 | Of such lines exactly those mount the share whose fifth field is its mount point |
| `StatusCodec.PassedOnDecodes` | GuestTools/src/simplevm_guest_tools/daemon.py:94-101 | A helper's reply that the daemon passes on decodes on the host, exactly except for a failure without a proper message or code |
| `Daemon.Exchange` | GuestTools/src/simplevm_guest_tools/daemon.py:105-113 | A whole exchange: the guest takes what the host encodes as the same request, and its reply passes the host's version and identifier checks and means what the dispatch of that request means |
| `Daemon.HostUnderstands` | GuestTools/src/simplevm_guest_tools/daemon.py:60-103 | The daemon replies to any request in any situation, exactly unless it asks the session helper and that one's reply is nested too deeply; every reply decodes on the host to what it means, except a session helper's failure that is not properly written, which does not decode |
| `Daemon.HelperObjectArrives` | GuestTools/src/simplevm_guest_tools/daemon.py:83-102 | From an object that the session helper sends the host learns acceptance, a text of at most 1 MiB or a failure with its code and message, as the object says; exactly all other objects are reported as invalid |
| `Daemon.NoHelperObjectArrives` | GuestTools/src/simplevm_guest_tools/ipc.py:119-131 | Without a helper, or after a frame that cannot be read or parsed, the host learns that the session is unavailable, and which of the two it was |
| `Daemon.PowerArrives` | GuestTools/src/simplevm_guest_tools/daemon.py:64-69 | The host learns that the guest goes down exactly if the command for it has succeeded, and otherwise why not, in at most 512 characters |
| `Daemon.MountArrives` | GuestTools/src/simplevm_guest_tools/daemon.py:70-82 | The host learns that the share is mounted, or that mounting has failed and why |
| `Daemon.MountReplyTells` | GuestTools/src/simplevm_guest_tools/daemon.py:70-82 | With both replies goes the state of the mount, mounted or failed, and the error |
| `Daemon.AcceptedNamesRequest` | GuestTools/src/simplevm_guest_tools/daemon.py:68-82 | An accepted reply of the daemon itself names the request by the type with which the host has sent it |
| `Daemon.HandleMount` | GuestTools/src/simplevm_guest_tools/daemon.py:70-82 | The host is told that the share is mounted exactly if it was visible before, or is visible after commands of which none raised an exception |
| `Daemon.MountSharedDirectory` | GuestTools/src/simplevm_guest_tools/operations.py:49-92 | Reports the share as mounted exactly then, otherwise an occupied mount point or an error; no command runs on a mounted directory, and the second one exactly if the first fails |
| `SessionAccept.AcceptLoop` | GuestTools/src/simplevm_guest_tools/ipc.py:56-77 | The loop is alive exactly if no arrival has ended it, and has the session of the last peer that was accepted; a registration frame may be unreadable, malformed or nested too deeply |
| `SessionAccept.SessionExactly` | GuestTools/src/simplevm_guest_tools/ipc.py:64-75 | Only an unprivileged peer with a registration that is read and accepted has a session |
| `SessionAccept.EndsExactly` | GuestTools/src/simplevm_guest_tools/ipc.py:58-77 | Silence, privileged peers and unreadable frames do not end the loop; a failing listener does, and text that is nested too deeply even if it is no JSON |
| `SessionAccept.SurvivesExactlyIf` | GuestTools/src/simplevm_guest_tools/ipc.py:65-105 | A peer's frame ends the loop exactly if it is nested more deeply than the JSON parser can descend, or its registration is right up to the capabilities and has a list or an object among these |
| `SessionAccept.RaisesExactlyIf` | GuestTools/src/simplevm_guest_tools/ipc.py:80-111 | Exactly for which registrations the validator raises a `TypeError` |
| `SessionAccept.NestedFrameEndsLoop` | GuestTools/src/simplevm_guest_tools/protocol.py:43-51 | Whatever the limit is, a small frame that is nested more deeply ends the loop: the `RecursionError` passes both handlers |
| `SessionAccept.ListCapabilityEndsLoop` | GuestTools/src/simplevm_guest_tools/ipc.py:98-105 | Such a registration: `[[]]` as capabilities |
| `SessionHelper.OwnRegistrationAccepted` | GuestTools/src/simplevm_guest_tools/user_helper.py:46-56 | The broker accepts a helper's registration as what it says, exactly if the distribution texts have at most 128 bytes |
| `SessionHelper.OwnRegistrationJoins` | GuestTools/src/simplevm_guest_tools/ipc.py:65-75 | The accept loop installs the session of such a helper, if the parser can descend into two containers |
| `SessionHelper.HostLearnsCapabilities` | GuestTools/src/simplevm_guest_tools/user_helper.py:27-44 | From the session's environment through registration, broker, status and decoding: the host sees the clipboard exactly with a Wayland display and both tools, and resizing exactly in a live Hyprland session with its tool |
| `SessionHelper.HostLearnsDesk` | GuestTools/src/simplevm_guest_tools/user_helper.py:14-56 | And the desktop, the session type and the distribution, from the environment's texts and variables |
| `HostRequests.NoMisattributedReply` | SimpleVMApp/Virtualization/GuestAgentSocketTransport.swift:25-63 | In every run with timeouts, losses and late frames, a guest of version 2 makes each request return the response of the one dispatch of that same request |
| `HostRequests.LegacyRepliesCanBeMisattributed` | SimpleVMApp/Virtualization/GuestAgentSocketTransport.swift:58-62 | With a legacy guest this fails: a late reply without identifier is returned for another request |
| `HostRequests.AlwaysSound` | SimpleVMApp/Virtualization/GuestAgentSocketTransport.swift:47-63 | The invariant behind it holds in every reachable state |
| `HostRequests.StepSound` | SimpleVMApp/Virtualization/GuestAgentSocketTransport.swift:47-63 | Each action keeps it |
| `HostRequests.Conserved` | SimpleVMApp/Virtualization/GuestAgentSocketTransport.swift:17-63 | In every run nothing is duplicated or made up: each request is on its way, dispatched once or lost, and each reply is on its way, read once or lost |
| `HostRequests.EndsOnce` | SimpleVMApp/Virtualization/GuestAgentSocketTransport.swift:17-63 | A request ends once: after a timeout or a reply it waits no more, and its result, or that it has none, stays so |
| `HostRequests.Check` | SimpleVMApp/Virtualization/GuestAgentSocketTransport.swift:47-63 | Exactly which replies pass the version and identifier checks |
| `SessionBroker.EachCallGetsItsReply` | GuestTools/src/simplevm_guest_tools/ipc.py:119-140 | In every interleaving of calls, timeouts, replies that raise, reconnections and slow helpers the connection is empty between calls and each call that has read a reply has read that to its own request |
| `SessionBroker.StepSound` | GuestTools/src/simplevm_guest_tools/ipc.py:56-77 | Each action keeps the invariant that a connection carries at most the frame of the call that holds the lock |
| `SessionBroker.SessionBroker.Call` | GuestTools/src/simplevm_guest_tools/ipc.py:119-131 | Returns the reply to its own request, closes the connection, or keeps it and lets an exception escape, the last exactly if the reply is nested too deeply; nothing is left behind on the connection, and the lock is given back |
| `SessionBroker.SessionBroker.Enter` | GuestTools/src/simplevm_guest_tools/ipc.py:120-122 | Without a connection the call ends at once and does not keep the lock |
| `SessionBroker.SessionBroker.ReadFrame` | GuestTools/src/simplevm_guest_tools/ipc.py:126 | The frame that arrives under the lock is the reply to the call's request, also if its nesting makes the reading raise |
| `SessionBroker.SessionBroker.Abandon` | GuestTools/src/simplevm_guest_tools/ipc.py:129-131 | An error closes the connection and gives the lock back |
| `SessionBroker.SessionBroker.Install` | GuestTools/src/simplevm_guest_tools/ipc.py:72-75 | A new connection replaces the old one |
| `SessionBroker.SessionBroker.StopServing` | GuestTools/src/simplevm_guest_tools/ipc.py:45-50 | Stopping closes the connection |
| `Clipboard.QuietAfterThree` | SimpleVMApp/Virtualization/GuestToolsCoordinator.swift:344-417 | Without changes from outside and with readable clipboards, three steps are enough: whatever becomes of the writes, no later step changes a clipboard or requests a write |
| `Clipboard.QuietStays` | SimpleVMApp/Virtualization/GuestToolsCoordinator.swift:344-417 | A quiet world stays as it is for ever |
| `Clipboard.StepTowardsQuiet` | SimpleVMApp/Virtualization/GuestToolsCoordinator.swift:344-417 | One step is quiet afterwards, or has skipped an oversized text, or has used up one of three attempts |
| `Clipboard.EachChangeAtMostThreeWrites` | SimpleVMApp/Virtualization/GuestToolsCoordinator.swift:349-399 | In every run, with changes between the polls and during them, each change of the host's clipboard causes at most three writes: that many can follow it, up to and including the poll in which the next change happens, and none can come before the first |
| `Clipboard.WritesPerChange` | SimpleVMApp/Virtualization/GuestToolsCoordinator.swift:368-399 | Until the host's clipboard is changed again, there are no more writes than the present state allows |
| `Clipboard.AtMostThreeWrites` | SimpleVMApp/Virtualization/GuestToolsCoordinator.swift:368-399 | So the writes of a whole run are at most three times the changes |
| `Clipboard.StepWithinBudget` | SimpleVMApp/Virtualization/GuestToolsCoordinator.swift:368-399 | A poll uses up what it writes, unless the host's clipboard is changed during it |
| `Clipboard.EqualExactlyIf` | SimpleVMApp/Virtualization/GuestToolsCoordinator.swift:264-297 | After every undisturbed poll the clipboards are equal exactly if the guest accepted a write in it, or they were equal by then, or the guest's text was news to the guard |
| `Clipboard.ReachablePending` | SimpleVMApp/Virtualization/GuestToolsCoordinator.swift:344-417 | In every run a pending text that is not outdated is the host's, which the condition above builds on |
| `Clipboard.HostCopyStaysExactlyIf` | SimpleVMApp/Virtualization/GuestToolsCoordinator.swift:368-416 | For every poll of every run, whatever is copied on either side during its two awaits: the last host copy stays, to be looked at in the next poll, exactly unless the guest is read, its text at that time is within 1 MiB and new to the guard as it stands after the write, and it is a different text |
| `Clipboard.HostCopyIsLost` | SimpleVMApp/Virtualization/GuestToolsCoordinator.swift:368-416 | In all other cases the guest's text takes its place, nothing is pending, and nothing is written until the host's clipboard is changed again; all is quiet, unless the guest's clipboard has changed as well |
| `Clipboard.GuestCopyArrives` | SimpleVMApp/Virtualization/GuestToolsCoordinator.swift:273-297 | Whatever was applied earlier: once the guest has accepted a text, the next text copied there is on the host after the next poll, exactly if it is within 1 MiB and has another fingerprint |
| `Clipboard.HostCopyArrives` | SimpleVMApp/Virtualization/GuestToolsCoordinator.swift:264-297 | Once the guest's text has been taken, a text copied on the host reaches the guest, exactly if it is within 1 MiB and its fingerprint is neither that of the guest's text nor that of the text sent last |
| `Clipboard.RemembersLastAccepted` | SimpleVMApp/Virtualization/GuestToolsCoordinator.swift:273-279 | In every run the synchronizer remembers the fingerprint of exactly the text of the last write that the guest has accepted |
| `Clipboard.ThreeAttempts` | SimpleVMApp/Virtualization/GuestToolsCoordinator.swift:368-399 | The bound is reached: a text that the guest does not accept is written exactly three times, whatever has been tried before |
| `Clipboard.OversizedIsSkipped` | SimpleVMApp/Virtualization/GuestToolsCoordinator.swift:349-367 | A host text over 1 MiB is skipped without a write or a read |
| `Clipboard.CopyWhileReadingIsLost` | SimpleVMApp/Virtualization/GuestToolsCoordinator.swift:401-416 | An input: a host copy made while the guest's text is awaited is overwritten, and all is quiet |
| `Clipboard.CopyWhileWritingIsLost` | SimpleVMApp/Virtualization/GuestToolsCoordinator.swift:380-416 | Another: a host copy made while the third write is awaited, which is rejected like the two before it |
| `Clipboard.CopyAfterWriteIsLost` | SimpleVMApp/Virtualization/GuestToolsCoordinator.swift:380-416 | Another: something is copied on the guest during a write that is accepted, and on the host during the read |
| `Clipboard.CopyingAgainIsNotApplied` | SimpleVMApp/Virtualization/GuestToolsCoordinator.swift:290-297 | The other direction: the host's old text, copied again on the guest, is not applied |
| `Clipboard.CopyingAgainIsNotSent` | SimpleVMApp/Virtualization/GuestToolsCoordinator.swift:268-297 | They need not become equal: an old text that is copied again after a text from the guest is not sent |
| `Clipboard.GuestClipboardSynchronizer.Synchronize` | SimpleVMApp/Virtualization/GuestToolsCoordinator.swift:344-417 | Both clipboards and all fields after one poll, with copies by others during its two awaits, and whether it requested a write |
| `ConnectionCompletion.ResumedOnce` | SimpleVMApp/Virtualization/AppleGuestAgentTransport.swift:81-119 | In every interleaving of one installation and any number of completions the continuation is resumed exactly once if both happened, with the first result, and exactly the later connections are closed |
| `ConnectionCompletion.OnlyCloses` | SimpleVMApp/Virtualization/AppleGuestAgentTransport.swift:100-106 | Only connections that a completion brought are closed |
| `ConnectionCompletion.SocketConnectionCompletion.InstallContinuation` | SimpleVMApp/Virtualization/AppleGuestAgentTransport.swift:81-96 | The section under the lock, and what it decides |
| `ConnectionCompletion.SocketConnectionCompletion.CompleteWith` | SimpleVMApp/Virtualization/AppleGuestAgentTransport.swift:98-119 | The section under the lock, and what it decides |
| `ConnectionCompletion.SocketConnectionCompletion.Perform` | SimpleVMApp/Virtualization/AppleGuestAgentTransport.swift:81-119 | A run of the object is a run of the sections |
| `ImageDownload.ImageDownloadClient.Perform` | Packages/SimpleVMCore/Sources/SimpleVMCore/Images/ImageDownloadClient.swift:79-226 | Over every serial sequence of new downloads and callbacks each continuation is resumed at most once, and exactly once when its task has completed |
| `ImageDownload.ImageDownloadClient.DidFinishDownloading` | Packages/SimpleVMCore/Sources/SimpleVMCore/Images/ImageDownloadClient.swift:130-195 | Success exactly if the status, the digest and the needed file operations are right, and then the destination holds the verified data; a failure leaves it as it was or absent, and names the response or digest that was wrong |
| `ImageDownload.ImageDownloadClient.ReceiveFile` | Packages/SimpleVMCore/Sources/SimpleVMCore/Images/ImageDownloadClient.swift:141-180 | The same for the part before the continuation is resumed |
| `ImageDownload.ImageDownloadClient.Verify` | Packages/SimpleVMCore/Sources/SimpleVMCore/Images/ImageDownloadClient.swift:166-188 | Only data with the expected digest reaches the destination |
| `ImageDownload.ImageDownloadClient.DidComplete` | Packages/SimpleVMCore/Sources/SimpleVMCore/Images/ImageDownloadClient.swift:197-216 | After it the download has been resumed exactly once |
| `ImageDownload.ImageDownloadClient.Finish` | Packages/SimpleVMCore/Sources/SimpleVMCore/Images/ImageDownloadClient.swift:218-226 | Only the first call for a download resumes its continuation |
| `ImageDownload.ImageDownloadClient.Download` | Packages/SimpleVMCore/Sources/SimpleVMCore/Images/ImageDownloadClient.swift:79-103 | A new download waits, with its expected digest in lower case |

## Left out

- FileSystem.Disk.Replace: `replaceItemAt` is one atomic step here; its own temporary items are not modelled.
- FileSystem.Disk.Clone: `copyItem`, the fallback in `copyFirmwareState`, is taken to have the same possible results.
- SnapshotStore.Store.Create: the creation date of a snapshot is not modelled, the new identifier is a parameter that is unused on the disk, and encoding the metadata does not fail apart from writing it.
- SnapshotStore.Store.Restore: snapshot records are those that `create` writes; records edited by hand are not modelled.
- MachineStore.ManagedMachineStore.CreateFiles: a base disk is a plain file apart from the new machine and the layout directories; when the size of a clone cannot be read, the source counts it as 0 and this model does not.
- MachineStore.ManagedMachineStore.CloneFiles: the source machine's paths lie in its own directory, as `createFiles` returns them, and the new identifier differs from the source's.
- StorageLayout.RelativePathResolves: symbolic links and the `/private` prefix are not resolved, and characters are compared one by one without Unicode equivalence.
- InputRouter.GuestInputRouter.Perform: calls of the router are atomic, as they are on the main actor; the event tap, the Dock-swipe gestures and native remapping around it are not modelled.
- KeyboardMapping.KeyboardMappingSettings.Chord: the bookkeeping of the Hyprland workspace in the user defaults is not modelled.
- KeyboardMapping.KeyboardMappingSettings.MappingEntries: the tables of the presets are a parameter, so everything holds for all tables.
- KeyboardMapping.KeyboardMappingSettings.Activate: the choice of the preset from the machine's profile and name is a parameter.
- KeyboardMapping.Parse: the text comes cut into lines; white space and letter case are those of ASCII; the key-name table is a parameter, so everything holds for all tables.
- KeyboardProfiles.KeyboardProfileStore.UniqueName: saving profiles in the user defaults and preserving unknown entries are not modelled.
- IsoDetector.Detect: opening the file is not modelled; reads that fail are.
- Framing.Stream.HostWrite: the deadline is the end of the list of calls, and the raw error codes other than a closed pipe are one error. Of the guest's writes only what they can leave on the stream is modelled (`CutFrames`).
- RequestCodec.GuestAcceptsHost: JSON is modelled as values, so text syntax, escaping, duplicate names and lone surrogates are not; escaping can make the frame of a text under 1 MiB too large.
- StatusCodec.SharedMountStatus: white space is that of ASCII; a table that is not UTF-8 is not modelled.
- SessionHelper.HostLearnsCapabilities: the environment comes as the texts and flags that the helper looks at.
- Daemon.MountSharedDirectory: the results of the `mount` commands and of the looks at the mount table are parameters, and error texts come without surrounding white space.
- Daemon.Exchange: what the host makes of legacy replies is modelled (`StatusCodec.LegacyRepliesDecode`), but no exchange with them, since this host sends no legacy requests; the parser can descend into the requests of the host.
- Daemon.HostUnderstands: texts with lone surrogates, which Python cannot encode again, and replies that are too large for a frame once they are escaped are not modelled; with either there is no reply.
- HostRequests.NoMisattributedReply: works on whole frames. `CutFrames.OnlySentMessages` is why it may: a frame that is cut short, or read from its middle, gives no message, so it only adds losses. Identifiers are assumed to be distinct.
- CutFrames.OnlySentMessages: messages are compact UTF-8 texts without a byte order mark whose first name begins with a letter, as both encoders write them; of the grammar of JSON it uses that a text has no zero bytes, how it begins, and where its brackets are closed.
- SessionBroker.EachCallGetsItsReply: a transition system on values, because the interleaving of threads is the point; the class beside it runs one call with the lock held. Checking the peer's credentials and reading the registration happen before a connection enters the model.
- Clipboard.GuestClipboardSynchronizer.Synchronize: stopping and starting during a poll and the notices are not modelled. Collisions of the FNV fingerprint are covered by taking it as an arbitrary function.
- ConnectionCompletion.ResumedOnce: the actions after the unlock are collected and not ordered.
- ImageDownload.ImageDownloadClient.DidFinishDownloading: progress reports, cancellation and crashes are not modelled; SHA-256 is an arbitrary function.
- `hdiutil`, `gzip`, downloads of the catalog, QEMU and Apple Virtualization, Karabiner, views, windows and rendering are foreign calls or user interface.
- The life cycle of running machines (`QEMUMachineRuntime`, `AppModel`): exclusion between a running machine and its snapshots depends on controllers that are not part of this model.
- Key-code tables, display names, MAC addresses and similar finite tables would only add easy members.
- `systemctl` and the helper's commands are calls of processes; their results are parameters.
