/** What the files of a new machine have to do with its snapshots, by the names that both sides use. */
module CreatedMachines {
  import opened Wrappers
  import opened FileSystem
  import opened MachineFiles
  import opened SnapshotStore
  import opened SnapshotRuns
  import opened MachineStore

  /** Where a machine's files are put. */
  predicate IsPlaced(machine: nat, windows: bool, backend: Backend, s: MachineStorage) {
    var directory := [Text("Machines"), Uuid(machine)] + if windows then [Text("State"), Text("current")] else [];
    && s.disk == directory + [Text("disk.raw")]
    && s.backendState == directory + [if backend.Qemu? then Text("QEMU") else Text("Apple")]
  }

  lemma CreatedIsPlaced(f: Files, g: Files, root: Path, machine: nat, requested: nat, windows: bool, backend: Backend,
                        base: Option<Path>, s: MachineStorage)
    requires requested < WORD
    requires CreateFilesEffect(f, g, root, machine, requested, windows, backend, base, Returned(s))
    ensures IsPlaced(machine, windows, backend, s)
  {
  }

  lemma ClonedIsPlaced(f: Files, g: Files, root: Path, source: Machine, backendState: Path, backend: Backend,
                       requested: nat, destination: nat, s: MachineStorage, clean: bool)
    requires requested < WORD
    requires CloneEffect(f, g, root, source, backendState, backend, requested, destination, Returned(s), clean)
    ensures IsPlaced(destination, source.windows, backend, s)
  {
  }

  /** The backend's directory lies beside the disk. */
  lemma BesideTheDisk(machine: nat, windows: bool, backend: Backend, s: MachineStorage)
    requires IsPlaced(machine, windows, backend, s)
    ensures s.disk != [] && Managed(Machine(machine, windows, s.disk))
    ensures windows ==> forall root :: IsGeneration(root, Machine(machine, windows, s.disk))
    ensures s.backendState == Parent(s.disk) + [Text(if backend == Qemu then "QEMU" else "Apple")]
  {
    assert s.disk == if windows then MachineDirectory(machine) + [STATE, CURRENT, DISK] else MachineDirectory(machine) + [DISK];
  }

  /** A new disk has the least multiple of 512 bytes that is enough, or the base image's size if that is more; it
      begins with the base image and has zeros behind it. */
  lemma CreatedDiskHolds(f: Files, g: Files, root: Path, machine: nat, requested: nat, windows: bool, backend: Backend,
                         base: Option<Path>, s: MachineStorage, least: nat)
    requires requested < WORD && IsLeastMultiple(requested, least)
    requires CreateFilesEffect(f, g, root, machine, requested, windows, backend, base, Returned(s))
    ensures base.Some? ==> IsImage(f, base.value)
    ensures IsImage(g, root + s.disk)
    ensures var image := if base.Some? then f[base.value].content.data else [];
            Holds(g[root + s.disk].content.data, image, least)
  {
    AlignedIsLeast(requested, least);
    CreatedData(f, g, root, machine, requested, windows, backend, base, s);
  }

  predicate Holds(data: seq<nat>, image: seq<nat>, least: nat) {
    && |data| == (if |image| < least then least else |image|)
    && forall i :: 0 <= i < |data| ==> data[i] == if i < |image| then image[i] else 0
  }

  lemma CreatedData(f: Files, g: Files, root: Path, machine: nat, requested: nat, windows: bool, backend: Backend,
                    base: Option<Path>, s: MachineStorage)
    requires requested < WORD
    requires CreateFilesEffect(f, g, root, machine, requested, windows, backend, base, Returned(s))
    ensures IsImage(g, root + s.disk) && DiskData(f, base, requested, g[root + s.disk].content.data)
  {
    CreatedNodes(f, g, MachineAt(root, machine), requested, windows, backend, base, s.capacity);
    CreatedPaths(root, machine, windows, DISK, s.disk);
  }

  predicate IsFirmware(name: Name) {
    name == Text("efi-code.fd") || name == Text("efi-vars.fd") || name == Text("tpm-state")
  }

  /** A snapshot of a Windows machine with QEMU captures the firmware where its creation has put the directory for it. */
  lemma FirmwareIsCaptured(f: Files, root: Path, machine: nat, s: MachineStorage, name: Name)
    requires IsPlaced(machine, true, Qemu, s) && IsFirmware(name)
    ensures s.disk != []
    ensures TreeAt(Captured(f, root, Machine(machine, true, s.disk)), [Text("QEMU"), name]) ==
            TreeAt(f, root + s.backendState + [name])
  {
    BesideTheDisk(machine, true, Qemu, s);
    FirmwarePlace(root, machine, s, name);
    assert name in FIRMWARE;
    ImageKeeps(f, root + Parent(s.disk), [QEMU, name]);
  }

  lemma FirmwarePlace(root: Path, machine: nat, s: MachineStorage, name: Name)
    requires IsPlaced(machine, true, Qemu, s)
    ensures s.disk != [] && root + Parent(s.disk) + [QEMU, name] == root + s.backendState + [name]
  {
    BesideTheDisk(machine, true, Qemu, s);
    var p := Parent(s.disk);
    assert s.backendState == p + [QEMU];
    assert root + p + [QEMU, name] == root + (p + [QEMU]) + [name];
  }

  /** Whatever happens to it after the snapshot is taken, a returned restore brings it back, and the disk too. */
  lemma FirmwareComesBack(events: seq<Event>, disks: seq<Files>, root: Path, machine: nat, s: MachineStorage,
                          snapshot: MachineSnapshot, name: Name)
    requires IsPlaced(machine, true, Qemu, s) && IsFirmware(name) && s.disk != []
    requires var m := Machine(machine, true, s.disk); Managed(m) && History(events, disks, root, m)
    requires |events| >= 2 && events[0].Create? && events[0].created == Returned(snapshot)
    requires var last := events[|events| - 1]; last.Restore? && last.restored == snapshot && last.result.Returned?
    requires forall e :: e in events ==> !Deletes(e, snapshot.id)
    ensures TreeAt(disks[|events|], root + s.backendState + [name]) == TreeAt(disks[0], root + s.backendState + [name])
    ensures TreeAt(disks[|events|], root + s.disk) == TreeAt(disks[0], root + s.disk)
  {
    var m := Machine(machine, true, s.disk);
    BesideTheDisk(machine, true, Qemu, s);
    RoundTrip(events, disks, root, m, snapshot);
    FirmwarePlace(root, machine, s, name);
    assert name in FIRMWARE;
  }

  /** A clone without a failed call has each of the files that hold a machine's state, exactly if its source has it. */
  lemma CloneHasState(f: Files, g: Files, root: Path, source: Machine, backendState: Path, backend: Backend,
                      requested: nat, destination: nat, s: MachineStorage, name: string)
    requires requested < WORD
    requires CloneEffect(f, g, root, source, backendState, backend, requested, destination, Returned(s), true)
    requires name in {"efi-variable-store", "efi-code.fd", "efi-vars.fd", "tpm-state", "linux-kernel", "linux-initrd",
                      "linux-command-line"}
    ensures Exists(g, root + s.backendState + [Text(name)]) <==> Exists(f, root + backendState + [Text(name)])
    ensures Exists(f, root + backendState + [Text(name)]) ==>
              TreeAt(g, root + s.backendState + [Text(name)]) == TreeAt(f, root + backendState + [Text(name)])
  {
    assert STATE_FILES[0] in STATE_FILES && STATE_FILES[1] in STATE_FILES && STATE_FILES[2] in STATE_FILES
           && STATE_FILES[3] in STATE_FILES && STATE_FILES[4] in STATE_FILES && STATE_FILES[5] in STATE_FILES
           && STATE_FILES[6] in STATE_FILES;
    if Exists(f, root + backendState + [Text(name)]) {
      SameTreeExists(f, g, root + backendState + [Text(name)], root + s.backendState + [Text(name)]);
    }
  }

  lemma SameTreeExists(f: Files, g: Files, p: Path, q: Path)
    requires TreeAt(f, p) == TreeAt(g, q) && Exists(f, p)
    ensures Exists(g, q)
  {
    var r :| r in f && Within(p, r);
    assert r == p + r[|p|..];
    assert r[|p|..] in TreeAt(f, p);
    assert Within(q, q + r[|p|..]);
  }
}
