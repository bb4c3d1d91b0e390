/** Where a machine keeps its files, and the part of its state that a snapshot captures. */
module MachineFiles {
  import opened FileSystem

  const MACHINES := Text("Machines")
  const SNAPSHOTS := Text("Snapshots")
  const METADATA := Text("snapshots.json")
  const STATE := Text("State")
  const CURRENT := Text("current")
  const DISK := Text("disk.raw")
  const QEMU := Text("QEMU")
  const FIRMWARE_NAMES: seq<Name> := [Text("efi-code.fd"), Text("efi-vars.fd"), Text("tpm-state")]
  const FIRMWARE: set<Name> := {Text("efi-code.fd"), Text("efi-vars.fd"), Text("tpm-state")}

  /** `disk` is relative to the storage root. */
  datatype Machine = Machine(id: nat, windows: bool, disk: Path)

  function MachineDirectory(machine: nat): Path {
    [MACHINES, Uuid(machine)]
  }

  function SnapshotsDirectory(machine: nat): Path {
    [MACHINES, Uuid(machine), SNAPSHOTS]
  }

  /** The disk lies where `ManagedMachineStore.createFiles` puts it: directly in the machine's directory, or
      in its current state generation. */
  predicate Managed(m: Machine) {
    || m.disk == MachineDirectory(m.id) + [DISK]
    || m.disk == MachineDirectory(m.id) + [STATE, CURRENT, DISK]
  }

  // ----- the captured state

  /** `r` is a path of the Windows state that `cloneWindowsState` copies, for the firmware files `names`. */
  predicate InImage(t: Files, names: set<Name>, r: Path) {
    || r == []
    || (r in t && Within([DISK], r))
    || (r in t && |r| >= 2 && r[0] == QEMU && r[1] in names)
    || (r == [QEMU] && HasFirmware(t, names))
  }

  predicate HasFirmware(t: Files, names: set<Name>) {
    exists q :: q in t && |q| >= 2 && q[0] == QEMU && q[1] in names
  }

  /** The disk and those of the firmware files `names` that are there, and nothing else. */
  function Image(t: Files, names: set<Name>): (i: Files)
    ensures forall r :: r in i <==> InImage(t, names, r)
    ensures forall r :: r in i && r != [] && r != [QEMU] ==> r in t && i[r] == t[r]
    ensures forall r :: r in i && (r == [] || r == [QEMU]) ==> i[r] == Directory
  {
    map r | r in t.Keys + {[], [QEMU]} && InImage(t, names, r) ::
      if r == [] || r == [QEMU] then Directory else t[r]
  }

  /** Cloning an image gives the same image. */
  lemma ImageOfImage(t: Files, names: set<Name>)
    ensures Image(Image(t, names), names) == Image(t, names)
  {
    var i := Image(t, names);
    if HasFirmware(t, names) {
      var q :| q in t && |q| >= 2 && q[0] == QEMU && q[1] in names;
      assert q in i;
    }
    if HasFirmware(i, names) {
      var q :| q in i && |q| >= 2 && q[0] == QEMU && q[1] in names;
      assert q in t;
    }
    assert HasFirmware(i, names) == HasFirmware(t, names);
    assert forall r :: InImage(i, names, r) <==> InImage(t, names, r);
  }

  /** An image keeps the disk and every firmware file, including which of them are absent. */
  lemma ImageKeeps(f: Files, p: Path, name: Path)
    requires name == [DISK] || exists n :: n in FIRMWARE && name == [QEMU, n]
    ensures TreeAt(Image(TreeAt(f, p), FIRMWARE), name) == TreeAt(f, p + name)
  {
    var t := TreeAt(f, p);
    TreeOfTree(f, p, name);
    ImageTree(t, name);
  }

  /** It has nothing else: what is in it is the disk, a firmware file, part of one of these or a directory above them. */
  lemma ImageHasOnly(t: Files, r: Path)
    requires r in Image(t, FIRMWARE) && r != [] && r != [Text("QEMU")]
    ensures r in t && Image(t, FIRMWARE)[r] == t[r]
    ensures || Within([Text("disk.raw")], r)
            || Within([Text("QEMU"), Text("efi-code.fd")], r)
            || Within([Text("QEMU"), Text("efi-vars.fd")], r)
            || Within([Text("QEMU"), Text("tpm-state")], r)
  {
    if |r| >= 2 {
      assert r[..2] == [r[0], r[1]];
    }
  }

  lemma ImageTree(t: Files, name: Path)
    requires name == [DISK] || exists n :: n in FIRMWARE && name == [QEMU, n]
    ensures TreeAt(Image(t, FIRMWARE), name) == TreeAt(t, name)
  {
    var i := Image(t, FIRMWARE);
    forall r
      ensures name + r in i <==> name + r in t
      ensures name + r in i ==> i[name + r] == t[name + r]
    {
      assert (name + r)[0] == name[0];
      assert name + r in i <==> InImage(t, FIRMWARE, name + r);
      if name == [DISK] {
        assert Within([DISK], name + r);
      } else {
        assert (name + r)[1] == name[1];
      }
    }
  }
}
