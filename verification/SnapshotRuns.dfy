/** Whole histories of one machine's snapshots, from the effects of the single operations. */
module SnapshotRuns {
  import opened Wrappers
  import opened FileSystem
  import opened MachineFiles
  import opened SnapshotStore

  /**
   One event of a history, with its outcome.  `Elsewhere` is anything that leaves the machine's snapshots
   directory alone: the running guest, edits of the machine, other machines and their snapshots.
   */
  datatype Event =
    | Create(name: string, id: nat, created: Completion<MachineSnapshot>)
    | Restore(restored: MachineSnapshot, token: nat, result: Completion<()>)
    | Delete(deleted: MachineSnapshot, outcome: Completion<()>)
    | Elsewhere

  predicate IsNew(f: Files, root: Path, machine: nat, id: nat) {
    && !Exists(f, StateSlot(root, machine, id))
    && !Exists(f, DiskSlot(root, machine, id))
    && (Listed(f, root, machine).Ok? ==> forall s :: s in Listed(f, root, machine).value ==> s.id != id)
  }

  ghost predicate Step(e: Event, f: Files, g: Files, root: Path, m: Machine)
    requires Managed(m)
  {
    match e
    case Create(name, id, r) => IsNew(f, root, m.id, id) && CreateEffect(f, g, root, m, name, id, r)
    case Restore(s, token, r) => IsRecord(m.id, s) && RestoreEffect(f, g, root, m, s, token, r)
    case Delete(s, r) => IsRecord(m.id, s) && DeleteEffect(f, g, root, m.id, s, r)
    case Elsewhere => TreeAt(f, SnapshotsAt(root, m.id)) == TreeAt(g, SnapshotsAt(root, m.id))
  }

  /** `disks[i]` is the disk before the event `events[i]`. */
  ghost predicate History(events: seq<Event>, disks: seq<Files>, root: Path, m: Machine)
    requires Managed(m)
  {
    && |disks| == |events| + 1
    && forall i :: 0 <= i < |events| ==> Step(events[i], disks[i], disks[i + 1], root, m)
  }

  predicate Deletes(e: Event, id: nat) {
    e.Delete? && e.deleted.id == id
  }

  // ----- what is kept

  /** Restoring a machine leaves its snapshots alone. */
  lemma RestoreKeepsSnapshots(f: Files, g: Files, root: Path, m: Machine, s: MachineSnapshot, token: nat,
                              r: Completion<()>)
    requires Managed(m) && IsRecord(m.id, s) && RestoreEffect(f, g, root, m, s, token, r)
    ensures TreeAt(f, SnapshotsAt(root, m.id)) == TreeAt(g, SnapshotsAt(root, m.id))
  {
    if m.windows && s.state.Some? {
      if IsGeneration(root, m) {
        GenerationApart(root, m, token);
      }
    } else {
      ReplacementApart(root, m);
    }
  }

  lemma SameSnapshots(f: Files, g: Files, root: Path, machine: nat, s: MachineSnapshot)
    requires TreeAt(f, SnapshotsAt(root, machine)) == TreeAt(g, SnapshotsAt(root, machine))
    ensures Listed(f, root, machine) == Listed(g, root, machine)
    ensures TreeAt(f, SlotOf(root, machine, s)) == TreeAt(g, SlotOf(root, machine, s))
  {
    SlotsApart(root, machine, s.id);
    SameInside(f, g, SnapshotsAt(root, machine), MetadataAt(root, machine));
    ListedFrom(f, g, root, machine);
    SameInside(f, g, SnapshotsAt(root, machine), SlotOf(root, machine, s));
  }

  /** No event but the deletion of a snapshot changes its files, however the event ends. */
  lemma StepKeeps(e: Event, f: Files, g: Files, root: Path, m: Machine, s: MachineSnapshot)
    requires Managed(m) && Step(e, f, g, root, m) && !Deletes(e, s.id)
    requires Exists(f, SlotOf(root, m.id, s))
    ensures TreeAt(f, SlotOf(root, m.id, s)) == TreeAt(g, SlotOf(root, m.id, s))
    ensures Exists(g, SlotOf(root, m.id, s))
  {
    match e {
      case Create(name, id, r) =>
      case Restore(t, token, r) =>
        RestoreKeepsSnapshots(f, g, root, m, t, token, r);
        SameSnapshots(f, g, root, m.id, s);
      case Delete(t, r) =>
      case Elsewhere =>
        SameSnapshots(f, g, root, m.id, s);
    }
    SameTree(f, g, SlotOf(root, m.id, s));
  }

  lemma {:induction false} HistoryKeeps(events: seq<Event>, disks: seq<Files>, root: Path, m: Machine,
                                        s: MachineSnapshot)
    requires Managed(m) && History(events, disks, root, m)
    requires forall e :: e in events ==> !Deletes(e, s.id)
    requires Exists(disks[0], SlotOf(root, m.id, s))
    ensures TreeAt(disks[|events|], SlotOf(root, m.id, s)) == TreeAt(disks[0], SlotOf(root, m.id, s))
    ensures Exists(disks[|events|], SlotOf(root, m.id, s))
  {
    if events != [] {
      var n := |events| - 1;
      HistoryKeeps(events[..n], disks[..n + 1], root, m, s);
      StepKeeps(events[n], disks[n], disks[n + 1], root, m, s);
    }
  }

  // ----- the round trip

  predicate SameDisk(f: Files, g: Files, root: Path, m: Machine) {
    TreeAt(f, root + m.disk) == TreeAt(g, root + m.disk)
  }

  /** The three firmware files, including which of them are absent, are the same on both disks. */
  ghost predicate SameFirmware(f: Files, g: Files, root: Path, m: Machine)
    requires m.disk != []
  {
    forall n :: n in FIRMWARE ==>
      TreeAt(f, root + Parent(m.disk) + [QEMU, n]) == TreeAt(g, root + Parent(m.disk) + [QEMU, n])
  }

  lemma ImageHoldsState(f: Files, g: Files, root: Path, m: Machine)
    requires Managed(m)
    requires TreeAt(g, root + Parent(m.disk)) == Image(TreeAt(f, root + Parent(m.disk)), FIRMWARE)
    ensures SameDisk(f, g, root, m) && SameFirmware(f, g, root, m)
  {
    var p := root + Parent(m.disk);
    assert p + [DISK] == root + m.disk;
    NameRestored(f, g, p, [DISK]);
    forall n | n in FIRMWARE
      ensures TreeAt(f, p + [QEMU, n]) == TreeAt(g, p + [QEMU, n])
    {
      NameRestored(f, g, p, [QEMU, n]);
    }
  }

  lemma NameRestored(f: Files, g: Files, p: Path, name: Path)
    requires TreeAt(g, p) == Image(TreeAt(f, p), FIRMWARE)
    requires name == [DISK] || exists n :: n in FIRMWARE && name == [QEMU, n]
    ensures TreeAt(f, p + name) == TreeAt(g, p + name)
  {
    ImageKeeps(f, p, name);
    TreeOfTree(g, p, name);
  }

  /** What is saved for a snapshot is its slot's doing. */
  lemma SavedInSlot(f: Files, g: Files, root: Path, m: Machine, s: MachineSnapshot)
    requires IsRecord(m.id, s)
    requires TreeAt(f, SlotOf(root, m.id, s)) == TreeAt(g, SlotOf(root, m.id, s))
    ensures Saved(f, root, s) == Saved(g, root, s)
    ensures Exists(f, root + s.disk) == Exists(g, root + s.disk)
  {
    SlotFromRecord(root, m.id, s);
    SameInside(f, g, SlotOf(root, m.id, s), root + s.disk);
    if s.state.Some? {
      SameInside(f, g, SlotOf(root, m.id, s), root + s.state.value);
    }
  }

  /**
   Create a snapshot, let anything happen but its own deletion - guest writes, other creations, restores of
   this and other snapshots, other deletions, each of which may fail or crash - and restore it: the disk is
   the one that the snapshot was taken of.  The firmware is that of then for a Windows machine.  For any other
   machine it is so exactly if the restore has found it so.
   */
  lemma RoundTrip(events: seq<Event>, disks: seq<Files>, root: Path, m: Machine, s: MachineSnapshot)
    requires Managed(m) && History(events, disks, root, m) && |events| >= 2
    requires events[0].Create? && events[0].created == Returned(s)
    requires events[|events| - 1].Restore? && events[|events| - 1].restored == s
    requires events[|events| - 1].result.Returned?
    requires forall e :: e in events ==> !Deletes(e, s.id)
    ensures SameDisk(disks[0], disks[|events|], root, m)
    ensures SameFirmware(disks[0], disks[|events|], root, m) <==>
              m.windows || SameFirmware(disks[0], disks[|events| - 1], root, m)
  {
    var n := |events| - 1;
    var first, last := events[0], events[n];
    assert Step(first, disks[0], disks[1], root, m) && Step(last, disks[n], disks[n + 1], root, m);
    SlotFromRecord(root, m.id, s);
    assert Exists(disks[1], SlotOf(root, m.id, s)) by {
      ExistsAbove(disks[1], SlotOf(root, m.id, s), root + s.disk);
    }
    Between(events, disks, root, m);
    HistoryKeeps(events[1..n], disks[1..n + 1], root, m, s);
    SavedInSlot(disks[1], disks[n], root, m, s);
    BackFromSaved(disks[0], disks[n], disks[n + 1], root, m, s, last);
  }

  /** Restoring a machine that is not a Windows machine leaves its firmware as it finds it. */
  lemma RestoreLeavesFirmware(f: Files, g: Files, root: Path, m: Machine, s: MachineSnapshot, token: nat,
                              r: Completion<()>)
    requires Managed(m) && !m.windows && RestoreEffect(f, g, root, m, s, token, r)
    ensures SameFirmware(f, g, root, m)
  {
    forall n | n in FIRMWARE
      ensures TreeAt(f, root + Parent(m.disk) + [QEMU, n]) == TreeAt(g, root + Parent(m.disk) + [QEMU, n])
    {
      FirmwareApart(root, m, n);
      DiskRestoreLeaves(f, g, root, m, s, r, root + Parent(m.disk) + [QEMU, n]);
    }
  }

  /** However a restore ends, disk and firmware are both the old ones or both those that the snapshot was saved with; for
      a machine that is not a Windows machine this is about the disk alone. */
  lemma RestoreIsAtomic(f: Files, g: Files, root: Path, m: Machine, s: MachineSnapshot, token: nat, r: Completion<()>)
    requires Managed(m) && RestoreEffect(f, g, root, m, s, token, r)
    ensures m.windows && s.state.Some? ==>
              var saved := TreeAt(f, root + s.state.value);
              || (!r.Returned? && SameDisk(f, g, root, m) && SameFirmware(f, g, root, m))
              || (&& TreeAt(g, root + m.disk) == TreeAt(saved, [DISK])
                  && forall n :: n in FIRMWARE ==>
                       TreeAt(g, root + Parent(m.disk) + [QEMU, n]) == TreeAt(saved, [QEMU, n]))
    ensures !(m.windows && s.state.Some?) ==>
              || (!r.Returned? && SameDisk(f, g, root, m))
              || TreeAt(g, root + m.disk) == TreeAt(f, root + s.disk)
    ensures r.Returned? ==>
              !Exists(g, if m.windows && s.state.Some? then StagedAt(root, m, token) else ReplacementFor(root + m.disk))
  {
    if m.windows && s.state.Some? {
      var p, source := root + Parent(m.disk), root + s.state.value;
      assert p + [DISK] == root + m.disk;
      if TreeAt(g, p) == TreeAt(f, p) {
        StateUnchanged(f, g, root, m);
      }
      if TreeAt(g, p) == Image(TreeAt(f, source), FIRMWARE) {
        FromImage(f, g, p, source, [DISK]);
        forall n | n in FIRMWARE
          ensures TreeAt(g, p + [QEMU, n]) == TreeAt(TreeAt(f, source), [QEMU, n])
        {
          FromImage(f, g, p, source, [QEMU, n]);
        }
      }
    }
  }

  lemma StateUnchanged(f: Files, g: Files, root: Path, m: Machine)
    requires Managed(m) && TreeAt(g, root + Parent(m.disk)) == TreeAt(f, root + Parent(m.disk))
    ensures SameDisk(f, g, root, m) && SameFirmware(f, g, root, m)
  {
    var p := root + Parent(m.disk);
    assert p + [DISK] == root + m.disk;
    TreeOfTree(f, p, [DISK]);
    TreeOfTree(g, p, [DISK]);
    forall n | n in FIRMWARE
      ensures TreeAt(f, p + [QEMU, n]) == TreeAt(g, p + [QEMU, n])
    {
      TreeOfTree(f, p, [QEMU, n]);
      TreeOfTree(g, p, [QEMU, n]);
    }
  }

  lemma FromImage(f: Files, g: Files, p: Path, source: Path, name: Path)
    requires TreeAt(g, p) == Image(TreeAt(f, source), FIRMWARE)
    requires name == [DISK] || exists n :: n in FIRMWARE && name == [QEMU, n]
    ensures TreeAt(g, p + name) == TreeAt(TreeAt(f, source), name)
  {
    ImageKeeps(f, source, name);
    TreeOfTree(g, p, name);
    TreeOfTree(f, source, name);
  }

  /** A Windows machine has a state generation exactly if its disk lies in `State/current`; */
  lemma GenerationExactly(root: Path, m: Machine)
    requires m.disk != []
    ensures IsGeneration(root, m) <==> exists p, name :: root + m.disk == p + [Text("State"), Text("current"), name]
  {
    var d := root + m.disk;
    if IsGeneration(root, m) {
      assert d == d[..|d| - 3] + [Text("State"), Text("current"), d[|d| - 1]];
    }
    if p, name :| d == p + [Text("State"), Text("current"), name] {
      assert Parent(d) == p + [Text("State"), Text("current")];
    }
  }

  /** without one its saved state is not restored, and nothing is changed. */
  lemma StateNeedsGeneration(f: Files, g: Files, root: Path, m: Machine, s: MachineSnapshot, token: nat,
                             r: Completion<()>)
    requires m.windows && s.state.Some? && m.disk == [Text("Machines"), Uuid(m.id), Text("disk.raw")]
    requires RestoreEffect(f, g, root, m, s, token, r)
    ensures r == Threw(InvalidWindowsState) && g == f
  {
    assert Parent(root + m.disk) == root + [Text("Machines"), Uuid(m.id)];
  }

  lemma DiskRestoreLeaves(f: Files, g: Files, root: Path, m: Machine, s: MachineSnapshot, r: Completion<()>, p: Path)
    requires |m.disk| >= 2 && DiskRestore(f, g, root, m, s, r)
    requires Apart(p, root + m.disk) && Apart(p, ReplacementFor(root + m.disk))
    ensures TreeAt(f, p) == TreeAt(g, p)
  {
  }

  lemma FirmwareApart(root: Path, m: Machine, n: Name)
    requires Managed(m)
    ensures var p := root + Parent(m.disk) + [QEMU, n];
            && Apart(p, root + m.disk) && Apart(p, ReplacementFor(root + m.disk))
            && Apart(p, SnapshotsAt(root, m.id))
  {
    var p, k := root + Parent(m.disk) + [QEMU, n], |root + Parent(m.disk)|;
    assert p[k] == QEMU && (root + m.disk)[k] == DISK;
    assert ReplacementFor(root + m.disk)[k] == Suffixed(DISK, ".restore");
    Diverge(p, root + m.disk, k);
    Diverge(p, ReplacementFor(root + m.disk), k);
    DiskApart(root, m);
    ApartBelow(root + Parent(m.disk) + [QEMU], SnapshotsAt(root, m.id), p);
  }

  lemma Between(events: seq<Event>, disks: seq<Files>, root: Path, m: Machine)
    requires Managed(m) && History(events, disks, root, m) && |events| >= 2
    ensures History(events[1..|events| - 1], disks[1..|events|], root, m)
  {
  }

  lemma BackFromSaved(f: Files, g: Files, h: Files, root: Path, m: Machine, s: MachineSnapshot, e: Event)
    requires Managed(m) && s == NewRecord(m, s.id, s.name) && Saved(g, root, s) == Captured(f, root, m)
    requires Step(e, g, h, root, m) && e.Restore? && e.restored == s && e.result.Returned?
    ensures SameDisk(f, h, root, m)
    ensures SameFirmware(f, h, root, m) <==> m.windows || SameFirmware(f, g, root, m)
  {
    if m.windows {
      ImageOfImage(TreeAt(f, root + Parent(m.disk)), FIRMWARE);
      ImageHoldsState(f, h, root, m);
    } else {
      RestoreLeavesFirmware(g, h, root, m, s, e.token, e.result);
    }
  }

  // ----- a machine whose firmware is not restored

  /** The disk after a snapshot of a machine that is not a Windows machine: the copy, and then the listing. */
  function AfterCreate(f: Files, root: Path, m: Machine, s: MachineSnapshot): Files {
    var copied := Graft(f, DiskSlot(root, m.id, s.id), TreeAt(f, root + m.disk));
    copied[MetadataAt(root, m.id) := File(SnapshotListOf(ListedItems(f, root, m) + [s]))]
  }

  function ListedItems(f: Files, root: Path, m: Machine): seq<MachineSnapshot> {
    var listed := Listed(f, root, m.id);
    if listed.Ok? then listed.value else []
  }

  lemma CreateHappens(f: Files, root: Path, m: Machine, name: string, id: nat)
    requires Managed(m) && !m.windows && Exists(f, root + m.disk)
    requires IsNew(f, root, m.id, id) && Listed(f, root, m.id).Ok?
    ensures var s := DiskRecord(m.id, id, name);
            && CreateEffect(f, AfterCreate(f, root, m, s), root, m, name, id, Returned(s))
            && TreeAt(AfterCreate(f, root, m, s), root + s.disk) == TreeAt(f, root + m.disk)
  {
    var s := DiskRecord(m.id, id, name);
    var g := Graft(f, DiskSlot(root, m.id, id), TreeAt(f, root + m.disk));
    CopyHappens(f, root, m, s);
    ListingHappens(g, root, m.id, ListedItems(f, root, m) + [s]);
    CreateSteps(f, g, AfterCreate(f, root, m, s), root, m, s);
  }

  lemma CopyHappens(f: Files, root: Path, m: Machine, s: MachineSnapshot)
    requires Managed(m) && !m.windows && Exists(f, root + m.disk) && s == DiskRecord(m.id, s.id, s.name)
    ensures var g := Graft(f, DiskSlot(root, m.id, s.id), TreeAt(f, root + m.disk));
            && Touches(f, g, SlotOf(root, m.id, s))
            && Saved(g, root, s) == Captured(f, root, m) && Exists(g, root + s.disk)
  {
    var slot := DiskSlot(root, m.id, s.id);
    assert root + s.disk == slot;
    GraftTouches(f, slot, TreeAt(f, root + m.disk));
    SameTreeExists(f, root + m.disk, Graft(f, slot, TreeAt(f, root + m.disk)), slot);
  }

  lemma ListingHappens(f: Files, root: Path, machine: nat, items: seq<MachineSnapshot>)
    ensures var g := f[MetadataAt(root, machine) := File(SnapshotListOf(items))];
            Touches(f, g, MetadataAt(root, machine)) && Listed(g, root, machine) == Ok(items)
  {
    var metadata := MetadataAt(root, machine);
    assert Within(metadata, metadata);
    assert Exists(f[metadata := File(SnapshotListOf(items))], metadata);
  }

  /** A file that a machine's own directory gets, apart from its disk, is none of its snapshots' business. */
  lemma FirmwareWritten(f: Files, g: Files, root: Path, m: Machine, n: Name, node: Node)
    requires Managed(m) && g == f[root + Parent(m.disk) + [QEMU, n] := node]
    ensures TreeAt(f, SnapshotsAt(root, m.id)) == TreeAt(g, SnapshotsAt(root, m.id))
    ensures TreeAt(f, root + m.disk) == TreeAt(g, root + m.disk)
    ensures Exists(f, ReplacementFor(root + m.disk)) == Exists(g, ReplacementFor(root + m.disk))
  {
    var p := root + Parent(m.disk) + [QEMU, n];
    assert Touches(f, g, p) by {
      assert Within(p, p);
    }
    FirmwareApart(root, m, n);
    TouchesApart(f, g, p, SnapshotsAt(root, m.id));
    TouchesApart(f, g, p, root + m.disk);
    TouchesApart(f, g, p, ReplacementFor(root + m.disk));
  }

  /** The snapshot's copy stays what the disk is. */
  lemma StillTheDisk(g: Files, h: Files, root: Path, m: Machine, s: MachineSnapshot, n: Name, node: Node)
    requires Managed(m) && s == DiskRecord(m.id, s.id, s.name)
    requires TreeAt(g, root + s.disk) == TreeAt(g, root + m.disk)
    requires h == g[root + Parent(m.disk) + [QEMU, n] := node]
    ensures TreeAt(h, root + m.disk) == TreeAt(h, root + s.disk)
  {
    FirmwareWritten(g, h, root, m, n, node);
    SlotFromRecord(root, m.id, s);
    SameInside(g, h, SnapshotsAt(root, m.id), root + s.disk);
  }

  const EFI_VARS := Text("efi-vars.fd")

  /**
   Every machine that is not a Windows machine can lose a firmware setting that way: from any disk on which a
   snapshot can be taken, there is a history of a snapshot, a write of the firmware and a restore that returns,
   after which the firmware is not what it was.
   */
  lemma FirmwareIsNotRestored(f: Files, root: Path, m: Machine, name: string, id: nat, token: nat)
    returns (g: Files, h: Files)
    requires Managed(m) && !m.windows && Exists(f, root + m.disk)
    requires IsNew(f, root, m.id, id) && Listed(f, root, m.id).Ok?
    requires !Exists(f, ReplacementFor(root + m.disk))
    ensures var s := DiskRecord(m.id, id, name);
            && Step(Create(name, id, Returned(s)), f, g, root, m)
            && Step(Elsewhere, g, h, root, m)
            && Step(Restore(s, token, Returned(())), h, h, root, m)
    ensures !SameFirmware(f, h, root, m)
  {
    var s := DiskRecord(m.id, id, name);
    var p := root + Parent(m.disk) + [QEMU, EFI_VARS];
    var node := File(Bytes(if p in f && f[p] == File(Bytes([])) then [0] else []));
    g := AfterCreate(f, root, m, s);
    h := g[p := node];
    CreateHappens(f, root, m, name, id);
    AfterCreateElsewhere(f, root, m, s);
    StillTheDisk(g, h, root, m, s, EFI_VARS, node);
    FirmwareWritten(g, h, root, m, EFI_VARS, node);
    FirmwareDiffers(f, h, root, m);
    RestoreFindsDisk(h, root, m, s, token);
  }

  /**
   The same as a run of the store: take a snapshot, let the guest write its firmware, restore.  Unless a call breaks
   down, both return and the firmware of before is lost.
   */
  method LoseFirmware(store: Store, m: Machine, name: string, id: nat, token: nat) returns (lost: bool)
    requires Managed(m) && !m.windows && IsNew(store.disk.files, store.root, m.id, id)
    requires CanCreate(store.disk.files, store.root, m)
    requires Clear(store.disk.files, Parent(store.root + m.disk))
    modifies store.disk
    ensures lost ==> !SameFirmware(old(store.disk.files), store.disk.files, store.root, m)
    ensures !lost ==> old(store.disk.faults).breakdowns < store.disk.faults.breakdowns
  {
    var root := store.root;
    var f := store.disk.files;
    var created := store.Create(m, name, id);
    if !created.Returned? {
      return false;
    }
    ghost var g := store.disk.files;
    var p := root + Parent(m.disk) + [QEMU, EFI_VARS];
    var node := File(Bytes(if p in f && f[p] == File(Bytes([])) then [0] else []));
    store.disk.files := store.disk.files[p := node];
    ghost var h := store.disk.files;
    RestoreIsPossible(f, g, h, root, m, created.value, name, id, node);
    var restored := store.Restore(created.value, m, token);
    if !restored.Returned? {
      return false;
    }
    NodesDiffer(f, h, p);
    RestoreLeavesFirmware(h, store.disk.files, root, m, created.value, token, restored);
    assert EFI_VARS in FIRMWARE;
    lost := true;
  }

  lemma RestoreIsPossible(f: Files, g: Files, h: Files, root: Path, m: Machine, s: MachineSnapshot, name: string, id: nat,
                          node: Node)
    requires Managed(m) && !m.windows && CreateEffect(f, g, root, m, name, id, Returned(s))
    requires h == g[root + Parent(m.disk) + [QEMU, EFI_VARS] := node]
    requires Clear(f, Parent(root + m.disk))
    requires Exists(f, root + m.disk)
    ensures CanRestore(h, root, m, s) && IsRecord(m.id, s)
  {
    SlotFromRecord(root, m.id, s);
    SnapshotStays(g, h, root, m, s, node);
    DiskStays(f, g, h, root, m, node);
    StaysClear(f, g, h, root, m, node);
  }

  lemma SnapshotStays(g: Files, h: Files, root: Path, m: Machine, s: MachineSnapshot, node: Node)
    requires Managed(m) && IsRecord(m.id, s)
    requires h == g[root + Parent(m.disk) + [QEMU, EFI_VARS] := node]
    ensures Exists(h, root + s.disk) == Exists(g, root + s.disk)
  {
    SlotFromRecord(root, m.id, s);
    FirmwareWritten(g, h, root, m, EFI_VARS, node);
    SameInside(g, h, SnapshotsAt(root, m.id), root + s.disk);
  }

  lemma DiskStays(f: Files, g: Files, h: Files, root: Path, m: Machine, node: Node)
    requires Managed(m) && Touches(f, g, SnapshotsAt(root, m.id))
    requires h == g[root + Parent(m.disk) + [QEMU, EFI_VARS] := node]
    ensures Exists(h, root + m.disk) == Exists(f, root + m.disk)
  {
    DiskApart(root, m);
    TouchesApart(f, g, SnapshotsAt(root, m.id), root + m.disk);
    FirmwareWritten(g, h, root, m, EFI_VARS, node);
    SameTree(g, h, root + m.disk);
  }

  lemma StaysClear(f: Files, g: Files, h: Files, root: Path, m: Machine, node: Node)
    requires Managed(m) && Touches(f, g, SnapshotsAt(root, m.id))
    requires h == g[root + Parent(m.disk) + [QEMU, EFI_VARS] := node]
    requires Clear(f, Parent(root + m.disk))
    ensures Clear(h, Parent(root + m.disk))
  {
    var d, p := Parent(root + m.disk), root + Parent(m.disk) + [QEMU, EFI_VARS];
    assert d == root + Parent(m.disk);
    assert !Within(SnapshotsAt(root, m.id), d) by {
      if |Parent(m.disk)| > 2 {
        assert d[|root| + 2] == STATE && SnapshotsAt(root, m.id)[|root| + 2] == SNAPSHOTS;
      }
    }
    ClearAfter(f, g, d, SnapshotsAt(root, m.id));
    assert Touches(g, h, p) by {
      assert Within(p, p);
    }
    ClearAfter(g, h, d, p);
  }

  /** Restoring a disk that is the snapshot's already changes nothing. */
  lemma RestoreFindsDisk(f: Files, root: Path, m: Machine, s: MachineSnapshot, token: nat)
    requires Managed(m) && !m.windows && s == DiskRecord(m.id, s.id, s.name)
    requires TreeAt(f, root + m.disk) == TreeAt(f, root + s.disk) && !Exists(f, ReplacementFor(root + m.disk))
    ensures Step(Restore(s, token, Returned(())), f, f, root, m)
  {
  }

  lemma FirmwareDiffers(f: Files, g: Files, root: Path, m: Machine)
    requires Managed(m)
    requires var p := root + Parent(m.disk) + [QEMU, EFI_VARS]; p in g && (p in f ==> f[p] != g[p])
    ensures !SameFirmware(f, g, root, m)
  {
    NodesDiffer(f, g, root + Parent(m.disk) + [QEMU, EFI_VARS]);
    assert EFI_VARS in FIRMWARE;
  }

  lemma NodesDiffer(f: Files, g: Files, p: Path)
    requires p in g && (p in f ==> f[p] != g[p])
    ensures TreeAt(f, p) != TreeAt(g, p)
  {
    assert p + [] == p;
    assert [] in TreeAt(g, p) && TreeAt(g, p)[[]] == g[p];
    assert [] in TreeAt(f, p) ==> TreeAt(f, p)[[]] == f[p];
  }

  lemma AfterCreateElsewhere(f: Files, root: Path, m: Machine, s: MachineSnapshot)
    requires Managed(m) && !m.windows && Touches(f, AfterCreate(f, root, m, s), SnapshotsAt(root, m.id))
    ensures var g := AfterCreate(f, root, m, s);
            && TreeAt(g, root + m.disk) == TreeAt(f, root + m.disk)
            && Exists(g, ReplacementFor(root + m.disk)) == Exists(f, ReplacementFor(root + m.disk))
  {
    ReplacementApart(root, m);
    TouchesApart(f, AfterCreate(f, root, m, s), SnapshotsAt(root, m.id), root + m.disk);
    TouchesApart(f, AfterCreate(f, root, m, s), SnapshotsAt(root, m.id), ReplacementFor(root + m.disk));
  }

  lemma ExistsAbove(f: Files, p: Path, q: Path)
    requires Exists(f, q) && Within(p, q)
    ensures Exists(f, p)
  {
    var w :| w in f && Within(q, w);
    assert Within(p, w);
  }

  // ----- the listing and the files

  /** The listing can be read, and every snapshot in it, but those in `doomed`, has all its files: they hold what
      `kept` says. */
  ghost predicate Healthy(f: Files, root: Path, machine: nat, doomed: set<nat>, kept: map<nat, Files>) {
    && Listed(f, root, machine).Ok?
    && forall s :: s in Listed(f, root, machine).value ==>
         IsRecord(machine, s) && (s.id in doomed || IsWhole(f, root, s, kept))
  }

  predicate IsWhole(f: Files, root: Path, s: MachineSnapshot, kept: map<nat, Files>) {
    s.id in kept && Saved(f, root, s) == kept[s.id] && Exists(f, root + s.disk)
  }

  /** What each identifier's snapshot has to hold after the first `n` events: what there was to capture when it was
      created. */
  function Kept(events: seq<Event>, disks: seq<Files>, n: nat, root: Path, m: Machine, kept: map<nat, Files>)
    : map<nat, Files>
    requires n <= |events| && n <= |disks| && m.disk != []
  {
    if n == 0 then kept
    else KeptAfter(events[n - 1], disks[n - 1], root, m, Kept(events, disks, n - 1, root, m, kept))
  }

  function KeptAfter(e: Event, f: Files, root: Path, m: Machine, kept: map<nat, Files>): map<nat, Files>
    requires m.disk != []
  {
    if e.Create? then kept[e.id := Captured(f, root, m)] else kept
  }

  predicate Interrupts(e: Event) {
    e.Delete? && !e.outcome.Returned?
  }

  /** The identifiers of those of the first `n` deletions that did not return. */
  function Interrupted(events: seq<Event>, n: nat): set<nat>
    requires n <= |events|
  {
    if n == 0 then {} else Interrupted(events, n - 1) + InterruptedBy(events[n - 1])
  }

  function InterruptedBy(e: Event): set<nat> {
    if Interrupts(e) then {e.deleted.id} else {}
  }

  /** Where no listing has been stored yet, a creation that returns lists its snapshot alone. */
  lemma FirstSnapshot(f: Files, g: Files, root: Path, m: Machine, name: string, id: nat, s: MachineSnapshot)
    requires m.disk != [] && CreateEffect(f, g, root, m, name, id, Returned(s))
    requires !Exists(f, root + [Text("Machines"), Uuid(m.id), Text("Snapshots"), Text("snapshots.json")])
    ensures Listed(g, root, m.id) == Ok([s]) && s.id == id && s.name == name
  {
    assert MetadataAt(root, m.id) == root + [Text("Machines"), Uuid(m.id), Text("Snapshots"), Text("snapshots.json")];
    assert [] + [s] == [s];
  }

  predicate HasNo(items: seq<MachineSnapshot>, id: nat) {
    forall i :: 0 <= i < |items| ==> items[i].id != id
  }

  lemma {:induction false} UnlistOthers(items: seq<MachineSnapshot>, id: nat)
    requires HasNo(items, id)
    ensures Unlist(items, id) == items
  {
    if items != [] {
      UnlistOthers(items[1..], id);
      assert items == [items[0]] + items[1..];
    }
  }

  lemma {:induction false} UnlistBoth(a: seq<MachineSnapshot>, b: seq<MachineSnapshot>, id: nat)
    ensures Unlist(a + b, id) == Unlist(a, id) + Unlist(b, id)
  {
    if a == [] {
      assert a + b == b;
    } else {
      assert (a + b)[1..] == a[1..] + b;
      UnlistBoth(a[1..], b, id);
    }
  }

  /** A deletion that returns takes the snapshot out of the listing and leaves the others as they are, in their
      order. */
  lemma DeleteKeepsOrder(f: Files, g: Files, root: Path, machine: nat, s: MachineSnapshot, listed: MachineSnapshot,
                         a: seq<MachineSnapshot>, b: seq<MachineSnapshot>)
    requires DeleteEffect(f, g, root, machine, s, Returned(()))
    requires listed.id == s.id && HasNo(a, s.id) && HasNo(b, s.id)
    ensures Listed(f, root, machine) == Ok(a + [listed] + b) ==> Listed(g, root, machine) == Ok(a + b)
    ensures Listed(f, root, machine) == Ok(a + b) ==> Listed(g, root, machine) == Ok(a + b)
  {
    UnlistOthers(a, s.id);
    UnlistOthers(b, s.id);
    UnlistBoth(a, b, s.id);
    UnlistBoth(a + [listed], b, s.id);
    UnlistBoth(a, [listed], s.id);
    assert [listed][1..] == [] && Unlist([listed], s.id) == [] && a + [] == a;
  }

  lemma UnlistKeeps(items: seq<MachineSnapshot>, id: nat, s: MachineSnapshot)
    ensures s in Unlist(items, id) <==> s in items && s.id != id
  {
    if items != [] {
      UnlistKeeps(items[1..], id, s);
      assert items == [items[0]] + items[1..];
    }
  }

  /** What a step lists: what was listed and is not deleted, or the new snapshot. */
  lemma ListingAfter(e: Event, f: Files, g: Files, root: Path, m: Machine, s: MachineSnapshot)
    requires Managed(m) && Step(e, f, g, root, m) && Listed(f, root, m.id).Ok?
    ensures Listed(g, root, m.id).Ok?
    ensures s in Listed(g, root, m.id).value ==>
              || (s in Listed(f, root, m.id).value && (Deletes(e, s.id) ==> Interrupts(e)))
              || (e.Create? && s == NewRecord(m, e.id, e.name) && Added(f, g, root, m, s))
  {
    match e {
      case Create(name, id, r) =>
      case Restore(t, token, r) =>
        RestoreKeepsSnapshots(f, g, root, m, t, token, r);
        SameSnapshots(f, g, root, m.id, t);
      case Delete(t, r) =>
        UnlistKeeps(Listed(f, root, m.id).value, t.id, s);
      case Elsewhere =>
        SameSnapshots(f, g, root, m.id, s);
    }
  }

  lemma StillWhole(e: Event, f: Files, g: Files, root: Path, m: Machine, s: MachineSnapshot, kept: map<nat, Files>)
    requires Managed(m) && Step(e, f, g, root, m) && IsRecord(m.id, s) && !Deletes(e, s.id)
    requires IsWhole(f, root, s, kept)
    ensures IsWhole(g, root, s, kept)
  {
    SlotFromRecord(root, m.id, s);
    ExistsAbove(f, SlotOf(root, m.id, s), root + s.disk);
    StepKeeps(e, f, g, root, m, s);
    SavedInSlot(f, g, root, m, s);
  }

  lemma StepHealthy(e: Event, f: Files, g: Files, root: Path, m: Machine, doomed: set<nat>, kept: map<nat, Files>)
    requires Managed(m) && Step(e, f, g, root, m) && Healthy(f, root, m.id, doomed, kept)
    ensures Healthy(g, root, m.id, doomed + InterruptedBy(e), KeptAfter(e, f, root, m, kept))
  {
    ListingAfter(e, f, g, root, m, StateRecord(m.id, 0, ""));
    forall s | s in Listed(g, root, m.id).value
      ensures IsRecord(m.id, s)
      ensures s.id in doomed + InterruptedBy(e) || IsWhole(g, root, s, KeptAfter(e, f, root, m, kept))
    {
      ListingAfter(e, f, g, root, m, s);
      if s in Listed(f, root, m.id).value {
        if s.id !in doomed && !Deletes(e, s.id) {
          StillWhole(e, f, g, root, m, s, kept);
        }
      }
    }
  }

  /**
   In every history a listed snapshot has its files, the disk and the firmware as they were captured, unless its
   own deletion was interrupted by a failure or a crash; no other failure or crash can lose or change them.
   */
  lemma {:induction false} ListingHasFiles(events: seq<Event>, disks: seq<Files>, n: nat, root: Path, m: Machine,
                                           kept: map<nat, Files>)
    requires Managed(m) && History(events, disks, root, m) && n <= |events|
    requires Healthy(disks[0], root, m.id, {}, kept)
    ensures Healthy(disks[n], root, m.id, Interrupted(events, n), Kept(events, disks, n, root, m, kept))
  {
    if n > 0 {
      ListingHasFiles(events, disks, n - 1, root, m, kept);
      StepHealthy(events[n - 1], disks[n - 1], disks[n], root, m, Interrupted(events, n - 1),
                  Kept(events, disks, n - 1, root, m, kept));
    }
  }

  /** A listed snapshot whose deletion was not interrupted can be restored, as long as the machine's own directory is in
      order: its restore returns unless something breaks down. */
  lemma ListedCanBeRestored(f: Files, root: Path, m: Machine, s: MachineSnapshot, doomed: set<nat>, kept: map<nat, Files>)
    requires Managed(m) && Healthy(f, root, m.id, doomed, kept)
    requires s in Listed(f, root, m.id).value && s.id !in doomed
    requires if m.windows && s.state.Some?
             then IsGeneration(root, m) && Exists(f, root + Parent(m.disk)) && Clear(f, Parent(Parent(root + m.disk)))
             else Clear(f, Parent(root + m.disk)) && Exists(f, root + m.disk)
    ensures CanRestore(f, root, m, s)
  {
    assert IsWhole(f, root, s, kept);
    if s.state.Some? {
      assert root + s.disk == root + s.state.value + [DISK];
    }
  }

  /** An interrupted deletion can leave a listed snapshot without files: from every disk, `delete` can remove the
      files and then fail or die before the listing is written. */
  lemma InterruptedDeleteLosesFiles(f: Files, root: Path, m: Machine, s: MachineSnapshot)
    requires Managed(m) && IsRecord(m.id, s)
    requires Listed(f, root, m.id).Ok? && s in Listed(f, root, m.id).value
    ensures exists g ::
              && DeleteRuns(f, g, root, m.id, s, Died) && DeleteRuns(f, g, root, m.id, s, Threw(DiskError))
              && Listed(g, root, m.id) == Listed(f, root, m.id)
              && !Exists(g, root + s.disk)
  {
    var slot := SlotOf(root, m.id, s);
    var g := Without(f, slot);
    WithoutTouches(f, slot);
    TouchesSlot(f, g, root, m.id, s);
    SlotFromRecord(root, m.id, s);
    if Exists(g, root + s.disk) {
      ExistsAbove(g, slot, root + s.disk);
    }
    assert Exists(f, slot) || g == f;
    UnlistStops(g, root, m.id, s, Crashed);
    UnlistStops(g, root, m.id, s, Failed);
    assert DeleteRuns(f, g, root, m.id, s, Died);
  }

  /** Writing the listing can stop before it has done anything. */
  lemma UnlistStops(f: Files, root: Path, machine: nat, s: MachineSnapshot, o: Outcome)
    requires Listed(f, root, machine).Ok? && !o.Done?
    ensures UnlistRuns(f, f, root, machine, s, Ended(o))
  {
    var items := Unlist(Listed(f, root, machine).value, s.id);
    assert AddsDirectories(f, f, SnapshotsAt(root, machine));
    assert SaveRuns(f, f, root, machine, items, o);
  }

  // ----- histories without failures

  /** The files under the snapshots directory are exactly those of the listed snapshots. */
  ghost predicate Agrees(f: Files, root: Path, machine: nat) {
    && Listed(f, root, machine).Ok?
    && var items := Listed(f, root, machine).value;
    && (forall s :: s in items ==> IsRecord(machine, s))
    && (forall s, t :: s in items && t in items && s.id == t.id ==> s == t)
    && (forall s :: s in items ==> Exists(f, SlotOf(root, machine, s)))
    && (forall id :: Exists(f, StateSlot(root, machine, id)) ==> exists s :: s in items && s.id == id && s.state.Some?)
    && (forall id :: Exists(f, DiskSlot(root, machine, id)) ==> exists s :: s in items && s.id == id && s.state.None?)
  }

  /** Creations and deletions return, and what is deleted is a listed snapshot. */
  predicate Faultless(e: Event, f: Files, root: Path, machine: nat) {
    match e
    case Create(_, _, r) => r.Returned?
    case Delete(s, r) => r.Returned? && Listed(f, root, machine).Ok? && s in Listed(f, root, machine).value
    case _ => true
  }

  lemma SlotExists(f: Files, g: Files, root: Path, machine: nat, s: MachineSnapshot)
    requires OtherSlotsKept(f, g, root, machine, s)
    ensures forall id :: id != s.id || s.state.None? ==>
              Exists(f, StateSlot(root, machine, id)) == Exists(g, StateSlot(root, machine, id))
    ensures forall id :: id != s.id || s.state.Some? ==>
              Exists(f, DiskSlot(root, machine, id)) == Exists(g, DiskSlot(root, machine, id))
  {
    forall id | id != s.id || s.state.None?
      ensures Exists(f, StateSlot(root, machine, id)) == Exists(g, StateSlot(root, machine, id))
    {
      SameTree(f, g, StateSlot(root, machine, id));
    }
    forall id | id != s.id || s.state.Some?
      ensures Exists(f, DiskSlot(root, machine, id)) == Exists(g, DiskSlot(root, machine, id))
    {
      SameTree(f, g, DiskSlot(root, machine, id));
    }
  }

  lemma CreateAgrees(f: Files, g: Files, root: Path, m: Machine, name: string, id: nat, s: MachineSnapshot)
    requires Managed(m) && Agrees(f, root, m.id)
    requires IsNew(f, root, m.id, id) && CreateEffect(f, g, root, m, name, id, Returned(s))
    ensures Agrees(g, root, m.id)
  {
    var before, after := Listed(f, root, m.id).value, Listed(g, root, m.id).value;
    assert after == before + [s];
    SlotFromRecord(root, m.id, s);
    ExistsAbove(g, SlotOf(root, m.id, s), root + s.disk);
    SlotExists(f, g, root, m.id, s);
    forall other
      ensures Exists(g, StateSlot(root, m.id, other)) ==> exists t :: t in after && t.id == other && t.state.Some?
      ensures Exists(g, DiskSlot(root, m.id, other)) ==> exists t :: t in after && t.id == other && t.state.None?
    {
      SlotListed(f, g, root, m.id, before, s, other);
    }
    OneMoreItem(before, s);
    forall t | t in before
      ensures Exists(g, SlotOf(root, m.id, t))
    {
      OtherSlotExists(f, g, root, m.id, s, t);
    }
  }

  lemma OneMoreItem(before: seq<MachineSnapshot>, s: MachineSnapshot)
    requires forall t, u :: t in before && u in before && t.id == u.id ==> t == u
    requires forall t :: t in before ==> t.id != s.id
    ensures forall t :: t in before + [s] <==> t in before || t == s
    ensures forall t, u :: t in before + [s] && u in before + [s] && t.id == u.id ==> t == u
  {
  }

  lemma OtherSlotExists(f: Files, g: Files, root: Path, machine: nat, s: MachineSnapshot, t: MachineSnapshot)
    requires OtherSlotsKept(f, g, root, machine, s) && t.id != s.id && Exists(f, SlotOf(root, machine, t))
    ensures Exists(g, SlotOf(root, machine, t))
  {
    SlotExists(f, g, root, machine, s);
  }

  lemma SlotListed(f: Files, g: Files, root: Path, machine: nat, before: seq<MachineSnapshot>, s: MachineSnapshot,
                   id: nat)
    requires OtherSlotsKept(f, g, root, machine, s)
    requires Exists(f, StateSlot(root, machine, id)) ==> exists t :: t in before && t.id == id && t.state.Some?
    requires Exists(f, DiskSlot(root, machine, id)) ==> exists t :: t in before && t.id == id && t.state.None?
    ensures Exists(g, StateSlot(root, machine, id)) ==> exists t :: t in before + [s] && t.id == id && t.state.Some?
    ensures Exists(g, DiskSlot(root, machine, id)) ==> exists t :: t in before + [s] && t.id == id && t.state.None?
  {
    SlotExists(f, g, root, machine, s);
    assert s in before + [s];
    assert forall t :: t in before ==> t in before + [s];
  }

  lemma DeleteAgrees(f: Files, g: Files, root: Path, m: Machine, s: MachineSnapshot)
    requires Managed(m) && Agrees(f, root, m.id) && s in Listed(f, root, m.id).value
    requires DeleteEffect(f, g, root, m.id, s, Returned(()))
    ensures Agrees(g, root, m.id)
  {
    var before, after := Listed(f, root, m.id).value, Listed(g, root, m.id).value;
    assert after == Unlist(before, s.id);
    forall t ensures t in after <==> t in before && t.id != s.id {
      UnlistKeeps(before, s.id, t);
    }
    SlotExists(f, g, root, m.id, s);
    forall id | Exists(g, StateSlot(root, m.id, id))
      ensures exists t :: t in after && t.id == id && t.state.Some?
    {
      var t :| t in before && t.id == id && t.state.Some?;
      assert t in after;
    }
    forall id | Exists(g, DiskSlot(root, m.id, id))
      ensures exists t :: t in after && t.id == id && t.state.None?
    {
      var t :| t in before && t.id == id && t.state.None?;
      assert t in after;
    }
  }

  lemma SameAgrees(f: Files, g: Files, root: Path, machine: nat)
    requires TreeAt(f, SnapshotsAt(root, machine)) == TreeAt(g, SnapshotsAt(root, machine))
    requires Agrees(f, root, machine)
    ensures Agrees(g, root, machine)
  {
    forall id
      ensures Exists(f, StateSlot(root, machine, id)) == Exists(g, StateSlot(root, machine, id))
      ensures Exists(f, DiskSlot(root, machine, id)) == Exists(g, DiskSlot(root, machine, id))
    {
      SlotsApart(root, machine, id);
      SameInside(f, g, SnapshotsAt(root, machine), StateSlot(root, machine, id));
      SameInside(f, g, SnapshotsAt(root, machine), DiskSlot(root, machine, id));
    }
    SameSnapshots(f, g, root, machine, StateRecord(machine, 0, ""));
    AgreesFrom(f, g, root, machine);
  }

  lemma AgreesFrom(f: Files, g: Files, root: Path, machine: nat)
    requires Agrees(f, root, machine) && Listed(g, root, machine) == Listed(f, root, machine)
    requires forall id :: Exists(f, StateSlot(root, machine, id)) == Exists(g, StateSlot(root, machine, id))
    requires forall id :: Exists(f, DiskSlot(root, machine, id)) == Exists(g, DiskSlot(root, machine, id))
    ensures Agrees(g, root, machine)
  {
  }

  /** With no failed creation or deletion, the listing and the files agree exactly. */
  lemma {:induction false} FaultlessAgrees(events: seq<Event>, disks: seq<Files>, root: Path, m: Machine)
    requires Managed(m) && History(events, disks, root, m) && Agrees(disks[0], root, m.id)
    requires forall i :: 0 <= i < |events| ==> Faultless(events[i], disks[i], root, m.id)
    ensures Agrees(disks[|events|], root, m.id)
  {
    if events != [] {
      var n := |events| - 1;
      FaultlessAgrees(events[..n], disks[..n + 1], root, m);
      var e, f, g := events[n], disks[n], disks[n + 1];
      assert Step(e, f, g, root, m);
      match e {
        case Create(name, id, r) => CreateAgrees(f, g, root, m, name, id, r.value);
        case Restore(s, token, r) =>
          RestoreKeepsSnapshots(f, g, root, m, s, token, r);
          SameAgrees(f, g, root, m.id);
        case Delete(s, r) => DeleteAgrees(f, g, root, m, s);
        case Elsewhere => SameAgrees(f, g, root, m.id);
      }
    }
  }
}
