/**
 Snapshots of a machine: creating, restoring and deleting them, step by step on the disk.

 Every operation is specified by an effect: a relation between the disk before and the disk after that
 covers normal returns, thrown errors and crashes.  SnapshotRuns reasons about whole histories from these
 effects alone.
 */
module SnapshotStore {
  import opened Wrappers
  import opened FileSystem
  import opened MachineFiles

  datatype StoreError = InvalidRelativePath | InvalidWindowsState | UnreadableMetadata | MissingDisk | DiskError

  /** How an operation ends; `Died` means that the process crashed inside it. */
  datatype Completion<+T> = Returned(value: T) | Threw(error: StoreError) | Died

  function Ended(o: Outcome): Completion<()> {
    match o
    case Done => Returned(())
    case Failed => Threw(DiskError)
    case Crashed => Died
  }

  predicate Accounted<T>(before: Faults, after: Faults, r: Completion<T>) {
    && before.breakdowns <= after.breakdowns
    && (r == Threw(DiskError) ==> before.failures < after.failures)
    && (r.Died? ==> before.crashes < after.crashes)
  }

  /** An operation that can succeed does so, unless something breaks down. */
  predicate FairlyEnds<T>(before: Faults, after: Faults, possible: bool, r: Completion<T>) {
    possible && !r.Returned? ==> before.breakdowns < after.breakdowns
  }

  // ----- records and their places on the disk

  function Resolve(root: Path, relative: Path): Option<Path> {
    if Text("..") in relative then None else Some(root + relative)
  }

  function RelativePath(root: Path, p: Path): Option<Path> {
    if root <= p then Some(p[|root|..]) else None
  }

  function SnapshotsAt(root: Path, machine: nat): Path {
    root + SnapshotsDirectory(machine)
  }

  function MetadataAt(root: Path, machine: nat): Path {
    SnapshotsAt(root, machine) + [METADATA]
  }

  /** The directory of a snapshot with a whole state generation. */
  function StateSlot(root: Path, machine: nat, id: nat): Path {
    SnapshotsAt(root, machine) + [Uuid(id)]
  }

  /** The disk file of a snapshot of the disk alone. */
  function DiskSlot(root: Path, machine: nat, id: nat): Path {
    SnapshotsAt(root, machine) + [Suffixed(Uuid(id), ".raw")]
  }

  function StateRecord(machine: nat, id: nat, name: string): MachineSnapshot {
    MachineSnapshot(id, name,
                    SnapshotsDirectory(machine) + [Uuid(id), STATE, DISK],
                    Some(SnapshotsDirectory(machine) + [Uuid(id), STATE]))
  }

  function DiskRecord(machine: nat, id: nat, name: string): MachineSnapshot {
    MachineSnapshot(id, name, SnapshotsDirectory(machine) + [Suffixed(Uuid(id), ".raw")], None)
  }

  function NewRecord(m: Machine, id: nat, name: string): MachineSnapshot {
    if m.windows then StateRecord(m.id, id, name) else DiskRecord(m.id, id, name)
  }

  predicate IsRecord(machine: nat, s: MachineSnapshot) {
    s == StateRecord(machine, s.id, s.name) || s == DiskRecord(machine, s.id, s.name)
  }

  /** What is stored for a snapshot. */
  function Saved(f: Files, root: Path, s: MachineSnapshot): Files {
    TreeAt(f, root + if s.state.Some? then s.state.value else s.disk)
  }

  /** What a snapshot taken now has to store. */
  function Captured(f: Files, root: Path, m: Machine): Files
    requires m.disk != []
  {
    if m.windows then Image(TreeAt(f, root + Parent(m.disk)), FIRMWARE) else TreeAt(f, root + m.disk)
  }

  /** `SnapshotStore.list`. */
  function Listed(f: Files, root: Path, machine: nat): (r: Result<seq<MachineSnapshot>, StoreError>) {
    var metadata := MetadataAt(root, machine);
    if !Exists(f, metadata) then Ok([])
    else if metadata in f && f[metadata].File? && f[metadata].content.SnapshotList? then
      Ok(f[metadata].content.items)
    else Err(UnreadableMetadata)
  }

  function Unlist(items: seq<MachineSnapshot>, id: nat): seq<MachineSnapshot> {
    if items == [] then []
    else if items[0].id == id then Unlist(items[1..], id)
    else [items[0]] + Unlist(items[1..], id)
  }

  // ----- effects

  /** Every slot but that of `s` holds what it held. */
  ghost predicate OtherSlotsKept(f: Files, g: Files, root: Path, machine: nat, s: MachineSnapshot) {
    && (forall id :: id != s.id || s.state.None? ==>
          TreeAt(f, StateSlot(root, machine, id)) == TreeAt(g, StateSlot(root, machine, id)))
    && (forall id :: id != s.id || s.state.Some? ==>
          TreeAt(f, DiskSlot(root, machine, id)) == TreeAt(g, DiskSlot(root, machine, id)))
  }

  /** The new snapshot is listed last, and its files hold what the machine held before. */
  ghost predicate Added(f: Files, g: Files, root: Path, m: Machine, s: MachineSnapshot)
    requires m.disk != []
  {
    && Listed(f, root, m.id).Ok?
    && Listed(g, root, m.id) == Ok(Listed(f, root, m.id).value + [s])
    && Saved(g, root, s) == Captured(f, root, m)
    && Exists(g, root + s.disk)
  }

  ghost predicate CreateEffect(f: Files, g: Files, root: Path, m: Machine, name: string, id: nat,
                               r: Completion<MachineSnapshot>)
    requires m.disk != []
  {
    var s := NewRecord(m, id, name);
    && Touches(f, g, SnapshotsAt(root, m.id))
    && OtherSlotsKept(f, g, root, m.id, s)
    && (Listed(g, root, m.id) == Listed(f, root, m.id) || Added(f, g, root, m, s))
    && (r.Returned? ==> r.value == s && Added(f, g, root, m, s))
    && (r.Threw? ==> Listed(g, root, m.id) == Listed(f, root, m.id))
  }

  predicate IsGeneration(root: Path, m: Machine)
    requires m.disk != []
  {
    var current := Parent(root + m.disk);
    |current| >= 2 && current[|current| - 1] == CURRENT && current[|current| - 2] == STATE
  }

  function StagedAt(root: Path, m: Machine, token: nat): Path
    requires |m.disk| >= 2
  {
    Parent(Parent(root + m.disk)) + [Prefixed(".restore-", Uuid(token))]
  }

  /** The state generation is the old one or a whole clone of the snapshot, also after a crash. */
  ghost predicate StateRestore(f: Files, g: Files, root: Path, m: Machine, source: Path, token: nat,
                               r: Completion<()>)
    requires |m.disk| >= 2
  {
    var current, staged := root + Parent(m.disk), StagedAt(root, m, token);
    && KeepsApart(f, g, current, staged)
    && (|| TreeAt(g, current) == TreeAt(f, current)
        || TreeAt(g, current) == Image(TreeAt(f, source), FIRMWARE))
    && (r.Returned? ==> TreeAt(g, current) == Image(TreeAt(f, source), FIRMWARE) && !Exists(g, staged))
    && (!IsGeneration(root, m) ==> r == Threw(InvalidWindowsState) && g == f)
  }

  /** The disk is the old one or a whole clone of the snapshot's, also after a crash. */
  ghost predicate DiskRestore(f: Files, g: Files, root: Path, m: Machine, s: MachineSnapshot, r: Completion<()>)
    requires m.disk != []
  {
    var target := root + m.disk;
    && KeepsApart(f, g, target, ReplacementFor(target))
    && (TreeAt(g, target) == TreeAt(f, target) || TreeAt(g, target) == TreeAt(f, root + s.disk))
    && (r.Returned? ==> TreeAt(g, target) == TreeAt(f, root + s.disk) && !Exists(g, ReplacementFor(target)))
  }

  function ReplacementFor(disk: Path): Path
    requires disk != []
  {
    Parent(disk) + [Suffixed(disk[|disk| - 1], ".restore")]
  }

  ghost predicate RestoreEffect(f: Files, g: Files, root: Path, m: Machine, s: MachineSnapshot, token: nat,
                                r: Completion<()>)
    requires |m.disk| >= 2
  {
    if m.windows && s.state.Some? then StateRestore(f, g, root, m, root + s.state.value, token, r)
    else DiskRestore(f, g, root, m, s, r)
  }

  // ----- what an operation needs

  ghost predicate CanSave(f: Files, root: Path, machine: nat) {
    Clear(f, SnapshotsAt(root, machine)) && !IsDirectory(f, MetadataAt(root, machine))
  }

  /** The machine has a disk, no file is in the way of the snapshots directory, and the listing can be read. */
  ghost predicate CanCreate(f: Files, root: Path, m: Machine) {
    && Clear(f, SnapshotsAt(root, m.id)) && Exists(f, root + m.disk)
    && Listed(f, root, m.id).Ok?
  }

  /** The snapshot has its disk file, the machine has a disk, no file is in the way of the machine's own files, and a
      Windows machine has a state generation. */
  ghost predicate CanRestore(f: Files, root: Path, m: Machine, s: MachineSnapshot)
    requires |m.disk| >= 2
  {
    if m.windows && s.state.Some? then
      CanRestoreState(f, root, m, root + s.state.value)
    else
      Clear(f, Parent(root + m.disk)) && Exists(f, root + m.disk) && Exists(f, root + s.disk)
  }

  ghost predicate CanRestoreState(f: Files, root: Path, m: Machine, source: Path)
    requires |m.disk| >= 2
  {
    && IsGeneration(root, m) && Exists(f, root + Parent(m.disk)) && Clear(f, Parent(Parent(root + m.disk)))
    && Exists(f, source + [DISK])
  }

  ghost predicate CanDelete(f: Files, root: Path, machine: nat) {
    Clear(f, SnapshotsAt(root, machine)) && Listed(f, root, machine).Ok?
  }

  /** A listing that can be read is no directory. */
  lemma ListedCanSave(f: Files, root: Path, machine: nat)
    requires Clear(f, SnapshotsAt(root, machine)) && Listed(f, root, machine).Ok?
    ensures CanSave(f, root, machine)
  {
    var metadata := MetadataAt(root, machine);
    if metadata in f {
      assert Within(metadata, metadata);
      assert Exists(f, metadata);
    }
  }

  /** Files go first and the listing last, so an unlisted snapshot has no files left. */
  ghost predicate DeleteEffect(f: Files, g: Files, root: Path, machine: nat, s: MachineSnapshot, r: Completion<()>) {
    var before, after := Listed(f, root, machine), Listed(g, root, machine);
    var removed := before.Ok? && after == Ok(Unlist(before.value, s.id)) && !Exists(g, SlotOf(root, machine, s));
    && Touches(f, g, SnapshotsAt(root, machine))
    && OtherSlotsKept(f, g, root, machine, s)
    && (after == before || removed)
    && (r.Returned? ==> removed)
  }

  /** The ways `save` can go: the directory and then the file. */
  ghost predicate SaveRuns(f: Files, g: Files, root: Path, machine: nat, items: seq<MachineSnapshot>, o: Outcome) {
    exists h ::
      && AddsDirectories(f, h, SnapshotsAt(root, machine))
      && (|| (g == h && !o.Done?)
          || (IsDirectory(h, SnapshotsAt(root, machine))
              && PutRuns(h, g, MetadataAt(root, machine), SnapshotListOf(items), o)))
  }

  /** The ways `delete` can go once the files are gone. */
  ghost predicate UnlistRuns(f: Files, g: Files, root: Path, machine: nat, s: MachineSnapshot, r: Completion<()>) {
    match Listed(f, root, machine)
    case Err(error) => g == f && r == Threw(error)
    case Ok(items) => exists o: Outcome :: r == Ended(o) && SaveRuns(f, g, root, machine, Unlist(items, s.id), o)
  }

  /** The ways `delete` can go, call by call: the removal is not finished, or it is and the listing comes next. */
  ghost predicate DeleteRuns(f: Files, g: Files, root: Path, machine: nat, s: MachineSnapshot, r: Completion<()>) {
    var slot := SlotOf(root, machine, s);
    if Exists(f, slot) then
      || (exists o: Outcome :: !o.Done? && r == Ended(o) && RemoveRuns(f, g, slot, o))
      || UnlistRuns(Without(f, slot), g, root, machine, s, r)
    else UnlistRuns(f, g, root, machine, s, r)
  }

  function SlotOf(root: Path, machine: nat, s: MachineSnapshot): Path {
    if s.state.Some? then StateSlot(root, machine, s.id) else DiskSlot(root, machine, s.id)
  }

  // ----- geometry of the layout

  lemma SlotsApart(root: Path, machine: nat, id: nat)
    ensures Within(SnapshotsAt(root, machine), StateSlot(root, machine, id))
    ensures Within(SnapshotsAt(root, machine), DiskSlot(root, machine, id))
    ensures Within(SnapshotsAt(root, machine), MetadataAt(root, machine))
    ensures forall other :: other != id ==> Apart(StateSlot(root, machine, other), StateSlot(root, machine, id))
    ensures forall other :: other != id ==> Apart(DiskSlot(root, machine, other), DiskSlot(root, machine, id))
    ensures forall other :: Apart(StateSlot(root, machine, other), DiskSlot(root, machine, id))
    ensures forall other :: Apart(DiskSlot(root, machine, other), StateSlot(root, machine, id))
    ensures Apart(StateSlot(root, machine, id), MetadataAt(root, machine))
    ensures Apart(DiskSlot(root, machine, id), MetadataAt(root, machine))
  {
    var k := |SnapshotsAt(root, machine)|;
    assert StateSlot(root, machine, id)[k] == Uuid(id);
    assert DiskSlot(root, machine, id)[k] == Suffixed(Uuid(id), ".raw");
    assert MetadataAt(root, machine)[k] == METADATA;
    forall other
      ensures StateSlot(root, machine, other)[k] == Uuid(other)
      ensures DiskSlot(root, machine, other)[k] == Suffixed(Uuid(other), ".raw")
    {
    }
  }

  lemma ListedFrom(f: Files, g: Files, root: Path, machine: nat)
    requires TreeAt(f, MetadataAt(root, machine)) == TreeAt(g, MetadataAt(root, machine))
    ensures Listed(f, root, machine) == Listed(g, root, machine)
  {
    SameTree(f, g, MetadataAt(root, machine));
  }

  /** A change at the slot of `s` shows nowhere else among the machine's snapshots. */
  lemma TouchesSlot(f: Files, g: Files, root: Path, machine: nat, s: MachineSnapshot)
    requires Touches(f, g, SlotOf(root, machine, s))
    ensures Touches(f, g, SnapshotsAt(root, machine))
    ensures OtherSlotsKept(f, g, root, machine, s)
    ensures Listed(f, root, machine) == Listed(g, root, machine)
  {
    var p := SlotOf(root, machine, s);
    SlotsApart(root, machine, s.id);
    TouchesBelow(f, g, SnapshotsAt(root, machine), p);
    forall id | id != s.id || s.state.None?
      ensures TreeAt(f, StateSlot(root, machine, id)) == TreeAt(g, StateSlot(root, machine, id))
    {
      TouchesApart(f, g, p, StateSlot(root, machine, id));
    }
    forall id | id != s.id || s.state.Some?
      ensures TreeAt(f, DiskSlot(root, machine, id)) == TreeAt(g, DiskSlot(root, machine, id))
    {
      TouchesApart(f, g, p, DiskSlot(root, machine, id));
    }
    TouchesApart(f, g, p, MetadataAt(root, machine));
    ListedFrom(f, g, root, machine);
  }

  /** A change of the metadata file shows in no slot. */
  lemma TouchesMetadata(f: Files, g: Files, root: Path, machine: nat)
    requires Touches(f, g, MetadataAt(root, machine))
    ensures Touches(f, g, SnapshotsAt(root, machine))
    ensures forall id :: TreeAt(f, StateSlot(root, machine, id)) == TreeAt(g, StateSlot(root, machine, id))
    ensures forall id :: TreeAt(f, DiskSlot(root, machine, id)) == TreeAt(g, DiskSlot(root, machine, id))
  {
    SlotsApart(root, machine, 0);
    TouchesBelow(f, g, SnapshotsAt(root, machine), MetadataAt(root, machine));
    forall id
      ensures TreeAt(f, StateSlot(root, machine, id)) == TreeAt(g, StateSlot(root, machine, id))
      ensures TreeAt(f, DiskSlot(root, machine, id)) == TreeAt(g, DiskSlot(root, machine, id))
    {
      SlotsApart(root, machine, id);
      TouchesApart(f, g, MetadataAt(root, machine), StateSlot(root, machine, id));
      TouchesApart(f, g, MetadataAt(root, machine), DiskSlot(root, machine, id));
    }
  }

  function SnapshotListOf(items: seq<MachineSnapshot>): Content {
    SnapshotList(items)
  }

  lemma DirectoryKeepsListing(f: Files, g: Files, root: Path, machine: nat)
    requires AddsDirectories(f, g, SnapshotsAt(root, machine))
    ensures Touches(f, g, MetadataAt(root, machine))
    ensures Listed(g, root, machine) == Listed(f, root, machine)
  {
    var metadata := MetadataAt(root, machine);
    SlotsApart(root, machine, 0);
    AddsAbove(f, g, SnapshotsAt(root, machine), metadata);
    ListedFrom(f, g, root, machine);
  }

  lemma RecordPaths(root: Path, m: Machine, id: nat, name: string, s: MachineSnapshot)
    requires var state := StateSlot(root, m.id, id) + [STATE];
             s == if m.windows then
               MachineSnapshot(id, name, (state + [DISK])[|root|..], Some(state[|root|..]))
             else
               MachineSnapshot(id, name, DiskSlot(root, m.id, id)[|root|..], None)
    ensures s == NewRecord(m, id, name)
  {
    var state := SnapshotsDirectory(m.id) + [Uuid(id), STATE];
    assert StateSlot(root, m.id, id) + [STATE] == root + state;
    assert StateSlot(root, m.id, id) + [STATE] + [DISK] == root + (state + [DISK]);
    assert state + [DISK] == SnapshotsDirectory(m.id) + [Uuid(id), STATE, DISK];
    assert DiskSlot(root, m.id, id) == root + (SnapshotsDirectory(m.id) + [Suffixed(Uuid(id), ".raw")]);
  }

  /** The machine's own files and its snapshots lie in different places. */
  lemma DiskApart(root: Path, m: Machine)
    requires Managed(m)
    ensures Resolve(root, m.disk) == Some(root + m.disk)
    ensures Parent(root + m.disk) == root + Parent(m.disk)
    ensures Apart(root + m.disk, SnapshotsAt(root, m.id))
    ensures Apart(root + Parent(m.disk) + [DISK], SnapshotsAt(root, m.id))
    ensures Apart(root + Parent(m.disk) + [QEMU], SnapshotsAt(root, m.id))
  {
    var k := |root| + 2;
    assert SnapshotsAt(root, m.id)[k] == SNAPSHOTS;
    assert (root + m.disk)[k] == m.disk[2];
    assert (root + Parent(m.disk) + [DISK])[k] != SNAPSHOTS;
    assert (root + Parent(m.disk) + [QEMU])[k] != SNAPSHOTS;
  }

  lemma ApartFromBelow(p: Path, d: Path, q: Path)
    requires Apart(p, d) && Within(d, q)
    ensures Apart(p, q)
  {
    ApartBelow(d, p, q);
  }

  /** Making the snapshots directory does not change what there is to capture. */
  lemma SourceKept(f: Files, g: Files, root: Path, m: Machine)
    requires Managed(m) && AddsDirectories(f, g, SnapshotsAt(root, m.id))
    ensures Captured(f, root, m) == Captured(g, root, m)
    ensures Exists(f, root + m.disk) == Exists(g, root + m.disk)
  {
    var dir := SnapshotsAt(root, m.id);
    DiskApart(root, m);
    TouchesApart(f, g, dir, root + m.disk);
    TouchesApart(f, g, dir, root + Parent(m.disk) + [DISK]);
    TouchesApart(f, g, dir, root + Parent(m.disk) + [QEMU]);
    ImageStable(f, g, root + Parent(m.disk));
  }

  lemma SlotStillFree(f: Files, g: Files, root: Path, machine: nat, slot: Path)
    requires AddsDirectories(f, g, SnapshotsAt(root, machine))
    requires Within(SnapshotsAt(root, machine), slot) && slot != SnapshotsAt(root, machine) && !Exists(f, slot)
    ensures Touches(f, g, slot) && !Exists(g, slot)
  {
    AddsAbove(f, g, SnapshotsAt(root, machine), slot);
    SameTree(f, g, slot);
  }

  lemma StatePlace(f: Files, root: Path, m: Machine, name: string, id: nat)
    requires Managed(m) && !Exists(f, StateSlot(root, m.id, id))
    ensures var state := StateSlot(root, m.id, id) + [STATE];
            && Within(StateSlot(root, m.id, id), state) && !Exists(f, state)
            && Apart(root + Parent(m.disk) + [DISK], state) && Apart(root + Parent(m.disk) + [QEMU], state)
            && root + StateRecord(m.id, id, name).state.value == state
            && root + StateRecord(m.id, id, name).disk == state + [DISK]
  {
    var dir, slot := SnapshotsAt(root, m.id), StateSlot(root, m.id, id);
    DiskApart(root, m);
    assert Within(dir, slot + [STATE]);
    ApartFromBelow(root + Parent(m.disk) + [DISK], dir, slot + [STATE]);
    ApartFromBelow(root + Parent(m.disk) + [QEMU], dir, slot + [STATE]);
    assert forall q :: Within(slot + [STATE], q) ==> Within(slot, q);
    assert slot + [STATE] == root + (SnapshotsDirectory(m.id) + [Uuid(id), STATE]);
    assert slot + [STATE] + [DISK] == root + (SnapshotsDirectory(m.id) + [Uuid(id), STATE, DISK]);
  }

  lemma StateIsClear(f: Files, root: Path, m: Machine, id: nat)
    requires Managed(m) && !Exists(f, StateSlot(root, m.id, id))
    ensures Clear(f, SnapshotsAt(root, m.id)) ==> Clear(f, StateSlot(root, m.id, id) + [STATE])
    ensures root + Parent(m.disk) + [DISK] == root + m.disk
  {
    var slot := StateSlot(root, m.id, id);
    if Clear(f, SnapshotsAt(root, m.id)) {
      forall q | q in f && Within(q, slot + [STATE])
        ensures f[q] == Directory
      {
        assert !Within(slot, q);
        assert |q| <= |SnapshotsAt(root, m.id)|;
        assert Within(q, SnapshotsAt(root, m.id));
      }
    }
  }

  /** The clone and then the new listing, taken together. */
  lemma CreateSteps(f: Files, g: Files, h: Files, root: Path, m: Machine, s: MachineSnapshot)
    requires m.disk != [] && s == NewRecord(m, s.id, s.name)
    requires Touches(f, g, SlotOf(root, m.id, s)) && Touches(g, h, MetadataAt(root, m.id))
    requires Saved(g, root, s) == Captured(f, root, m) && Exists(g, root + s.disk)
    ensures Touches(f, h, SnapshotsAt(root, m.id))
    ensures OtherSlotsKept(f, h, root, m.id, s)
    ensures Listed(g, root, m.id) == Listed(f, root, m.id)
    ensures Saved(h, root, s) == Captured(f, root, m) && Exists(h, root + s.disk)
  {
    TouchesSlot(f, g, root, m.id, s);
    TouchesMetadata(g, h, root, m.id);
    TouchesThen(f, g, h, SnapshotsAt(root, m.id), SnapshotsAt(root, m.id));
    SavedKept(g, h, root, m, s.id, s);
  }

  lemma CreateCanSave(f: Files, g: Files, root: Path, m: Machine, s: MachineSnapshot)
    requires Touches(f, g, SlotOf(root, m.id, s))
    ensures CanCreate(f, root, m) ==> CanSave(g, root, m.id)
  {
    if CanCreate(f, root, m) {
      TouchesSlot(f, g, root, m.id, s);
      ClearAfter(f, g, SnapshotsAt(root, m.id), SlotOf(root, m.id, s));
      ListedCanSave(g, root, m.id);
    }
  }

  lemma SavedKept(f: Files, g: Files, root: Path, m: Machine, id: nat, s: MachineSnapshot)
    requires s == NewRecord(m, id, s.name)
    requires TreeAt(f, SlotOf(root, m.id, s)) == TreeAt(g, SlotOf(root, m.id, s))
    ensures Saved(f, root, s) == Saved(g, root, s)
    ensures Exists(f, root + s.disk) == Exists(g, root + s.disk)
  {
    var slot := SlotOf(root, m.id, s);
    assert Within(slot, root + s.disk);
    SameInside(f, g, slot, root + s.disk);
    if m.windows {
      assert Within(slot, root + s.state.value);
      SameInside(f, g, slot, root + s.state.value);
    }
  }

  // ----- restoring

  lemma GenerationApart(root: Path, m: Machine, token: nat)
    requires Managed(m) && IsGeneration(root, m)
    ensures Apart(root + Parent(m.disk), StagedAt(root, m, token))
    ensures Apart(root + Parent(m.disk), SnapshotsAt(root, m.id))
    ensures Apart(StagedAt(root, m, token), SnapshotsAt(root, m.id))
  {
    var current, staged, k := root + Parent(m.disk), StagedAt(root, m, token), |root| + 2;
    DiskApart(root, m);
    assert SnapshotsAt(root, m.id)[k] == SNAPSHOTS;
    assert current[|current| - 1] == Parent(m.disk)[|Parent(m.disk)| - 1];
    assert m.disk == MachineDirectory(m.id) + [STATE, CURRENT, DISK];
    assert current[k] == STATE && current[k + 1] == CURRENT;
    assert staged[k] == STATE && staged[k + 1] == Prefixed(".restore-", Uuid(token));
  }

  lemma ReplacementApart(root: Path, m: Machine)
    requires Managed(m)
    ensures Apart(root + m.disk, ReplacementFor(root + m.disk))
    ensures Apart(root + m.disk, SnapshotsAt(root, m.id))
    ensures Apart(ReplacementFor(root + m.disk), SnapshotsAt(root, m.id))
  {
    var target, replacement, k := root + m.disk, ReplacementFor(root + m.disk), |root| + 2;
    DiskApart(root, m);
    assert SnapshotsAt(root, m.id)[k] == SNAPSHOTS;
    assert target[|target| - 1] == DISK && replacement[|target| - 1] == Suffixed(DISK, ".restore");
    if |m.disk| == 3 {
      assert replacement[k] == Suffixed(DISK, ".restore");
    } else {
      assert replacement[k] == m.disk[2] == STATE;
    }
  }

  /** On the way from `f`: the tree at `a` is the old one or `t`, and only `a` and `b` have changed. */
  ghost predicate Halfway(f: Files, g: Files, a: Path, b: Path, t: Files) {
    && KeepsApart(f, g, a, b)
    && (TreeAt(g, a) == TreeAt(f, a) || TreeAt(g, a) == t)
  }

  lemma HalfwayBegin(f: Files, g: Files, a: Path, b: Path, t: Files)
    requires Touches(f, g, b) && Apart(a, b)
    ensures Halfway(f, g, a, b, t) && TreeAt(g, a) == TreeAt(f, a)
  {
    TouchesKeeps(f, g, b, a);
    TouchesApart(f, g, b, a);
  }

  lemma HalfwayOn(f: Files, g: Files, h: Files, a: Path, b: Path, t: Files)
    requires Halfway(f, g, a, b, t) && Touches(g, h, b) && Apart(a, b)
    ensures Halfway(f, h, a, b, t) && TreeAt(h, a) == TreeAt(g, a)
  {
    TouchesKeeps(g, h, b, a);
    TouchesApart(g, h, b, a);
  }

  lemma StagingIsPossible(f: Files, g: Files, source: Path, staged: Path)
    requires staged != [] && Shrinks(f, g, staged) && !Exists(g, staged) && Apart(source, staged)
    ensures Clear(f, Parent(staged)) ==> Clear(g, staged)
    ensures Touches(f, g, staged)
  {
    if Clear(f, Parent(staged)) {
      forall q | q in g && Within(q, staged)
        ensures g[q] == Directory
      {
        assert q != staged by {
          assert Within(staged, staged);
        }
        assert Within(q, Parent(staged));
      }
    }
  }

  lemma ReplacingIsPossible(f: Files, g: Files, source: Path, replacement: Path)
    requires replacement != [] && Shrinks(f, g, replacement) && !Exists(g, replacement)
    requires Apart(replacement, source) && Exists(g, source) == Exists(f, source)
    ensures Clear(f, Parent(replacement)) && Exists(f, source) ==> CanClone(g, source, replacement)
    ensures Touches(f, g, replacement)
  {
    ClearAfterRemoval(f, g, Parent(replacement), replacement);
  }

  lemma StagedExists(f: Files, g: Files, current: Path, staged: Path)
    requires Touches(f, g, staged) && Apart(current, staged) && Exists(g, staged + [DISK])
    ensures Exists(g, staged) && Exists(g, current) == Exists(f, current)
  {
    TouchesApart(f, g, staged, current);
    var q :| q in g && Within(staged + [DISK], q);
    assert Within(staged, q);
  }

  lemma SwapStep(f: Files, g: Files, k: Files, h: Files, a: Path, b: Path, t: Files)
    requires Halfway(f, g, a, b, t) && Apart(a, b)
    requires k == Graft(g, a, t) && Touches(k, h, b)
    ensures Halfway(f, h, a, b, t) && TreeAt(h, a) == t
  {
    GraftStep(f, g, k, a, b, t);
    HalfwayOn(f, k, h, a, b, t);
  }

  lemma GraftStep(f: Files, g: Files, k: Files, a: Path, b: Path, t: Files)
    requires Halfway(f, g, a, b, t) && k == Graft(g, a, t)
    ensures Halfway(f, k, a, b, t) && TreeAt(k, a) == t
  {
    TouchesKeeps(g, k, a, b);
  }

  lemma ReplaceStep(f: Files, g: Files, h: Files, a: Path, b: Path, t: Files)
    requires Halfway(f, g, a, b, t) && Apart(a, b) && TreeAt(g, b) == t
    requires h == Without(Graft(g, a, TreeAt(g, b)), b)
    ensures Halfway(f, h, a, b, t) && TreeAt(h, a) == t && !Exists(h, b)
  {
    var k := Graft(g, a, TreeAt(g, b));
    GraftStep(f, g, k, a, b, t);
    WithoutTouches(k, b);
    HalfwayOn(f, k, h, a, b, t);
  }

  lemma DeleteSteps(f: Files, g: Files, h: Files, root: Path, machine: nat, s: MachineSnapshot)
    requires Touches(f, g, SlotOf(root, machine, s)) && Touches(g, h, MetadataAt(root, machine))
    requires !Exists(g, SlotOf(root, machine, s))
    ensures Touches(f, h, SnapshotsAt(root, machine))
    ensures OtherSlotsKept(f, h, root, machine, s)
    ensures Listed(g, root, machine) == Listed(f, root, machine)
    ensures !Exists(h, SlotOf(root, machine, s))
  {
    TouchesSlot(f, g, root, machine, s);
    TouchesMetadata(g, h, root, machine);
    TouchesThen(f, g, h, SnapshotsAt(root, machine), SnapshotsAt(root, machine));
    SameTree(g, h, SlotOf(root, machine, s));
  }

  lemma SlotFromRecord(root: Path, machine: nat, s: MachineSnapshot)
    requires IsRecord(machine, s)
    ensures Text("..") !in s.disk && (s.state.Some? ==> s.state.value != [] && Text("..") !in s.state.value)
    ensures s.state.Some? ==> Parent(root + s.state.value) == SlotOf(root, machine, s)
    ensures s.state.None? ==> root + s.disk == SlotOf(root, machine, s)
    ensures Within(SnapshotsAt(root, machine), root + s.disk)
    ensures s.state.Some? ==> Within(SnapshotsAt(root, machine), root + s.state.value)
    ensures s.state.Some? ==> Within(SlotOf(root, machine, s), root + s.state.value)
    ensures Within(SlotOf(root, machine, s), root + s.disk)
  {
    if s.state.Some? {
      assert Parent(root + s.state.value) == root + Parent(s.state.value);
      assert Parent(s.state.value) == SnapshotsDirectory(machine) + [Uuid(s.id)];
    }
  }

  // ----- cloning a state generation

  /** The first `n` of the names. */
  function NamesIn(names: seq<Name>, n: nat): set<Name>
    requires n <= |names|
  {
    if n == 0 then {} else NamesIn(names, n - 1) + {names[n - 1]}
  }

  /** On the way from `f`: the tree at `target` images the state at `source`, firmware files `names` included. */
  ghost predicate Imaged(f: Files, g: Files, source: Path, target: Path, names: set<Name>) {
    && Touches(f, g, target)
    && TreeAt(g, target) == Image(TreeAt(f, source), names)
    && Exists(g, target + [DISK])
  }

  /** No name comes twice. */
  ghost predicate AllNew(names: seq<Name>) {
    forall i :: 0 <= i < |names| ==> names[i] !in NamesIn(names, i)
  }

  lemma FirmwareNamesDiffer()
    ensures AllNew(FIRMWARE_NAMES)
  {
    assert FIRMWARE_NAMES[0].text[4] != FIRMWARE_NAMES[1].text[4];
    assert |FIRMWARE_NAMES[2].text| == 9 && |FIRMWARE_NAMES[0].text| == 11 && |FIRMWARE_NAMES[1].text| == 11;
    assert NamesIn(FIRMWARE_NAMES, 0) == {};
    assert NamesIn(FIRMWARE_NAMES, 1) == {FIRMWARE_NAMES[0]};
    assert NamesIn(FIRMWARE_NAMES, 2) == {FIRMWARE_NAMES[0], FIRMWARE_NAMES[1]};
  }

  lemma NotAbove(p: Path, d: Path, more: Path)
    requires Apart(p, d)
    ensures !Within(p, d + more)
  {
  }

  lemma DiskCloneIsPossible(f: Files, g: Files, source: Path, target: Path)
    requires !Exists(f, target) && Apart(source + [DISK], target) && AddsDirectories(f, g, target)
    ensures Clear(f, target) && Exists(f, source + [DISK]) ==> CanClone(g, source + [DISK], target + [DISK])
  {
    var src, dst := source + [DISK], target + [DISK];
    assert Parent(dst) == target;
    NotAbove(src, target, [DISK]);
    DirectoriesAbove(f, g, src, dst);
    if Exists(f, dst) {
      var q :| q in f && Within(dst, q);
      assert Within(target, q);
    }
  }

  lemma ImagedAt(f: Files, g: Files, source: Path, target: Path, names: set<Name>, r: Path)
    requires Imaged(f, g, source, target, names) && target + r in g
    ensures InImage(TreeAt(f, source), names, r)
    ensures r == [] || r == [QEMU] ==> g[target + r] == Directory
  {
    assert r in TreeAt(g, target);
  }

  /** The way into a clone is clear. */
  lemma ImagedIsClear(f: Files, g: Files, source: Path, target: Path, names: set<Name>)
    requires Imaged(f, g, source, target, names)
    ensures Clear(f, target) ==> Clear(g, target + [QEMU])
  {
    if Clear(f, target) {
      forall q | q in g && Within(q, target + [QEMU])
        ensures g[q] == Directory
      {
        if Within(target, q) {
          var r := q[|target|..];
          assert q == target + r;
          assert r == [] || r == [QEMU];
          ImagedAt(f, g, source, target, names, r);
        } else {
          assert Within(q, target);
        }
      }
    }
  }

  lemma OnlyNamedFirmware(f: Files, g: Files, source: Path, target: Path, names: set<Name>, name: Name, r: Path)
    requires Imaged(f, g, source, target, names) && name !in names
    ensures target + ([QEMU, name] + r) !in g
  {
    var p := [QEMU, name] + r;
    assert p[0] == QEMU && p[1] == name;
    if target + p in g {
      ImagedAt(f, g, source, target, names, p);
    }
  }

  lemma BelowPath(p: Path, d: Path, q: Path)
    requires Within(p + d, q)
    ensures q == p + (d + q[|p + d|..])
  {
    assert q == (p + d) + q[|p + d|..];
  }

  lemma ImagedIsFree(f: Files, g: Files, source: Path, target: Path, names: set<Name>, name: Name)
    requires Imaged(f, g, source, target, names) && name !in names
    ensures !Exists(g, target + [QEMU, name])
  {
    forall q | Within(target + [QEMU, name], q)
      ensures q !in g
    {
      BelowPath(target, [QEMU, name], q);
      OnlyNamedFirmware(f, g, source, target, names, name, q[|target + [QEMU, name]|..]);
    }
  }

  lemma FirmwareCloneIsPossible(f: Files, g: Files, h: Files, source: Path, target: Path, names: set<Name>, name: Name)
    requires Imaged(f, g, source, target, names) && Apart(source + [QEMU], target)
    requires AddsDirectories(g, h, target + [QEMU]) && Touches(f, h, target)
    requires Exists(f, source + [QEMU, name])
    ensures Clear(f, target) && name !in names ==> CanClone(h, source + [QEMU, name], target + [QEMU, name])
  {
    if Clear(f, target) && name !in names {
      var src, dst := source + [QEMU, name], target + [QEMU, name];
      assert Parent(dst) == target + [QEMU];
      ImagedIsClear(f, g, source, target, names);
      ImagedIsFree(f, g, source, target, names, name);
      ClearAfterDirectories(g, h, target + [QEMU], target + [QEMU]);
      assert Within(source + [QEMU], src);
      ApartBelow(source + [QEMU], target, src);
      NotAbove(src, target, [QEMU, name]);
      DirectoriesAbove(g, h, src, dst);
      FirmwareSource(f, h, source, target, name);
    }
  }

  lemma FirmwareSource(f: Files, g: Files, source: Path, target: Path, name: Name)
    requires Touches(f, g, target) && Apart(source + [QEMU], target)
    ensures TreeAt(g, source + [QEMU, name]) == TreeAt(f, source + [QEMU, name])
    ensures Exists(g, source + [QEMU, name]) == Exists(f, source + [QEMU, name])
  {
    assert Within(source + [QEMU], source + [QEMU, name]);
    ApartBelow(source + [QEMU], target, source + [QEMU, name]);
    TouchesApart(f, g, target, source + [QEMU, name]);
  }

  lemma ImageStart(f: Files, g: Files, h: Files, source: Path, target: Path, r: Outcome)
    requires !Exists(f, target) && Apart(source + [DISK], target)
    requires AddsDirectories(f, g, target) && target in g && g[target] == Directory
    requires Touches(g, h, target + [DISK])
    requires r.Done? ==> TreeAt(h, target + [DISK]) == TreeAt(g, source + [DISK]) && Exists(g, source + [DISK])
    ensures Touches(f, h, target)
    ensures r.Done? ==> TreeAt(h, target) == Image(TreeAt(f, source), {}) && Exists(h, target + [DISK])
  {
    TouchesBelow(g, h, target, target + [DISK]);
    if r.Done? {
      assert TreeAt(g, source + [DISK]) == TreeAt(f, source + [DISK]) by {
        TouchesApart(f, g, target, source + [DISK]);
      }
      SameTreeExists(g, source + [DISK], h, target + [DISK]);
      StartTree(f, g, h, source, target);
    }
  }

  lemma SameTreeExists(f: Files, p: Path, g: Files, q: Path)
    requires TreeAt(f, p) == TreeAt(g, q)
    ensures Exists(f, p) == Exists(g, q)
  {
    EmptyTree(f, p);
    EmptyTree(g, q);
  }

  lemma StartTree(f: Files, g: Files, h: Files, source: Path, target: Path)
    requires !Exists(f, target)
    requires AddsDirectories(f, g, target) && target in g && g[target] == Directory
    requires Touches(g, h, target + [DISK])
    requires TreeAt(h, target + [DISK]) == TreeAt(f, source + [DISK])
    ensures TreeAt(h, target) == Image(TreeAt(f, source), {})
  {
    var image := Image(TreeAt(f, source), {});
    forall r: Path
      ensures target + r in h <==> r in image
      ensures r in image ==> h[target + r] == image[r]
    {
      StartPoint(f, g, h, source, target, r);
    }
    TreeIs(h, target, image);
  }

  lemma StartPoint(f: Files, g: Files, h: Files, source: Path, target: Path, r: Path)
    requires !Exists(f, target)
    requires AddsDirectories(f, g, target) && target in g && g[target] == Directory
    requires Touches(g, h, target + [DISK])
    requires TreeAt(h, target + [DISK]) == TreeAt(f, source + [DISK])
    ensures target + r in h <==> r in Image(TreeAt(f, source), {})
    ensures target + r in h ==> h[target + r] == Image(TreeAt(f, source), {})[r]
  {
    ImageStartAt(f, g, h, source, target, r);
    BareImage(f, source, r);
  }

  /** The image of a state without any firmware file. */
  lemma BareImage(f: Files, source: Path, r: Path)
    ensures r in Image(TreeAt(f, source), {}) <==> r == [] || (Within([DISK], r) && source + r in f)
    ensures r in Image(TreeAt(f, source), {}) ==>
              Image(TreeAt(f, source), {})[r] == if r == [] then Directory else f[source + r]
  {
    var t := TreeAt(f, source);
    assert !HasFirmware(t, {});
    assert r in Image(t, {}) <==> InImage(t, {}, r);
    if Within([DISK], r) {
      assert r[0] == DISK;
    }
  }

  lemma TreeIs(f: Files, p: Path, t: Files)
    requires forall r :: p + r in f <==> r in t
    requires forall r :: r in t ==> f[p + r] == t[r]
    ensures TreeAt(f, p) == t
  {
  }

  /** Equal trees at `p + d` and `q + d` agree path by path, seen from `p` and `q`. */
  lemma SameBelow(g: Files, p: Path, f: Files, q: Path, d: Path, r: Path)
    requires TreeAt(g, p + d) == TreeAt(f, q + d) && Within(d, r)
    ensures p + r in g <==> q + r in f
    ensures p + r in g ==> g[p + r] == f[q + r]
  {
    var e := r[|d|..];
    assert r == d + e;
    assert p + r == (p + d) + e;
    assert q + r == (q + d) + e;
    assert e in TreeAt(g, p + d) <==> p + r in g;
    assert e in TreeAt(f, q + d) <==> q + r in f;
  }

  lemma BelowOrNot(p: Path, d: Path, r: Path)
    ensures Within(p + d, p + r) <==> Within(d, r)
    ensures Within(p + r, p + d) <==> Within(r, d)
  {
    if Within(p + d, p + r) {
      assert d == (p + d)[|p|..] == (p + r)[..|p + d|][|p|..] == r[..|d|];
    }
    if Within(p + r, p + d) {
      assert r == (p + r)[|p|..] == (p + d)[..|p + r|][|p|..] == d[..|r|];
    }
  }

  lemma ImageStartAt(f: Files, g: Files, h: Files, source: Path, target: Path, r: Path)
    requires !Exists(f, target)
    requires AddsDirectories(f, g, target) && target in g && g[target] == Directory
    requires Touches(g, h, target + [DISK])
    requires TreeAt(h, target + [DISK]) == TreeAt(f, source + [DISK])
    ensures target + r in h <==> r == [] || (Within([DISK], r) && source + r in f)
    ensures target + r in h ==> h[target + r] == if r == [] then Directory else f[source + r]
  {
    var q := target + r;
    BelowOrNot(target, [DISK], r);
    BelowOrNot(target, [], r);
    assert target + [] == target;
    if Within([DISK], r) {
      SameBelow(h, target, f, source, [DISK], r);
    } else if r == [] {
      assert q == target;
    } else {
      assert !Within(q, target + [DISK]);
      assert q !in g;
    }
  }

  lemma ImageSkip(f: Files, source: Path, names: set<Name>, name: Name)
    requires !Exists(f, source + [QEMU, name])
    ensures Image(TreeAt(f, source), names + {name}) == Image(TreeAt(f, source), names)
  {
    var t := TreeAt(f, source);
    forall q | q in t
      ensures !Within([QEMU, name], q)
    {
      BelowOrNot(source, [QEMU, name], q);
    }
    NoSuchFirmware(t, names, name);
  }

  lemma NoSuchFirmware(t: Files, names: set<Name>, name: Name)
    requires forall q :: q in t ==> !Within([QEMU, name], q)
    ensures Image(t, names + {name}) == Image(t, names)
  {
    forall q | q in t && |q| >= 2 && q[0] == QEMU
      ensures q[1] != name
    {
      assert q[..2] == [q[0], q[1]];
    }
    assert HasFirmware(t, names + {name}) == HasFirmware(t, names);
    assert forall r :: InImage(t, names + {name}, r) <==> InImage(t, names, r);
  }

  lemma ImageGrows(t: Files, names: set<Name>, name: Name, r: Path)
    requires exists q :: q in t && Within([QEMU, name], q)
    ensures InImage(t, names + {name}, r) <==>
            InImage(t, names, r) || r == [QEMU] || (r in t && Within([QEMU, name], r))
  {
    var q :| q in t && Within([QEMU, name], q);
    assert q[0] == QEMU && q[1] == name;
    if r in t && |r| >= 2 && r[0] == QEMU && r[1] == name {
      assert r[..2] == [QEMU, name];
    }
  }

  lemma ImageStep(f: Files, g: Files, h: Files, k: Files, source: Path, target: Path, names: set<Name>, name: Name)
    requires TreeAt(g, target) == Image(TreeAt(f, source), names)
    requires AddsDirectories(g, h, target + [QEMU]) && target + [QEMU] in h && h[target + [QEMU]] == Directory
    requires Touches(h, k, target + [QEMU, name])
    requires TreeAt(k, target + [QEMU, name]) == TreeAt(f, source + [QEMU, name])
    requires Exists(f, source + [QEMU, name]) && Exists(g, target + [DISK])
    ensures TreeAt(k, target) == Image(TreeAt(f, source), names + {name})
    ensures Exists(k, target + [DISK])
  {
    StepTree(f, g, h, k, source, target, names, name);
    var q :| q in g && Within(target + [DISK], q);
    assert q[|target|] == DISK;
    assert q in h;
    assert !Within(target + [QEMU, name], q);
    assert q in k;
  }

  lemma ImagedStep(f: Files, g: Files, h: Files, k: Files, source: Path, target: Path, names: set<Name>, name: Name,
                   r: Outcome)
    requires Imaged(f, g, source, target, names) && Apart(source + [QEMU], target)
    requires AddsDirectories(g, h, target + [QEMU]) && target + [QEMU] in h && h[target + [QEMU]] == Directory
    requires Exists(f, source + [QEMU, name])
    requires Touches(h, k, target + [QEMU, name])
    requires r.Done? ==> TreeAt(k, target + [QEMU, name]) == TreeAt(h, source + [QEMU, name])
    ensures Touches(f, k, target)
    ensures r.Done? ==> Imaged(f, k, source, target, names + {name})
  {
    TouchesThen(f, g, h, target, target + [QEMU]);
    TouchesThen(f, h, k, target, target + [QEMU, name]);
    if r.Done? {
      FirmwareSource(f, h, source, target, name);
      ImageStep(f, g, h, k, source, target, names, name);
    }
  }

  lemma StepTree(f: Files, g: Files, h: Files, k: Files, source: Path, target: Path, names: set<Name>, name: Name)
    requires TreeAt(g, target) == Image(TreeAt(f, source), names)
    requires AddsDirectories(g, h, target + [QEMU]) && target + [QEMU] in h && h[target + [QEMU]] == Directory
    requires Touches(h, k, target + [QEMU, name])
    requires TreeAt(k, target + [QEMU, name]) == TreeAt(f, source + [QEMU, name])
    requires Exists(f, source + [QEMU, name])
    ensures TreeAt(k, target) == Image(TreeAt(f, source), names + {name})
  {
    var t := TreeAt(f, source);
    var image := Image(t, names + {name});
    assert target in g by {
      assert [] in TreeAt(g, target);
      assert target + [] == target;
    }
    assert exists q :: q in t && Within([QEMU, name], q) by {
      var w :| w in f && Within(source + [QEMU, name], w);
      var q := w[|source|..];
      assert w == source + q;
      BelowOrNot(source, [QEMU, name], q);
      assert q in t;
    }
    forall r: Path
      ensures target + r in k <==> r in image
      ensures r in image ==> k[target + r] == image[r]
    {
      StepPoint(f, g, h, k, source, target, names, name, r);
    }
    TreeIs(k, target, image);
  }

  lemma StepPoint(f: Files, g: Files, h: Files, k: Files, source: Path, target: Path, names: set<Name>, name: Name,
                  r: Path)
    requires TreeAt(g, target) == Image(TreeAt(f, source), names) && target in g
    requires AddsDirectories(g, h, target + [QEMU]) && target + [QEMU] in h && h[target + [QEMU]] == Directory
    requires Touches(h, k, target + [QEMU, name])
    requires TreeAt(k, target + [QEMU, name]) == TreeAt(f, source + [QEMU, name])
    requires exists q :: q in TreeAt(f, source) && Within([QEMU, name], q)
    ensures target + r in k <==> r in Image(TreeAt(f, source), names + {name})
    ensures target + r in k ==> k[target + r] == Image(TreeAt(f, source), names + {name})[r]
  {
    var t := TreeAt(f, source);
    var before, after := Image(t, names), Image(t, names + {name});
    ImageStepAt(f, g, h, k, source, target, name, r);
    ImageGrows(t, names, name, r);
    assert r in t <==> source + r in f;
    assert r in before <==> target + r in g;
    assert r in before ==> before[r] == g[target + r];
    assert r in after <==> InImage(t, names + {name}, r);
    assert r in before <==> InImage(t, names, r);
  }

  lemma ImageStepAt(f: Files, g: Files, h: Files, k: Files, source: Path, target: Path, name: Name, r: Path)
    requires AddsDirectories(g, h, target + [QEMU]) && target + [QEMU] in h && h[target + [QEMU]] == Directory
    requires Touches(h, k, target + [QEMU, name])
    requires TreeAt(k, target + [QEMU, name]) == TreeAt(f, source + [QEMU, name])
    requires target in g
    ensures Within([QEMU, name], r) ==> (target + r in k <==> source + r in f)
    ensures Within([QEMU, name], r) && target + r in k ==> k[target + r] == f[source + r]
    ensures !Within([QEMU, name], r) && r != [QEMU] ==> (target + r in k <==> target + r in g)
    ensures !Within([QEMU, name], r) && r != [QEMU] && target + r in k ==> k[target + r] == g[target + r]
    ensures target + [QEMU] in k && k[target + [QEMU]] == Directory
  {
    var q := target + r;
    BelowOrNot(target, [QEMU, name], r);
    BelowOrNot(target, [QEMU], r);
    BelowOrNot(target, [QEMU, name], [QEMU]);
    assert target + [] == target;
    if Within([QEMU, name], r) {
      SameBelow(k, target, f, source, [QEMU, name], r);
    }
  }

  /** The image of a state generation depends on its disk and its `QEMU` directory alone. */
  lemma ImageStable(f: Files, g: Files, source: Path)
    requires TreeAt(f, source + [DISK]) == TreeAt(g, source + [DISK])
    requires TreeAt(f, source + [QEMU]) == TreeAt(g, source + [QEMU])
    ensures Image(TreeAt(f, source), FIRMWARE) == Image(TreeAt(g, source), FIRMWARE)
  {
    var s, t := TreeAt(f, source), TreeAt(g, source);
    forall r: Path | Within([DISK], r) || Within([QEMU], r)
      ensures r in s <==> r in t
      ensures r in s ==> s[r] == t[r]
    {
      SameBelow(f, source, g, source, if Within([DISK], r) then [DISK] else [QEMU], r);
      assert r in s <==> source + r in f;
      assert r in t <==> source + r in g;
    }
    SameImage(s, t);
  }

  lemma SameImage(s: Files, t: Files)
    requires forall r :: Within([DISK], r) || Within([QEMU], r) ==> (r in s <==> r in t)
    requires forall r :: (Within([DISK], r) || Within([QEMU], r)) && r in s && r in t ==> s[r] == t[r]
    ensures Image(s, FIRMWARE) == Image(t, FIRMWARE)
  {
    assert forall r: Path :: |r| >= 2 && r[0] == QEMU ==> Within([QEMU], r);
    assert forall r :: InImage(s, FIRMWARE, r) <==> InImage(t, FIRMWARE, r);
  }

  // ----- the store

  class Store {
    const root: Path
    const disk: Disk

    constructor (root: Path, disk: Disk)
      ensures this.root == root && this.disk == disk
    {
      this.root := root;
      this.disk := disk;
    }

    method Save(machine: nat, items: seq<MachineSnapshot>) returns (r: Outcome)
      modifies disk
      ensures Explained(old(disk.faults), disk.faults, r)
      ensures Fair(old(disk.faults), disk.faults, CanSave(old(disk.files), root, machine), r)
      ensures SaveRuns(old(disk.files), disk.files, root, machine, items, r)
      ensures Touches(old(disk.files), disk.files, MetadataAt(root, machine))
      ensures r.Done? ==> Listed(disk.files, root, machine) == Ok(items)
      ensures r.Failed? ==> Listed(disk.files, root, machine) == Listed(old(disk.files), root, machine)
      ensures r.Crashed? ==>
                || Listed(disk.files, root, machine) == Listed(old(disk.files), root, machine)
                || Listed(disk.files, root, machine) == Ok(items)
    {
      ghost var f := disk.files;
      var metadata := MetadataAt(root, machine);
      r := disk.CreateDirectory(SnapshotsAt(root, machine), true);
      DirectoryKeepsListing(f, disk.files, root, machine);
      if !r.Done? {
        return;
      }
      ghost var g := disk.files;
      assert Parent(metadata) == SnapshotsAt(root, machine);
      assert IsDirectory(g, metadata) ==> IsDirectory(f, metadata);
      r := disk.WriteAtomic(metadata, SnapshotListOf(items));
      assert Touches(g, g[metadata := File(SnapshotListOf(items))], metadata);
      assert Within(metadata, metadata);
    }

    /** `SnapshotStore.create`; the identifier is new.  After a single failure the slot of a Windows machine is
        empty, or holds a whole clone that is not listed. */
    method Create(m: Machine, name: string, id: nat) returns (r: Completion<MachineSnapshot>)
      requires Managed(m)
      requires !Exists(disk.files, StateSlot(root, m.id, id)) && !Exists(disk.files, DiskSlot(root, m.id, id))
      modifies disk
      ensures Accounted(old(disk.faults), disk.faults, r)
      ensures FairlyEnds(old(disk.faults), disk.faults, CanCreate(old(disk.files), root, m), r)
      ensures CreateEffect(old(disk.files), disk.files, root, m, name, id, r)
      ensures m.windows && r.Threw? && disk.faults.failures <= old(disk.faults).failures + 1 ==>
                || !Exists(disk.files, StateSlot(root, m.id, id))
                || Saved(disk.files, root, NewRecord(m, id, name)) == Captured(old(disk.files), root, m)
    {
      ghost var f := disk.files;
      var o := CloneToSlot(m, name, id);
      if !o.Done? {
        TouchesSlot(f, disk.files, root, m.id, NewRecord(m, id, name));
        return if o.Crashed? then Died else Threw(DiskError);
      }
      ghost var g := disk.files;
      var s := Describe(m, name, id);
      var listed := Listed(disk.files, root, m.id);
      if listed.Err? {
        TouchesSlot(f, disk.files, root, m.id, NewRecord(m, id, name));
        return Threw(listed.error);
      }
      CreateCanSave(f, g, root, m, s);
      o := Save(m.id, listed.value + [s]);
      CreateSteps(f, g, disk.files, root, m, s);
      return match o case Done => Returned(s) case Failed => Threw(DiskError) case Crashed => Died;
    }

    method Describe(m: Machine, name: string, id: nat) returns (s: MachineSnapshot)
      ensures s == NewRecord(m, id, name)
    {
      var slot := DiskSlot(root, m.id, id);
      var state := StateSlot(root, m.id, id) + [STATE];
      s := if m.windows then
        MachineSnapshot(id, name, RelativePath(root, state + [DISK]).value, Some(RelativePath(root, state).value))
      else
        MachineSnapshot(id, name, RelativePath(root, slot).value, None);
      RecordPaths(root, m, id, name, s);
    }

    /** The file part of `create`: a failed clone of a state generation is removed again. */
    method CloneToSlot(m: Machine, name: string, id: nat) returns (r: Outcome)
      requires Managed(m)
      requires !Exists(disk.files, StateSlot(root, m.id, id)) && !Exists(disk.files, DiskSlot(root, m.id, id))
      modifies disk
      ensures Explained(old(disk.faults), disk.faults, r)
      ensures Fair(old(disk.faults), disk.faults,
                   Clear(old(disk.files), SnapshotsAt(root, m.id)) && Exists(old(disk.files), root + m.disk), r)
      ensures Touches(old(disk.files), disk.files, SlotOf(root, m.id, NewRecord(m, id, name)))
      ensures r.Done? ==> Saved(disk.files, root, NewRecord(m, id, name)) == Captured(old(disk.files), root, m)
      ensures r.Done? ==> Exists(disk.files, root + NewRecord(m, id, name).disk)
      ensures m.windows && r.Failed? && disk.faults.failures == old(disk.faults).failures + 1 ==>
                !Exists(disk.files, StateSlot(root, m.id, id))
    {
      ghost var f := disk.files;
      r := disk.CreateDirectory(SnapshotsAt(root, m.id), true);
      SlotStillFree(f, disk.files, root, m.id, SlotOf(root, m.id, NewRecord(m, id, name)));
      SourceKept(f, disk.files, root, m);
      if !r.Done? {
        return;
      }
      ghost var g := disk.files;
      assert Clear(f, SnapshotsAt(root, m.id)) ==> Clear(g, SnapshotsAt(root, m.id));
      if m.windows {
        r := CloneState(m, name, id);
      } else {
        r := CloneLegacyDisk(m, name, id);
      }
      TouchesThen(f, g, disk.files, SlotOf(root, m.id, NewRecord(m, id, name)),
                  SlotOf(root, m.id, NewRecord(m, id, name)));
    }

    method CloneState(m: Machine, name: string, id: nat) returns (r: Outcome)
      requires Managed(m) && m.windows && !Exists(disk.files, StateSlot(root, m.id, id))
      modifies disk
      ensures Explained(old(disk.faults), disk.faults, r)
      ensures Fair(old(disk.faults), disk.faults,
                   Clear(old(disk.files), SnapshotsAt(root, m.id)) && Exists(old(disk.files), root + m.disk), r)
      ensures Touches(old(disk.files), disk.files, StateSlot(root, m.id, id))
      ensures r.Done? ==> Saved(disk.files, root, StateRecord(m.id, id, name)) == Captured(old(disk.files), root, m)
      ensures r.Done? ==> Exists(disk.files, root + StateRecord(m.id, id, name).disk)
      ensures r.Failed? && disk.faults.failures == old(disk.faults).failures + 1 ==>
                !Exists(disk.files, StateSlot(root, m.id, id))
    {
      ghost var f := disk.files;
      var source := Resolve(root, m.disk);
      DiskApart(root, m);
      var slot := StateSlot(root, m.id, id);
      StatePlace(f, root, m, name, id);
      StateIsClear(f, root, m, id);
      r := CloneWindowsState(Parent(source.value), slot + [STATE]);
      TouchesBelow(f, disk.files, slot, slot + [STATE]);
      if r.Failed? {
        ghost var g := disk.files;
        var cleanup := disk.RemoveItem(slot);
        TouchesThen(f, g, disk.files, slot, slot);
        if cleanup.Crashed? {
          r := Crashed;
        }
      }
    }

    method CloneLegacyDisk(m: Machine, name: string, id: nat) returns (r: Outcome)
      requires Managed(m) && !m.windows && !Exists(disk.files, DiskSlot(root, m.id, id))
      modifies disk
      ensures Explained(old(disk.faults), disk.faults, r)
      ensures Fair(old(disk.faults), disk.faults,
                   Clear(old(disk.files), SnapshotsAt(root, m.id)) && Exists(old(disk.files), root + m.disk), r)
      ensures Touches(old(disk.files), disk.files, DiskSlot(root, m.id, id))
      ensures r.Done? ==> Saved(disk.files, root, DiskRecord(m.id, id, name)) == Captured(old(disk.files), root, m)
      ensures r.Done? ==> Exists(disk.files, root + DiskRecord(m.id, id, name).disk)
    {
      ghost var f := disk.files;
      var source := Resolve(root, m.disk);
      DiskApart(root, m);
      var slot := DiskSlot(root, m.id, id);
      assert root + DiskRecord(m.id, id, name).disk == slot;
      assert Parent(slot) == SnapshotsAt(root, m.id);
      NotAbove(root + m.disk, SnapshotsAt(root, m.id), [Suffixed(Uuid(id), ".raw")]);
      r := disk.Clone(source.value, slot);
      if r.Done? {
        SameTreeExists(f, root + m.disk, disk.files, slot);
      }
    }

    /** `SnapshotStore.restore`; `token` names the staging directory, which a single failure does not leave behind. */
    method Restore(s: MachineSnapshot, m: Machine, token: nat) returns (r: Completion<()>)
      requires Managed(m) && IsRecord(m.id, s)
      modifies disk
      ensures Accounted(old(disk.faults), disk.faults, r)
      ensures FairlyEnds(old(disk.faults), disk.faults, CanRestore(old(disk.files), root, m, s), r)
      ensures RestoreEffect(old(disk.files), disk.files, root, m, s, token, r)
      ensures m.windows && s.state.Some? && !Exists(old(disk.files), StagedAt(root, m, token))
              && r.Threw? && disk.faults.failures <= old(disk.faults).failures + 1 ==>
                !Exists(disk.files, StagedAt(root, m, token))
    {
      SlotFromRecord(root, m.id, s);
      if m.windows && s.state.Some? {
        var source := Resolve(root, s.state.value);
        r := RestoreWindowsState(source.value, m, token);
      } else {
        r := RestoreLegacyDisk(s, m);
      }
    }

    method RestoreWindowsState(source: Path, m: Machine, token: nat) returns (r: Completion<()>)
      requires Managed(m) && Within(SnapshotsAt(root, m.id), source)
      modifies disk
      ensures Accounted(old(disk.faults), disk.faults, r)
      ensures FairlyEnds(old(disk.faults), disk.faults, CanRestoreState(old(disk.files), root, m, source), r)
      ensures StateRestore(old(disk.files), disk.files, root, m, source, token, r)
      ensures !Exists(old(disk.files), StagedAt(root, m, token))
              && r.Threw? && disk.faults.failures <= old(disk.faults).failures + 1 ==>
                !Exists(disk.files, StagedAt(root, m, token))
    {
      ghost var f := disk.files;
      DiskApart(root, m);
      var current := Parent(Resolve(root, m.disk).value);
      if !(|current| >= 2 && current[|current| - 1] == CURRENT && current[|current| - 2] == STATE) {
        return Threw(InvalidWindowsState);
      }
      var staged := Parent(current) + [Prefixed(".restore-", Uuid(token))];
      GenerationApart(root, m, token);
      ghost var t := Image(TreeAt(f, source), FIRMWARE);
      var cleared := RemoveIfThere(staged);
      HalfwayBegin(f, disk.files, current, staged, t);
      if !cleared.Done? {
        return if cleared.Crashed? then Died else Threw(DiskError);
      }
      StagingIsPossible(f, disk.files, source, staged);
      var o := StageOrCleanUp(source, current, staged, f);
      return Ended(o);
    }

    /** The `do` block and its `catch`: when it fails, nothing is left in the staging directory. */
    method StageOrCleanUp(source: Path, current: Path, staged: Path, ghost f: Files) returns (r: Outcome)
      requires staged != [] && Apart(current, staged) && Apart(source, staged)
      requires Touches(f, disk.files, staged) && !Exists(disk.files, staged)
      modifies disk
      ensures Explained(old(disk.faults), disk.faults, r)
      ensures Fair(old(disk.faults), disk.faults,
                   Exists(f, current) && Clear(old(disk.files), staged) && Exists(f, source + [DISK]), r)
      ensures Halfway(f, disk.files, current, staged, Image(TreeAt(f, source), FIRMWARE))
      ensures r.Done? ==> TreeAt(disk.files, current) == Image(TreeAt(f, source), FIRMWARE)
      ensures r.Done? || (r.Failed? && disk.faults.failures <= old(disk.faults).failures + 1) ==>
                !Exists(disk.files, staged)
    {
      r := StageAndSwap(source, current, staged, f);
      if r.Failed? {
        ghost var g := disk.files;
        var cleanup := RemoveIfThere(staged);
        HalfwayOn(f, g, disk.files, current, staged, Image(TreeAt(f, source), FIRMWARE));
        if cleanup.Crashed? {
          r := Crashed;
        }
      }
    }

    /** Remove what is left over at `p`, if there is anything. */
    method RemoveIfThere(p: Path) returns (r: Outcome)
      modifies disk
      ensures Explained(old(disk.faults), disk.faults, r)
      ensures Fair(old(disk.faults), disk.faults, true, r)
      ensures Shrinks(old(disk.files), disk.files, p)
      ensures r.Done? ==> !Exists(disk.files, p)
    {
      r := Done;
      if Exists(disk.files, p) {
        r := disk.RemoveItem(p);
      }
    }

    /** The `do` block of the restore: clone beside the current generation, swap, remove the old one. */
    method StageAndSwap(source: Path, current: Path, staged: Path, ghost f: Files) returns (r: Outcome)
      requires staged != [] && Apart(current, staged) && Apart(source, staged)
      requires Touches(f, disk.files, staged) && !Exists(disk.files, staged)
      modifies disk
      ensures Explained(old(disk.faults), disk.faults, r)
      ensures Fair(old(disk.faults), disk.faults,
                   Exists(f, current) && Clear(old(disk.files), staged) && Exists(f, source + [DISK]), r)
      ensures Halfway(f, disk.files, current, staged, Image(TreeAt(f, source), FIRMWARE))
      ensures r.Done? ==> TreeAt(disk.files, current) == Image(TreeAt(f, source), FIRMWARE)
      ensures r.Done? ==> !Exists(disk.files, staged)
    {
      ghost var t := Image(TreeAt(f, source), FIRMWARE);
      TouchesApart(f, disk.files, staged, source);
      ApartBelow(source, staged, source + [DISK]);
      ApartBelow(source, staged, source + [QEMU]);
      TouchesApart(f, disk.files, staged, source + [DISK]);
      ghost var g := disk.files;
      r := CloneWindowsState(source, staged);
      TouchesThen(f, g, disk.files, staged, staged);
      HalfwayBegin(f, disk.files, current, staged, t);
      if r.Done? {
        StagedExists(f, disk.files, current, staged);
        r := SwapIn(current, staged, f, t);
      }
    }

    /** The swap and the removal of what was swapped out. */
    method SwapIn(current: Path, staged: Path, ghost f: Files, ghost t: Files) returns (r: Outcome)
      requires Apart(current, staged) && Halfway(f, disk.files, current, staged, t) && TreeAt(disk.files, staged) == t
      modifies disk
      ensures Explained(old(disk.faults), disk.faults, r)
      ensures Fair(old(disk.faults), disk.faults, Exists(old(disk.files), current) && Exists(old(disk.files), staged), r)
      ensures Halfway(f, disk.files, current, staged, t)
      ensures r.Done? ==> TreeAt(disk.files, current) == t && !Exists(disk.files, staged)
    {
      ghost var g := disk.files;
      r := disk.Swap(current, staged);
      if disk.files != g || r.Done? {
        ghost var k := Graft(g, current, t);
        GraftTouches(k, staged, TreeAt(g, current));
        SwapStep(f, g, k, disk.files, current, staged, t);
      }
      if !r.Done? {
        return;
      }
      SameTreeExists(g, current, disk.files, staged);
      g := disk.files;
      r := disk.RemoveItem(staged);
      HalfwayOn(f, g, disk.files, current, staged, t);
    }

    method RestoreLegacyDisk(s: MachineSnapshot, m: Machine) returns (r: Completion<()>)
      requires Managed(m) && IsRecord(m.id, s)
      modifies disk
      ensures Accounted(old(disk.faults), disk.faults, r)
      ensures FairlyEnds(old(disk.faults), disk.faults,
                         && Clear(old(disk.files), Parent(root + m.disk)) && Exists(old(disk.files), root + m.disk)
                         && Exists(old(disk.files), root + s.disk), r)
      ensures DiskRestore(old(disk.files), disk.files, root, m, s, r)
    {
      ghost var f := disk.files;
      DiskApart(root, m);
      SlotFromRecord(root, m.id, s);
      var source := Resolve(root, s.disk).value;
      var target := Resolve(root, m.disk).value;
      var replacement := ReplacementFor(target);
      ReplacementApart(root, m);
      ApartFromBelow(replacement, SnapshotsAt(root, m.id), source);
      ghost var t := TreeAt(f, source);
      var cleared := RemoveIfThere(replacement);
      HalfwayBegin(f, disk.files, target, replacement, t);
      TouchesApart(f, disk.files, replacement, source);
      if !cleared.Done? {
        return if cleared.Crashed? then Died else Threw(DiskError);
      }
      ReplacingIsPossible(f, disk.files, source, replacement);
      var o := CloneAndReplace(source, target, replacement, f);
      return Ended(o);
    }

    /** The replacement is cloned and put in place. */
    method CloneAndReplace(source: Path, target: Path, replacement: Path, ghost f: Files) returns (o: Outcome)
      requires replacement != [] && Apart(target, replacement) && Apart(replacement, source)
      requires Touches(f, disk.files, replacement) && TreeAt(disk.files, source) == TreeAt(f, source)
      modifies disk
      ensures Explained(old(disk.faults), disk.faults, o)
      ensures Fair(old(disk.faults), disk.faults,
                   CanClone(old(disk.files), source, replacement) && Exists(f, target), o)
      ensures Halfway(f, disk.files, target, replacement, TreeAt(f, source))
      ensures o.Done? ==> TreeAt(disk.files, target) == TreeAt(f, source) && !Exists(disk.files, replacement)
    {
      ghost var t := TreeAt(f, source);
      ghost var g := disk.files;
      o := disk.Clone(source, replacement);
      TouchesThen(f, g, disk.files, replacement, replacement);
      HalfwayBegin(f, disk.files, target, replacement, t);
      if !o.Done? {
        return;
      }
      SameTreeExists(g, source, disk.files, replacement);
      SameTree(f, disk.files, target);
      g := disk.files;
      o := disk.Replace(target, replacement);
      if disk.files != g || o.Done? {
        ReplaceStep(f, g, disk.files, target, replacement, t);
      }
    }

    /** `SnapshotStore.delete` */
    method Delete(s: MachineSnapshot, machine: nat) returns (r: Completion<()>)
      requires IsRecord(machine, s)
      modifies disk
      ensures Accounted(old(disk.faults), disk.faults, r)
      ensures FairlyEnds(old(disk.faults), disk.faults, CanDelete(old(disk.files), root, machine), r)
      ensures DeleteRuns(old(disk.files), disk.files, root, machine, s, r)
      ensures DeleteEffect(old(disk.files), disk.files, root, machine, s, r)
    {
      ghost var f := disk.files;
      SlotFromRecord(root, machine, s);
      var target := if s.state.Some? then Parent(Resolve(root, s.state.value).value) else Resolve(root, s.disk).value;
      if Exists(disk.files, target) {
        var removal := disk.RemoveItem(target);
        TouchesSlot(f, disk.files, root, machine, s);
        if !removal.Done? {
          return Ended(removal);
        }
      }
      ghost var g := disk.files;
      TouchesSlot(f, g, root, machine, s);
      ClearAfterRemoval(f, g, SnapshotsAt(root, machine), target);
      r := RewriteWithout(s, machine);
      DeleteSteps(f, g, disk.files, root, machine, s);
    }

    /** The part of `delete` about the listing */
    method RewriteWithout(s: MachineSnapshot, machine: nat) returns (r: Completion<()>)
      modifies disk
      ensures Accounted(old(disk.faults), disk.faults, r)
      ensures FairlyEnds(old(disk.faults), disk.faults, CanDelete(old(disk.files), root, machine), r)
      ensures UnlistRuns(old(disk.files), disk.files, root, machine, s, r)
      ensures Touches(old(disk.files), disk.files, MetadataAt(root, machine))
      ensures var before, after := Listed(old(disk.files), root, machine), Listed(disk.files, root, machine);
              var rewritten := before.Ok? && after == Ok(Unlist(before.value, s.id));
              (after == before || rewritten) && (r.Returned? ==> rewritten)
    {
      ghost var f := disk.files;
      var listed := Listed(disk.files, root, machine);
      if listed.Err? {
        return Threw(listed.error);
      }
      if CanDelete(f, root, machine) {
        ListedCanSave(f, root, machine);
      }
      var o := Save(machine, Unlist(listed.value, s.id));
      return Ended(o);
    }

    /** Clone the disk and those firmware files that are there. */
    method CloneWindowsState(source: Path, target: Path) returns (r: Outcome)
      requires target != [] && !Exists(disk.files, target)
      requires Apart(source + [DISK], target) && Apart(source + [QEMU], target)
      modifies disk
      ensures Explained(old(disk.faults), disk.faults, r)
      ensures Fair(old(disk.faults), disk.faults, Clear(old(disk.files), target) && Exists(old(disk.files), source + [DISK]), r)
      ensures Touches(old(disk.files), disk.files, target)
      ensures r.Done? ==> TreeAt(disk.files, target) == Image(TreeAt(old(disk.files), source), FIRMWARE)
      ensures r.Done? ==> Exists(disk.files, target + [DISK])
    {
      ghost var f := disk.files;
      r := CloneDisk(source, target);
      if !r.Done? {
        return;
      }
      FirmwareNamesDiffer();
      r := CloneAll(source, target, FIRMWARE_NAMES, f);
      assert NamesIn(FIRMWARE_NAMES, 3) == FIRMWARE;
    }

    /** The loop over the firmware files, after the disk is cloned. */
    method CloneAll(source: Path, target: Path, names: seq<Name>, ghost f: Files) returns (r: Outcome)
      requires target != []
      requires Apart(source + [DISK], target) && Apart(source + [QEMU], target)
      requires Imaged(f, disk.files, source, target, {})
      modifies disk
      ensures Explained(old(disk.faults), disk.faults, r)
      ensures Fair(old(disk.faults), disk.faults, Clear(f, target) && AllNew(names), r)
      ensures Touches(f, disk.files, target)
      ensures r.Done? ==> Imaged(f, disk.files, source, target, NamesIn(names, |names|))
    {
      for i := 0 to |names|
        invariant Imaged(f, disk.files, source, target, NamesIn(names, i))
        invariant Explained(old(disk.faults), disk.faults, Done)
      {
        r := CloneFirmware(source, target, NamesIn(names, i), names[i], f);
        if !r.Done? {
          return;
        }
      }
      r := Done;
    }

    /** The directory and the disk. */
    method CloneDisk(source: Path, target: Path) returns (r: Outcome)
      requires target != [] && !Exists(disk.files, target)
      requires Apart(source + [DISK], target)
      modifies disk
      ensures Explained(old(disk.faults), disk.faults, r)
      ensures Fair(old(disk.faults), disk.faults, Clear(old(disk.files), target) && Exists(old(disk.files), source + [DISK]), r)
      ensures Touches(old(disk.files), disk.files, target)
      ensures r.Done? ==> Imaged(old(disk.files), disk.files, source, target, {})
    {
      ghost var f := disk.files;
      r := disk.CreateDirectory(target, true);
      if !r.Done? {
        return;
      }
      ghost var g := disk.files;
      DiskCloneIsPossible(f, g, source, target);
      r := disk.Clone(source + [DISK], target + [DISK]);
      ImageStart(f, g, disk.files, source, target, r);
    }

    /** One round of the loop over the firmware files, begun on disk `f` with `names` already cloned. */
    method CloneFirmware(source: Path, target: Path, ghost names: set<Name>, name: Name, ghost f: Files)
      returns (r: Outcome)
      requires target != []
      requires Apart(source + [DISK], target) && Apart(source + [QEMU], target)
      requires Imaged(f, disk.files, source, target, names)
      modifies disk
      ensures Explained(old(disk.faults), disk.faults, r)
      ensures Fair(old(disk.faults), disk.faults, Clear(f, target) && name !in names, r)
      ensures Touches(f, disk.files, target)
      ensures r.Done? ==> Imaged(f, disk.files, source, target, names + {name})
    {
      ghost var g := disk.files;
      FirmwareSource(f, g, source, target, name);
      if !Exists(disk.files, source + [QEMU, name]) {
        ImageSkip(f, source, names, name);
        return Done;
      }
      ImagedIsClear(f, g, source, target, names);
      r := disk.CreateDirectory(target + [QEMU], true);
      ghost var h := disk.files;
      TouchesThen(f, g, h, target, target + [QEMU]);
      if !r.Done? {
        return;
      }
      FirmwareCloneIsPossible(f, g, h, source, target, names, name);
      r := disk.Clone(source + [QEMU, name], target + [QEMU, name]);
      ImagedStep(f, g, h, disk.files, source, target, names, name, r);
    }
  }
}
