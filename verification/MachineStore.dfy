/** Creating the files of a machine, all or nothing, and removing the directories of machines that are gone. */
module MachineStore {
  import opened Wrappers
  import opened FileSystem
  import opened MachineFiles
  import opened SnapshotStore

  // ----- disk sizes

  const SECTOR := 512
  const WORD := 0x1_0000_0000_0000_0000

  /** `SparseDiskCreator.alignedCapacity` on 64-bit words; `None` is the trap on overflow. */
  function AlignedCapacity(requested: nat): Option<nat>
    requires requested < WORD
  {
    var remainder := requested % SECTOR;
    if remainder == 0 then Some(requested)
    else if requested + SECTOR >= WORD then None
    else Some(requested + SECTOR - remainder)
  }

  predicate IsLeastMultiple(requested: nat, c: nat) {
    c % 512 == 0 && requested <= c && forall k: nat :: k % 512 == 0 && requested <= k ==> c <= k
  }

  /** The result is the least multiple of the sector size at or above the request, and the sum traps exactly
      when that multiple does not fit in a word. */
  lemma AlignedIsLeast(requested: nat, c: nat)
    requires requested < WORD && IsLeastMultiple(requested, c)
    ensures AlignedCapacity(requested) == if c < WORD then Some(c) else None
  {
    var q := requested / SECTOR;
    var least := if requested % SECTOR == 0 then requested else requested + SECTOR - requested % SECTOR;
    assert least % SECTOR == 0 by {
      if requested % SECTOR != 0 {
        assert least == SECTOR * (q + 1);
      }
    }
    assert c <= least;
  }

  // ----- machine directories

  datatype Backend = AppleVirtualization | Qemu

  /** Both paths are relative to the storage root. */
  datatype MachineStorage = MachineStorage(disk: Path, capacity: nat, backendState: Path)

  function BackendName(backend: Backend): Name {
    match backend
    case AppleVirtualization => Text("Apple")
    case Qemu => QEMU
  }

  function MachineAt(root: Path, machine: nat): Path {
    root + MachineDirectory(machine)
  }

  function Generation(windows: bool): Path {
    if windows then [STATE, CURRENT] else []
  }

  const LAYOUT: seq<Path> := [[], [Text("Images")], [MACHINES], [Text("Downloads")], [Text("Logs")]]

  /** The whole directory of a new machine whose disk holds `data`. */
  function NewMachine(windows: bool, backend: Backend, data: seq<nat>): Files {
    if windows then
      map[[] := Directory, [STATE] := Directory, [STATE, CURRENT] := Directory,
          [STATE, CURRENT, DISK] := File(Bytes(data)), [STATE, CURRENT, BackendName(backend)] := Directory]
    else
      map[[] := Directory, [DISK] := File(Bytes(data)), [BackendName(backend)] := Directory]
  }

  /** Outside `p` nothing is lost and only directories are new, and those are higher up than `p`. */
  ghost predicate OnlyAddsDirectories(f: Files, g: Files, p: Path) {
    && (forall q :: q in f && !Within(p, q) ==> q in g && g[q] == f[q])
    && (forall q :: q in g && q !in f && !Within(p, q) ==> g[q] == Directory && |q| < |p|)
  }

  /** `data` is what the base image at `base` holds, filled up with zeros to the capacity. */
  ghost predicate DiskData(f: Files, base: Option<Path>, requested: nat, data: seq<nat>)
    requires requested < WORD
  {
    match base
    case None => AlignedCapacity(requested) == Some(|data|) && data == Resized([], |data|)
    case Some(p) =>
      && IsImage(f, p) && AlignedCapacity(requested).Some?
      && var image := f[p].content.data;
      && |data| == (if |image| < AlignedCapacity(requested).value then AlignedCapacity(requested).value else |image|)
      && data == Resized(image, |data|)
  }

  /** The base image is a file, if it is there, and apart from the directories that are about to be made. */
  ghost predicate IsBase(f: Files, root: Path, machine: nat, base: Path) {
    && (Exists(f, base) ==> exists d :: TreeAt(f, base) == map[[] := File(Bytes(d))])
    && Apart(base, MachineAt(root, machine))
    && forall l :: l in LAYOUT ==> !Within(base, root + l)
  }

  /** A disk of the given capacity has been made at `target` of `g`, from what `f` held. */
  ghost predicate DiskMade(f: Files, g: Files, target: Path, requested: nat, base: Option<Path>, capacity: nat)
    requires requested < WORD
  {
    exists data ::
      && TreeAt(g, target) == map[[] := File(Bytes(data))]
      && DiskData(f, base, requested, data) && capacity == |data|
  }

  /** A machine's directory has been filled at `directory` of `g`, from what `f` held. */
  ghost predicate Filled(f: Files, g: Files, directory: Path, requested: nat, windows: bool, backend: Backend,
                         base: Option<Path>, capacity: nat)
    requires requested < WORD
  {
    exists data ::
      && TreeAt(g, directory) == NewMachine(windows, backend, data)
      && DiskData(f, base, requested, data) && capacity == |data|
  }

  ghost predicate CreateFilesEffect(f: Files, g: Files, root: Path, machine: nat, requested: nat, windows: bool,
                                    backend: Backend, base: Option<Path>, r: Completion<MachineStorage>)
    requires requested < WORD
  {
    var directory := MachineAt(root, machine);
    && OnlyAddsDirectories(f, g, directory)
    && (Exists(f, directory) ==> TreeAt(g, directory) == TreeAt(f, directory) && !r.Returned?)
    && (r.Returned? ==>
          && Filled(f, g, directory, requested, windows, backend, base, r.value.capacity)
          && r.value.disk == MachineDirectory(machine) + Generation(windows) + [DISK]
          && r.value.backendState == MachineDirectory(machine) + Generation(windows) + [BackendName(backend)])
  }

  /** What a cloned machine gets besides its disk, by `copyFirmwareState`. */
  const STATE_FILES: seq<Name> := [
    Text("efi-variable-store"), Text("efi-code.fd"), Text("efi-vars.fd"), Text("tpm-state"),
    Text("linux-kernel"), Text("linux-initrd"), Text("linux-command-line")
  ]

  /** The first `n` state files of `src` have been copied to `dst`: if nothing has failed, every one of them as it
      is, and what `src` does not have `dst` does not get. */
  ghost predicate StateCopied(f: Files, g: Files, src: Path, dst: Path, n: nat, clean: bool) {
    && Touches(f, g, dst)
    && (dst in f ==> dst in g && g[dst] == f[dst])
    && (forall i :: 0 <= i < n && i < |STATE_FILES| ==>
          if Exists(f, src + [STATE_FILES[i]])
          then clean ==> TreeAt(g, dst + [STATE_FILES[i]]) == TreeAt(f, src + [STATE_FILES[i]])
          else !Exists(g, dst + [STATE_FILES[i]]))
    && (forall i :: n <= i < |STATE_FILES| ==> !Exists(g, dst + [STATE_FILES[i]]))
    && (forall name :: name !in STATE_FILES ==> Exists(g, dst + [name]) == Exists(f, dst + [name]))
  }

  /** A clone has a disk that starts with the source's bytes and is filled up with zeros, where a creation puts it; with
      no failed call it has all state files of the source, and in no case one that the source has not.  The source stays as it was. */
  ghost predicate CloneEffect(f: Files, g: Files, root: Path, source: Machine, backendState: Path, backend: Backend,
                              requested: nat, destination: nat, r: Completion<MachineStorage>, clean: bool)
    requires requested < WORD
  {
    && OnlyAddsDirectories(f, g, MachineAt(root, destination))
    && TreeAt(g, MachineAt(root, source.id)) == TreeAt(f, MachineAt(root, source.id))
    && (r.Returned? ==>
          && r.value.disk == MachineDirectory(destination) + Generation(source.windows) + [DISK]
          && r.value.backendState == MachineDirectory(destination) + Generation(source.windows) + [BackendName(backend)]
          && IsImage(g, root + r.value.disk)
          && DiskData(f, Some(root + source.disk), requested, g[root + r.value.disk].content.data)
          && r.value.capacity == |g[root + r.value.disk].content.data|
          && root + r.value.backendState in g && g[root + r.value.backendState] == Directory
          && forall name ::
               if name in STATE_FILES && Exists(f, root + backendState + [name])
               then clean ==>
                 TreeAt(g, root + r.value.backendState + [name]) == TreeAt(f, root + backendState + [name])
               else !Exists(g, root + r.value.backendState + [name]))
  }

  /** A path in the directory of a machine. */
  predicate Owned(machine: nat, p: Path) {
    Within(MachineDirectory(machine), p) && p != MachineDirectory(machine)
  }

  // ----- what a creation needs

  /** No file is in the way of the storage directories. */
  ghost predicate LayoutClear(f: Files, root: Path) {
    forall l :: l in LAYOUT ==> Clear(f, root + l)
  }

  /** The capacity fits in a word, and the base image is there. */
  ghost predicate DiskPossible(f: Files, requested: nat, base: Option<Path>)
    requires requested < WORD
  {
    AlignedCapacity(requested).Some? && (base.Some? ==> Exists(f, base.value))
  }

  ghost predicate CanCreateFiles(f: Files, root: Path, machine: nat, requested: nat, base: Option<Path>)
    requires requested < WORD
  {
    LayoutClear(f, root) && !Exists(f, MachineAt(root, machine)) && DiskPossible(f, requested, base)
  }

  lemma StillClear(f: Files, g: Files, root: Path, l: Path)
    requires l in LAYOUT
    requires forall q :: q in f ==> q in g && g[q] == f[q]
    requires forall q :: q in g && q !in f ==> g[q] == Directory
    ensures LayoutClear(f, root) ==> Clear(g, root + l)
  {
  }

  lemma MachineIsPossible(f: Files, g: Files, root: Path, machine: nat)
    requires forall q :: q in f ==> q in g && g[q] == f[q]
    requires forall q :: q in g && q !in f ==> g[q] == Directory
    requires IsDirectory(g, root + [MACHINES])
    ensures LayoutClear(f, root) && !Exists(g, MachineAt(root, machine)) ==>
              && CanCreateDirectory(g, MachineAt(root, machine), false)
              && Clear(g[MachineAt(root, machine) := Directory], MachineAt(root, machine))
  {
    var p := MachineAt(root, machine);
    assert Parent(p) == root + [MACHINES];
    if LayoutClear(f, root) {
      assert LAYOUT[2] == [MACHINES] && LAYOUT[2] in LAYOUT;
      StillClear(f, g, root, [MACHINES]);
      forall q | q in g && Within(q, p) && q != p
        ensures g[q] == Directory
      {
        assert Within(q, Parent(p));
      }
    }
  }

  /** In a new, empty directory the place of the disk is clear. */
  lemma EmptyIsClear(f: Files, directory: Path)
    requires TreeAt(f, directory) == map[[] := Directory]
    ensures Clear(f, directory) ==> Clear(f, directory + [STATE, CURRENT])
  {
    if Clear(f, directory) {
      forall q | q in f && Within(q, directory + [STATE, CURRENT])
        ensures f[q] == Directory
      {
        if Within(directory, q) {
          assert q == directory + q[|directory|..];
          assert q[|directory|..] in TreeAt(f, directory);
        } else {
          assert Within(q, directory);
        }
      }
    }
  }

  lemma SkeletonIs(windows: bool, r: Path)
    requires r in Skeleton(windows)
    ensures Skeleton(windows)[r] == Directory && |r| <= |Generation(windows)|
  {
  }

  lemma GenerationClear(f: Files, g: Files, directory: Path, windows: bool)
    requires Touches(f, g, directory) && TreeAt(g, directory) == Skeleton(windows)
    ensures Clear(f, directory) ==> Clear(g, directory + Generation(windows))
  {
    if Clear(f, directory) {
      forall q | q in g && Within(q, directory + Generation(windows))
        ensures g[q] == Directory
      {
        if Within(directory, q) {
          assert q == directory + q[|directory|..];
          assert q[|directory|..] in TreeAt(g, directory);
          SkeletonIs(windows, q[|directory|..]);
        } else {
          assert Within(q, directory);
        }
      }
    }
  }

  lemma PlaceIsFree(g: Files, directory: Path, windows: bool, name: Name)
    requires TreeAt(g, directory) == Skeleton(windows)
    ensures !Exists(g, directory + Generation(windows) + [name])
  {
    forall q | q in g
      ensures !Within(directory + Generation(windows) + [name], q)
    {
      if Within(directory, q) {
        assert q == directory + q[|directory|..];
        assert q[|directory|..] in TreeAt(g, directory);
        SkeletonIs(windows, q[|directory|..]);
      }
    }
  }

  lemma GenerationIsThere(g: Files, directory: Path, windows: bool)
    requires TreeAt(g, directory) == Skeleton(windows)
    ensures IsDirectory(g, directory + Generation(windows))
  {
    assert Generation(windows) in Skeleton(windows);
    SkeletonIs(windows, Generation(windows));
    assert Generation(windows) in TreeAt(g, directory);
  }

  lemma BackendIsPossible(g: Files, h: Files, directory: Path, windows: bool, backend: Backend)
    requires TreeAt(g, directory) == Skeleton(windows)
    requires Touches(g, h, directory + Generation(windows) + [DISK])
    ensures CanCreateDirectory(h, directory + Generation(windows) + [BackendName(backend)], false)
  {
    var generation, name := directory + Generation(windows), BackendName(backend);
    GenerationIsThere(g, directory, windows);
    PlaceIsFree(g, directory, windows, name);
    Diverge(generation + [name], generation + [DISK], |generation|);
    TouchesApart(g, h, generation + [DISK], generation + [name]);
    assert Parent(generation + [name]) == generation;
  }

  class ManagedMachineStore {
    const root: Path
    const disk: Disk

    constructor (root: Path, disk: Disk)
      ensures this.root == root && this.disk == disk
    {
      this.root := root;
      this.disk := disk;
    }

    /** `StorageLayout.initialize` */
    method Initialize() returns (r: Outcome)
      modifies disk
      ensures Explained(old(disk.faults), disk.faults, r)
      ensures Fair(old(disk.faults), disk.faults, LayoutClear(old(disk.files), root), r)
      ensures r.Done? ==> forall l :: l in LAYOUT ==> IsDirectory(disk.files, root + l)
      ensures r.Done? ==> IsDirectory(disk.files, root + [MACHINES])
      ensures forall q :: q in old(disk.files) ==> q in disk.files && disk.files[q] == old(disk.files)[q]
      ensures forall q :: q in disk.files && q !in old(disk.files) ==>
                disk.files[q] == Directory && exists l :: l in LAYOUT && Within(q, root + l)
    {
      for i := 0 to |LAYOUT|
        invariant Explained(old(disk.faults), disk.faults, Done)
        invariant forall j :: 0 <= j < i ==> IsDirectory(disk.files, root + LAYOUT[j])
        invariant forall q :: q in old(disk.files) ==> q in disk.files && disk.files[q] == old(disk.files)[q]
        invariant forall q :: q in disk.files && q !in old(disk.files) ==>
                    disk.files[q] == Directory && exists l :: l in LAYOUT && Within(q, root + l)
      {
        assert LAYOUT[i] in LAYOUT;
        StillClear(old(disk.files), disk.files, root, LAYOUT[i]);
        r := disk.CreateDirectory(root + LAYOUT[i], true);
        if !r.Done? {
          return;
        }
      }
      r := Done;
    }

    /** The disk of a new machine: a grown clone of the base image, or a sparse file. */
    method CreateDisk(target: Path, requested: nat, base: Option<Path>) returns (r: Completion<nat>)
      requires target != [] && requested < WORD && !Exists(disk.files, target)
      requires base.Some? && Exists(disk.files, base.value) ==>
                 exists d :: TreeAt(disk.files, base.value) == map[[] := File(Bytes(d))]
      modifies disk
      ensures r.Threw? ==> r.error == DiskError && old(disk.faults).failures < disk.faults.failures
      ensures Explained(old(disk.faults), disk.faults, Done)
      ensures r.Died? ==> AlignedCapacity(requested).None? || old(disk.faults).crashes < disk.faults.crashes
      ensures FairlyEnds(old(disk.faults), disk.faults,
                         && Clear(old(disk.files), Parent(target)) && DiskPossible(old(disk.files), requested, base)
                         && (base.Some? ==> !Within(base.value, target)), r)
      ensures Touches(old(disk.files), disk.files, target)
      ensures r.Returned? ==> DiskMade(old(disk.files), disk.files, target, requested, base, r.value)
    {
      if base.Some? {
        r := GrowBase(target, requested, base.value);
      } else {
        r := CreateSparse(target, requested);
      }
    }

    /** The disk as a clone of the base image, grown to the capacity. */
    method GrowBase(target: Path, requested: nat, base: Path) returns (r: Completion<nat>)
      requires target != [] && requested < WORD && !Exists(disk.files, target)
      requires Exists(disk.files, base) ==> exists d :: TreeAt(disk.files, base) == map[[] := File(Bytes(d))]
      modifies disk
      ensures r.Threw? ==> r.error == DiskError && old(disk.faults).failures < disk.faults.failures
      ensures Explained(old(disk.faults), disk.faults, Done)
      ensures r.Died? ==> AlignedCapacity(requested).None? || old(disk.faults).crashes < disk.faults.crashes
      ensures FairlyEnds(old(disk.faults), disk.faults,
                         && Clear(old(disk.files), Parent(target)) && DiskPossible(old(disk.files), requested, Some(base))
                         && !Within(base, target), r)
      ensures Touches(old(disk.files), disk.files, target)
      ensures r.Returned? ==> DiskMade(old(disk.files), disk.files, target, requested, Some(base), r.value)
    {
      ghost var f := disk.files;
      var o := disk.Clone(base, target);
      if !o.Done? {
        return if o.Failed? then Threw(DiskError) else Died;
      }
      ghost var d := CopiedImage(f, disk.files, base, target);
      var aligned := AlignedCapacity(requested);
      if aligned.None? {
        return Died;
      }
      var size := |disk.files[target].content.data|;
      var capacity := if size < aligned.value then aligned.value else size;
      if capacity > size {
        o := disk.Truncate(target, capacity);
        if !o.Done? {
          return if o.Failed? then Threw(DiskError) else Died;
        }
      }
      GrownImage(f, disk.files, base, target, requested, d);
      return Returned(capacity);
    }

    /** The disk as a new sparse file. */
    method CreateSparse(target: Path, requested: nat) returns (r: Completion<nat>)
      requires target != [] && requested < WORD && !Exists(disk.files, target)
      modifies disk
      ensures r.Threw? ==> r.error == DiskError && old(disk.faults).failures < disk.faults.failures
      ensures Explained(old(disk.faults), disk.faults, Done)
      ensures r.Died? ==> AlignedCapacity(requested).None? || old(disk.faults).crashes < disk.faults.crashes
      ensures FairlyEnds(old(disk.faults), disk.faults,
                         Clear(old(disk.files), Parent(target)) && DiskPossible(old(disk.files), requested, None), r)
      ensures Touches(old(disk.files), disk.files, target)
      ensures r.Returned? ==> DiskMade(old(disk.files), disk.files, target, requested, None, r.value)
    {
      ghost var f := disk.files;
      var aligned := AlignedCapacity(requested);
      if aligned.None? {
        return Died;
      }
      var o := disk.CreateDirectory(Parent(target), true);
      ghost var g := disk.files;
      assert Touches(f, g, target);
      assert !Exists(g, target);
      if o.Done? {
        o := disk.CreateFile(target);
        assert Touches(f, disk.files, target);
        if o.Done? {
          assert disk.files == g[target := File(Bytes([]))];
          o := disk.Truncate(target, aligned.value);
        }
      }
      if !o.Done? {
        return if o.Failed? then Threw(DiskError) else Died;
      }
      FileTree(disk.files, target, Resized([], aligned.value));
      assert DiskData(f, None, requested, Resized([], aligned.value));
      return Returned(aligned.value);
    }

    /** The machine's directory, which has to be new. */
    method MakeMachineDirectory(machine: nat, ghost base: Option<Path>) returns (o: Outcome)
      requires base.Some? ==> IsBase(disk.files, root, machine, base.value)
      modifies disk
      ensures Explained(old(disk.faults), disk.faults, o)
      ensures Fair(old(disk.faults), disk.faults,
                   LayoutClear(old(disk.files), root) && !Exists(old(disk.files), MachineAt(root, machine)), o)
      ensures OnlyAddsDirectories(old(disk.files), disk.files, MachineAt(root, machine))
      ensures Exists(old(disk.files), MachineAt(root, machine)) ==>
                !o.Done? && TreeAt(disk.files, MachineAt(root, machine)) == TreeAt(old(disk.files), MachineAt(root, machine))
      ensures o.Failed? ==> Exists(disk.files, MachineAt(root, machine)) == Exists(old(disk.files), MachineAt(root, machine))
      ensures o.Done? ==>
                && TreeAt(disk.files, MachineAt(root, machine)) == map[[] := Directory]
                && (LayoutClear(old(disk.files), root) ==> Clear(disk.files, MachineAt(root, machine)))
      ensures base.Some? ==>
                && TreeAt(disk.files, base.value) == TreeAt(old(disk.files), base.value)
                && Exists(disk.files, base.value) == Exists(old(disk.files), base.value)
    {
      ghost var f := disk.files;
      var directory := MachineAt(root, machine);
      o := Initialize();
      LayoutOnly(f, disk.files, root, machine, base);
      if o.Done? {
        ghost var g := disk.files;
        MachineIsPossible(f, g, root, machine);
        o := disk.CreateDirectory(directory, false);
        NewDirectory(f, g, disk.files, directory, o);
        BaseStays(f, g, disk.files, root, machine, base);
      } else if base.Some? {
        SameTree(f, disk.files, base.value);
      }
    }

    /** `ManagedMachineStore.createFiles` */
    method CreateFiles(machine: nat, requested: nat, backend: Backend, windows: bool, base: Option<Path>)
      returns (r: Completion<MachineStorage>)
      requires requested < WORD && (base.Some? ==> IsBase(disk.files, root, machine, base.value))
      modifies disk
      ensures CreateFilesEffect(old(disk.files), disk.files, root, machine, requested, windows, backend, base, r)
      ensures FairlyEnds(old(disk.faults), disk.faults, CanCreateFiles(old(disk.files), root, machine, requested, base), r)
      ensures Explained(old(disk.faults), disk.faults, Done)
      ensures r.Threw? ==> old(disk.faults).failures < disk.faults.failures
      ensures r.Threw? && !Exists(old(disk.files), MachineAt(root, machine))
              && disk.faults.failures == old(disk.faults).failures + 1 ==>
                !Exists(disk.files, MachineAt(root, machine))
      ensures r.Died? ==> AlignedCapacity(requested).None? || old(disk.faults).crashes < disk.faults.crashes
    {
      ghost var f := disk.files;
      var directory := MachineAt(root, machine);
      var o := MakeMachineDirectory(machine, base);
      if !o.Done? {
        return if o.Failed? then Threw(DiskError) else Died;
      }
      ghost var g := disk.files;
      r := Populate(directory, requested, backend, windows, base);
      ghost var h := disk.files;
      if r.Threw? {
        var cleanup := disk.RemoveItem(directory);
        if cleanup.Crashed? {
          r := Died;
        }
      }
      CreateEnds(f, g, h, disk.files, root, machine, requested, windows, backend, base, r);
    }

    /** `ManagedMachineStore.cloneFiles`, which starts with `resolveFiles` */
    method CloneFiles(source: Machine, backendState: Path, backend: Backend, requested: nat, destination: nat)
      returns (r: Completion<MachineStorage>)
      requires requested < WORD && source.id != destination
      requires Owned(source.id, source.disk) && Owned(source.id, backendState)
      requires Exists(disk.files, root + source.disk) ==>
                 exists d :: TreeAt(disk.files, root + source.disk) == map[[] := File(Bytes(d))]
      modifies disk
      ensures CloneEffect(old(disk.files), disk.files, root, source, backendState, backend, requested, destination, r,
                          disk.faults.failures == old(disk.faults).failures)
      ensures FairlyEnds(old(disk.faults), disk.faults,
                         && Text("..") !in source.disk && Text("..") !in backendState
                         && CanCreateFiles(old(disk.files), root, destination, requested, Some(root + source.disk)), r)
      ensures !Exists(old(disk.files), root + source.disk) ==> r.Threw? && disk.files == old(disk.files)
      ensures r.Threw? ==>
                || old(disk.faults).failures < disk.faults.failures
                || (r.error == MissingDisk && !Exists(old(disk.files), root + source.disk))
                || (r.error == InvalidRelativePath && (Text("..") in source.disk || Text("..") in backendState))
    {
      var diskURL, stateURL := Resolve(root, source.disk), Resolve(root, backendState);
      if diskURL.None? || stateURL.None? {
        return Threw(InvalidRelativePath);
      }
      if !Exists(disk.files, diskURL.value) {
        return Threw(MissingDisk);
      }
      r := CloneFound(source, backendState, backend, requested, destination);
    }

    /** The part of `cloneFiles` after the source's files have been found */
    method CloneFound(source: Machine, backendState: Path, backend: Backend, requested: nat, destination: nat)
      returns (r: Completion<MachineStorage>)
      requires requested < WORD && source.id != destination
      requires Owned(source.id, source.disk) && Owned(source.id, backendState)
      requires Exists(disk.files, root + source.disk) ==>
                 exists d :: TreeAt(disk.files, root + source.disk) == map[[] := File(Bytes(d))]
      modifies disk
      ensures CloneEffect(old(disk.files), disk.files, root, source, backendState, backend, requested, destination, r,
                          disk.faults.failures == old(disk.faults).failures)
      ensures FairlyEnds(old(disk.faults), disk.faults,
                         CanCreateFiles(old(disk.files), root, destination, requested, Some(root + source.disk)), r)
      ensures r.Threw? ==> old(disk.faults).failures < disk.faults.failures
    {
      ghost var f := disk.files;
      OwnedBase(f, root, source, destination);
      r := CreateFiles(destination, requested, backend, source.windows, Some(root + source.disk));
      SourceStays(f, disk.files, root, source.id, destination);
      if r.Returned? {
        assert r == Returned(r.value);
        var o := CopyCreatedState(source, backendState, backend, requested, destination, r.value, f,
                                  old(disk.faults).failures);
        if o.Crashed? {
          r := Died;
        }
      }
    }

    /** The firmware state goes into the files that were just created. */
    method CopyCreatedState(source: Machine, backendState: Path, backend: Backend, requested: nat, destination: nat,
                            s: MachineStorage, ghost f: Files, ghost failures: nat)
      returns (o: Outcome)
      requires requested < WORD && source.id != destination && Owned(source.id, backendState)
      requires CreateFilesEffect(f, disk.files, root, destination, requested, source.windows, backend,
                                 Some(root + source.disk), Returned(s))
      requires failures <= disk.faults.failures
      modifies disk
      ensures Explained(old(disk.faults), disk.faults, o) && !o.Failed?
      ensures CloneEffect(f, disk.files, root, source, backendState, backend, requested, destination,
                          if o.Done? then Returned(s) else Died, disk.faults.failures == failures)
    {
      ghost var g := disk.files;
      CreatedState(f, g, root, source.windows, destination, requested, backend, Some(root + source.disk), s);
      CreatedPlaces(root, source.id, backendState, destination, source.windows, backend, s);
      o := CopyFirmwareState(root + backendState, root + s.backendState);
      if o.Crashed? {
        CrashEnds(f, g, disk.files, root, source.id, destination, root + s.backendState);
      } else {
        CloneEnds(f, g, disk.files, root, source, backendState, requested, backend, destination, s,
                  disk.faults.failures == old(disk.faults).failures);
      }
    }

    /** `copyFirmwareState`: every failure is ignored. */
    method CopyFirmwareState(src: Path, dst: Path) returns (o: Outcome)
      requires Apart(src, dst)
      requires forall i :: 0 <= i < |STATE_FILES| ==> !Exists(disk.files, dst + [STATE_FILES[i]])
      modifies disk
      ensures Explained(old(disk.faults), disk.faults, o) && !o.Failed?
      ensures Touches(old(disk.files), disk.files, dst)
      ensures o.Done? ==> StateCopied(old(disk.files), disk.files, src, dst, |STATE_FILES|,
                                      disk.faults.failures == old(disk.faults).failures)
    {
      ghost var f := disk.files;
      for i := 0 to |STATE_FILES|
        invariant Explained(old(disk.faults), disk.faults, Done)
        invariant StateCopied(f, disk.files, src, dst, i, disk.faults.failures == old(disk.faults).failures)
      {
        ghost var g := disk.files;
        ghost var clean := disk.faults.failures == old(disk.faults).failures;
        o := CopyStateFile(src + [STATE_FILES[i]], dst + [STATE_FILES[i]]);
        TouchesBelow(g, disk.files, dst, dst + [STATE_FILES[i]]);
        if o.Crashed? {
          return;
        }
        OneMoreCopied(f, g, disk.files, src, dst, i, clean, disk.faults.failures == old(disk.faults).failures);
      }
      o := Done;
    }

    /** One file: cloned, or else copied. */
    method CopyStateFile(src: Path, dst: Path) returns (o: Outcome)
      requires dst != [] && !Exists(disk.files, dst)
      modifies disk
      ensures Explained(old(disk.faults), disk.faults, o) && !o.Failed?
      ensures Touches(old(disk.files), disk.files, dst)
      ensures !Exists(old(disk.files), src) ==> disk.files == old(disk.files)
      ensures o.Done? && disk.faults.failures == old(disk.faults).failures && Exists(old(disk.files), src) ==>
                TreeAt(disk.files, dst) == TreeAt(old(disk.files), src)
    {
      if !Exists(disk.files, src) {
        return Done;
      }
      ghost var f := disk.files;
      o := disk.Clone(src, dst);
      if o.Failed? {
        ghost var g := disk.files;
        o := CopyIfPossible(src, dst);
        TouchesThen(f, g, disk.files, dst, dst);
      }
    }

    /** `try? copyItem`, which needs `dst` to be free and may stop half way */
    method CopyIfPossible(src: Path, dst: Path) returns (o: Outcome)
      requires dst != []
      modifies disk
      ensures Explained(old(disk.faults), disk.faults, o) && !o.Failed?
      ensures Touches(old(disk.files), disk.files, dst)
    {
      o := disk.Clone(src, dst);
      if o.Failed? {
        o := Done;
      }
    }

    /** `ManagedMachineStore.removeOrphanedMachines`; the order of the directory's contents is arbitrary. */
    method RemoveOrphanedMachines(referenced: set<nat>) returns (r: Outcome)
      modifies disk
      ensures Explained(old(disk.faults), disk.faults, r)
      ensures forall q :: q in old(disk.files) && !Orphaned(root, referenced, q) ==>
                q in disk.files && disk.files[q] == old(disk.files)[q]
      ensures r.Done? ==> forall id :: id !in referenced ==> !Exists(disk.files, MachineAt(root, id))
    {
      ghost var f := disk.files;
      r := Initialize();
      if !r.Done? {
        return;
      }
      var machines := root + [MACHINES];
      var k := |machines|;
      var entries: set<Name> := set q | q in disk.files && |q| > k && machines <= q :: q[k];
      while entries != {}
        invariant Explained(old(disk.faults), disk.faults, Done)
        invariant forall q :: q in f && !Orphaned(root, referenced, q) ==> q in disk.files && disk.files[q] == f[q]
        invariant forall q :: q in disk.files && Orphaned(root, referenced, q) ==> q[k] in entries
        decreases |entries|
      {
        var e: Name :| e in entries;
        entries := entries - {e};
        r := RemoveIfOrphaned(e, referenced);
        if !r.Done? {
          return;
        }
      }
      NoOrphanLeft(disk.files, root, referenced);
      r := Done;
    }

    method RemoveIfOrphaned(e: Name, referenced: set<nat>) returns (r: Outcome)
      modifies disk
      ensures Explained(old(disk.faults), disk.faults, r)
      ensures forall q :: q in disk.files ==> q in old(disk.files) && disk.files[q] == old(disk.files)[q]
      ensures forall q :: q in old(disk.files) && !Orphaned(root, referenced, q) ==> q in disk.files
      ensures r.Done? ==> forall q :: q in disk.files && Orphaned(root, referenced, q) ==> q[|root| + 1] != e
    {
      if e.Uuid? && e.id !in referenced {
        r := disk.RemoveItem(root + [MACHINES] + [e]);
        BelowEntry(root, referenced, e);
      } else {
        r := Done;
      }
    }

    /** The `do` block: fill the new directory. */
    method Populate(directory: Path, requested: nat, backend: Backend, windows: bool, base: Option<Path>)
      returns (r: Completion<MachineStorage>)
      requires root <= directory && requested < WORD
      requires TreeAt(disk.files, directory) == map[[] := Directory]
      requires base.Some? ==>
                 && Apart(base.value, directory)
                 && (Exists(disk.files, base.value) ==>
                       exists d :: TreeAt(disk.files, base.value) == map[[] := File(Bytes(d))])
      modifies disk
      ensures Touches(old(disk.files), disk.files, directory)
      ensures FairlyEnds(old(disk.faults), disk.faults,
                         Clear(old(disk.files), directory) && DiskPossible(old(disk.files), requested, base), r)
      ensures r.Threw? ==> r.error == DiskError && old(disk.faults).failures < disk.faults.failures
      ensures Explained(old(disk.faults), disk.faults, Done)
      ensures r.Died? ==> AlignedCapacity(requested).None? || old(disk.faults).crashes < disk.faults.crashes
      ensures r.Returned? ==>
                Filled(old(disk.files), disk.files, directory, requested, windows, backend, base, r.value.capacity)
      ensures r.Returned? ==>
                && root + r.value.disk == directory + Generation(windows) + [DISK]
                && root + r.value.backendState == directory + Generation(windows) + [BackendName(backend)]
    {
      ghost var f := disk.files;
      var generation := directory + Generation(windows);
      var o := MakeGeneration(directory, windows);
      ghost var g := disk.files;
      if !o.Done? {
        return if o.Failed? then Threw(DiskError) else Died;
      }
      BaseKept(f, g, directory, base);
      GenerationClear(f, g, directory, windows);
      var capacity := FillGeneration(directory, requested, backend, windows, base, f);
      TouchesThen(f, g, disk.files, directory, directory);
      if !capacity.Returned? {
        return if capacity.Threw? then Threw(capacity.error) else Died;
      }
      var storage := Describe(generation, backend, capacity.value);
      r := Returned(storage);
    }

    /** The disk and the directory of the backend */
    method FillGeneration(directory: Path, requested: nat, backend: Backend, windows: bool, base: Option<Path>,
                          ghost f: Files)
      returns (r: Completion<nat>)
      requires requested < WORD && TreeAt(disk.files, directory) == Skeleton(windows)
      requires base.Some? ==>
                 && TreeAt(disk.files, base.value) == TreeAt(f, base.value) && Apart(base.value, directory)
                 && (Exists(disk.files, base.value) ==>
                       exists d :: TreeAt(disk.files, base.value) == map[[] := File(Bytes(d))])
      modifies disk
      ensures Touches(old(disk.files), disk.files, directory)
      ensures r.Threw? ==> r.error == DiskError && old(disk.faults).failures < disk.faults.failures
      ensures Explained(old(disk.faults), disk.faults, Done)
      ensures r.Died? ==> AlignedCapacity(requested).None? || old(disk.faults).crashes < disk.faults.crashes
      ensures FairlyEnds(old(disk.faults), disk.faults,
                         && Clear(old(disk.files), directory + Generation(windows))
                         && DiskPossible(old(disk.files), requested, base), r)
      ensures r.Returned? ==> Filled(f, disk.files, directory, requested, windows, backend, base, r.value)
    {
      ghost var g := disk.files;
      var generation := directory + Generation(windows);
      PlaceIsFree(g, directory, windows, DISK);
      DiskBelow(directory, windows, base);
      r := CreateDisk(generation + [DISK], requested, base);
      ghost var h := disk.files;
      TouchesBelow(g, h, directory, generation + [DISK]);
      if !r.Returned? {
        return;
      }
      BackendIsPossible(g, h, directory, windows, backend);
      var o := disk.CreateDirectory(generation + [BackendName(backend)], false);
      TouchesThen(g, h, disk.files, directory, generation + [BackendName(backend)]);
      if !o.Done? {
        return if o.Failed? then Threw(DiskError) else Died;
      }
      PopulateEnds(f, g, h, disk.files, directory, requested, windows, backend, base, r.value);
    }

    method Describe(generation: Path, backend: Backend, capacity: nat) returns (s: MachineStorage)
      requires root <= generation
      ensures root + s.disk == generation + [DISK] && root + s.backendState == generation + [BackendName(backend)]
      ensures s.capacity == capacity
    {
      var d, b := generation + [DISK], generation + [BackendName(backend)];
      assert root <= d && root <= b;
      assert root + d[|root|..] == d && root + b[|root|..] == b;
      s := MachineStorage(RelativePath(root, d).value, capacity, RelativePath(root, b).value);
    }

    /** The place of the disk: the directory itself, or for Windows its first state generation. */
    method MakeGeneration(directory: Path, windows: bool) returns (r: Outcome)
      requires TreeAt(disk.files, directory) == map[[] := Directory]
      modifies disk
      ensures Explained(old(disk.faults), disk.faults, r)
      ensures Fair(old(disk.faults), disk.faults, Clear(old(disk.files), directory), r)
      ensures Touches(old(disk.files), disk.files, directory)
      ensures r.Done? ==> TreeAt(disk.files, directory) == Skeleton(windows)
    {
      ghost var f := disk.files;
      r := Done;
      EmptyIsClear(f, directory);
      if windows {
        r := disk.CreateDirectory(directory + [STATE, CURRENT], true);
      }
      GenerationTree(f, disk.files, directory, windows, r);
    }
  }

  /** `q` lies in the directory of a machine that is not referenced. */
  predicate Orphaned(root: Path, referenced: set<nat>, q: Path) {
    var machines := root + [MACHINES];
    && machines <= q && |q| > |machines|
    && q[|machines|].Uuid? && q[|machines|].id !in referenced
  }

  lemma NoOrphanLeft(f: Files, root: Path, referenced: set<nat>)
    requires forall q :: q in f ==> !Orphaned(root, referenced, q)
    ensures forall id :: id !in referenced ==> !Exists(f, MachineAt(root, id))
  {
    forall id | id !in referenced
      ensures !Exists(f, MachineAt(root, id))
    {
      BelowEntry(root, referenced, Uuid(id));
      assert root + [MACHINES] + [Uuid(id)] == MachineAt(root, id);
    }
  }

  lemma BelowEntry(root: Path, referenced: set<nat>, e: Name)
    requires e.Uuid? && e.id !in referenced
    ensures forall q :: Within(root + [MACHINES] + [e], q) <==>
              Orphaned(root, referenced, q) && q[|root| + 1] == e
  {
    var machines := root + [MACHINES];
    forall q
      ensures Within(machines + [e], q) <==> Orphaned(root, referenced, q) && q[|root| + 1] == e
    {
      if Orphaned(root, referenced, q) && q[|root| + 1] == e {
        assert q[..|machines| + 1] == machines + [e];
      }
      if Within(machines + [e], q) {
        assert q[|machines|] == (machines + [e])[|machines|] == e;
        assert machines == q[..|machines|];
      }
    }
  }

  // ----- clones

  lemma StateFilesDiffer(i: nat, j: nat)
    requires i < j < |STATE_FILES|
    ensures STATE_FILES[i] != STATE_FILES[j]
  {
    var a, b := STATE_FILES[i].text, STATE_FILES[j].text;
    assert |a| != |b| || a[4] != b[4] || a[6] != b[6];
  }

  lemma OneMoreCopied(f: Files, g: Files, h: Files, src: Path, dst: Path, n: nat, before: bool, clean: bool)
    requires n < |STATE_FILES| && Apart(src, dst) && (clean ==> before)
    requires StateCopied(f, g, src, dst, n, before)
    requires var p := dst + [STATE_FILES[n]];
             && Touches(g, h, p) && Touches(g, h, dst)
             && (!Exists(g, src + [STATE_FILES[n]]) ==> h == g)
             && (clean && Exists(g, src + [STATE_FILES[n]]) ==> TreeAt(h, p) == TreeAt(g, src + [STATE_FILES[n]]))
    ensures StateCopied(f, h, src, dst, n + 1, clean)
  {
    var p := dst + [STATE_FILES[n]];
    var q := src + [STATE_FILES[n]];
    ApartBelow(src, dst, q);
    TouchesApart(f, g, dst, q);
    TouchesThen(f, g, h, dst, p);
    forall name | name != STATE_FILES[n]
      ensures TreeAt(h, dst + [name]) == TreeAt(g, dst + [name])
      ensures Exists(h, dst + [name]) == Exists(g, dst + [name])
    {
      Diverge(dst + [name], p, |dst|);
      TouchesApart(g, h, p, dst + [name]);
    }
    forall i | 0 <= i < |STATE_FILES| && i != n
      ensures STATE_FILES[i] != STATE_FILES[n]
    {
      StateFilesDiffer(if i < n then i else n, if i < n then n else i);
    }
  }

  lemma OwnedBase(f: Files, root: Path, source: Machine, destination: nat)
    requires source.id != destination && Owned(source.id, source.disk)
    requires Exists(f, root + source.disk) ==> exists d :: TreeAt(f, root + source.disk) == map[[] := File(Bytes(d))]
    ensures IsBase(f, root, destination, root + source.disk)
  {
    assert source.disk[1] == MachineDirectory(source.id)[1];
    Diverge(root + source.disk, MachineAt(root, destination), |root| + 1);
    forall l | l in LAYOUT
      ensures !Within(root + source.disk, root + l)
    {
      assert |l| <= 1;
    }
  }

  lemma SourceStays(f: Files, g: Files, root: Path, source: nat, destination: nat)
    requires source != destination
    requires OnlyAddsDirectories(f, g, MachineAt(root, destination))
    ensures TreeAt(g, MachineAt(root, source)) == TreeAt(f, MachineAt(root, source))
  {
    var p, d := MachineAt(root, source), MachineAt(root, destination);
    Diverge(p, d, |root| + 1);
    forall r
      ensures p + r in g <==> p + r in f
      ensures p + r in f ==> g[p + r] == f[p + r]
    {
      assert Within(p, p + r);
      ApartBelow(p, d, p + r);
    }
  }

  lemma NewMachineIsFlat(windows: bool, backend: Backend, data: seq<nat>, q: Path)
    requires q in NewMachine(windows, backend, data)
    ensures |q| <= |Generation(windows)| + 1
  {
  }

  lemma BackendEmpty(windows: bool, backend: Backend, data: seq<nat>)
    ensures TreeAt(NewMachine(windows, backend, data), Generation(windows) + [BackendName(backend)])
            == map[[] := Directory]
  {
    var t, p := NewMachine(windows, backend, data), Generation(windows) + [BackendName(backend)];
    NewMachineHas(windows, backend, data);
    assert p + [] == p;
    forall r
      ensures p + r in t <==> r == []
    {
      if p + r in t {
        NewMachineIsFlat(windows, backend, data, p + r);
      }
    }
  }

  /** The backend directory of a new machine is empty. */
  lemma CreatedState(f: Files, g: Files, root: Path, windows: bool, destination: nat, requested: nat,
                     backend: Backend, base: Option<Path>, s: MachineStorage)
    requires requested < WORD
    requires CreateFilesEffect(f, g, root, destination, requested, windows, backend, base, Returned(s))
    ensures TreeAt(g, root + s.backendState) == map[[] := Directory]
    ensures forall name :: !Exists(g, root + s.backendState + [name])
  {
    var data :| TreeAt(g, MachineAt(root, destination)) == NewMachine(windows, backend, data);
    BackendTree(g, root, destination, windows, backend, data);
    EmptyDirectory(g, root + s.backendState);
  }

  lemma BackendTree(g: Files, root: Path, machine: nat, windows: bool, backend: Backend, data: seq<nat>)
    requires TreeAt(g, MachineAt(root, machine)) == NewMachine(windows, backend, data)
    ensures TreeAt(g, root + (MachineDirectory(machine) + Generation(windows) + [BackendName(backend)]))
            == map[[] := Directory]
  {
    BackendEmpty(windows, backend, data);
    TreeOfTree(g, MachineAt(root, machine), Generation(windows) + [BackendName(backend)]);
    Regrouped(root, MachineDirectory(machine), Generation(windows), [BackendName(backend)]);
  }

  lemma Regrouped(a: Path, b: Path, c: Path, d: Path)
    ensures a + (b + c + d) == (a + b) + (c + d)
  {
  }

  lemma EmptyDirectory(g: Files, p: Path)
    requires TreeAt(g, p) == map[[] := Directory]
    ensures forall name :: !Exists(g, p + [name])
  {
    forall name
      ensures !Exists(g, p + [name])
    {
      TreeOfTree(g, p, [name]);
      NothingBelow(name);
      EmptyTree(g, p + [name]);
    }
  }

  /** It is apart from the disk and from the places of other machines. */
  lemma CreatedPlaces(root: Path, source: nat, backendState: Path, destination: nat, windows: bool, backend: Backend,
                      s: MachineStorage)
    requires source != destination && Owned(source, backendState)
    requires s.disk == MachineDirectory(destination) + Generation(windows) + [DISK]
    requires s.backendState == MachineDirectory(destination) + Generation(windows) + [BackendName(backend)]
    ensures Apart(root + backendState, root + s.backendState)
    ensures Within(MachineAt(root, destination), root + s.backendState)
    ensures Apart(root + s.disk, root + s.backendState)
  {
    assert root + s.backendState == MachineAt(root, destination) + (Generation(windows) + [BackendName(backend)]);
    assert backendState[1] == MachineDirectory(source)[1];
    Diverge(root + backendState, root + s.backendState, |root| + 1);
    Diverge(root + s.disk, root + s.backendState, |root + s.disk| - 1);
  }

  lemma NothingBelow(name: Name)
    ensures TreeAt(map[[] := Directory], [name]) == map[]
  {
    assert forall r: Path :: [name] + r != [];
  }

  lemma CloneEnds(f: Files, g: Files, h: Files, root: Path, source: Machine, backendState: Path, requested: nat,
                  backend: Backend, destination: nat, s: MachineStorage, clean: bool)
    requires requested < WORD && source.id != destination && Owned(source.id, backendState)
    requires CreateFilesEffect(f, g, root, destination, requested, source.windows, backend,
                               Some(root + source.disk), Returned(s))
    requires StateCopied(g, h, root + backendState, root + s.backendState, |STATE_FILES|, clean)
    ensures CloneEffect(f, h, root, source, backendState, backend, requested, destination, Returned(s), clean)
  {
    CreatedPlaces(root, source.id, backendState, destination, source.windows, backend, s);
    CrashEnds(f, g, h, root, source.id, destination, root + s.backendState);
    ClonedDisk(f, g, h, root, source, requested, backend, destination, s);
    CreatedState(f, g, root, source.windows, destination, requested, backend, Some(root + source.disk), s);
    ClonedDirectory(g, h, root + backendState, root + s.backendState, clean);
    forall name
      ensures if name in STATE_FILES && Exists(f, root + backendState + [name])
              then clean ==> TreeAt(h, root + s.backendState + [name]) == TreeAt(f, root + backendState + [name])
              else !Exists(h, root + s.backendState + [name])
    {
      SourceFileStays(f, g, root, source.id, destination, backendState, name);
      ClonedFile(f, g, h, root + backendState, root + s.backendState, clean, name);
    }
  }

  lemma WithinAppended(root: Path, a: Path, p: Path, name: Name)
    requires Within(a, p)
    ensures Within(root + a, root + p + [name])
  {
  }

  lemma SourceFileStays(f: Files, g: Files, root: Path, source: nat, destination: nat, p: Path, name: Name)
    requires source != destination && Owned(source, p)
    requires OnlyAddsDirectories(f, g, MachineAt(root, destination))
    ensures TreeAt(g, root + p + [name]) == TreeAt(f, root + p + [name])
    ensures Exists(g, root + p + [name]) == Exists(f, root + p + [name])
  {
    SourceStays(f, g, root, source, destination);
    WithinAppended(root, MachineDirectory(source), p, name);
    SameInside(f, g, MachineAt(root, source), root + p + [name]);
  }

  lemma ClonedDirectory(g: Files, h: Files, src: Path, dst: Path, clean: bool)
    requires StateCopied(g, h, src, dst, |STATE_FILES|, clean) && TreeAt(g, dst) == map[[] := Directory]
    ensures dst in h && h[dst] == Directory
  {
    assert dst + [] == dst;
    assert [] in TreeAt(g, dst);
  }

  lemma ClonedFile(f: Files, g: Files, h: Files, src: Path, dst: Path, clean: bool, name: Name)
    requires StateCopied(g, h, src, dst, |STATE_FILES|, clean)
    requires !Exists(g, dst + [name])
    requires TreeAt(g, src + [name]) == TreeAt(f, src + [name]) && Exists(g, src + [name]) == Exists(f, src + [name])
    ensures if name in STATE_FILES && Exists(f, src + [name])
            then clean ==> TreeAt(h, dst + [name]) == TreeAt(f, src + [name])
            else !Exists(h, dst + [name])
  {
    if name in STATE_FILES {
      var i :| 0 <= i < |STATE_FILES| && STATE_FILES[i] == name;
    }
  }

  lemma CrashEnds(f: Files, g: Files, h: Files, root: Path, source: nat, destination: nat, d: Path)
    requires source != destination && Within(MachineAt(root, destination), d)
    requires OnlyAddsDirectories(f, g, MachineAt(root, destination)) && Touches(g, h, d)
    ensures OnlyAddsDirectories(f, h, MachineAt(root, destination))
    ensures TreeAt(h, MachineAt(root, source)) == TreeAt(f, MachineAt(root, source))
  {
    TouchesBelow(g, h, MachineAt(root, destination), d);
    PopulateOnly(f, g, h, MachineAt(root, destination));
    SourceStays(f, h, root, source, destination);
  }

  lemma ClonedDisk(f: Files, g: Files, h: Files, root: Path, source: Machine, requested: nat, backend: Backend,
                   destination: nat, s: MachineStorage)
    requires requested < WORD
    requires CreateFilesEffect(f, g, root, destination, requested, source.windows, backend,
                               Some(root + source.disk), Returned(s))
    requires Touches(g, h, root + s.backendState) && Apart(root + s.disk, root + s.backendState)
    ensures IsImage(h, root + s.disk)
    ensures DiskData(f, Some(root + source.disk), requested, h[root + s.disk].content.data)
    ensures s.capacity == |h[root + s.disk].content.data|
  {
    CreatedNodes(f, g, MachineAt(root, destination), requested, source.windows, backend, Some(root + source.disk),
                 s.capacity);
    CreatedPaths(root, destination, source.windows, DISK, s.disk);
    TouchesApart(g, h, root + s.backendState, root + s.disk);
    SameTree(g, h, root + s.disk);
  }

  /** The paths that a creation returns resolve to what it has made, where the snapshot store expects it. */
  lemma CreatedResolves(f: Files, g: Files, root: Path, machine: nat, requested: nat, windows: bool,
                        backend: Backend, base: Option<Path>, s: MachineStorage)
    requires requested < WORD
    requires CreateFilesEffect(f, g, root, machine, requested, windows, backend, base, Returned(s))
    ensures Managed(Machine(machine, windows, s.disk))
    ensures Resolve(root, s.disk) == Some(root + s.disk) && IsImage(g, root + s.disk)
    ensures |g[root + s.disk].content.data| == s.capacity
    ensures Resolve(root, s.backendState) == Some(root + s.backendState)
    ensures root + s.backendState in g && g[root + s.backendState] == Directory
  {
    CreatedNodes(f, g, MachineAt(root, machine), requested, windows, backend, base, s.capacity);
    CreatedPaths(root, machine, windows, DISK, s.disk);
    CreatedPaths(root, machine, windows, BackendName(backend), s.backendState);
  }

  lemma CreatedPaths(root: Path, machine: nat, windows: bool, name: Name, p: Path)
    requires p == MachineDirectory(machine) + Generation(windows) + [name]
    ensures MachineAt(root, machine) + Generation(windows) + [name] == root + p
    ensures name == DISK ==> Managed(Machine(machine, windows, p))
    ensures name != Text("..") ==> Text("..") !in p
  {
    assert p == if windows then MachineDirectory(machine) + [STATE, CURRENT, name] else MachineDirectory(machine) + [name];
  }

  lemma CreatedNodes(f: Files, g: Files, directory: Path, requested: nat, windows: bool, backend: Backend,
                     base: Option<Path>, capacity: nat)
    requires requested < WORD && Filled(f, g, directory, requested, windows, backend, base, capacity)
    ensures var disk := directory + Generation(windows) + [DISK];
            && IsImage(g, disk) && |g[disk].content.data| == capacity
            && DiskData(f, base, requested, g[disk].content.data)
    ensures var state := directory + Generation(windows) + [BackendName(backend)];
            state in g && g[state] == Directory
  {
    var data :| TreeAt(g, directory) == NewMachine(windows, backend, data)
                && DiskData(f, base, requested, data) && capacity == |data|;
    NewMachineHas(windows, backend, data);
    NodeThere(g, directory, NewMachine(windows, backend, data), Generation(windows), DISK);
    NodeThere(g, directory, NewMachine(windows, backend, data), Generation(windows), BackendName(backend));
  }

  lemma NewMachineHas(windows: bool, backend: Backend, data: seq<nat>)
    ensures Generation(windows) + [DISK] in NewMachine(windows, backend, data)
    ensures NewMachine(windows, backend, data)[Generation(windows) + [DISK]] == File(Bytes(data))
    ensures Generation(windows) + [BackendName(backend)] in NewMachine(windows, backend, data)
    ensures NewMachine(windows, backend, data)[Generation(windows) + [BackendName(backend)]] == Directory
  {
    var d, b := Generation(windows) + [DISK], Generation(windows) + [BackendName(backend)];
    assert d == if windows then [STATE, CURRENT, DISK] else [DISK];
    assert b == if windows then [STATE, CURRENT, BackendName(backend)] else [BackendName(backend)];
    assert d[|d| - 1] != b[|b| - 1];
  }

  lemma NodeThere(g: Files, directory: Path, t: Files, p: Path, name: Name)
    requires TreeAt(g, directory) == t && p + [name] in t
    ensures directory + p + [name] in g && g[directory + p + [name]] == t[p + [name]]
  {
    assert directory + (p + [name]) == directory + p + [name];
  }

  lemma CreateEnds(f: Files, g: Files, h: Files, k: Files, root: Path, machine: nat, requested: nat, windows: bool,
                   backend: Backend, base: Option<Path>, r: Completion<MachineStorage>)
    requires requested < WORD
    requires var directory := MachineAt(root, machine);
             && OnlyAddsDirectories(f, g, directory) && Touches(g, h, directory) && Shrinks(h, k, directory)
             && !Exists(f, directory)
             && (r.Returned? ==>
                   && k == h
                   && Filled(g, h, directory, requested, windows, backend, base, r.value.capacity)
                   && root + r.value.disk == directory + Generation(windows) + [DISK]
                   && root + r.value.backendState == directory + Generation(windows) + [BackendName(backend)])
    requires base.Some? ==> TreeAt(g, base.value) == TreeAt(f, base.value)
    ensures CreateFilesEffect(f, k, root, machine, requested, windows, backend, base, r)
  {
    var directory := MachineAt(root, machine);
    PopulateOnly(f, g, h, directory);
    RemoveOnly(f, h, k, directory);
    if r.Returned? {
      PathsRelative(root, machine, windows, backend);
      FilledFrom(f, g, h, directory, requested, windows, backend, base, r.value.capacity);
    }
  }

  lemma FilledFrom(f: Files, g: Files, h: Files, directory: Path, requested: nat, windows: bool, backend: Backend,
                   base: Option<Path>, capacity: nat)
    requires requested < WORD && Filled(g, h, directory, requested, windows, backend, base, capacity)
    requires base.Some? ==> TreeAt(g, base.value) == TreeAt(f, base.value)
    ensures Filled(f, h, directory, requested, windows, backend, base, capacity)
  {
    var data :| TreeAt(h, directory) == NewMachine(windows, backend, data)
                && DiskData(g, base, requested, data) && capacity == |data|;
    SameData(f, g, base, requested, data);
  }

  /** The disk's place is below its generation, and a base apart from the machine's directory is not above it. */
  lemma DiskBelow(directory: Path, windows: bool, base: Option<Path>)
    requires base.Some? ==> Apart(base.value, directory)
    ensures Parent(directory + Generation(windows) + [DISK]) == directory + Generation(windows)
    ensures base.Some? ==> !Within(base.value, directory + Generation(windows) + [DISK])
  {
    if base.Some? {
      NotAbove(base.value, directory, Generation(windows) + [DISK]);
      assert directory + (Generation(windows) + [DISK]) == directory + Generation(windows) + [DISK];
    }
  }

  lemma PopulateEnds(f: Files, g: Files, h: Files, k: Files, directory: Path, requested: nat, windows: bool,
                     backend: Backend, base: Option<Path>, capacity: nat)
    requires requested < WORD && TreeAt(g, directory) == Skeleton(windows)
    requires base.Some? ==> TreeAt(g, base.value) == TreeAt(f, base.value)
    requires Touches(g, h, directory + Generation(windows) + [DISK])
    requires DiskMade(g, h, directory + Generation(windows) + [DISK], requested, base, capacity)
    requires k == h[directory + Generation(windows) + [BackendName(backend)] := Directory]
    ensures Filled(f, k, directory, requested, windows, backend, base, capacity)
  {
    var data :| TreeAt(h, directory + Generation(windows) + [DISK]) == map[[] := File(Bytes(data))]
                && DiskData(g, base, requested, data) && capacity == |data|;
    MachineTree(g, h, k, directory, windows, backend, data);
    SameData(f, g, base, requested, data);
  }

  /** Initialising the layout leaves the machine's place and the base image alone. */
  lemma LayoutOnly(f: Files, g: Files, root: Path, machine: nat, base: Option<Path>)
    requires forall q :: q in f ==> q in g && g[q] == f[q]
    requires forall q :: q in g && q !in f ==> g[q] == Directory && exists l :: l in LAYOUT && Within(q, root + l)
    requires base.Some? ==> IsBase(f, root, machine, base.value)
    ensures OnlyAddsDirectories(f, g, MachineAt(root, machine))
    ensures TreeAt(g, MachineAt(root, machine)) == TreeAt(f, MachineAt(root, machine))
    ensures Exists(g, MachineAt(root, machine)) == Exists(f, MachineAt(root, machine))
    ensures base.Some? ==> TreeAt(g, base.value) == TreeAt(f, base.value)
  {
    var p := MachineAt(root, machine);
    NewIsLayout(f, g, root);
    if base.Some? {
      NewIsNotBase(f, g, root, machine, base.value);
    }
    SameBelowBoth(f, g, p);
    SameTree(f, g, p);
    if base.Some? {
      SameBelowBoth(f, g, base.value);
    }
  }

  lemma NewIsLayout(f: Files, g: Files, root: Path)
    requires forall q :: q in g && q !in f ==> g[q] == Directory && exists l :: l in LAYOUT && Within(q, root + l)
    ensures forall q :: q in g && q !in f ==> g[q] == Directory && |q| <= |root| + 1
  {
    forall q | q in g && q !in f
      ensures |q| <= |root| + 1
    {
      var l :| l in LAYOUT && Within(q, root + l);
      assert |l| <= 1;
    }
  }

  lemma NewIsNotBase(f: Files, g: Files, root: Path, machine: nat, base: Path)
    requires forall q :: q in g && q !in f ==> g[q] == Directory && exists l :: l in LAYOUT && Within(q, root + l)
    requires forall l :: l in LAYOUT ==> !Within(base, root + l)
    ensures forall q :: q in g && q !in f ==> !Within(base, q)
  {
    forall q | q in g && q !in f
      ensures !Within(base, q)
    {
      var l :| l in LAYOUT && Within(q, root + l);
    }
  }

  lemma SameBelowBoth(f: Files, g: Files, p: Path)
    requires forall q :: q in f ==> q in g && g[q] == f[q]
    requires forall q :: q in g && q !in f ==> !Within(p, q)
    ensures TreeAt(g, p) == TreeAt(f, p)
  {
    forall r
      ensures p + r in g <==> p + r in f
    {
      assert Within(p, p + r);
    }
  }

  lemma NewDirectory(f: Files, g: Files, h: Files, p: Path, o: Outcome)
    requires OnlyAddsDirectories(f, g, p) && TreeAt(g, p) == TreeAt(f, p)
    requires AddsDirectories(g, h, p)
    requires o.Done? ==> !Exists(g, p) && h == g[p := Directory]
    requires o.Failed? || Exists(g, p) ==> h == g
    ensures OnlyAddsDirectories(f, h, p)
    ensures o.Done? ==> !Exists(f, p) && TreeAt(h, p) == map[[] := Directory]
    ensures Exists(f, p) ==> TreeAt(h, p) == TreeAt(f, p)
    ensures o.Failed? ==> Exists(f, p) == Exists(h, p)
  {
    SameTree(f, g, p);
    AddsOnly(f, g, h, p);
    if o.Done? {
      OnlyDirectory(g, p);
    }
  }

  lemma AddsOnly(f: Files, g: Files, h: Files, p: Path)
    requires OnlyAddsDirectories(f, g, p) && AddsDirectories(g, h, p)
    ensures OnlyAddsDirectories(f, h, p)
  {
    forall q | q in h && q !in f && !Within(p, q)
      ensures h[q] == Directory && |q| < |p|
    {
      assert q !in g ==> Within(q, p) && q != p;
    }
  }

  lemma OnlyDirectory(g: Files, p: Path)
    requires !Exists(g, p)
    ensures TreeAt(g[p := Directory], p) == map[[] := Directory]
  {
    assert p + [] == p;
    forall r
      ensures p + r in g[p := Directory] <==> r == []
    {
      assert Within(p, p + r);
    }
  }

  lemma BaseStays(f: Files, g: Files, h: Files, root: Path, machine: nat, base: Option<Path>)
    requires base.Some? ==> IsBase(f, root, machine, base.value) && TreeAt(g, base.value) == TreeAt(f, base.value)
    requires AddsDirectories(g, h, MachineAt(root, machine))
    ensures base.Some? ==>
              && TreeAt(h, base.value) == TreeAt(f, base.value)
              && Exists(h, base.value) == Exists(f, base.value)
  {
    if base.Some? {
      BaseKept(g, h, MachineAt(root, machine), base);
      SameTree(f, h, base.value);
    }
  }

  lemma PopulateOnly(f: Files, g: Files, h: Files, p: Path)
    requires OnlyAddsDirectories(f, g, p) && Touches(g, h, p)
    ensures OnlyAddsDirectories(f, h, p)
  {
  }

  lemma RemoveOnly(f: Files, g: Files, h: Files, p: Path)
    requires OnlyAddsDirectories(f, g, p) && Shrinks(g, h, p)
    ensures OnlyAddsDirectories(f, h, p)
  {
  }

  lemma SameData(f: Files, g: Files, base: Option<Path>, requested: nat, data: seq<nat>)
    requires requested < WORD && DiskData(g, base, requested, data)
    requires base.Some? ==> TreeAt(g, base.value) == TreeAt(f, base.value)
    ensures DiskData(f, base, requested, data)
  {
    if base.Some? {
      SameTree(f, g, base.value);
    }
  }

  lemma PathsRelative(root: Path, machine: nat, windows: bool, backend: Backend)
    ensures forall name, p :: root + p == MachineAt(root, machine) + Generation(windows) + [name] ==>
              p == MachineDirectory(machine) + Generation(windows) + [name]
  {
    forall name, p | root + p == MachineAt(root, machine) + Generation(windows) + [name]
      ensures p == MachineDirectory(machine) + Generation(windows) + [name]
    {
      var q := MachineDirectory(machine) + Generation(windows) + [name];
      assert root + p == root + q;
      assert p == (root + p)[|root|..] == (root + q)[|root|..] == q;
    }
  }

  function Skeleton(windows: bool): Files {
    if windows then map[[] := Directory, [STATE] := Directory, [STATE, CURRENT] := Directory]
    else map[[] := Directory]
  }

  lemma GenerationTree(f: Files, g: Files, directory: Path, windows: bool, o: Outcome)
    requires TreeAt(f, directory) == map[[] := Directory]
    requires !windows ==> g == f && o.Done?
    requires windows ==> AddsDirectories(f, g, directory + [STATE, CURRENT])
    requires windows && o.Done? ==>
               forall k :: 0 <= k <= |directory| + 2 ==> (directory + [STATE, CURRENT])[..k] in g
    ensures Touches(f, g, directory)
    ensures o.Done? ==> TreeAt(g, directory) == Skeleton(windows)
  {
    assert directory + [] == directory;
    assert [] in TreeAt(f, directory);
    if windows {
      TouchesBelow(f, g, directory, directory + [STATE, CURRENT]);
      if o.Done? {
        assert (directory + [STATE, CURRENT])[..|directory| + 1] == directory + [STATE];
        assert (directory + [STATE, CURRENT])[..|directory| + 2] == directory + [STATE, CURRENT];
        forall r
          ensures directory + r in g <==> r in Skeleton(true)
          ensures directory + r in g ==> g[directory + r] == Directory
        {
          BelowOrNot(directory, [STATE, CURRENT], r);
          assert r in TreeAt(f, directory) <==> directory + r in f;
          if directory + r in g && directory + r !in f {
            assert r == [STATE, CURRENT][..|r|];
            assert r == [] || r == [STATE] || r == [STATE, CURRENT];
          }
        }
      }
    }
  }

  lemma BaseKept(f: Files, g: Files, p: Path, base: Option<Path>)
    requires base.Some? ==> Apart(base.value, p)
    requires Touches(f, g, p)
    ensures base.Some? ==> TreeAt(g, base.value) == TreeAt(f, base.value)
    ensures base.Some? ==> Exists(g, base.value) == Exists(f, base.value)
  {
    if base.Some? {
      TouchesApart(f, g, p, base.value);
    }
  }

  /** One file more, below `directory`. */
  lemma FileAdded(g: Files, h: Files, directory: Path, d: Path, t: Files, data: seq<nat>)
    requires TreeAt(g, directory) == t
    requires Touches(g, h, directory + d) && TreeAt(h, directory + d) == map[[] := File(Bytes(data))]
    requires forall r :: r in t ==> !Within(d, r)
    requires forall r :: Within(r, d) && r != d ==> r in t
    ensures TreeAt(h, directory) == t[d := File(Bytes(data))]
  {
    OneFile(h, directory + d, data);
    var after := t[d := File(Bytes(data))];
    forall r: Path
      ensures directory + r in h <==> r in after
      ensures r in after ==> h[directory + r] == after[r]
    {
      FileAddedAt(g, h, directory, d, t, data, r);
    }
    TreeIs(h, directory, after);
  }

  lemma FileAddedAt(g: Files, h: Files, directory: Path, d: Path, t: Files, data: seq<nat>, r: Path)
    requires TreeAt(g, directory) == t
    requires Touches(g, h, directory + d)
    requires directory + d in h && h[directory + d] == File(Bytes(data))
    requires Within(directory + d, directory + r) && directory + r in h ==> directory + r == directory + d
    requires Within(d, r) ==> r !in t
    requires Within(r, d) && r != d ==> r in t
    ensures directory + r in h <==> r in t || r == d
    ensures directory + r in h ==> h[directory + r] == if r == d then File(Bytes(data)) else t[r]
  {
    BelowOrNot(directory, d, r);
    assert r in t <==> directory + r in g;
    if directory + r == directory + d {
      assert r == (directory + r)[|directory|..] == (directory + d)[|directory|..] == d;
    }
  }

  lemma MachineTree(g: Files, h: Files, k: Files, directory: Path, windows: bool, backend: Backend, data: seq<nat>)
    requires TreeAt(g, directory) == Skeleton(windows)
    requires Touches(g, h, directory + Generation(windows) + [DISK])
    requires TreeAt(h, directory + Generation(windows) + [DISK]) == map[[] := File(Bytes(data))]
    requires k == h[directory + Generation(windows) + [BackendName(backend)] := Directory]
    ensures TreeAt(k, directory) == NewMachine(windows, backend, data)
  {
    var d, b := Generation(windows) + [DISK], Generation(windows) + [BackendName(backend)];
    assert directory + Generation(windows) + [DISK] == directory + d;
    assert directory + Generation(windows) + [BackendName(backend)] == directory + b;
    DiskAdded(g, h, directory, windows, d, data);
    NodeAdded(h, k, directory, b, Skeleton(windows)[d := File(Bytes(data))]);
    NewMachineFrom(windows, backend, data);
  }

  lemma DiskAdded(g: Files, h: Files, directory: Path, windows: bool, d: Path, data: seq<nat>)
    requires TreeAt(g, directory) == Skeleton(windows) && d == Generation(windows) + [DISK]
    requires Touches(g, h, directory + d) && TreeAt(h, directory + d) == map[[] := File(Bytes(data))]
    ensures TreeAt(h, directory) == Skeleton(windows)[d := File(Bytes(data))]
  {
    forall r
      ensures Within(r, d) && r != d ==> r in Skeleton(windows)
      ensures r in Skeleton(windows) ==> !Within(d, r)
    {
      SkeletonPath(windows, r);
    }
    FileAdded(g, h, directory, d, Skeleton(windows), data);
  }

  lemma SkeletonPath(windows: bool, r: Path)
    ensures var d := Generation(windows) + [DISK];
            (r in Skeleton(windows) <==> Within(r, d) && r != d) && (r in Skeleton(windows) ==> !Within(d, r))
  {
    var d := Generation(windows) + [DISK];
    if Within(r, d) && r != d {
      assert r == d[..|r|];
      if windows {
        assert r == [] || r == [STATE] || r == [STATE, CURRENT];
      }
    }
  }

  lemma NewMachineFrom(windows: bool, backend: Backend, data: seq<nat>)
    ensures Skeleton(windows)[Generation(windows) + [DISK] := File(Bytes(data))]
              [Generation(windows) + [BackendName(backend)] := Directory] == NewMachine(windows, backend, data)
  {
    assert Generation(windows) + [DISK] == if windows then [STATE, CURRENT, DISK] else [DISK];
    assert Generation(windows) + [BackendName(backend)] ==
           if windows then [STATE, CURRENT, BackendName(backend)] else [BackendName(backend)];
  }

  lemma NodeAdded(h: Files, k: Files, directory: Path, b: Path, t: Files)
    requires TreeAt(h, directory) == t && k == h[directory + b := Directory]
    ensures TreeAt(k, directory) == t[b := Directory]
  {
    var after := t[b := Directory];
    forall r: Path
      ensures directory + r in k <==> r in after
      ensures r in after ==> k[directory + r] == after[r]
    {
      assert r in t <==> directory + r in h;
      if directory + r == directory + b {
        assert r == (directory + r)[|directory|..] == (directory + b)[|directory|..] == b;
      }
    }
    TreeIs(k, directory, after);
  }

  /** A clone of an image is one file with its bytes. */
  lemma CopiedImage(f: Files, g: Files, base: Path, target: Path) returns (d: seq<nat>)
    requires TreeAt(g, target) == TreeAt(f, base)
    requires exists d :: TreeAt(f, base) == map[[] := File(Bytes(d))]
    ensures base in f && f[base] == File(Bytes(d))
    ensures target in g && g[target] == File(Bytes(d))
    ensures forall q :: q in g && Within(target, q) ==> q == target
  {
    d :| TreeAt(f, base) == map[[] := File(Bytes(d))];
    OneFile(f, base, d);
    OneFile(g, target, d);
  }

  lemma GrownImage(f: Files, g: Files, base: Path, target: Path, requested: nat, d: seq<nat>)
    requires requested < WORD && AlignedCapacity(requested).Some?
    requires base in f && f[base] == File(Bytes(d))
    requires var aligned := AlignedCapacity(requested).value;
             && target in g
             && g[target] == File(Bytes(if |d| < aligned then Resized(d, aligned) else d))
    requires forall q :: q in g && Within(target, q) ==> q == target
    ensures DiskMade(f, g, target, requested, Some(base),
                     if |d| < AlignedCapacity(requested).value then AlignedCapacity(requested).value else |d|)
  {
    var data := g[target].content.data;
    assert data == Resized(d, |data|);
    FileTree(g, target, data);
    assert DiskData(f, Some(base), requested, data);
  }

  lemma OneFile(f: Files, p: Path, d: seq<nat>)
    requires TreeAt(f, p) == map[[] := File(Bytes(d))]
    ensures p in f && f[p] == File(Bytes(d))
    ensures forall q :: q in f && Within(p, q) ==> q == p
  {
    assert p + [] == p;
    assert [] in TreeAt(f, p);
    forall q | q in f && Within(p, q)
      ensures q == p
    {
      assert q == p + q[|p|..];
      assert q[|p|..] in TreeAt(f, p);
    }
  }

  lemma FileTree(f: Files, p: Path, d: seq<nat>)
    requires p in f && f[p] == File(Bytes(d))
    requires forall q :: q in f && Within(p, q) ==> q == p
    ensures TreeAt(f, p) == map[[] := File(Bytes(d))]
  {
    assert p + [] == p;
    forall r
      ensures r in TreeAt(f, p) <==> r == []
    {
      if p + r in f {
        assert Within(p, p + r);
      }
    }
  }
}
