/** The paths of the stores as texts: what the list form of a relative path says, its text says too. */
module PathTexts {
  import opened Wrappers
  import opened Texts
  import opened FileSystem
  import opened MachineFiles
  import opened SnapshotStore
  import opened MachineStore
  import L = StorageLayout

  type UuidTexts = nat -> string

  function Render(n: Name, uuid: UuidTexts): string {
    match n
    case Text(text) => text
    case Uuid(id) => uuid(id)
    case Suffixed(base, suffix) => Render(base, uuid) + suffix
    case Prefixed(prefix, base) => prefix + Render(base, uuid)
  }

  /** The name's text is a path component, and goes up only if the name does. */
  predicate Clean(n: Name, uuid: UuidTexts) {
    && IsPart(Render(n, uuid), L.IsSlash) && Render(n, uuid) != "."
    && (Render(n, uuid) == ".." ==> n == Text(".."))
  }

  predicate AllClean(p: Path, uuid: UuidTexts) {
    forall i :: 0 <= i < |p| ==> Clean(p[i], uuid)
  }

  lemma PartIsComponent(part: string)
    requires IsPart(part, L.IsSlash)
    ensures part != "" && '/' !in part
  {
    assert forall i :: 0 <= i < |part| ==> !L.IsSlash(part[i]);
  }

  function Component(n: Name, uuid: UuidTexts): L.Component
    requires Clean(n, uuid)
  {
    PartIsComponent(Render(n, uuid));
    Render(n, uuid)
  }

  function Components(p: Path, uuid: UuidTexts): (url: L.Url)
    requires AllClean(p, uuid)
    ensures |url| == |p| && forall i :: 0 <= i < |p| ==> url[i] == Render(p[i], uuid)
  {
    seq(|p|, i requires 0 <= i < |p| => Component(p[i], uuid))
  }

  function TextOf(p: Path, uuid: UuidTexts): string
    requires AllClean(p, uuid)
  {
    L.Join(Components(p, uuid))
  }

  /** Resolving the list and resolving its text succeed together, with the same result. */
  lemma ResolveAgrees(root: Path, url: L.Url, p: Path, uuid: UuidTexts)
    requires AllClean(p, uuid)
    ensures L.Resolve(url, TextOf(p, uuid)).Ok? <==> Resolve(root, p).Some?
    ensures Resolve(root, p).Some? ==>
              Resolve(root, p).value == root + p && L.Resolve(url, TextOf(p, uuid)) == Ok(url + Components(p, uuid))
  {
    L.JoinedResolves(url, Components(p, uuid));
    if Text("..") in p {
      var i :| 0 <= i < |p| && p[i] == Text("..");
      assert Components(p, uuid)[i] == "..";
    }
  }

  /** The relative path of a file under the root is the same as a list and as a text. */
  lemma RelativePathAgrees(root: Path, url: L.Url, p: Path, uuid: UuidTexts)
    requires AllClean(p, uuid) && Text("..") !in p && L.Plain(url)
    ensures RelativePath(root, root + p) == Some(p)
    ensures L.RelativePath(url, url + Components(p, uuid)) == Ok(TextOf(p, uuid))
  {
    var parts := Components(p, uuid);
    assert (root + p)[|root|..] == p;
    assert L.Plain(parts) && ".." !in parts;
    L.PlainStays(url);
    L.PlainStays(parts);
    L.StandardizedAppends(url, parts);
    assert (url + parts)[|url|..] == parts;
  }

  // ----- the names of the stores

  /** 36 characters, none of them a slash or a dot. */
  ghost predicate AreUuids(uuid: UuidTexts) {
    forall id :: |uuid(id)| == 36 && forall i :: 0 <= i < 36 ==> uuid(id)[i] != '/' && uuid(id)[i] != '.'
  }

  lemma UuidIsClean(id: nat, uuid: UuidTexts)
    requires AreUuids(uuid)
    ensures Clean(Uuid(id), uuid) && Clean(Suffixed(Uuid(id), ".raw"), uuid)
  {
    assert |uuid(id)| == 36;
    var raw := uuid(id) + ".raw";
    assert forall i :: 0 <= i < |raw| ==> raw[i] == if i < 36 then uuid(id)[i] else ".raw"[i - 36];
  }

  lemma FixedNamesAreClean(uuid: UuidTexts)
    ensures Clean(MACHINES, uuid) && Clean(SNAPSHOTS, uuid) && Clean(STATE, uuid) && Clean(CURRENT, uuid)
    ensures Clean(DISK, uuid) && Clean(QEMU, uuid) && Clean(Text("Apple"), uuid)
  {
  }

  lemma MachinePathIsClean(machine: nat, windows: bool, name: Name, uuid: UuidTexts)
    requires AreUuids(uuid) && Clean(name, uuid) && name != Text("..")
    ensures var p := MachineDirectory(machine) + Generation(windows) + [name];
            AllClean(p, uuid) && Text("..") !in p
  {
    FixedNamesAreClean(uuid);
    UuidIsClean(machine, uuid);
    var p := MachineDirectory(machine) + Generation(windows) + [name];
    assert p == if windows then [MACHINES, Uuid(machine), STATE, CURRENT, name] else [MACHINES, Uuid(machine), name];
  }

  /** What a creation stores as text resolves to what it has made, and is the relative path of it. */
  lemma CreatedResolvesAsText(f: Files, g: Files, root: Path, machine: nat, requested: nat, windows: bool,
                              backend: Backend, base: Option<Path>, s: MachineStorage, url: L.Url, uuid: UuidTexts)
    requires requested < WORD && AreUuids(uuid) && L.Plain(url)
    requires CreateFilesEffect(f, g, root, machine, requested, windows, backend, base, Returned(s))
    ensures IsText(url, s.disk, uuid) && IsText(url, s.backendState, uuid)
    ensures L.Split(TextOf(s.disk, uuid)) == MachineParts(machine, windows, uuid) + ["disk.raw"]
    ensures L.Split(TextOf(s.backendState, uuid)) ==
            MachineParts(machine, windows, uuid) + [if backend.Qemu? then "QEMU" else "Apple"]
  {
    FixedNamesAreClean(uuid);
    MachinePathAsText(root, machine, windows, DISK, url, uuid);
    MachinePathAsText(root, machine, windows, BackendName(backend), url, uuid);
  }

  /** The text of a path in a machine's directory, and its parts between the slashes */
  lemma MachinePathAsText(root: Path, machine: nat, windows: bool, name: Name, url: L.Url, uuid: UuidTexts)
    requires AreUuids(uuid) && L.Plain(url) && Clean(name, uuid) && name != Text("..")
    ensures var p := MachineDirectory(machine) + Generation(windows) + [name];
            && IsText(url, p, uuid)
            && L.Split(TextOf(p, uuid)) ==
               MachineParts(machine, windows, uuid) + [Render(name, uuid)]
  {
    var p := MachineDirectory(machine) + Generation(windows) + [name];
    MachinePathIsClean(machine, windows, name, uuid);
    AsText(root, url, p, uuid);
    L.SplitJoin(Components(p, uuid));
    assert Components(p, uuid) == MachineParts(machine, windows, uuid) + [Render(name, uuid)];
  }

  function MachineParts(machine: nat, windows: bool, uuid: UuidTexts): seq<string> {
    if windows then ["Machines", uuid(machine), "State", "current"] else ["Machines", uuid(machine)]
  }

  lemma RecordParts(m: Machine, id: nat, name: string, uuid: UuidTexts)
    requires AllClean(NewRecord(m, id, name).disk, uuid)
    requires m.windows ==> AllClean(NewRecord(m, id, name).state.value, uuid)
    ensures HasParts(NewRecord(m, id, name), m, id, uuid)
  {
    var s := NewRecord(m, id, name);
    L.SplitJoin(Components(s.disk, uuid));
    assert Render(Suffixed(Uuid(id), ".raw"), uuid) == uuid(id) + ".raw" by {
      assert Render(Uuid(id), uuid) == uuid(id);
    }
    if !m.windows {
      assert Components(s.disk, uuid) == ["Machines", uuid(m.id), "Snapshots", uuid(id) + ".raw"];
    }
    if m.windows {
      L.SplitJoin(Components(s.state.value, uuid));
    }
  }

  /** The texts of a snapshot's record, cut at their slashes */
  predicate HasParts(s: MachineSnapshot, m: Machine, id: nat, uuid: UuidTexts) {
    && AllClean(s.disk, uuid)
    && if m.windows then
         && L.Split(TextOf(s.disk, uuid)) == ["Machines", uuid(m.id), "Snapshots", uuid(id), "State", "disk.raw"]
         && s.state.Some? && AllClean(s.state.value, uuid)
         && L.Split(TextOf(s.state.value, uuid)) == ["Machines", uuid(m.id), "Snapshots", uuid(id), "State"]
       else
         && L.Split(TextOf(s.disk, uuid)) == ["Machines", uuid(m.id), "Snapshots", uuid(id) + ".raw"]
         && s.state.None?
  }

  /** So does what a snapshot's record stores. */
  lemma RecordResolvesAsText(m: Machine, id: nat, name: string, root: Path, url: L.Url, uuid: UuidTexts)
    requires AreUuids(uuid) && L.Plain(url)
    ensures var s := NewRecord(m, id, name);
            IsText(url, s.disk, uuid) && (s.state.Some? ==> IsText(url, s.state.value, uuid))
    ensures HasParts(NewRecord(m, id, name), m, id, uuid)
  {
    var s := NewRecord(m, id, name);
    FixedNamesAreClean(uuid);
    UuidIsClean(m.id, uuid);
    UuidIsClean(id, uuid);
    SlotFromRecord(root, m.id, s);
    AsText(root, url, s.disk, uuid);
    if s.state.Some? {
      AsText(root, url, s.state.value, uuid);
    }
    RecordParts(m, id, name, uuid);
  }

  /** The directories of the layout, */
  lemma LayoutParts(uuid: UuidTexts)
    ensures |LAYOUT| == 5 && forall i :: 0 <= i < |LAYOUT| ==> AllClean(LAYOUT[i], uuid)
    ensures Components(LAYOUT[0], uuid) == [] && Components(LAYOUT[1], uuid) == ["Images"]
    ensures Components(LAYOUT[2], uuid) == ["Machines"] && Components(LAYOUT[3], uuid) == ["Downloads"]
    ensures Components(LAYOUT[4], uuid) == ["Logs"]
  {
    FixedNamesAreClean(uuid);
  }

  /** and the file that lists a machine's snapshots */
  lemma ListingParts(machine: nat, uuid: UuidTexts)
    requires AreUuids(uuid)
    ensures var p := SnapshotsDirectory(machine) + [METADATA];
            AllClean(p, uuid) && Components(p, uuid) == ["Machines", uuid(machine), "Snapshots", "snapshots.json"]
  {
    FixedNamesAreClean(uuid);
    UuidIsClean(machine, uuid);
  }

  /** The places that a restore uses for a while: beside the current generation, and beside the disk */
  lemma RestorePlaces(root: Path, machine: nat, windows: bool, token: nat, uuid: UuidTexts)
    ensures var m := Machine(machine, windows, MachineDirectory(machine) + Generation(windows) + [DISK]);
            && |m.disk| >= 2
            && (windows ==>
                  exists name :: StagedAt(root, m, token) == root + MachineDirectory(machine) + [STATE, name]
                                 && Render(name, uuid) == ".restore-" + uuid(token))
            && exists name :: ReplacementFor(root + m.disk) == root + MachineDirectory(machine) + Generation(windows) + [name]
                              && Render(name, uuid) == "disk.raw.restore"
  {
    var m := Machine(machine, windows, MachineDirectory(machine) + Generation(windows) + [DISK]);
    if windows {
      ParentAppended(root + MachineDirectory(machine) + [STATE, CURRENT], DISK);
      ParentAppended(root + MachineDirectory(machine) + [STATE], CURRENT);
      assert root + m.disk == root + MachineDirectory(machine) + [STATE, CURRENT] + [DISK];
      assert root + MachineDirectory(machine) + [STATE, CURRENT] == root + MachineDirectory(machine) + [STATE] + [CURRENT];
      assert Render(Uuid(token), uuid) == uuid(token);
      assert Render(Prefixed(".restore-", Uuid(token)), uuid) == ".restore-" + uuid(token);
    }
    ParentAppended(root + MachineDirectory(machine) + Generation(windows), DISK);
    assert root + m.disk == root + MachineDirectory(machine) + Generation(windows) + [DISK];
    assert Render(Suffixed(DISK, ".restore"), uuid) == "disk.raw.restore";
  }

  lemma ParentAppended(p: Path, name: Name)
    ensures Parent(p + [name]) == p
  {
  }

  /** The path's text resolves to the path's components behind the root, and is the relative path of that. */
  predicate IsText(url: L.Url, p: Path, uuid: UuidTexts) {
    && AllClean(p, uuid)
    && L.Resolve(url, TextOf(p, uuid)) == Ok(url + Components(p, uuid))
    && L.RelativePath(url, url + Components(p, uuid)) == Ok(TextOf(p, uuid))
  }

  lemma AsText(root: Path, url: L.Url, p: Path, uuid: UuidTexts)
    requires AllClean(p, uuid) && Text("..") !in p && L.Plain(url)
    ensures IsText(url, p, uuid)
  {
    ResolveAgrees(root, url, p, uuid);
    RelativePathAgrees(root, url, p, uuid);
  }
}
