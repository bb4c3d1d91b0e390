/**
 The disk under the managed storage root.

 A disk is a finite map from paths to nodes.  Each primitive is one call of the file manager: it ends as
 `Done`, as `Failed` (the call throws) or as `Crashed` (the process dies inside it).  Calls that are not
 atomic may stop half way in the last two cases, so what a caller can prove about a `Crashed` outcome
 holds for every crash point.
 */
module FileSystem {
  import opened Wrappers

  /** A path component.  Identifiers are unique, and the four shapes never produce equal text. */
  datatype Name =
    | Text(text: string)
    | Uuid(id: nat)
    | Suffixed(base: Name, suffix: string)
    | Prefixed(prefix: string, base: Name)

  type Path = seq<Name>

  /** A snapshot record, with both paths relative to the storage root. */
  datatype MachineSnapshot = MachineSnapshot(id: nat, name: string, disk: Path, state: Option<Path>)

  datatype Content = Bytes(data: seq<nat>) | SnapshotList(items: seq<MachineSnapshot>)

  datatype Node = Directory | File(content: Content)

  type Files = map<Path, Node>

  datatype Outcome = Done | Failed | Crashed

  /** How many calls have failed, in how many the process died, and how many of all these had nothing in their way:
      a call that is refused for what is on the disk is a failure but no breakdown. */
  datatype Faults = Faults(failures: nat, crashes: nat, breakdowns: nat)

  function Count(before: Faults, possible: bool, r: Outcome): Faults {
    match r
    case Done => before
    case Failed =>
      before.(failures := before.failures + 1, breakdowns := before.breakdowns + if possible then 1 else 0)
    case Crashed => before.(crashes := before.crashes + 1, breakdowns := before.breakdowns + 1)
  }

  /** A call that can succeed does so, unless something breaks down. */
  predicate Fair(before: Faults, after: Faults, possible: bool, r: Outcome) {
    possible && !r.Done? ==> before.breakdowns < after.breakdowns
  }

  /** A failure has a failed call behind it, and a crash a fatal one. */
  predicate Explained(before: Faults, after: Faults, r: Outcome) {
    && before.failures <= after.failures
    && before.crashes <= after.crashes
    && before.breakdowns <= after.breakdowns
    && (r.Failed? ==> before.failures < after.failures)
    && (r.Crashed? ==> before.crashes < after.crashes && before.breakdowns < after.breakdowns)
  }

  // ----- looking at a disk

  /** `q` is `p` or lies below it. */
  predicate Within(p: Path, q: Path) {
    p <= q
  }

  /** Something is stored at `p` or below it. */
  predicate Exists(f: Files, p: Path) {
    exists q :: q in f && Within(p, q)
  }

  /** Everything at or below `p`, by its path relative to `p`. */
  function TreeAt(f: Files, p: Path): (t: Files)
    ensures forall r :: r in t <==> p + r in f
    ensures forall r :: r in t ==> t[r] == f[p + r]
  {
    var below := set q | q in f && Within(p, q) :: q[|p|..];
    assert forall q :: q in f && Within(p, q) ==> q == p + q[|p|..];
    assert forall r :: p + r in f ==> Within(p, p + r) && (p + r)[|p|..] == r;
    map r | r in below :: f[p + r]
  }

  function Without(f: Files, p: Path): Files {
    map q | q in f && !(Within(p, q)) :: f[q]
  }

  /** The tree `t` moved to `p`. */
  function Lift(t: Files, p: Path): (g: Files)
    ensures forall q :: q in g ==> Within(p, q)
    ensures forall r :: r in t <==> p + r in g
    ensures forall r :: r in t ==> g[p + r] == t[r]
  {
    assert forall r :: Within(p, p + r) && (p + r)[|p|..] == r;
    var keys := set r | r in t :: p + r;
    map q | q in keys :: t[q[|p|..]]
  }

  /** `f` with the tree at `p` replaced by `t`. */
  function Graft(f: Files, p: Path, t: Files): (g: Files)
    ensures forall q :: !(Within(p, q)) ==> (q in g <==> q in f) && (q in f ==> g[q] == f[q])
    ensures TreeAt(g, p) == t
  {
    GraftedTree(f, p, t);
    Without(f, p) + Lift(t, p)
  }

  lemma GraftedTree(f: Files, p: Path, t: Files)
    ensures TreeAt(Without(f, p) + Lift(t, p), p) == t
  {
    assert forall r :: Within(p, p + r);
  }

  /** A plain file is stored at `p`. */
  predicate IsImage(f: Files, p: Path) {
    p in f && f[p].File? && f[p].content.Bytes?
  }

  /** `data` cut or filled up with zeros to `size`. */
  function Resized(data: seq<nat>, size: nat): (r: seq<nat>)
    ensures |r| == size
    ensures forall i :: 0 <= i < size ==> r[i] == if i < |data| then data[i] else 0
  {
    seq(size, i requires 0 <= i => if i < |data| then data[i] else 0)
  }

  /** Neither path is at or below the other. */
  predicate Apart(p: Path, q: Path) {
    !(Within(p, q)) && !(Within(q, p))
  }

  // ----- what stands in the way of a call

  function Parent(p: Path): Path
    requires p != []
  {
    p[..|p| - 1]
  }

  predicate IsDirectory(f: Files, p: Path) {
    p in f && f[p] == Directory
  }

  /** No file is stored at `p` or on the way to it. */
  ghost predicate Clear(f: Files, p: Path) {
    forall q :: q in f && Within(q, p) ==> f[q] == Directory
  }

  ghost predicate CanCreateDirectory(f: Files, p: Path, intermediates: bool) {
    if intermediates then Clear(f, p) else p != [] && IsDirectory(f, Parent(p)) && !Exists(f, p)
  }

  ghost predicate CanClone(f: Files, src: Path, dst: Path)
    requires dst != []
  {
    Clear(f, Parent(dst)) && Exists(f, src) && !Exists(f, dst) && !Within(src, dst)
  }

  predicate CanWrite(f: Files, p: Path) {
    p != [] && IsDirectory(f, Parent(p)) && !IsDirectory(f, p)
  }

  lemma ClearAfterDirectories(f: Files, g: Files, p: Path, d: Path)
    requires Clear(f, p) && AddsDirectories(f, g, d)
    ensures Clear(g, p)
  {
  }

  /** A change that is not on the way to `p` leaves it clear. */
  lemma ClearAfter(f: Files, g: Files, p: Path, d: Path)
    requires Clear(f, p) && Touches(f, g, d) && !Within(d, p)
    ensures Clear(g, p)
  {
    forall q | q in g && Within(q, p)
      ensures g[q] == Directory
    {
      assert !Within(d, q);
    }
  }

  lemma ClearAfterRemoval(f: Files, g: Files, p: Path, d: Path)
    requires Shrinks(f, g, d)
    ensures Clear(f, p) ==> Clear(g, p)
  {
  }

  // ----- how much a call may change

  /** Nothing is lost, and what is new is a directory at `p` or above it. */
  ghost predicate AddsDirectories(f: Files, g: Files, p: Path) {
    && (forall q :: q in f ==> q in g && g[q] == f[q])
    && (forall q :: q in g && q !in f ==> Within(q, p) && g[q] == Directory)
  }

  /** The two disks agree except at or below `p` and for directories added above `p`. */
  ghost predicate Touches(f: Files, g: Files, p: Path) {
    && (forall q :: q in f && !(Within(p, q)) ==> q in g && g[q] == f[q])
    && (forall q :: q in g && !(Within(p, q)) && q !in f ==> Within(q, p) && g[q] == Directory)
  }

  /** `g` lacks some of what `f` has at or below `p`, and nothing else. */
  ghost predicate Shrinks(f: Files, g: Files, p: Path) {
    && (forall q :: q in g ==> q in f && g[q] == f[q])
    && (forall q :: q in f && !(Within(p, q)) ==> q in g)
  }

  lemma TouchesBelow(f: Files, g: Files, p: Path, d: Path)
    requires Within(p, d) && Touches(f, g, d)
    ensures Touches(f, g, p)
  {
    forall q | q in g && !(Within(p, q)) && q !in f
      ensures Within(q, p) && g[q] == Directory
    {
      assert !(Within(d, q));
      assert Within(q, d);
      assert |q| < |p| || Within(p, q);
    }
  }

  lemma GraftTouches(f: Files, p: Path, t: Files)
    ensures Touches(f, Graft(f, p, t), p)
  {
  }

  lemma WithoutTouches(f: Files, p: Path)
    ensures Touches(f, Without(f, p), p) && !Exists(Without(f, p), p)
  {
  }

  lemma TouchesThen(f: Files, g: Files, h: Files, p: Path, d: Path)
    requires Touches(f, g, p) && Touches(g, h, d) && Within(p, d)
    ensures Touches(f, h, p)
  {
    TouchesBelow(g, h, p, d);
  }

  lemma AddsAbove(f: Files, g: Files, p: Path, d: Path)
    requires AddsDirectories(f, g, p) && Within(p, d) && p != d
    ensures Touches(f, g, d)
    ensures TreeAt(f, d) == TreeAt(g, d)
  {
    assert forall q :: Within(q, p) ==> !Within(d, q);
    forall r
      ensures d + r in f <==> d + r in g
    {
      assert Within(d, d + r);
    }
  }

  lemma TouchesApart(f: Files, g: Files, d: Path, p: Path)
    requires Touches(f, g, d) && Apart(p, d)
    ensures TreeAt(f, p) == TreeAt(g, p)
    ensures Exists(f, p) == Exists(g, p)
  {
    assert forall q :: Within(p, q) ==> !(Within(d, q)) && !(Within(q, d)) by {
      forall q | Within(p, q) ensures !(Within(d, q)) && !(Within(q, d)) {
        ApartBelow(p, d, q);
      }
    }
    assert forall q :: Within(p, q) ==> (q in f <==> q in g);
    assert forall r :: Within(p, p + r);
  }

  lemma ApartBelow(p: Path, d: Path, q: Path)
    requires Apart(p, d) && Within(p, q)
    ensures Apart(q, d)
  {
  }

  lemma EmptyTree(f: Files, p: Path)
    ensures Exists(f, p) <==> TreeAt(f, p) != map[]
  {
    if Exists(f, p) {
      var q :| q in f && Within(p, q);
      assert q == p + q[|p|..];
      assert q[|p|..] in TreeAt(f, p);
    }
    if TreeAt(f, p) != map[] {
      var r :| r in TreeAt(f, p);
      assert Within(p, p + r);
    }
  }

  lemma Diverge(p: Path, q: Path, k: nat)
    requires k < |p| && k < |q| && p[k] != q[k]
    ensures Apart(p, q)
  {
  }

  /** Trees at every path apart from `a` and `b` are the same on both disks. */
  ghost predicate KeepsApart(f: Files, g: Files, a: Path, b: Path) {
    forall p :: Apart(p, a) && Apart(p, b) ==> TreeAt(f, p) == TreeAt(g, p)
  }

  lemma TouchesKeeps(f: Files, g: Files, a: Path, b: Path)
    requires Touches(f, g, a)
    ensures KeepsApart(f, g, a, b) && KeepsApart(f, g, b, a)
  {
    forall p | Apart(p, a)
      ensures TreeAt(f, p) == TreeAt(g, p)
    {
      TouchesApart(f, g, a, p);
    }
  }

  lemma TreeOfTree(f: Files, p: Path, d: Path)
    ensures TreeAt(TreeAt(f, p), d) == TreeAt(f, p + d)
  {
    var inner, direct := TreeAt(TreeAt(f, p), d), TreeAt(f, p + d);
    forall r
      ensures r in inner <==> r in direct
      ensures r in inner ==> inner[r] == direct[r]
    {
      TreeOfTreeAt(f, p, d, r);
    }
  }

  lemma TreeOfTreeAt(f: Files, p: Path, d: Path, r: Path)
    ensures r in TreeAt(TreeAt(f, p), d) <==> r in TreeAt(f, p + d)
    ensures r in TreeAt(TreeAt(f, p), d) ==> TreeAt(TreeAt(f, p), d)[r] == TreeAt(f, p + d)[r]
  {
    var t, whole := TreeAt(f, p), p + d;
    assert p + (d + r) == whole + r;
    assert r in TreeAt(t, d) <==> d + r in t;
    assert d + r in t <==> p + (d + r) in f;
    assert r in TreeAt(f, whole) <==> whole + r in f;
  }

  /** A tree determines the trees inside it. */
  lemma SameInside(f: Files, g: Files, p: Path, q: Path)
    requires TreeAt(f, p) == TreeAt(g, p) && Within(p, q)
    ensures TreeAt(f, q) == TreeAt(g, q)
    ensures Exists(f, q) == Exists(g, q)
    ensures q in f <==> q in g
    ensures q in f ==> f[q] == g[q]
  {
    var d := q[|p|..];
    assert q == p + d;
    TreeOfTree(f, p, d);
    TreeOfTree(g, p, d);
    SameTree(f, g, q);
  }

  lemma SameTree(f: Files, g: Files, q: Path)
    requires TreeAt(f, q) == TreeAt(g, q)
    ensures Exists(f, q) == Exists(g, q)
    ensures q in f <==> q in g
    ensures q in f ==> f[q] == g[q]
  {
    EmptyTree(f, q);
    EmptyTree(g, q);
    assert q + [] == q;
    assert [] in TreeAt(f, q) <==> q in f;
    assert [] in TreeAt(g, q) <==> q in g;
  }

  /** The directories that are missing among the first `n` on the way to `p`, from the top. */
  function Missing(f: Files, p: Path, n: nat): (m: Files)
    requires n <= |p| + 1
    ensures forall k :: 0 <= k < n ==> p[..k] in f || (p[..k] in m && m[p[..k]] == Directory)
    ensures forall q :: q in m ==> q !in f && Within(q, p) && m[q] == Directory
    ensures n == |p| + 1 && p !in f ==> p in m
  {
    var m := map k | 0 <= k < n && p[..k] !in f :: p[..k] := Directory;
    assert p[..|p|] == p;
    m
  }

  // ----- the file manager

  class Disk {
    var files: Files
    var faults: Faults

    constructor (initial: Files)
      ensures files == initial && faults == Faults(0, 0, 0)
    {
      files := initial;
      faults := Faults(0, 0, 0);
    }

    method CreateDirectory(p: Path, intermediates: bool) returns (r: Outcome)
      modifies this
      ensures Explained(old(faults), faults, r)
      ensures Fair(old(faults), faults, CanCreateDirectory(old(files), p, intermediates), r)
      ensures r.Done? ==> CanCreateDirectory(old(files), p, intermediates)
      ensures AddsDirectories(old(files), files, p)
      ensures r.Done? ==> p in files && files[p] == Directory
      ensures r.Done? && intermediates ==> forall k :: 0 <= k <= |p| ==> p[..k] in files
      ensures !intermediates && r.Done? ==> !Exists(old(files), p) && files == old(files)[p := Directory]
      ensures !intermediates && r.Failed? ==> files == old(files)
      ensures !intermediates && Exists(old(files), p) ==> files == old(files)
    {
      r := *;
      var possible := if intermediates then forall q :: q in files && Within(q, p) ==> files[q] == Directory
                      else p != [] && IsDirectory(files, Parent(p)) && !Exists(files, p);
      if !possible {
        r := if r.Done? then Failed else r;
      } else if intermediates {
        var levels :| 0 <= levels <= |p| + 1;
        files := files + Missing(files, p, if r.Done? then |p| + 1 else levels);
      } else {
        var took: bool := *;
        if r.Done? || (r.Crashed? && took) {
          files := files[p := Directory];
        }
      }
      faults := Count(faults, possible, r);
    }

    /** `clonefile`, after the parent directory is made; a tree is cloned entry by entry. */
    method Clone(src: Path, dst: Path) returns (r: Outcome)
      requires dst != []
      modifies this
      ensures Explained(old(faults), faults, r)
      ensures Fair(old(faults), faults, CanClone(old(files), src, dst), r)
      ensures Touches(old(files), files, dst)
      ensures r.Done? ==> CanClone(old(files), src, dst)
      ensures r.Done? ==> TreeAt(files, dst) == TreeAt(old(files), src)
    {
      var before := files;
      r := CreateDirectory(Parent(dst), true);
      assert Touches(before, files, dst);
      if !r.Done? {
        return;
      }
      var possible := !Within(src, dst) && Exists(files, src) && !Exists(files, dst);
      DirectoriesAbove(before, files, src, dst);
      if !possible {
        r := Failed;
        faults := Count(faults, possible, r);
        return;
      }
      r := CopyTree(src, dst);
    }

    /** The copying itself, which may stop half way. */
    method CopyTree(src: Path, dst: Path) returns (r: Outcome)
      modifies this
      ensures Explained(old(faults), faults, r)
      ensures Fair(old(faults), faults, true, r)
      ensures Touches(old(files), files, dst)
      ensures r.Done? ==> TreeAt(files, dst) == TreeAt(old(files), src)
    {
      var whole := TreeAt(files, src);
      var copied: set<Path> := *;
      var part := map q | q in whole && q in copied :: whole[q];
      r := *;
      files := Graft(files, dst, if r.Done? then whole else part);
      faults := Count(faults, true, r);
    }

    /** Removal goes entry by entry and may stop at any of them. */
    method RemoveItem(p: Path) returns (r: Outcome)
      modifies this
      ensures Explained(old(faults), faults, r)
      ensures Fair(old(faults), faults, Exists(old(files), p), r)
      ensures RemoveRuns(old(files), files, p, r)
    {
      if !Exists(files, p) {
        faults := Count(faults, false, Failed);
        return Failed;
      }
      var spared: set<Path> := *;
      var left := map q | q in files && (q in spared || !Within(p, q)) :: files[q];
      r := *;
      files := if r.Done? then Without(files, p) else left;
      faults := Count(faults, true, r);
    }

    /** `renamex_np` with `RENAME_SWAP`: both trees change places in one step. */
    method Swap(a: Path, b: Path) returns (r: Outcome)
      requires Apart(a, b)
      modifies this
      ensures Explained(old(faults), faults, r)
      ensures Fair(old(faults), faults, Exists(old(files), a) && Exists(old(files), b), r)
      ensures r.Done? ==> Exists(old(files), a) && Exists(old(files), b)
      ensures r.Failed? ==> files == old(files)
      ensures r.Done? ==> files == Graft(Graft(old(files), a, TreeAt(old(files), b)), b, TreeAt(old(files), a))
      ensures r.Crashed? ==>
                || files == old(files)
                || files == Graft(Graft(old(files), a, TreeAt(old(files), b)), b, TreeAt(old(files), a))
    {
      r := *;
      var possible := Exists(files, a) && Exists(files, b);
      if r.Done? && !possible {
        r := Failed;
      }
      faults := Count(faults, possible, r);
      var took: bool := *;
      if r.Done? || (r.Crashed? && took) {
        files := Graft(Graft(files, a, TreeAt(files, b)), b, TreeAt(files, a));
      }
    }

    /** `replaceItemAt`: the item at `src` takes the place of the one at `dst` in one step.  If there is none, it may
        fail or succeed. */
    method Replace(dst: Path, src: Path) returns (r: Outcome)
      requires Apart(dst, src)
      modifies this
      ensures Explained(old(faults), faults, r)
      ensures Fair(old(faults), faults, Exists(old(files), src) && Exists(old(files), dst), r)
      ensures r.Done? ==> Exists(old(files), src)
      ensures r.Failed? ==> files == old(files)
      ensures r.Done? ==> files == Without(Graft(old(files), dst, TreeAt(old(files), src)), src)
      ensures r.Crashed? ==>
                || files == old(files)
                || files == Without(Graft(old(files), dst, TreeAt(old(files), src)), src)
    {
      r := *;
      var there := Exists(files, src);
      if r.Done? && !there {
        r := Failed;
      }
      faults := Count(faults, there && Exists(files, dst), r);
      var took: bool := *;
      if r.Done? || (r.Crashed? && took) {
        files := Without(Graft(files, dst, TreeAt(files, src)), src);
      }
    }

    /** A file gets its content in one step, or not at all. */
    method Put(p: Path, content: Content, possible: bool) returns (r: Outcome)
      modifies this
      ensures Explained(old(faults), faults, r)
      ensures Fair(old(faults), faults, possible, r)
      ensures r.Done? ==> possible
      ensures PutRuns(old(files), files, p, content, r)
    {
      r := *;
      if r.Done? && !possible {
        r := Failed;
      }
      faults := Count(faults, possible, r);
      var took: bool := *;
      if r.Done? || (r.Crashed? && possible && took) {
        files := files[p := File(content)];
      }
    }

    /** A write with the `.atomic` option. */
    method WriteAtomic(p: Path, content: Content) returns (r: Outcome)
      modifies this
      ensures Explained(old(faults), faults, r)
      ensures Fair(old(faults), faults, CanWrite(old(files), p), r)
      ensures r.Done? ==> CanWrite(old(files), p)
      ensures PutRuns(old(files), files, p, content, r)
    {
      r := Put(p, content, CanWrite(files, p));
    }

    /** `createFile` with no contents. */
    method CreateFile(p: Path) returns (r: Outcome)
      modifies this
      ensures Explained(old(faults), faults, r)
      ensures Fair(old(faults), faults, CanWrite(old(files), p), r)
      ensures r.Done? ==> CanWrite(old(files), p)
      ensures PutRuns(old(files), files, p, Bytes([]), r)
    {
      r := WriteAtomic(p, Bytes([]));
    }

    /** Open a file for writing and set its size. */
    method Truncate(p: Path, size: nat) returns (r: Outcome)
      modifies this
      ensures Explained(old(faults), faults, r)
      ensures Fair(old(faults), faults, IsImage(old(files), p), r)
      ensures !IsImage(old(files), p) ==> !r.Done? && files == old(files)
      ensures IsImage(old(files), p) ==>
                PutRuns(old(files), files, p, Bytes(Resized(old(files)[p].content.data, size)), r)
    {
      if !IsImage(files, p) {
        faults := Count(faults, false, Failed);
        return Failed;
      }
      r := Put(p, Bytes(Resized(files[p].content.data, size)), true);
    }
  }

  /** What a removal can do, with each outcome. */
  ghost predicate RemoveRuns(f: Files, g: Files, p: Path, r: Outcome) {
    && Shrinks(f, g, p)
    && (r.Done? ==> Exists(f, p) && g == Without(f, p))
    && (!Exists(f, p) ==> r.Failed? && g == f)
  }

  /** What a write can do, with each outcome. */
  ghost predicate PutRuns(f: Files, g: Files, p: Path, content: Content, r: Outcome) {
    match r
    case Done => g == f[p := File(content)]
    case Failed => g == f
    case Crashed => g == f || g == f[p := File(content)]
  }

  lemma DirectoriesAbove(f: Files, g: Files, src: Path, dst: Path)
    requires dst != [] && AddsDirectories(f, g, Parent(dst))
    ensures !Within(src, dst) ==> TreeAt(g, src) == TreeAt(f, src) && Exists(g, src) == Exists(f, src)
    ensures Exists(g, dst) == Exists(f, dst)
  {
    if !Within(src, dst) {
      assert forall q :: Within(src, q) ==> !Within(q, Parent(dst));
      assert forall r :: Within(src, src + r);
      SameTree(f, g, src);
    }
    AddsAbove(f, g, Parent(dst), dst);
    SameTree(f, g, dst);
  }
}
