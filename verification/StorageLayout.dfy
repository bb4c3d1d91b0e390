/**
 Relative paths as the library stores them, and back.

 A file URL is the list of its path components after the leading slash.
 */
module StorageLayout {
  import opened Wrappers
  import opened Texts

  type Component = s: string | s != "" && '/' !in s witness "x"

  type Url = seq<Component>

  datatype StorageLayoutError = OutsideManagedStorage | InvalidRelativePath

  // ----- strings

  predicate IsSlash(c: char) {
    c == '/'
  }

  /** `split(separator: "/")`, which leaves empty parts out */
  function Split(s: string): (parts: seq<Component>)
  {
    var parts := Parts(s, IsSlash);
    PartsAreParts(s, "", IsSlash);
    assert forall i :: 0 <= i < |parts| ==> IsPart(parts[i], IsSlash);
    assert forall part :: part in parts ==> '/' !in part && part != "";
    parts
  }

  /** `joined(separator: "/")` */
  function Join(parts: seq<Component>): string {
    Joined(parts, "/")
  }

  lemma SplitJoin(parts: seq<Component>)
    ensures Split(Join(parts)) == parts
  {
    forall i | 0 <= i < |parts|
      ensures IsPart(parts[i], IsSlash)
    {
      assert forall j :: 0 <= j < |parts[i]| ==> parts[i][j] in parts[i];
    }
    PartsOfJoined(parts, "/", IsSlash);
  }

  lemma JoinHasNoLeadingSlash(parts: seq<Component>)
    ensures Join(parts) == "" || Join(parts)[0] != '/'
  {
    if parts != [] {
      assert parts[0][0] in parts[0];
    }
  }

  // ----- URLs

  /** `standardizedFileURL`: no `.`, and each `..` takes its parent away. */
  function Standardized(url: Url): Url {
    if url == [] then []
    else
      var before, last := Standardized(url[..|url| - 1]), url[|url| - 1];
      if last == "." then before
      else if last == ".." then (if before == [] then [] else before[..|before| - 1])
      else before + [last]
  }

  /** A dot changes nothing, two dots take back the name before them, and above the top there is nothing. */
  lemma DotsGo(url: Url, name: Component)
    requires name != "." && name != ".."
    ensures Standardized(url + ["."]) == Standardized(url)
    ensures Standardized(url + [name]) == Standardized(url) + [name]
    ensures Standardized(url + [name, ".."]) == Standardized(url)
    ensures Standardized([".."]) == [] && Standardized([]) == []
  {
    assert (url + ["."])[..|url|] == url && (url + [name])[..|url|] == url;
    assert (url + [name, ".."])[..|url| + 1] == url + [name];
    assert [".."][..0] == [];
  }

  predicate Plain(url: Url) {
    forall i :: 0 <= i < |url| ==> url[i] != "." && url[i] != ".."
  }

  lemma {:induction false} StandardizedIsPlain(url: Url)
    ensures Plain(Standardized(url))
  {
    if url != [] {
      StandardizedIsPlain(url[..|url| - 1]);
    }
  }

  /** Without `..`, what is appended stays behind what it is appended to. */
  lemma {:induction false} StandardizedAppends(url: Url, parts: Url)
    requires ".." !in parts
    ensures Standardized(url + parts) == Standardized(url) + Standardized(parts)
  {
    if parts == [] {
      assert url + parts == url;
    } else {
      var n := |parts| - 1;
      assert parts[n] in parts;
      assert (url + parts)[..|url + parts| - 1] == url + parts[..n];
      StandardizedAppends(url, parts[..n]);
    }
  }

  lemma {:induction false} PlainStays(url: Url)
    requires Plain(url)
    ensures Standardized(url) == url
  {
    if url != [] {
      PlainStays(url[..|url| - 1]);
      assert url == url[..|url| - 1] + [url[|url| - 1]];
    }
  }

  // ----- the layout

  function RelativePath(root: Url, url: Url): Result<string, StorageLayoutError> {
    var r, u := Standardized(root), Standardized(url);
    if r <= u then Ok(Join(u[|r|..])) else Err(OutsideManagedStorage)
  }

  function Resolve(root: Url, relative: string): Result<Url, StorageLayoutError> {
    if (relative != "" && relative[0] == '/') || ".." in Split(relative) then Err(InvalidRelativePath)
    else Ok(root + Split(relative))
  }

  /** A relative path that resolves stays under the root, and its own relative path is the tidied one. */
  lemma ResolvedStaysInside(root: Url, relative: string)
    requires Resolve(root, relative).Ok?
    ensures Standardized(root) <= Standardized(Resolve(root, relative).value)
    ensures RelativePath(root, Resolve(root, relative).value) == Ok(Join(Standardized(Split(relative))))
  {
    StandardizedAppends(root, Split(relative));
  }

  /** Joined components without `..` resolve, behind the root. */
  lemma JoinedResolves(root: Url, parts: Url)
    ensures Resolve(root, Join(parts)) == if ".." in parts then Err(InvalidRelativePath) else Ok(root + parts)
  {
    SplitJoin(parts);
    JoinHasNoLeadingSlash(parts);
  }

  /** A relative path resolves, to the file it was taken from. */
  lemma RelativePathResolves(root: Url, url: Url)
    requires RelativePath(root, url).Ok?
    ensures Resolve(root, RelativePath(root, url).value).Ok?
    ensures Standardized(Resolve(root, RelativePath(root, url).value).value) == Standardized(url)
  {
    var r, u := Standardized(root), Standardized(url);
    var rest := u[|r|..];
    StandardizedIsPlain(url);
    RestIsPlain(u, |r|);
    JoinedResolves(root, rest);
    StandardizedAppends(root, rest);
    PlainStays(rest);
    assert r + rest == u;
  }

  lemma RestIsPlain(url: Url, n: nat)
    requires Plain(url) && n <= |url|
    ensures Plain(url[n..]) && ".." !in url[n..]
  {
  }

  /** Only files at or below the root have a relative path, and different files have different ones. */
  lemma RelativePathIsInjective(root: Url, a: Url, b: Url)
    requires RelativePath(root, a).Ok? && RelativePath(root, a) == RelativePath(root, b)
    ensures Standardized(root) <= Standardized(a)
    ensures Standardized(a) == Standardized(b)
  {
    RelativePathResolves(root, a);
    RelativePathResolves(root, b);
  }
}
