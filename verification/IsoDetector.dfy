/** Searching a file for boot-loader names, chunk by chunk. */
module IsoDetector {
  import opened Wrappers
  import opened Utf8

  datatype Architecture = Arm64 | X86

  datatype Detection = Found(architecture: Architecture) | Ambiguous | Unknown

  /** One `read(upToCount:)`: some bytes, none at the end of the file, or a thrown error. */
  datatype Read = Chunk(data: Bytes) | Broken

  datatype ReadError = ReadFailed

  const ARM64_MARKER: Bytes := [66, 79, 79, 84, 65, 65, 54, 52, 46, 69, 70, 73] // BOOTAA64.EFI
  const X86_MARKER: Bytes := [66, 79, 79, 84, 88, 54, 52, 46, 69, 70, 73] // BOOTX64.EFI
  const OVERLAP := 11

  /** `range(of:)` finds the marker. */
  predicate Contains(data: Bytes, marker: Bytes) {
    exists i :: 0 <= i <= |data| - |marker| && IsAt(data, marker, i)
  }

  predicate IsAt(data: Bytes, marker: Bytes, i: int)
    requires 0 <= i <= |data| - |marker|
  {
    data[i..i + |marker|] == marker
  }

  lemma ContainsExactly(data: Bytes, marker: Bytes)
    ensures Contains(data, marker) <==> exists before, after :: data == before + marker + after
  {
    if Contains(data, marker) {
      var i :| 0 <= i <= |data| - |marker| && IsAt(data, marker, i);
      assert data == data[..i] + marker + data[i + |marker|..];
    }
    if before, after :| data == before + marker + after {
      assert IsAt(data, marker, |before|);
    }
  }

  function Suffix(data: Bytes, n: nat): Bytes {
    if |data| <= n then data else data[|data| - n..]
  }

  /** What a search of the whole data finds. */
  function Classify(data: Bytes): Detection {
    match (Contains(data, ARM64_MARKER), Contains(data, X86_MARKER))
    case (true, true) => Ambiguous
    case (true, false) => Found(Arm64)
    case (false, true) => Found(X86)
    case (false, false) => Unknown
  }

  /** The bytes of a text of ASCII characters */
  function Ascii(text: string): Bytes
    requires forall i :: 0 <= i < |text| ==> text[i] < 128 as char
  {
    seq(|text|, i requires 0 <= i < |text| => text[i] as int as byte)
  }

  /** The architecture is the one whose boot loader is named. */
  lemma ClassifyExactly(data: Bytes)
    ensures Classify(data) == Found(Arm64) <==> Contains(data, Ascii("BOOTAA64.EFI")) && !Contains(data, Ascii("BOOTX64.EFI"))
    ensures Classify(data) == Found(X86) <==> !Contains(data, Ascii("BOOTAA64.EFI")) && Contains(data, Ascii("BOOTX64.EFI"))
    ensures Classify(data) == Ambiguous <==> Contains(data, Ascii("BOOTAA64.EFI")) && Contains(data, Ascii("BOOTX64.EFI"))
    ensures Classify(data) == Unknown <==> !Contains(data, Ascii("BOOTAA64.EFI")) && !Contains(data, Ascii("BOOTX64.EFI"))
  {
    assert Ascii("BOOTAA64.EFI") == ARM64_MARKER;
    assert Ascii("BOOTX64.EFI") == X86_MARKER;
  }

  predicate IsData(read: Read) {
    read.Chunk? && read.data != []
  }

  /** The bytes of the first `n` reads, which all deliver some. */
  function Joined(results: seq<Read>, n: nat): Bytes
    requires n <= |results| && forall i :: 0 <= i < n ==> IsData(results[i])
  {
    if n == 0 then [] else assert IsData(results[n - 1]); Joined(results, n - 1) + results[n - 1].data
  }

  /** How many reads deliver bytes before the file ends or a read fails. */
  function Delivering(results: seq<Read>, from: nat): (n: nat)
    requires from <= |results|
    ensures from <= n <= |results|
    ensures forall i :: from <= i < n ==> IsData(results[i])
    ensures n < |results| ==> !IsData(results[n])
    decreases |results| - from
  {
    if from == |results| || !IsData(results[from]) then from else Delivering(results, from + 1)
  }

  lemma ContainsGrows(data: Bytes, more: Bytes, marker: Bytes)
    requires Contains(data, marker)
    ensures Contains(data + more, marker)
  {
    var i :| 0 <= i <= |data| - |marker| && IsAt(data, marker, i);
    AtSamePlace(data, more, marker, i);
  }

  lemma AtSamePlace(data: Bytes, more: Bytes, marker: Bytes, i: nat)
    requires i <= |data| - |marker|
    ensures IsAt(data + more, marker, i) <==> IsAt(data, marker, i)
  {
    assert (data + more)[i..i + |marker|] == data[i..i + |marker|];
  }

  lemma AtLaterPlace(before: Bytes, data: Bytes, marker: Bytes, i: nat)
    requires i <= |data| - |marker|
    ensures IsAt(before + data, marker, |before| + i) <==> IsAt(data, marker, i)
  {
    assert (before + data)[|before| + i..|before| + i + |marker|] == data[i..i + |marker|];
  }

  /** A marker that is in the data and more is in the data, or in the end of the data and more. */
  lemma ContainsAcross(data: Bytes, more: Bytes, marker: Bytes, n: nat)
    requires |marker| <= n + 1
    ensures Contains(data + more, marker) <==> Contains(data, marker) || Contains(Suffix(data, n) + more, marker)
  {
    var all, tail := data + more, Suffix(data, n) + more;
    var cut := |data| - |Suffix(data, n)|;
    assert all == data[..cut] + tail;
    if Contains(all, marker) {
      var i :| 0 <= i <= |all| - |marker| && IsAt(all, marker, i);
      if i >= cut {
        AtLaterPlace(data[..cut], tail, marker, i - cut);
      } else {
        AtSamePlace(data, more, marker, i);
      }
    }
    if Contains(data, marker) {
      ContainsGrows(data, more, marker);
    }
    if Contains(tail, marker) {
      var i :| 0 <= i <= |tail| - |marker| && IsAt(tail, marker, i);
      AtLaterPlace(data[..cut], tail, marker, i);
    }
  }

  lemma SuffixAcross(data: Bytes, more: Bytes, n: nat)
    ensures Suffix(Suffix(data, n) + more, n) == Suffix(data + more, n)
  {
  }

  lemma JoinedGrows(results: seq<Read>, m: nat, n: nat, marker: Bytes)
    requires m <= n <= |results| && forall i :: 0 <= i < n ==> IsData(results[i])
    requires Contains(Joined(results, m), marker)
    ensures Contains(Joined(results, n), marker)
  {
    if m < n {
      assert IsData(results[n - 1]);
      JoinedGrows(results, m, n - 1, marker);
      ContainsGrows(Joined(results, n - 1), results[n - 1].data, marker);
    }
  }

  /**
   `detect`: the result is that of a search of everything the reads deliver, however the file is divided.
   A failing read is thrown, unless both markers have been found before it.
   */
  method Detect(results: seq<Read>) returns (r: Result<Detection, ReadError>)
    ensures var n := Delivering(results, 0);
            r == if n < |results| && results[n].Broken? && Classify(Joined(results, n)) != Ambiguous then Err(ReadFailed)
                 else Ok(Classify(Joined(results, n)))
    ensures (forall i :: 0 <= i < |results| ==> IsData(results[i])) ==> r == Ok(Classify(Joined(results, |results|)))
  {
    ghost var n := Delivering(results, 0);
    var overlap: Bytes := [];
    var foundARM64, foundX86 := false, false;
    var i := 0;
    while i < |results| && IsData(results[i])
      invariant i <= n
      invariant !(foundARM64 && foundX86)
      invariant overlap == Suffix(Joined(results, i), OVERLAP)
      invariant foundARM64 == Contains(Joined(results, i), ARM64_MARKER)
      invariant foundX86 == Contains(Joined(results, i), X86_MARKER)
      decreases |results| - i
    {
      var searchable := overlap + results[i].data;
      ContainsAcross(Joined(results, i), results[i].data, ARM64_MARKER, OVERLAP);
      ContainsAcross(Joined(results, i), results[i].data, X86_MARKER, OVERLAP);
      SuffixAcross(Joined(results, i), results[i].data, OVERLAP);
      foundARM64 := foundARM64 || Contains(searchable, ARM64_MARKER);
      foundX86 := foundX86 || Contains(searchable, X86_MARKER);
      if foundARM64 && foundX86 {
        JoinedGrows(results, i + 1, n, ARM64_MARKER);
        JoinedGrows(results, i + 1, n, X86_MARKER);
        return Ok(Ambiguous);
      }
      overlap := Suffix(searchable, OVERLAP);
      i := i + 1;
    }
    if i < |results| && results[i].Broken? {
      return Err(ReadFailed);
    }
    return Ok(if foundARM64 && foundX86 then Ambiguous
              else if foundARM64 then Found(Arm64)
              else if foundX86 then Found(X86)
              else Unknown);
  }
}
