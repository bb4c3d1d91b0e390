/** Cutting texts into parts, as Swift's `split` and Python's `split` and `partition` do. */
module Texts {
  import opened Wrappers

  type Separator = char -> bool

  predicate IsPart(part: string, separates: Separator) {
    part != "" && forall i :: 0 <= i < |part| ==> !separates(part[i])
  }

  predicate AreParts(parts: seq<string>, separates: Separator) {
    forall i :: 0 <= i < |parts| ==> IsPart(parts[i], separates)
  }

  /** The non-empty parts between separators; `current` has been read already. */
  function PartsFrom(s: string, current: string, separates: Separator): (parts: seq<string>)
    decreases |s|
  {
    var ended := if current == "" then [] else [current];
    if s == "" then ended
    else if separates(s[0]) then ended + PartsFrom(s[1..], "", separates)
    else PartsFrom(s[1..], current + [s[0]], separates)
  }

  function Parts(s: string, separates: Separator): seq<string> {
    PartsFrom(s, "", separates)
  }

  function Joined(parts: seq<string>, glue: string): string {
    if parts == [] then ""
    else if |parts| == 1 then parts[0]
    else parts[0] + glue + Joined(parts[1..], glue)
  }

  lemma {:induction false} PartsAreParts(s: string, current: string, separates: Separator)
    requires current == "" || IsPart(current, separates)
    ensures AreParts(PartsFrom(s, current, separates), separates)
    decreases |s|
  {
    if s != "" {
      if separates(s[0]) {
        PartsAreParts(s[1..], "", separates);
      } else {
        PartsAreParts(s[1..], current + [s[0]], separates);
      }
    }
  }

  lemma {:induction false} PartsReadWord(word: string, rest: string, current: string, separates: Separator)
    requires forall i :: 0 <= i < |word| ==> !separates(word[i])
    ensures PartsFrom(word + rest, current, separates) == PartsFrom(rest, current + word, separates)
    decreases |word|
  {
    if word == "" {
      assert word + rest == rest && current + word == current;
    } else {
      assert (word + rest)[1..] == word[1..] + rest;
      assert current + [word[0]] + word[1..] == current + word;
      PartsReadWord(word[1..], rest, current + [word[0]], separates);
    }
  }

  /** Text between parts that separates them ends a part, and no more. */
  lemma {:induction false} PartsSkipGlue(glue: string, rest: string, separates: Separator)
    requires forall i :: 0 <= i < |glue| ==> separates(glue[i])
    ensures Parts(glue + rest, separates) == Parts(rest, separates)
    decreases |glue|
  {
    if glue == "" {
      assert glue + rest == rest;
    } else {
      assert (glue + rest)[1..] == glue[1..] + rest;
      PartsSkipGlue(glue[1..], rest, separates);
    }
  }

  lemma PartEnds(part: string, glue: string, rest: string, separates: Separator)
    requires IsPart(part, separates) && glue != "" && forall i :: 0 <= i < |glue| ==> separates(glue[i])
    ensures PartsFrom(glue + rest, part, separates) == [part] + Parts(rest, separates)
  {
    assert (glue + rest)[1..] == glue[1..] + rest;
    PartsSkipGlue(glue[1..], rest, separates);
  }

  /** Cutting what was joined gives the parts back. */
  lemma {:induction false} PartsOfJoined(parts: seq<string>, glue: string, separates: Separator)
    requires AreParts(parts, separates)
    requires glue != "" && forall i :: 0 <= i < |glue| ==> separates(glue[i])
    ensures Parts(Joined(parts, glue), separates) == parts
  {
    if parts != [] {
      var part := parts[0];
      assert IsPart(part, separates) && "" + part == part;
      if |parts| == 1 {
        PartsReadWord(part, "", "", separates);
        assert part + "" == part;
      } else {
        var rest := Joined(parts[1..], glue);
        assert Joined(parts, glue) == part + (glue + rest);
        PartsReadWord(part, glue + rest, "", separates);
        PartEnds(part, glue, rest, separates);
        PartsOfJoined(parts[1..], glue, separates);
      }
    }
  }

  /** Separators at the end make no difference. */
  lemma {:induction false} PartsDropEnd(s: string, ending: string, current: string, separates: Separator)
    requires forall i :: 0 <= i < |ending| ==> separates(ending[i])
    ensures PartsFrom(s + ending, current, separates) == PartsFrom(s, current, separates)
    decreases |s|
  {
    if s == "" {
      assert s + ending == ending == ending + "";
      if ending != "" {
        PartsSkipGlue(ending[1..], "", separates);
        assert ending[1..] + "" == ending[1..];
      }
    } else {
      assert (s + ending)[1..] == s[1..] + ending;
      PartsDropEnd(s[1..], ending, if separates(s[0]) then "" else current + [s[0]], separates);
    }
  }

  /** Lower case, for the letters of ASCII. */
  function Lowercased(s: string): string {
    seq(|s|, i requires 0 <= i < |s| => if 'A' <= s[i] <= 'Z' then s[i] + ('a' - 'A') else s[i])
  }

  const UPPER := "ABCDEFGHIJKLMNOPQRSTUVWXYZ"
  const LOWER := "abcdefghijklmnopqrstuvwxyz"

  /** Each capital letter becomes the small one at its place of the alphabet, and all else stays. */
  lemma LowercasedExactly(s: string, k: nat)
    requires k < |s|
    ensures |Lowercased(s)| == |s|
    ensures forall i :: 0 <= i < 26 && s[k] == UPPER[i] ==> Lowercased(s)[k] == LOWER[i]
    ensures s[k] !in UPPER ==> Lowercased(s)[k] == s[k]
  {
    assert forall i :: 0 <= i < 26 ==> UPPER[i] as int == 'A' as int + i && LOWER[i] as int == 'a' as int + i;
    if 'A' <= s[k] <= 'Z' {
      assert UPPER[s[k] as int - 'A' as int] == s[k];
    }
  }

  // ----- marks

  predicate IsAt(s: string, mark: string, i: nat) {
    i + |mark| <= |s| && s[i..i + |mark|] == mark
  }

  lemma IsAtShifted(before: string, s: string, mark: string, i: nat)
    ensures IsAt(before + s, mark, |before| + i) <==> IsAt(s, mark, i)
  {
    if i + |mark| <= |s| {
      assert (before + s)[|before| + i..|before| + i + |mark|] == s[i..i + |mark|];
    }
  }

  predicate Mentions(s: string, mark: string) {
    exists i :: 0 <= i <= |s| && IsAt(s, mark, i)
  }

  /** What is before and behind the first mark. */
  function Partition(s: string, mark: string): (r: Option<(string, string)>)
    ensures r.None? <==> !Mentions(s, mark)
    ensures r.Some? ==> s == r.value.0 + mark + r.value.1
    ensures r.Some? ==> forall i :: 0 <= i < |r.value.0| ==> !IsAt(s, mark, i)
  {
    PartitionFrom(s, mark, 0)
  }

  function PartitionFrom(s: string, mark: string, from: nat): (r: Option<(string, string)>)
    requires from <= |s| && forall i :: 0 <= i < from ==> !IsAt(s, mark, i)
    ensures r.None? <==> !Mentions(s, mark)
    ensures r.Some? ==> s == r.value.0 + mark + r.value.1
    ensures r.Some? ==> forall i :: 0 <= i < |r.value.0| ==> !IsAt(s, mark, i)
    decreases |s| - from
  {
    if IsAt(s, mark, from) then Some((s[..from], s[from + |mark|..]))
    else if from == |s| then None
    else PartitionFrom(s, mark, from + 1)
  }

  /** The first mark is where there is none before it. */
  lemma PartitionAt(left: string, mark: string, right: string)
    requires forall i :: 0 <= i < |left| ==> !IsAt(left + mark + right, mark, i)
    ensures Partition(left + mark + right, mark) == Some((left, right))
  {
    var s := left + mark + right;
    assert IsAt(s, mark, |left|);
    var r := Partition(s, mark).value;
    assert IsAt(s, mark, |r.0|) by {
      assert s[|r.0|..|r.0| + |mark|] == mark;
    }
    assert |r.0| == |left|;
    assert r.0 == s[..|left|] == left;
    assert r.1 == s[|left| + |mark|..] == right;
  }
}
