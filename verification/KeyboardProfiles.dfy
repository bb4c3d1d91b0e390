/** Naming a new keyboard profile. */
module KeyboardProfiles {

  datatype CustomKeyboardProfile = CustomKeyboardProfile(id: nat, name: string, baseProfile: nat, rules: string)

  // ----- numbers in names

  function Digit(d: nat): char
    requires d < 10
  {
    "0123456789"[d]
  }

  function Decimal(n: nat): string {
    if n < 10 then [Digit(n)] else Decimal(n / 10) + [Digit(n % 10)]
  }

  function DigitValue(c: char): nat {
    if '0' <= c <= '9' then (c - '0') as nat else 0
  }

  function Value(s: string): nat {
    if s == "" then 0 else 10 * Value(s[..|s| - 1]) + DigitValue(s[|s| - 1])
  }

  lemma ValueOfOneMore(s: string, d: nat)
    requires d < 10
    ensures Value(s + [Digit(d)]) == 10 * Value(s) + d
  {
    assert (s + [Digit(d)])[..|s|] == s;
  }

  lemma {:induction false} DecimalReadsBack(n: nat)
    ensures Value(Decimal(n)) == n
  {
    if n < 10 {
      ValueOfOneMore("", n);
      assert "" + [Digit(n)] == [Digit(n)];
    } else {
      DecimalReadsBack(n / 10);
      ValueOfOneMore(Decimal(n / 10), n % 10);
    }
  }

  /** It has digits only, and no zero in front. */
  lemma {:induction false} DecimalIsPlain(n: nat)
    ensures forall i :: 0 <= i < |Decimal(n)| ==> '0' <= Decimal(n)[i] <= '9'
    ensures Decimal(n) != "" && (n > 0 ==> Decimal(n)[0] != '0')
  {
    if n >= 10 {
      DecimalIsPlain(n / 10);
    }
  }

  function Numbered(proposed: string, suffix: nat): string {
    proposed + " " + Decimal(suffix)
  }

  /** A numbered name is the proposed one, a blank and the number. */
  lemma NumberedExactly(proposed: string, name: string, k: nat)
    ensures name == Numbered(proposed, k) <==>
              exists digits :: name == proposed + " " + digits && IsDecimal(digits, k)
  {
    DecimalReadsBack(k);
    DecimalIsPlain(k);
    assert IsDecimal(Decimal(k), k);
    forall digits | IsDecimal(digits, k)
      ensures digits == Decimal(k)
    {
      OneDecimal(digits, k);
    }
  }

  /** Digits without a zero in front that spell the number */
  predicate IsDecimal(digits: string, n: nat) {
    && digits != "" && Value(digits) == n
    && (forall i :: 0 <= i < |digits| ==> '0' <= digits[i] <= '9')
    && (|digits| > 1 ==> digits[0] != '0')
  }

  lemma {:induction false} OneDecimal(digits: string, n: nat)
    requires IsDecimal(digits, n)
    ensures digits == Decimal(n)
  {
    var k := |digits| - 1;
    var before, d := digits[..k], digits[k];
    assert digits == before + [d];
    assert Digit(DigitValue(d)) == d;
    if before == "" {
      assert n == DigitValue(d);
    } else {
      PositiveValue(before);
      OneDecimal(before, n / 10);
    }
  }

  lemma {:induction false} PositiveValue(s: string)
    requires s != "" && s[0] != '0' && forall i :: 0 <= i < |s| ==> '0' <= s[i] <= '9'
    ensures Value(s) > 0
  {
    if |s| > 1 {
      PositiveValue(s[..|s| - 1]);
    } else {
      assert s[..0] == "";
    }
  }

  lemma NumberedIsInjective(proposed: string, j: nat, k: nat)
    requires Numbered(proposed, j) == Numbered(proposed, k)
    ensures j == k
  {
    assert Numbered(proposed, j)[|proposed| + 1..] == Decimal(j);
    assert Numbered(proposed, k)[|proposed| + 1..] == Decimal(k);
    DecimalReadsBack(j);
    DecimalReadsBack(k);
  }

  // ----- pigeonholes

  /** The names tried before `suffix`. */
  function Tried(proposed: string, suffix: nat): set<string> {
    if suffix <= 2 then {proposed} else Tried(proposed, suffix - 1) + {Numbered(proposed, suffix - 1)}
  }

  function Names(profiles: seq<CustomKeyboardProfile>): set<string> {
    if profiles == [] then {} else Names(profiles[..|profiles| - 1]) + {profiles[|profiles| - 1].name}
  }

  lemma {:induction false} TriedExactly(proposed: string, suffix: nat, name: string)
    ensures name in Tried(proposed, suffix) <==>
              name == proposed || exists k :: 2 <= k < suffix && name == Numbered(proposed, k)
  {
    if suffix > 2 {
      TriedExactly(proposed, suffix - 1, name);
    }
  }

  lemma {:induction false} AllTriesDiffer(proposed: string, suffix: nat)
    requires suffix >= 2
    ensures |Tried(proposed, suffix)| == suffix - 1
  {
    if suffix > 2 {
      AllTriesDiffer(proposed, suffix - 1);
      var name := Numbered(proposed, suffix - 1);
      TriedExactly(proposed, suffix - 1, name);
      if k :| 2 <= k < suffix - 1 && name == Numbered(proposed, k) {
        NumberedIsInjective(proposed, suffix - 1, k);
        assert false;
      }
      assert |name| > |proposed|;
    }
  }

  lemma {:induction false} NamesExactly(profiles: seq<CustomKeyboardProfile>)
    ensures |Names(profiles)| <= |profiles|
    ensures forall name :: name in Names(profiles) <==> Used(profiles, name)
  {
    if profiles != [] {
      var n := |profiles| - 1;
      NamesExactly(profiles[..n]);
      assert profiles == profiles[..n] + [profiles[n]];
      forall name
        ensures Used(profiles, name) <==> Used(profiles[..n], name) || name == profiles[n].name
      {
        UsedByOneMore(profiles[..n], profiles[n], name);
      }
    }
  }

  lemma UsedByOneMore(profiles: seq<CustomKeyboardProfile>, p: CustomKeyboardProfile, name: string)
    ensures Used(profiles + [p], name) <==> Used(profiles, name) || name == p.name
  {
    var more := profiles + [p];
    if Used(profiles, name) {
      var i :| 0 <= i < |profiles| && profiles[i].name == name;
      assert more[i].name == name;
    }
    if name == p.name {
      assert more[|profiles|].name == name;
    }
  }

  lemma SubsetIsSmaller(a: set<string>, b: set<string>)
    requires a <= b
    ensures |a| <= |b|
  {
    assert b == a + (b - a);
  }

  /** When every name tried so far is used, there are at least that many profiles. */
  lemma SuffixIsBounded(profiles: seq<CustomKeyboardProfile>, proposed: string, suffix: nat)
    requires suffix >= 2 && Used(profiles, proposed)
    requires forall k :: 2 <= k < suffix ==> Used(profiles, Numbered(proposed, k))
    ensures suffix <= |profiles| + 1
  {
    NamesExactly(profiles);
    AllTriesDiffer(proposed, suffix);
    forall name | name in Tried(proposed, suffix)
      ensures name in Names(profiles)
    {
      TriedExactly(proposed, suffix, name);
    }
    SubsetIsSmaller(Tried(proposed, suffix), Names(profiles));
  }

  // ----- the store

  predicate Used(profiles: seq<CustomKeyboardProfile>, name: string) {
    exists i :: 0 <= i < |profiles| && profiles[i].name == name
  }

  class KeyboardProfileStore {
    var profiles: seq<CustomKeyboardProfile>

    constructor (profiles: seq<CustomKeyboardProfile>)
      ensures this.profiles == profiles
    {
      this.profiles := profiles;
    }

    /** `uniqueName`: ends for every list of profiles, with the first name that none of them uses. */
    method UniqueName(proposed: string) returns (name: string)
      ensures !Used(profiles, name)
      ensures !Used(profiles, proposed) ==> name == proposed
      ensures Used(profiles, proposed) ==>
                exists suffix :: 2 <= suffix <= |profiles| + 1 && name == Numbered(proposed, suffix)
                                 && forall k :: 2 <= k < suffix ==> Used(profiles, Numbered(proposed, k))
    {
      if !Used(profiles, proposed) {
        return proposed;
      }
      var suffix := 2;
      SuffixIsBounded(profiles, proposed, suffix);
      while Used(profiles, Numbered(proposed, suffix))
        invariant 2 <= suffix <= |profiles| + 1
        invariant forall k :: 2 <= k < suffix ==> Used(profiles, Numbered(proposed, k))
        decreases |profiles| + 1 - suffix
      {
        suffix := suffix + 1;
        SuffixIsBounded(profiles, proposed, suffix);
      }
      return Numbered(proposed, suffix);
    }
  }
}
