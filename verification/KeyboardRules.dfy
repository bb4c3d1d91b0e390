/** Reading the lines of a custom keyboard profile. */
module KeyboardRules {
  import opened Wrappers
  import opened Texts
  import opened InputRouter

  /** Host chords only have the four keyboard modifiers. */
  type KeyboardFlags = f: Flags | f <= KEYBOARD witness {}

  datatype HostChord = HostChord(keyCode: nat, modifiers: KeyboardFlags)

  /** A line of the rules: nothing or a comment, a rule, or something that cannot be read. */
  datatype Rule = Blank | Maps(host: HostChord, guest: GuestChord) | Unreadable

  /** The chords that key names stand for. */
  type KeyTable = string -> Option<HostChord>

  // ----- texts

  predicate IsWhite(c: char) {
    c == ' ' || c == '\t' || c == '\n' || c == '\r'
  }

  predicate IsPlus(c: char) {
    c == '+'
  }

  function TrimmedLeft(s: string): string {
    if s != "" && IsWhite(s[0]) then TrimmedLeft(s[1..]) else s
  }

  function TrimmedRight(s: string): string {
    if s != "" && IsWhite(s[|s| - 1]) then TrimmedRight(s[..|s| - 1]) else s
  }

  function Trimmed(s: string): string {
    TrimmedRight(TrimmedLeft(s))
  }

  function ModifierNamed(name: string): Option<Modifier> {
    match Lowercased(name)
    case "cmd" => Some(Command)
    case "command" => Some(Command)
    case "super" => Some(Command)
    case "win" => Some(Command)
    case "windows" => Some(Command)
    case "ctrl" => Some(Control)
    case "control" => Some(Control)
    case "alt" => Some(Opt)
    case "option" => Some(Opt)
    case "shift" => Some(Shift)
    case _ => None
  }

  /** These words name modifiers, in any case, and no others do. */
  lemma ModifierWords(name: string)
    ensures ModifierNamed(name) ==
            if Lowercased(name) in {"cmd", "command", "super", "win", "windows"} then Some(Command)
            else if Lowercased(name) in {"ctrl", "control"} then Some(Control)
            else if Lowercased(name) in {"alt", "option"} then Some(Opt)
            else if Lowercased(name) == "shift" then Some(Shift)
            else None
  {
  }

  // ----- shortcuts

  function AllTrimmed(parts: seq<string>): (r: seq<string>)
    ensures |r| == |parts|
  {
    seq(|parts|, i requires 0 <= i < |parts| => Trimmed(parts[i]))
  }

  /** The modifiers that the first `n` names stand for, or nothing if one of them is unknown. */
  function ReadModifiers(names: seq<string>, n: nat): Option<KeyboardFlags>
    requires n <= |names|
  {
    if n == 0 then Some({})
    else
      match (ReadModifiers(names, n - 1), ModifierNamed(names[n - 1]))
      case (Some(flags), Some(m)) => (assert m in KEYBOARD; Some(flags + {m}))
      case _ => None
  }

  /** `parseShortcut` */
  function ReadShortcut(source: string, keys: KeyTable): Option<HostChord> {
    ReadParts(AllTrimmed(Parts(source, IsPlus)), keys)
  }

  function ReadParts(parts: seq<string>, keys: KeyTable): Option<HostChord> {
    if parts == [] || parts[|parts| - 1] == "" then None
    else
      match (ReadModifiers(parts, |parts| - 1), keys(parts[|parts| - 1]))
      case (Some(flags), Some(key)) => Some(HostChord(key.keyCode, flags + key.modifiers))
      case _ => None
  }

  /** One round of the loop of `parse`, up to the dictionary */
  function ReadLine(rawLine: string, keys: KeyTable): Rule {
    var line := Trimmed(rawLine);
    if line == "" || line[0] == '#' then Blank
    else
      match Partition(line, "->")
      case None => Unreadable
      case Some((left, right)) =>
        if Mentions(right, "->") then Unreadable
        else
          match (ReadShortcut(left, keys), ReadShortcut(right, keys))
          case (Some(host), Some(guest)) => Maps(host, GuestChord(guest.keyCode, guest.modifiers))
          case _ => Unreadable
  }

  function ReadLines(lines: seq<string>, keys: KeyTable): (rules: seq<Rule>)
    ensures |rules| == |lines| && forall i :: 0 <= i < |lines| ==> rules[i] == ReadLine(lines[i], keys)
  {
    seq(|lines|, i requires 0 <= i < |lines| => ReadLine(lines[i], keys))
  }

  /** The same lines in another order are the same rules in another order. */
  lemma {:induction false} ReadInAnyOrder(a: seq<string>, b: seq<string>, keys: KeyTable)
    requires multiset(a) == multiset(b)
    ensures multiset(ReadLines(a, keys)) == multiset(ReadLines(b, keys))
    decreases |a|
  {
    if a == [] {
      assert |multiset(b)| == 0;
    } else {
      var n := |a| - 1;
      assert a[n] in multiset(a) && a[n] in multiset(b);
      var j :| 0 <= j < |b| && b[j] == a[n];
      var rest := Without(b, j);
      OneLess(a, n);
      OneLess(b, j);
      assert multiset(Without(a, n)) == multiset(a) - multiset{a[n]} == multiset(b) - multiset{b[j]} == multiset(rest);
      ReadInAnyOrder(Without(a, n), rest, keys);
      ReadWithout(a, n, keys);
      ReadWithout(b, j, keys);
    }
  }

  function Without<T>(s: seq<T>, j: nat): seq<T>
    requires j < |s|
  {
    s[..j] + s[j + 1..]
  }

  lemma OneLess<T>(s: seq<T>, j: nat)
    requires j < |s|
    ensures multiset(s) == multiset(Without(s, j)) + multiset{s[j]}
  {
    assert s == s[..j] + [s[j]] + s[j + 1..];
  }

  lemma ReadWithout(lines: seq<string>, j: nat, keys: KeyTable)
    requires j < |lines|
    ensures multiset(ReadLines(lines, keys)) ==
            multiset(ReadLines(Without(lines, j), keys)) + multiset{ReadLine(lines[j], keys)}
  {
    OneLess(ReadLines(lines, keys), j);
    assert ReadLines(Without(lines, j), keys) == Without(ReadLines(lines, keys), j);
  }

  // ----- shortcuts read back

  /** A name that can stand in a shortcut: not empty, without plus signs and white space. */
  predicate IsWord(name: string) {
    name != "" && forall i :: 0 <= i < |name| ==> !IsPlus(name[i]) && !IsWhite(name[i])
  }

  /** Blanks, tabs and ends of lines */
  predicate IsPadding(s: string) {
    forall i :: 0 <= i < |s| ==> s[i] in {' ', '\t', '\n', '\r'}
  }

  lemma {:induction false} LeftPaddingGoes(before: string, s: string)
    requires IsPadding(before) && (s == "" || s[0] !in {' ', '\t', '\n', '\r'})
    ensures TrimmedLeft(before + s) == s
  {
    if before == "" {
      assert before + s == s;
    } else {
      assert (before + s)[1..] == before[1..] + s;
      LeftPaddingGoes(before[1..], s);
    }
  }

  lemma {:induction false} RightPaddingGoes(s: string, after: string)
    requires IsPadding(after) && (s == "" || s[|s| - 1] !in {' ', '\t', '\n', '\r'})
    ensures TrimmedRight(s + after) == s
  {
    if after == "" {
      assert s + after == s;
    } else {
      assert (s + after)[..|s + after| - 1] == s + after[..|after| - 1];
      RightPaddingGoes(s, after[..|after| - 1]);
    }
  }

  /** Trimming takes away the padding on both sides, and no more. */
  lemma PaddingGoes(before: string, s: string, after: string)
    requires IsPadding(before) && IsPadding(after)
    requires s != "" && s[0] !in {' ', '\t', '\n', '\r'} && s[|s| - 1] !in {' ', '\t', '\n', '\r'}
    ensures Trimmed(before + s + after) == s
  {
    assert before + s + after == before + (s + after);
    LeftPaddingGoes(before, s + after);
    RightPaddingGoes(s, after);
  }

  /** The part is the name, with white space around it. */
  ghost predicate IsPadded(part: string, name: string) {
    exists before, after :: IsPadding(before) && IsPadding(after) && part == before + name + after
  }

  ghost predicate ArePadded(parts: seq<string>, words: seq<string>) {
    |parts| == |words| && forall i :: 0 <= i < |words| ==> IsWord(words[i]) && IsPadded(parts[i], words[i])
  }

  lemma PaddedIsPart(part: string, name: string)
    requires IsPadded(part, name) && IsWord(name)
    ensures IsPart(part, IsPlus) && Trimmed(part) == name
  {
    var before, after :| IsPadding(before) && IsPadding(after) && part == before + name + after;
    PaddingGoes(before, name, after);
  }

  /** The names stand for the modifier. */
  predicate Names(names: seq<string>, m: Modifier) {
    exists i :: 0 <= i < |names| && ModifierNamed(names[i]) == Some(m)
  }

  lemma {:induction false} ReadModifiersExactly(names: seq<string>, n: nat)
    requires n <= |names| && forall i :: 0 <= i < n ==> ModifierNamed(names[i]).Some?
    ensures ReadModifiers(names, n).Some?
    ensures forall m :: m in ReadModifiers(names, n).value <==> Names(names[..n], m)
  {
    if n > 0 {
      ReadModifiersExactly(names, n - 1);
      var before, all := names[..n - 1], names[..n];
      assert all == before + [names[n - 1]];
      forall m
        ensures Names(all, m) <==> Names(before, m) || ModifierNamed(names[n - 1]) == Some(m)
      {
        if Names(before, m) {
          var i :| 0 <= i < |before| && ModifierNamed(before[i]) == Some(m);
          assert all[i] == before[i];
        }
        if ModifierNamed(names[n - 1]) == Some(m) {
          assert all[n - 1] == names[n - 1];
        }
      }
    }
  }

  /** A shortcut of padded words is cut into these. */
  lemma ReadPadded(parts: seq<string>, words: seq<string>, keys: KeyTable)
    requires ArePadded(parts, words)
    ensures ReadShortcut(Joined(parts, "+"), keys) == ReadParts(words, keys)
  {
    PaddedAreParts(parts, words);
    ReadJoined(parts, keys);
  }

  lemma ReadJoined(parts: seq<string>, keys: KeyTable)
    requires AreParts(parts, IsPlus)
    ensures ReadShortcut(Joined(parts, "+"), keys) == ReadParts(AllTrimmed(parts), keys)
  {
    assert "+"[0] == '+';
    PartsOfJoined(parts, "+", IsPlus);
  }

  lemma PaddedAreParts(parts: seq<string>, words: seq<string>)
    requires ArePadded(parts, words)
    ensures AreParts(parts, IsPlus) && AllTrimmed(parts) == words
  {
    forall i | 0 <= i < |parts|
      ensures IsPart(parts[i], IsPlus) && Trimmed(parts[i]) == words[i]
    {
      PaddedIsPart(parts[i], words[i]);
    }
  }

  /** A shortcut written with any names of its modifiers, in any order and however often, and with any white space
      around the names, reads back as the key with exactly these modifiers. */
  lemma ShortcutReadsBack(names: seq<string>, key: string, parts: seq<string>, keys: KeyTable)
    requires ArePadded(parts, names + [key])
    requires keys(key).Some? && forall i :: 0 <= i < |names| ==> ModifierNamed(names[i]).Some?
    ensures var r := ReadShortcut(Joined(parts, "+"), keys);
            && r.Some? && r.value.keyCode == keys(key).value.keyCode
            && forall m :: m in r.value.modifiers <==> Names(names, m) || m in keys(key).value.modifiers
  {
    var words := names + [key];
    ReadPadded(parts, words, keys);
    assert words[..|names|] == names && words[|names|] == key;
    assert forall i :: 0 <= i < |names| ==> words[i] == names[i];
    ReadModifiersExactly(words, |names|);
  }

  /** A shortcut can be read exactly if it ends with a key and only modifiers come before that. */
  lemma ShortcutReadsExactly(parts: seq<string>, keys: KeyTable)
    requires parts != [] && AreParts(parts, IsPlus)
    ensures var n := |parts| - 1;
            var words := AllTrimmed(parts);
            ReadShortcut(Joined(parts, "+"), keys).Some? <==>
              && words[n] != "" && keys(words[n]).Some?
              && forall i :: 0 <= i < n ==> ModifierNamed(words[i]).Some?
  {
    ReadJoined(parts, keys);
    WordsReadExactly(AllTrimmed(parts), keys);
  }

  lemma WordsReadExactly(words: seq<string>, keys: KeyTable)
    requires words != []
    ensures var n := |words| - 1;
            ReadParts(words, keys).Some? <==>
              && words[n] != "" && keys(words[n]).Some?
              && forall i :: 0 <= i < n ==> ModifierNamed(words[i]).Some?
  {
    var n := |words| - 1;
    ReadModifiersFails(words, n);
    if forall i :: 0 <= i < n ==> ModifierNamed(words[i]).Some? {
      ReadModifiersExactly(words, n);
    }
  }

  lemma {:induction false} ReadModifiersFails(names: seq<string>, n: nat)
    requires n <= |names|
    ensures ReadModifiers(names, n).Some? ==> forall i :: 0 <= i < n ==> ModifierNamed(names[i]).Some?
  {
    if n > 0 {
      ReadModifiersFails(names, n - 1);
    }
  }

  // ----- lines

  /** A rule, with white space around it and its two shortcuts parted by an arrow, is read as what these say; without
      one of them it cannot be read. */
  lemma RuleReadsBack(before: string, left: string, right: string, after: string, keys: KeyTable)
    requires IsPadding(before) && IsPadding(after) && left != "" && right != "" && '>' !in left && '>' !in right
    requires left[0] !in {' ', '\t', '\n', '\r', '#'} && right[|right| - 1] !in {' ', '\t', '\n', '\r'}
    ensures ReadLine(before + (left + "->" + right) + after, keys) ==
            match (ReadShortcut(left, keys), ReadShortcut(right, keys))
            case (Some(host), Some(guest)) => Maps(host, GuestChord(guest.keyCode, guest.modifiers))
            case _ => Unreadable
  {
    var line := left + "->" + right;
    PaddingGoes(before, line, after);
    forall i | 0 <= i < |left|
      ensures !IsAt(line, "->", i)
    {
      assert line[i..i + 2][1] == line[i + 1] == if i + 1 < |left| then left[i + 1] else '-';
      assert i + 1 < |left| ==> left[i + 1] in left;
    }
    PartitionAt(left, "->", right);
    forall i | 0 <= i <= |right|
      ensures !IsAt(right, "->", i)
    {
      assert i + 2 <= |right| ==> right[i..i + 2][1] == right[i + 1] && right[i + 1] in right;
    }
  }

  /** White space and comments are no rules; without an arrow, or with two, a line cannot be read. */
  lemma OtherLines(before: string, line: string, after: string, keys: KeyTable)
    requires IsPadding(before) && IsPadding(after)
    requires line != "" ==> line[0] !in {' ', '\t', '\n', '\r'} && line[|line| - 1] !in {' ', '\t', '\n', '\r'}
    ensures line == "" || line[0] == '#' ==> ReadLine(before + line + after, keys) == Blank
    ensures line != "" && line[0] != '#' && !Mentions(line, "->") ==> ReadLine(before + line + after, keys) == Unreadable
    ensures line != "" && line[0] != '#' && (exists left, middle, right :: line == left + "->" + middle + "->" + right) ==>
              ReadLine(before + line + after, keys) == Unreadable
  {
    if line == "" {
      LeftPaddingGoes(before + line + after, "");
      assert before + line + after + "" == before + line + after;
    } else {
      PaddingGoes(before, line, after);
      if left, middle, right :| line == left + "->" + middle + "->" + right {
        TwoArrows(left, middle, right);
      }
    }
  }

  /** Behind the first of two arrows there is another one. */
  lemma TwoArrows(left: string, middle: string, right: string)
    ensures var line := left + "->" + middle + "->" + right;
            Partition(line, "->").Some? && Mentions(Partition(line, "->").value.1, "->")
  {
    var line := left + "->" + middle + "->" + right;
    assert IsAt(line, "->", |left|) by {
      assert line[|left|..|left| + 2] == "->";
    }
    var first := Partition(line, "->").value.0;
    var rest := Partition(line, "->").value.1;
    assert |first| <= |left|;
    var second := |left| + 2 + |middle|;
    assert line[second..second + 2] == "->";
    var k := second - |first| - 2;
    assert rest == line[|first| + 2..];
    assert rest[k..k + 2] == line[second..second + 2];
    assert IsAt(rest, "->", k);
  }
}
