/**
 Which guest chord a host chord stands for: the look-up for single key events, and the sorted list of entries
 that native remapping gets.

 The tables of the presets are parameters: a preset is the sequence of its `add` calls, and everything holds
 for every such sequence.  Dictionaries are walked in arbitrary order.
 */
module KeyboardMapping {
  import opened Wrappers
  import opened InputRouter
  import opened KeyboardRules

  datatype KeyboardPreset = Gnome | Hyprland | Windows | Passthrough

  datatype Entry = Entry(host: HostChord, guest: GuestChord)

  type Mapping = map<HostChord, GuestChord>

  // ----- the order of the entries

  /** The `rawValue` of the modifiers. */
  function RawValue(f: KeyboardFlags): nat {
    (if Shift in f then 0x2_0000 else 0) + (if Control in f then 0x4_0000 else 0) +
    (if Opt in f then 0x8_0000 else 0) + (if Command in f then 0x10_0000 else 0)
  }

  predicate Less(a: HostChord, b: HostChord) {
    if a.keyCode != b.keyCode then a.keyCode < b.keyCode else RawValue(a.modifiers) < RawValue(b.modifiers)
  }

  /** Key codes come first; among the same, the highest modifier in which the two differ decides: Command before Option,
      Control and Shift. */
  lemma LessExactly(a: HostChord, b: HostChord)
    ensures Less(a, b) <==>
              if a.keyCode != b.keyCode then a.keyCode < b.keyCode
              else if (Command in a.modifiers) != (Command in b.modifiers) then Command in b.modifiers
              else if (Opt in a.modifiers) != (Opt in b.modifiers) then Opt in b.modifiers
              else if (Control in a.modifiers) != (Control in b.modifiers) then Control in b.modifiers
              else Shift !in a.modifiers && Shift in b.modifiers
  {
  }

  predicate StrictlySorted(entries: seq<Entry>) {
    forall i, j :: 0 <= i < j < |entries| ==> Less(entries[i].host, entries[j].host)
  }

  /** The entries are those of the dictionary. */
  ghost predicate Lists(entries: seq<Entry>, m: Mapping) {
    forall e :: e in entries <==> e.host in m && m[e.host] == e.guest
  }

  lemma RawValueDetermines(a: KeyboardFlags, b: KeyboardFlags)
    requires RawValue(a) == RawValue(b)
    ensures a == b
  {
    assert (Shift in a) == (Shift in b) && (Control in a) == (Control in b);
    assert (Opt in a) == (Opt in b) && (Command in a) == (Command in b);
    forall m
      ensures m in a <==> m in b
    {
      assert m in a ==> m in KEYBOARD;
      assert m in b ==> m in KEYBOARD;
    }
  }

  lemma LessIsTotal(a: HostChord, b: HostChord)
    ensures a == b || Less(a, b) || Less(b, a)
  {
    if a.keyCode == b.keyCode && RawValue(a.modifiers) == RawValue(b.modifiers) {
      RawValueDetermines(a.modifiers, b.modifiers);
    }
  }

  /** A dictionary has only one strictly sorted list of entries, whatever order it is walked in. */
  lemma {:induction false} OneListing(a: seq<Entry>, b: seq<Entry>)
    requires StrictlySorted(a) && StrictlySorted(b)
    requires forall e :: e in a <==> e in b
    ensures a == b
  {
    HasMember(b);
    if a != [] {
      assert a[0] in b;
      assert b[0] in a;
      LeastIsFirst(a, b[0]);
      LeastIsFirst(b, a[0]);
      forall e
        ensures e in a[1..] <==> e in b[1..]
      {
        Rest(a, e);
        Rest(b, e);
      }
      OneListing(a[1..], b[1..]);
      assert a == [a[0]] + a[1..] && b == [b[0]] + b[1..];
    }
  }

  lemma HasMember(a: seq<Entry>)
    ensures a != [] ==> exists e :: e in a
  {
    if a != [] {
      assert a[0] in a;
    }
  }

  lemma LeastIsFirst(a: seq<Entry>, e: Entry)
    requires StrictlySorted(a) && e in a
    ensures e == a[0] || Less(a[0].host, e.host)
  {
    var i :| 0 <= i < |a| && a[i] == e;
  }

  lemma Rest(a: seq<Entry>, e: Entry)
    requires StrictlySorted(a) && a != []
    ensures e in a[1..] <==> e in a && e != a[0]
  {
    assert a == [a[0]] + a[1..];
    if e in a[1..] {
      var i :| 0 <= i < |a[1..]| && a[1..][i] == e;
      assert Less(a[0].host, a[i + 1].host);
    }
  }

  /** `map` and `sorted` over a dictionary. */
  method SortedEntries(m: Mapping) returns (entries: seq<Entry>)
    ensures StrictlySorted(entries) && Lists(entries, m)
  {
    entries := [];
    var remaining := m.Keys;
    while remaining != {}
      invariant StrictlySorted(entries) && remaining <= m.Keys
      invariant forall e :: e in entries <==> e.host in m.Keys - remaining && m[e.host] == e.guest
      decreases |remaining|
    {
      var host :| host in remaining;
      remaining := remaining - {host};
      entries := Inserted(entries, Entry(host, m[host]));
    }
  }

  method Inserted(entries: seq<Entry>, e: Entry) returns (r: seq<Entry>)
    requires StrictlySorted(entries) && forall o :: o in entries ==> o.host != e.host
    ensures StrictlySorted(r)
    ensures forall o :: o in r <==> o in entries || o == e
  {
    var i := 0;
    while i < |entries| && Less(entries[i].host, e.host)
      invariant 0 <= i <= |entries|
      invariant forall j :: 0 <= j < i ==> Less(entries[j].host, e.host)
    {
      i := i + 1;
    }
    StaysBelow(entries, i, e);
    r := entries[..i] + [e] + entries[i..];
    InsertedAt(entries, i, e);
  }

  lemma StaysBelow(entries: seq<Entry>, i: nat, e: Entry)
    requires StrictlySorted(entries) && i <= |entries|
    requires forall o :: o in entries ==> o.host != e.host
    requires i < |entries| ==> !Less(entries[i].host, e.host)
    ensures forall j :: i <= j < |entries| ==> Less(e.host, entries[j].host)
  {
    if i < |entries| {
      assert entries[i] in entries;
      LessIsTotal(entries[i].host, e.host);
      forall j | i < j < |entries|
        ensures Less(e.host, entries[j].host)
      {
        assert Less(entries[i].host, entries[j].host);
      }
    }
  }

  lemma InsertedAt(entries: seq<Entry>, i: nat, e: Entry)
    requires StrictlySorted(entries) && i <= |entries|
    requires forall j :: 0 <= j < i ==> Less(entries[j].host, e.host)
    requires forall j :: i <= j < |entries| ==> Less(e.host, entries[j].host)
    ensures StrictlySorted(entries[..i] + [e] + entries[i..])
    ensures forall o :: o in entries[..i] + [e] + entries[i..] <==> o in entries || o == e
  {
    var r := entries[..i] + [e] + entries[i..];
    forall j, k | 0 <= j < k < |r|
      ensures Less(r[j].host, r[k].host)
    {
      assert r[j] == if j < i then entries[j] else if j == i then e else entries[j - 1];
      assert r[k] == if k < i then entries[k] else if k == i then e else entries[k - 1];
    }
    assert entries == entries[..i] + entries[i..];
  }

  // ----- presets and custom mappings

  /** The dictionary after a sequence of `add` calls; the last one for a host chord counts. */
  function Table(adds: seq<Entry>): Mapping {
    if adds == [] then map[]
    else Table(adds[..|adds| - 1])[adds[|adds| - 1].host := adds[|adds| - 1].guest]
  }

  /** The `i`-th call is the last one for the host chord. */
  predicate IsLastAdd(adds: seq<Entry>, host: HostChord, i: int) {
    0 <= i < |adds| && adds[i].host == host && forall j :: i < j < |adds| ==> adds[j].host != host
  }

  lemma {:induction false} TableHasLast(adds: seq<Entry>, host: HostChord)
    ensures host !in Table(adds) ==> forall i :: 0 <= i < |adds| ==> adds[i].host != host
    ensures host in Table(adds) ==> exists i :: IsLastAdd(adds, host, i) && adds[i].guest == Table(adds)[host]
  {
    if adds != [] {
      var n := |adds| - 1;
      var before := adds[..n];
      TableHasLast(before, host);
      if adds[n].host == host {
        assert IsLastAdd(adds, host, n);
      } else if host in Table(before) {
        var i :| IsLastAdd(before, host, i) && before[i].guest == Table(before)[host];
        assert IsLastAdd(adds, host, i);
      }
    }
  }

  function Preset(preset: KeyboardPreset, adds: seq<Entry>): Mapping {
    if preset.Passthrough? then map[] else Table(adds)
  }

  function Identity(host: HostChord): GuestChord {
    GuestChord(host.keyCode, host.modifiers)
  }

  function Lookup(entries: seq<Entry>, host: HostChord): Option<GuestChord> {
    if entries == [] then None
    else if entries[0].host == host then Some(entries[0].guest)
    else Lookup(entries[1..], host)
  }

  lemma {:induction false} LookupFinds(entries: seq<Entry>, host: HostChord)
    ensures Lookup(entries, host).Some? ==> Entry(host, Lookup(entries, host).value) in entries
    ensures Lookup(entries, host).None? ==> forall e :: e in entries ==> e.host != host
  {
    if entries != [] {
      LookupFinds(entries[1..], host);
      assert entries == [entries[0]] + entries[1..];
    }
  }

  /** `Dictionary(uniqueKeysWithValues:)`, which needs its keys to be different: a sorted list of `m` has `m` back. */
  method FromUnique(entries: seq<Entry>, ghost m: Mapping) returns (result: Mapping)
    requires StrictlySorted(entries) && Lists(entries, m)
    ensures result == m
  {
    result := map[];
    for i := 0 to |entries|
      invariant result.Keys <= m.Keys
      invariant forall h :: h in result ==> result[h] == m[h]
      invariant forall h :: h in result ==> exists j :: 0 <= j < i && entries[j].host == h
      invariant forall j :: 0 <= j < i ==> entries[j].host in result
    {
      assert entries[i] in entries;
      UnusedKey(entries, i, result);
      assert entries[i].host !in result;
      result := result[entries[i].host := entries[i].guest];
    }
    forall h | h in m
      ensures h in result
    {
      assert Entry(h, m[h]) in entries;
    }
  }

  lemma UnusedKey(entries: seq<Entry>, i: nat, m: Mapping)
    requires StrictlySorted(entries) && i < |entries|
    requires forall h :: h in m ==> exists j :: 0 <= j < i && entries[j].host == h
    ensures entries[i].host !in m
  {
    forall j | 0 <= j < i
      ensures entries[j].host != entries[i].host
    {
      assert Less(entries[j].host, entries[i].host);
    }
  }

  class KeyboardMappingSettings {
    const adds: KeyboardPreset -> seq<Entry>
    const keys: KeyTable
    var activePreset: KeyboardPreset
    var customMappings: Mapping

    constructor (adds: KeyboardPreset -> seq<Entry>, keys: KeyTable)
      ensures this.adds == adds && this.keys == keys && activePreset == Gnome && customMappings == map[]
    {
      this.adds := adds;
      this.keys := keys;
      activePreset := Gnome;
      customMappings := map[];
    }

    /** Custom mappings win over those of the preset. */
    function Effective(): Mapping
      reads this
    {
      Preset(activePreset, adds(activePreset)) + customMappings
    }

    /** A custom mapping wins; without one the last `add` of the preset counts, unless it passes everything through. */
    lemma EffectiveExactly(host: HostChord)
      ensures var calls := adds(activePreset);
              if host in customMappings then host in Effective() && Effective()[host] == customMappings[host]
              else if activePreset != Passthrough && exists i :: 0 <= i < |calls| && calls[i].host == host then
                host in Effective() && exists i :: IsLastAdd(calls, host, i) && calls[i].guest == Effective()[host]
              else host !in Effective()
    {
      var calls := adds(activePreset);
      TableHasLast(calls, host);
      if activePreset != Passthrough && host in Table(calls) {
        var i :| IsLastAdd(calls, host, i) && calls[i].guest == Table(calls)[host];
        assert calls[i].host == host;
      }
    }

    /** `mappingEntries(for:)` */
    method MappingEntries(preset: KeyboardPreset) returns (entries: seq<Entry>)
      ensures StrictlySorted(entries) && Lists(entries, Preset(preset, adds(preset)))
    {
      var calls := adds(preset);
      var result: Mapping := map[];
      for i := 0 to |calls|
        invariant result == Table(calls[..i])
      {
        assert calls[..i + 1][..i] == calls[..i];
        result := result[calls[i].host := calls[i].guest];
      }
      assert calls[..|calls|] == calls;
      if preset.Passthrough? {
        return [];
      }
      entries := SortedEntries(result);
    }

    /** `mappings`: a dictionary with unique keys from the entries, then the custom ones over them. */
    method Mappings() returns (result: Mapping)
      ensures result == Effective()
    {
      var entries := MappingEntries(activePreset);
      result := FromUnique(entries, Preset(activePreset, adds(activePreset)));
      result := result + customMappings;
    }

    /** `activeMappingEntries` */
    method ActiveMappingEntries() returns (entries: seq<Entry>)
      ensures StrictlySorted(entries) && Lists(entries, Effective())
    {
      var m := Mappings();
      entries := SortedEntries(m);
    }

    /** `chord`, without the workspace bookkeeping */
    method Chord(keyCode: nat, modifiers: Flags) returns (chord: GuestChord)
      ensures var host := HostChord(keyCode, Normalized(modifiers));
              chord == if host in Effective() then Effective()[host] else GuestChord(keyCode, modifiers * KEYBOARD)
    {
      var host := HostChord(keyCode, Normalized(modifiers));
      if host in customMappings {
        return customMappings[host];
      }
      if activePreset.Passthrough? {
        return GuestChord(keyCode, Normalized(modifiers));
      }
      var m := Mappings();
      chord := if host in m then m[host] else GuestChord(keyCode, Normalized(modifiers));
    }

    /** The two paths agree: a key event gets what a look-up in the active entries gives, or else itself. */
    method BothPaths(keyCode: nat, modifiers: Flags) returns (chord: GuestChord, entries: seq<Entry>)
      ensures StrictlySorted(entries)
      ensures var host := HostChord(keyCode, Normalized(modifiers));
              chord == match Lookup(entries, host) case Some(guest) => guest case None => Identity(host)
    {
      chord := Chord(keyCode, modifiers);
      entries := ActiveMappingEntries();
      LookupInListing(entries, Effective(), HostChord(keyCode, Normalized(modifiers)));
    }

    /** `activate`, with the lines of the custom profile's rules */
    method Activate(preset: KeyboardPreset, lines: seq<string>)
      modifies this
      ensures activePreset == preset
      ensures customMappings == match Parsed(ReadLines(lines, keys)) case Ok(m) => m case Err(_) => map[]
    {
      activePreset := preset;
      var entries := Parse(lines, keys);
      customMappings := map[];
      if entries.Ok? {
        customMappings := FromUnique(entries.value, Parsed(ReadLines(lines, keys)).value);
      }
    }
  }

  lemma LookupInListing(entries: seq<Entry>, m: Mapping, host: HostChord)
    requires Lists(entries, m)
    ensures Lookup(entries, host) == if host in m then Some(m[host]) else None
  {
    LookupFinds(entries, host);
    if host in m {
      assert Entry(host, m[host]) in entries;
    }
  }

  // ----- custom rules

  /** The dictionary that the lines describe, or the number of the first line that is wrong. */
  function Parsed(rules: seq<Rule>): Result<Mapping, nat> {
    if rules == [] then Ok(map[])
    else
      var n := |rules| - 1;
      match Parsed(rules[..n])
      case Err(line) => Err(line)
      case Ok(m) =>
        match rules[n]
        case Blank => Ok(m)
        case Unreadable => Err(n + 1)
        case Maps(host, guest) => if host in m then Err(n + 1) else Ok(m[host := guest])
  }

  /** No line is wrong: all can be read, and no two map the same host chord. */
  ghost predicate Consistent(lines: multiset<Rule>) {
    && Unreadable !in lines
    && forall a, b :: a in lines && b in lines && a.Maps? && b.Maps? && a.host == b.host ==> a == b && lines[a] == 1
  }

  /** The dictionary has the lines' mappings. */
  ghost predicate Holds(m: Mapping, lines: multiset<Rule>) {
    && (forall h :: h in m ==> Maps(h, m[h]) in lines)
    && forall h, g :: Maps(h, g) in lines ==> h in m
  }

  /** Parsing succeeds exactly on consistent lines, with exactly their mappings. */
  lemma {:induction false} ParsedExactly(rules: seq<Rule>)
    ensures Parsed(rules).Ok? <==> Consistent(multiset(rules))
    ensures Parsed(rules).Ok? ==> Holds(Parsed(rules).value, multiset(rules))
  {
    if rules != [] {
      var n := |rules| - 1;
      var before := rules[..n];
      ParsedExactly(before);
      assert rules == before + [rules[n]];
      assert multiset(rules) == multiset(before) + multiset{rules[n]};
      if Parsed(before).Err? {
        InconsistentStays(multiset(before), rules[n]);
      } else {
        OneMoreLine(Parsed(before).value, multiset(before), rules[n]);
      }
    }
  }

  /** The line that an error names is the first that makes the lines inconsistent. */
  lemma {:induction false} ErrorNamesTheFirst(rules: seq<Rule>)
    requires Parsed(rules).Err?
    ensures 1 <= Parsed(rules).error <= |rules|
    ensures Consistent(multiset(rules[..Parsed(rules).error - 1]))
    ensures !Consistent(multiset(rules[..Parsed(rules).error]))
  {
    var n := |rules| - 1;
    var before := rules[..n];
    if Parsed(before).Err? {
      ErrorNamesTheFirst(before);
      var line := Parsed(before).error;
      assert before[..line] == rules[..line] && before[..line - 1] == rules[..line - 1];
    } else {
      assert Parsed(rules).error == n + 1 && rules[..n + 1] == rules;
      ParsedExactly(before);
      ParsedExactly(rules);
    }
  }

  lemma InconsistentStays(lines: multiset<Rule>, rule: Rule)
    requires !Consistent(lines)
    ensures !Consistent(lines + multiset{rule})
  {
    if Unreadable !in lines {
      var a, b :| a in lines && b in lines && a.Maps? && b.Maps? && a.host == b.host && (a != b || lines[a] != 1);
      assert a in lines + multiset{rule} && b in lines + multiset{rule};
      assert lines[a] >= 1 && (lines + multiset{rule})[a] >= lines[a];
    } else {
      assert Unreadable in lines + multiset{rule};
    }
  }

  lemma OneMoreLine(m: Mapping, lines: multiset<Rule>, rule: Rule)
    requires Consistent(lines) && Holds(m, lines)
    ensures Consistent(lines + multiset{rule}) <==> !rule.Unreadable? && (rule.Maps? ==> rule.host !in m)
    ensures rule.Blank? ==> Holds(m, lines + multiset{rule})
    ensures rule.Maps? && rule.host !in m ==> Holds(m[rule.host := rule.guest], lines + multiset{rule})
  {
    var more := lines + multiset{rule};
    if rule.Unreadable? {
      assert rule in more;
    } else if rule.Maps? && rule.host in m {
      var kept := Maps(rule.host, m[rule.host]);
      assert kept in lines && kept in more && rule in more;
      if kept == rule {
        assert more[rule] >= 2;
      }
    }
  }

  /** `KeyboardProfileRuleParser.parse` */
  method Parse(lines: seq<string>, keys: KeyTable) returns (r: Result<seq<Entry>, nat>)
    ensures match Parsed(ReadLines(lines, keys))
            case Ok(m) => r.Ok? && StrictlySorted(r.value) && Lists(r.value, m)
            case Err(line) => r == Err(line)
  {
    ghost var rules := ReadLines(lines, keys);
    var entries: Mapping := map[];
    for i := 0 to |lines|
      invariant Parsed(rules[..i]) == Ok(entries)
    {
      assert rules[..i + 1][..i] == rules[..i];
      match ReadLine(lines[i], keys)
      case Blank =>
      case Unreadable =>
        FirstErrorStays(rules, i + 1);
        return Err(i + 1);
      case Maps(host, guest) =>
        if host in entries {
          FirstErrorStays(rules, i + 1);
          return Err(i + 1);
        }
        entries := entries[host := guest];
    }
    assert rules[..|lines|] == rules;
    var sorted := SortedEntries(entries);
    return Ok(sorted);
  }

  lemma {:induction false} FirstErrorStays(rules: seq<Rule>, n: nat)
    requires n <= |rules| && Parsed(rules[..n]).Err?
    ensures Parsed(rules) == Parsed(rules[..n])
    decreases |rules|
  {
    if n < |rules| {
      assert rules[..|rules| - 1][..n] == rules[..n];
      FirstErrorStays(rules[..|rules| - 1], n);
    } else {
      assert rules[..n] == rules;
    }
  }

  /** The order of the lines does not matter: the same lines in another order give the same mappings, or none. */
  lemma OrderDoesNotMatter(a: seq<Rule>, b: seq<Rule>)
    requires multiset(a) == multiset(b)
    ensures Parsed(a).Ok? <==> Parsed(b).Ok?
    ensures Parsed(a).Ok? ==> Parsed(a) == Parsed(b)
  {
    ParsedExactly(a);
    ParsedExactly(b);
    if Parsed(a).Ok? {
      OneDictionary(Parsed(a).value, Parsed(b).value, multiset(a));
    }
  }

  /** So it does not for the lines as they are written. */
  lemma LineOrderDoesNotMatter(a: seq<string>, b: seq<string>, keys: KeyTable)
    requires multiset(a) == multiset(b)
    ensures Parsed(ReadLines(a, keys)).Ok? <==> Parsed(ReadLines(b, keys)).Ok?
    ensures Parsed(ReadLines(a, keys)).Ok? ==> Parsed(ReadLines(a, keys)) == Parsed(ReadLines(b, keys))
  {
    ReadInAnyOrder(a, b, keys);
    OrderDoesNotMatter(ReadLines(a, keys), ReadLines(b, keys));
  }

  lemma OneDictionary(m: Mapping, n: Mapping, lines: multiset<Rule>)
    requires Consistent(lines) && Holds(m, lines) && Holds(n, lines)
    ensures m == n
  {
    forall h
      ensures h in m <==> h in n
      ensures h in m && h in n ==> m[h] == n[h]
    {
      if h in m {
        assert Maps(h, m[h]) in lines;
      }
      if h in n {
        assert Maps(h, n[h]) in lines;
      }
    }
  }
}
