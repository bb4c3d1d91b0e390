/**
 The state machine that turns host keys into guest keys.

 `GuestInputRouter` carries the source's six fields and the events it has sent, in order.  The meaning of
 those events is what a guest keyboard makes of them: `Held` and `Count` replay them.  Dictionaries are
 walked in arbitrary order, and the results proved do not depend on that order.
 */
module InputRouter {

  datatype Modifier = Control | Opt | Shift | Command | Other(bit: nat)

  type Flags = set<Modifier>

  const KEYBOARD: Flags := {Control, Opt, Shift, Command}

  datatype GuestChord = GuestChord(keyCode: nat, modifiers: Flags)

  datatype GuestKeyEvent = GuestKeyEvent(keyCode: nat, isDown: bool, isRepeat: bool, modifiers: Flags, isModifier: bool)

  const MODIFIERS: seq<(Modifier, nat)> := [(Control, 59), (Opt, 58), (Shift, 56), (Command, 55)]

  function Normalized(flags: Flags): Flags {
    flags * KEYBOARD
  }

  /** `QEMUKeyMapper.modifierFlag`, with no flag for the other key codes. */
  function ModifierFlag(keyCode: nat): Flags {
    match keyCode
    case 54 => {Command}
    case 55 => {Command}
    case 56 => {Shift}
    case 60 => {Shift}
    case 58 => {Opt}
    case 61 => {Opt}
    case 59 => {Control}
    case 62 => {Control}
    case _ => {}
  }

  // ----- the guest keyboard

  /** The modifiers that a guest holds after the events. */
  function Held(events: seq<GuestKeyEvent>): Flags {
    if events == [] then {}
    else
      var before, e := Held(events[..|events| - 1]), events[|events| - 1];
      if !e.isModifier then before
      else if e.isDown then before + ModifierFlag(e.keyCode)
      else before - ModifierFlag(e.keyCode)
  }

  function Change(e: GuestKeyEvent, code: nat): int {
    if e.isModifier || e.keyCode != code then 0 else if e.isDown then 1 else -1
  }

  /** How often a guest key has gone down more than up. */
  function Count(events: seq<GuestKeyEvent>, code: nat): int {
    if events == [] then 0
    else Count(events[..|events| - 1], code) + Change(events[|events| - 1], code)
  }

  /** `e` makes sense to a guest that has seen `before`: a modifier event flips a modifier and tells what is held
      then, a key only comes up when it is down, and the modifiers of its chord are held. */
  predicate Sensible(before: seq<GuestKeyEvent>, e: GuestKeyEvent) {
    && !e.isRepeat
    && if e.isModifier then
         && ModifierFlag(e.keyCode) != {}
         && (e.isDown <==> ModifierFlag(e.keyCode) !! Held(before))
         && e.modifiers == Held(before + [e])
       else
         && e.modifiers <= Held(before)
         && (!e.isDown ==> Count(before, e.keyCode) > 0)
  }

  predicate AllSensible(events: seq<GuestKeyEvent>) {
    events != [] ==>
      && AllSensible(events[..|events| - 1])
      && Sensible(events[..|events| - 1], events[|events| - 1])
  }

  lemma Appended(events: seq<GuestKeyEvent>, e: GuestKeyEvent)
    ensures AllSensible(events + [e]) <==> AllSensible(events) && Sensible(events, e)
    ensures forall code :: Count(events + [e], code) == Count(events, code) + Change(e, code)
    ensures !e.isModifier ==> Held(events + [e]) == Held(events)
    ensures e.isModifier && e.isDown ==> Held(events + [e]) == Held(events) + ModifierFlag(e.keyCode)
    ensures e.isModifier && !e.isDown ==> Held(events + [e]) == Held(events) - ModifierFlag(e.keyCode)
  {
    assert (events + [e])[..|events|] == events;
  }

  // ----- the state

  datatype State = State(
    chords: map<nat, GuestChord>,
    hostKeys: map<nat, Flags>,
    guest: Flags,
    pointer: Flags,
    host: Flags,
    latched: Flags)

  /** How many active chords press the guest key `code`. */
  function Active(chords: map<nat, GuestChord>, code: nat): nat {
    |HostKeys(chords, code)|
  }

  function HostKeys(chords: map<nat, GuestChord>, code: nat): set<nat> {
    set k | k in chords && chords[k].keyCode == code
  }

  /** Each guest key is down as often as there are active chords with its code. */
  ghost predicate Balanced(events: seq<GuestKeyEvent>, chords: map<nat, GuestChord>) {
    forall code :: Count(events, code) == Active(chords, code)
  }

  function ChordModifiers(chords: map<nat, GuestChord>): Flags {
    set k, m | k in chords && m in chords[k].modifiers :: m
  }

  /** The modifiers that the guest has to hold. */
  function Target(chords: map<nat, GuestChord>, pointer: Flags, host: Flags, latched: Flags, additional: Flags): Flags {
    Normalized(ChordModifiers(chords) + pointer + (if host == {} then {} else latched) + additional)
  }

  function Goal(s: State): Flags {
    Target(s.chords, s.pointer, s.host, s.latched, {})
  }

  /** What every operation keeps about the state alone. */
  predicate Coherent(s: State) {
    && s.hostKeys.Keys == s.chords.Keys
    && (forall k :: k in s.hostKeys ==> s.hostKeys[k] <= KEYBOARD)
    && s.host <= KEYBOARD
    && s.guest == Goal(s)
  }

  const INITIAL := State(map[], map[], {}, {}, {}, {})

  datatype Operation =
    | Press(hostKey: nat, chord: GuestChord, repeats: bool, hostModifiers: Flags)
    | Release(hostKey: nat)
    | BeginPointer(pointerModifiers: Flags)
    | EndPointer
    | UpdateHost(modifiers: Flags)
    | SendChord(sent: GuestChord)
    | ReleaseAll

  function Settled(s: State): State {
    s.(guest := Goal(s))
  }

  /** The keys that need host modifiers which are not all down any more. */
  function Lost(hostKeys: map<nat, Flags>, updated: Flags): set<nat> {
    set k | k in hostKeys && hostKeys[k] != {} && updated * hostKeys[k] != hostKeys[k]
  }

  /** The latched modifiers after a change of the host modifiers from `host` to `updated`. */
  function Latched(latched: Flags, host: Flags, updated: Flags): Flags {
    var up := host - updated;
    if updated == {} || Command in up then {} else latched - (up * {Shift, Control, Opt})
  }

  function Pressed(s: State, k: nat, chord: GuestChord, repeats: bool, modifiers: Flags): State {
    if repeats || k in s.chords then s
    else Settled(s.(chords := s.chords[k := chord], hostKeys := s.hostKeys[k := Normalized(modifiers)],
                    latched := chord.modifiers))
  }

  function Released(s: State, k: nat): State {
    if k !in s.chords then s else Settled(s.(chords := s.chords - {k}, hostKeys := s.hostKeys - {k}))
  }

  function Pointing(s: State, modifiers: Flags): State {
    Settled(s.(pointer := Normalized(modifiers)))
  }

  /** The state without the chords of some host keys. */
  function Dropped(s: State, keys: set<nat>): State {
    Settled(s.(chords := s.chords - keys, hostKeys := s.hostKeys - keys))
  }

  function Adopted(s: State, updated: Flags): State {
    Settled(s.(latched := Latched(s.latched, s.host, updated), host := updated))
  }

  function HostUpdated(s: State, modifiers: Flags): State {
    var updated := Normalized(modifiers);
    Adopted(Dropped(s, Lost(s.hostKeys, updated)), updated)
  }

  function Step(s: State, op: Operation): State {
    match op
    case Press(k, chord, repeats, modifiers) => Pressed(s, k, chord, repeats, modifiers)
    case Release(k) => Released(s, k)
    case BeginPointer(modifiers) => Pointing(s, modifiers)
    case EndPointer => Pointing(s, {})
    case UpdateHost(modifiers) => HostUpdated(s, modifiers)
    case SendChord(_) => Settled(s)
    case ReleaseAll => INITIAL
  }

  function Run(s: State, ops: seq<Operation>): State {
    if ops == [] then s else Step(Run(s, ops[..|ops| - 1]), ops[|ops| - 1])
  }

  lemma ActiveWith(chords: map<nat, GuestChord>, k: nat, chord: GuestChord, code: nat)
    requires k !in chords
    ensures Active(chords[k := chord], code) == Active(chords, code) + if chord.keyCode == code then 1 else 0
  {
    var before, after := HostKeys(chords, code), HostKeys(chords[k := chord], code);
    if chord.keyCode == code {
      assert after == before + {k};
    } else {
      assert after == before;
    }
  }

  lemma BalancedDown(before: seq<GuestKeyEvent>, after: seq<GuestKeyEvent>, chords: map<nat, GuestChord>, k: nat,
                     chord: GuestChord)
    requires Balanced(before, chords) && k !in chords
    requires forall code :: Count(after, code) == Count(before, code) + if code != chord.keyCode then 0 else 1
    ensures Balanced(after, chords[k := chord])
  {
    forall code
      ensures Count(after, code) == Active(chords[k := chord], code)
    {
      ActiveWith(chords, k, chord, code);
    }
  }

  lemma ActiveWithout(chords: map<nat, GuestChord>, k: nat, code: nat)
    requires k in chords
    ensures Active(chords, code) == Active(chords - {k}, code) + if chords[k].keyCode == code then 1 else 0
  {
    assert (chords - {k})[k := chords[k]] == chords;
    ActiveWith(chords - {k}, k, chords[k], code);
  }

  lemma ActiveIsDown(events: seq<GuestKeyEvent>, chords: map<nat, GuestChord>, k: nat)
    requires Balanced(events, chords) && k in chords
    ensures Count(events, chords[k].keyCode) > 0
  {
    ActiveWithout(chords, k, chords[k].keyCode);
  }

  lemma BalancedUp(before: seq<GuestKeyEvent>, after: seq<GuestKeyEvent>, chords: map<nat, GuestChord>, k: nat)
    requires Balanced(before, chords) && k in chords
    requires forall code :: Count(after, code) == Count(before, code) + if code != chords[k].keyCode then 0 else -1
    ensures Balanced(after, chords - {k})
  {
    forall code
      ensures Count(after, code) == Active(chords - {k}, code)
    {
      ActiveWithout(chords, k, code);
    }
  }

  lemma TargetKeyboard(chords: map<nat, GuestChord>, pointer: Flags, host: Flags, latched: Flags, additional: Flags)
    ensures Target(chords, pointer, host, latched, additional) <= KEYBOARD
    ensures Normalized(additional) <= Target(chords, pointer, host, latched, additional)
  {
  }

  /** An active chord's own modifiers are part of the target. */
  lemma TargetHasChord(chords: map<nat, GuestChord>, pointer: Flags, host: Flags, latched: Flags, k: nat)
    requires k in chords
    ensures Normalized(chords[k].modifiers) <= Target(chords, pointer, host, latched, {})
    ensures Target(chords, pointer, host, latched, chords[k].modifiers) == Target(chords, pointer, host, latched, {})
  {
    forall m | m in chords[k].modifiers
      ensures m in ChordModifiers(chords)
    {
    }
    var all, rest := ChordModifiers(chords), pointer + if host == {} then {} else latched;
    assert all + chords[k].modifiers == all;
    assert Normalized(all + rest + chords[k].modifiers) == Normalized(all + rest);
  }

  lemma DroppedNone(s: State)
    requires Coherent(s)
    ensures Dropped(s, {}) == s
  {
    assert s.chords - {} == s.chords && s.hostKeys - {} == s.hostKeys;
  }

  lemma DroppedMore(s: State, keys: set<nat>, k: nat)
    requires k in s.chords && k !in keys
    ensures Released(Dropped(s, keys), k) == Dropped(s, keys + {k})
  {
    assert s.chords - keys - {k} == s.chords - (keys + {k});
    assert s.hostKeys - keys - {k} == s.hostKeys - (keys + {k});
  }

  lemma StepCoherent(s: State, op: Operation)
    requires Coherent(s)
    ensures Coherent(Step(s, op))
  {
  }

  /** The first `n` of the keys. */
  function KeySet(keys: seq<nat>, n: nat): set<nat>
    requires n <= |keys|
  {
    if n == 0 then {} else KeySet(keys, n - 1) + {keys[n - 1]}
  }

  predicate Distinct(keys: seq<nat>) {
    forall i, j :: 0 <= i < j < |keys| ==> keys[i] != keys[j]
  }

  lemma {:induction false} KeySetHas(keys: seq<nat>, n: nat)
    requires n <= |keys|
    ensures forall k :: k in KeySet(keys, n) <==> k in keys[..n]
  {
    if n > 0 {
      KeySetHas(keys, n - 1);
      assert keys[..n] == keys[..n - 1] + [keys[n - 1]];
    }
  }

  lemma KeyIsNext(keys: seq<nat>, i: nat)
    requires Distinct(keys) && i < |keys|
    ensures keys[i] !in KeySet(keys, i) && keys[i] in KeySet(keys, |keys|)
  {
    KeySetHas(keys, i);
    KeySetHas(keys, |keys|);
    assert keys[i] in keys[..|keys|];
  }

  /** The keys of a dictionary in some order. */
  method Listing(keys: set<nat>) returns (order: seq<nat>)
    ensures Distinct(order) && KeySet(order, |order|) == keys
  {
    order := [];
    var remaining := keys;
    while remaining != {}
      invariant Distinct(order) && remaining <= keys
      invariant forall k :: k in keys <==> k in remaining || k in order
      invariant forall k :: k in order ==> k !in remaining
      decreases |remaining|
    {
      var k :| k in remaining;
      remaining := remaining - {k};
      order := order + [k];
    }
    KeySetHas(order, |order|);
    assert order[..|order|] == order;
  }

  predicate AtRest(s: State) {
    s.chords == map[] && s.pointer == {} && s.host == {}
  }

  /** An operation that lets go, or that leaves nothing pressed. */
  predicate LetsGo(op: Operation) {
    op.Release? || op.EndPointer? || op.UpdateHost? || op.SendChord? || op.ReleaseAll?
  }

  /** The host modifiers after the operations. */
  function LastHost(host: Flags, ops: seq<Operation>): Flags {
    if ops == [] then host
    else
      var op := ops[|ops| - 1];
      if op.UpdateHost? then Normalized(op.modifiers)
      else if op.ReleaseAll? then {}
      else LastHost(host, ops[..|ops| - 1])
  }

  /** Operations that let go never bring anything back. */
  lemma {:induction false} LettingGo(s: State, ops: seq<Operation>)
    requires Coherent(s) && forall op :: op in ops ==> LetsGo(op)
    ensures var t := Run(s, ops);
            && Coherent(t)
            && (forall k :: k in t.chords ==> k in s.chords && Release(k) !in ops)
            && t.pointer <= s.pointer && (EndPointer in ops ==> t.pointer == {})
            && t.host == LastHost(s.host, ops)
  {
    if ops != [] {
      var n := |ops| - 1;
      LettingGo(s, ops[..n]);
      StepCoherent(Run(s, ops[..n]), ops[n]);
      LettingGoOnce(Run(s, ops[..n]), ops[n]);
      assert ops == ops[..n] + [ops[n]];
      assert forall op :: op in ops <==> op in ops[..n] || op == ops[n];
    }
  }

  lemma LettingGoOnce(s: State, op: Operation)
    requires Coherent(s) && LetsGo(op)
    ensures var t := Step(s, op);
            && (forall k :: k in t.chords ==> k in s.chords && op != Release(k))
            && t.pointer <= s.pointer && (op.EndPointer? ==> t.pointer == {})
            && t.host == LastHost(s.host, [op])
  {
    assert [op][..0] == [];
    if op.EndPointer? {
      assert Normalized({}) == {};
    }
  }

  /**
   Letting go of everything, in any order and with other releases and sent chords in between, leaves the
   router at rest: every key comes up, the pointer is let go, and the last host modifiers are none.
   */
  lemma EverythingReleased(s: State, ops: seq<Operation>)
    requires Coherent(s) && forall op :: op in ops ==> LetsGo(op)
    requires forall k :: k in s.chords ==> Release(k) in ops
    requires s.pointer == {} || EndPointer in ops
    requires LastHost(s.host, ops) == {}
    ensures AtRest(Run(s, ops)) && Run(s, ops).guest == {}
  {
    LettingGo(s, ops);
    var t := Run(s, ops);
    assert t.chords == map[];
    assert ChordModifiers(t.chords) == {};
  }

  // ----- what an operation does to the guest

  /** The guest holds a modifier exactly if an active chord, the pointer or, while a host modifier is down, the latch
      has it. */
  lemma GuestHolds(s: State, m: Modifier)
    requires Coherent(s)
    ensures m in s.guest <==>
              && m in {Control, Opt, Shift, Command}
              && (|| (exists k :: k in s.chords && m in s.chords[k].modifiers)
                  || m in s.pointer
                  || (m in s.latched && s.host != {}))
  {
    assert m in ChordModifiers(s.chords) <==> exists k :: k in s.chords && m in s.chords[k].modifiers;
  }

  /** A new key adds its chord and leaves every other one; a repeated or active key changes nothing. */
  lemma PressAdds(s: State, k: nat, chord: GuestChord, repeats: bool, modifiers: Flags)
    requires Coherent(s)
    ensures var t := Step(s, Press(k, chord, repeats, modifiers));
            if repeats || k in s.chords then t == s
            else t.chords == s.chords[k := chord] && t.pointer == s.pointer && t.host == s.host
  {
  }

  /** The other operations, but for changes of the host modifiers: a release takes its own chord away, the pointer's
      modifiers are those of its last beginning, and a chord that is sent leaves all as it was. */
  lemma OperationMeans(s: State, op: Operation)
    requires Coherent(s)
    ensures var t := Step(s, op);
            match op
            case Press(_, _, _, _) => true
            case Release(k) =>
              t.chords == s.chords - {k} && t.pointer == s.pointer && t.host == s.host && t.latched == s.latched
            case BeginPointer(modifiers) =>
              && (forall m :: m in t.pointer <==> m in modifiers && m in {Control, Opt, Shift, Command})
              && t.chords == s.chords && t.host == s.host && t.latched == s.latched
            case EndPointer => t.pointer == {} && t.chords == s.chords && t.host == s.host && t.latched == s.latched
            case UpdateHost(modifiers) =>
              (forall m :: m in t.host <==> m in modifiers && m in {Control, Opt, Shift, Command}) && t.pointer == s.pointer
            case SendChord(_) => t == s
            case ReleaseAll => t.chords == map[] && t.pointer == t.host == t.guest == {}
  {
    if op.Release? && op.hostKey !in s.chords {
      assert s.chords - {op.hostKey} == s.chords;
    }
  }

  /** A change of the host modifiers keeps exactly the chords whose own host modifiers are all down. */
  lemma KeepsExactly(s: State, modifiers: Flags, k: nat)
    requires Coherent(s)
    ensures var t := Step(s, UpdateHost(modifiers));
            && (k in t.chords <==> k in s.chords && s.hostKeys[k] <= modifiers)
            && (k in t.chords ==> t.chords[k] == s.chords[k])
  {
    if k in s.chords {
      var needed, updated := s.hostKeys[k], Normalized(modifiers);
      assert updated * needed == needed <==> needed <= updated;
      assert needed <= updated <==> needed <= modifiers;
    }
  }

  /** A key's own host modifiers are those that are down when it is pressed: a later change keeps it exactly if they
      are all down still. */
  lemma PressedKeyStays(s: State, k: nat, chord: GuestChord, pressed: Flags, later: Flags)
    requires Coherent(s) && k !in s.chords
    ensures k in Step(Step(s, Press(k, chord, false, pressed)), UpdateHost(later)).chords <==>
              forall m :: m in pressed && m in {Control, Opt, Shift, Command} ==> m in later
  {
    var t := Step(s, Press(k, chord, false, pressed));
    var needed, updated := t.hostKeys[k], Normalized(later);
    assert updated * needed == needed <==> needed <= updated;
    assert forall m :: m in needed <==> m in pressed && m in {Control, Opt, Shift, Command};
  }

  /** When Command comes up nothing stays latched: the guest holds what the remaining chords and the pointer need. */
  lemma CommandComesUp(s: State, modifiers: Flags, m: Modifier)
    requires Coherent(s) && Command in s.host && Command !in modifiers
    ensures var t := Step(s, UpdateHost(modifiers));
            && t.latched == {}
            && (m in t.guest <==>
                  && m in {Control, Opt, Shift, Command}
                  && (m in s.pointer || exists k :: k in t.chords && m in t.chords[k].modifiers))
  {
    var t := Step(s, UpdateHost(modifiers));
    StepCoherent(s, UpdateHost(modifiers));
    GuestHolds(t, m);
  }

  /** Otherwise a modifier stays latched exactly if some host modifier is still down and it has not just come up
      itself. */
  lemma LatchStays(s: State, modifiers: Flags, m: Modifier)
    requires Coherent(s) && (Command in s.host ==> Command in modifiers)
    ensures m in Step(s, UpdateHost(modifiers)).latched <==>
              && m in s.latched
              && (exists h :: h in modifiers && h in {Control, Opt, Shift, Command})
              && !(m in {Shift, Control, Opt} && m in s.host && m !in modifiers)
  {
    var updated := Normalized(modifiers);
    if h :| h in modifiers && h in {Control, Opt, Shift, Command} {
      assert h in updated;
    }
  }

  /** While a host modifier is down, the guest keeps the modifiers of the last chord after its key comes up, but
      nothing that was latched before. */
  lemma LatchHolds(s: State, k: nat, chord: GuestChord, modifiers: Flags, m: Modifier)
    requires Coherent(s) && k !in s.chords
    ensures m in Step(Step(s, Press(k, chord, false, modifiers)), Release(k)).guest <==>
              && m in {Control, Opt, Shift, Command}
              && (|| (exists other :: other in s.chords && m in s.chords[other].modifiers)
                  || m in s.pointer
                  || (m in chord.modifiers && s.host != {}))
  {
    var t := Step(Step(s, Press(k, chord, false, modifiers)), Release(k));
    assert t.chords == s.chords;
    GuestHolds(t, m);
  }

  /** A stuck modifier that the rule about Command prevents: with Command and Shift down, a chord with Control comes
      and goes, and then Command comes up. */
  lemma NothingStaysLatched()
    ensures var down := Step(INITIAL, UpdateHost({Command, Shift}));
            var pressed := Step(down, Press(6, GuestChord(6, {Control, Shift}), false, {Command, Shift}));
            var up := Step(pressed, Release(6));
            up.guest == {Control, Shift} && Step(up, UpdateHost({Shift})).guest == {}
  {
    var down := Step(INITIAL, UpdateHost({Command, Shift}));
    var chord := GuestChord(6, {Control, Shift});
    var up := Step(Step(down, Press(6, chord, false, {Command, Shift})), Release(6));
    NothingHeld();
    assert Coherent(INITIAL) && Coherent(down) && Coherent(up);
    assert up.host == {Command, Shift} && up.chords == map[] && up.pointer == {};
    forall m
      ensures m in up.guest <==> m in {Control, Shift}
      ensures m !in Step(up, UpdateHost({Shift})).guest
    {
      LatchHolds(down, 6, chord, {Command, Shift}, m);
      CommandComesUp(up, {Shift}, m);
    }
  }

  lemma NothingHeld()
    ensures Target(map[], {}, {}, {}, {}) == {}
  {
    assert ChordModifiers(map[]) == {};
  }

  /** In how many of the four modifiers the two differ. */
  function Differences(a: Flags, b: Flags): nat {
    (if (Control in a) == (Control in b) then 0 else 1) + (if (Opt in a) == (Opt in b) then 0 else 1) +
    (if (Shift in a) == (Shift in b) then 0 else 1) + (if (Command in a) == (Command in b) then 0 else 1)
  }

  /** The event that `emitKey` sends. */
  function KeyEvent(keyCode: nat, isDown: bool, modifiers: Flags): GuestKeyEvent {
    GuestKeyEvent(keyCode, isDown, false, Normalized(modifiers), false)
  }

  /** It carries the chord's key and those of its modifiers that a keyboard has, and is no repetition. */
  lemma KeyEventCarries(keyCode: nat, isDown: bool, modifiers: Flags, m: Modifier)
    ensures var e := KeyEvent(keyCode, isDown, modifiers);
            && e.keyCode == keyCode && e.isDown == isDown && !e.isRepeat && !e.isModifier
            && (m in e.modifiers <==> m in modifiers && m in {Control, Opt, Shift, Command})
  {
  }

  /** The keys that the router presses for the modifiers are the left ones; a guest takes the right ones alike. */
  lemma ModifierKeys()
    ensures (set i | 0 <= i < |MODIFIERS| :: MODIFIERS[i]) == {(Command, 55), (Shift, 56), (Opt, 58), (Control, 59)}
    ensures forall code :: ModifierFlag(code) ==
              if code in {54, 55} then {Command}
              else if code in {56, 60} then {Shift}
              else if code in {58, 61} then {Opt}
              else if code in {59, 62} then {Control}
              else {}
  {
    var keys := set i | 0 <= i < |MODIFIERS| :: MODIFIERS[i];
    assert MODIFIERS[0] in keys && MODIFIERS[1] in keys && MODIFIERS[2] in keys && MODIFIERS[3] in keys;
  }

  /** The events from `n` on let keys go. */
  predicate KeysGoUp(events: seq<GuestKeyEvent>, n: nat) {
    forall i :: n <= i < |events| ==> !events[i].isModifier && !events[i].isDown
  }

  /** The events from `n` on flip modifiers, and those that let go come first. */
  predicate ReleasesFirst(events: seq<GuestKeyEvent>, n: nat) {
    && (forall i :: n <= i < |events| ==> events[i].isModifier)
    && forall i, j :: n <= i < j < |events| && events[i].isDown ==> events[j].isDown
  }

  /** Behind `before`, one event for each modifier in which the two differ, all of them in one direction. */
  predicate Moved(before: seq<GuestKeyEvent>, after: seq<GuestKeyEvent>, source: Flags, target: Flags, down: bool) {
    && before <= after && |after| == |before| + Differences(source, target)
    && forall i :: |before| <= i < |after| ==> after[i].isModifier && after[i].isDown == down
  }

  lemma MovedOnce(before: seq<GuestKeyEvent>, after: seq<GuestKeyEvent>, e: GuestKeyEvent, source: Flags,
                  current: Flags, target: Flags, flag: Modifier, down: bool)
    requires Moved(before, after, source, current, down) && e.isModifier && e.isDown == down
    requires flag in KEYBOARD && (flag in source <==> flag in current)
    requires target == if flag in current then current - {flag} else current + {flag}
    ensures Moved(before, after + [e], source, target, down)
  {
  }

  /** A guest that replays the events holds exactly `held`, and the keys of exactly `chords`. */
  ghost predicate Tracks(events: seq<GuestKeyEvent>, held: Flags, chords: map<nat, GuestChord>) {
    && AllSensible(events) && Held(events) == held && held <= KEYBOARD
    && Balanced(events, chords)
  }

  // ----- the router

  class GuestInputRouter {
    var activeChords: map<nat, GuestChord>
    var activeHostModifiers: map<nat, Flags>
    var guestModifierFlags: Flags
    var pointerModifierFlags: Flags
    var hostModifierFlags: Flags
    var latchedModifierFlags: Flags
    var events: seq<GuestKeyEvent>

    function Current(): State
      reads this
    {
      State(activeChords, activeHostModifiers, guestModifierFlags, pointerModifierFlags, hostModifierFlags,
            latchedModifierFlags)
    }

    ghost predicate Valid()
      reads this
    {
      Tracks(events, guestModifierFlags, activeChords) && Coherent(Current())
    }

    constructor ()
      ensures Valid() && Current() == INITIAL && events == []
    {
      activeChords, activeHostModifiers := map[], map[];
      guestModifierFlags, pointerModifierFlags, hostModifierFlags, latchedModifierFlags := {}, {}, {}, {};
      events := [];
    }

    /** Once no chord, pointer or host modifier is left, a guest that replays the events holds nothing. */
    lemma NothingStuck()
      requires Valid() && AtRest(Current())
      ensures Held(events) == {} && forall code :: Count(events, code) == 0
    {
      forall code
        ensures Active(activeChords, code) == 0
      {
        assert HostKeys(activeChords, code) == {};
      }
    }

    /** Any sequence of operations, as the capture and its views call them. */
    method Perform(ops: seq<Operation>)
      requires Valid()
      modifies this
      ensures Valid() && old(events) <= events
      ensures Current() == Run(old(Current()), ops)
      ensures Held(events) == guestModifierFlags == Goal(Current())
      ensures forall code :: Count(events, code) == Active(activeChords, code)
      ensures AtRest(Current()) ==> Held(events) == {} && forall code :: Count(events, code) == 0
    {
      for i := 0 to |ops|
        invariant Valid() && old(events) <= events
        invariant Current() == Run(old(Current()), ops[..i])
      {
        assert ops[..i + 1][..i] == ops[..i];
        PerformOne(ops[i]);
      }
      assert ops[..|ops|] == ops;
      if AtRest(Current()) {
        NothingStuck();
      }
    }

    method PerformOne(op: Operation)
      requires Valid()
      modifies this
      ensures Valid() && old(events) <= events
      ensures Current() == Step(old(Current()), op)
    {
      match op
      case Press(k, chord, repeats, modifiers) => PressKey(k, chord, repeats, modifiers);
      case Release(k) => ReleaseKey(k);
      case SendChord(chord) => SendOneChord(chord);
      case ReleaseAll => ReleaseEverything();
      case _ => MoveModifiers(op);
    }

    /** The operations that say which modifiers are down. */
    method MoveModifiers(op: Operation)
      requires Valid() && (op.BeginPointer? || op.EndPointer? || op.UpdateHost?)
      modifies this
      ensures Valid() && old(events) <= events
      ensures Current() == Step(old(Current()), op)
    {
      match op
      case BeginPointer(modifiers) => BeginPointerInteraction(modifiers);
      case EndPointer => EndPointerInteraction();
      case UpdateHost(modifiers) => UpdateHostModifiers(modifiers);
    }

    /** `press` */
    method PressKey(hostKeyCode: nat, chord: GuestChord, repeats: bool, hostModifiers: Flags)
      requires Valid()
      modifies this
      ensures Valid() && old(events) <= events
      ensures Current() == Pressed(old(Current()), hostKeyCode, chord, repeats, hostModifiers)
      ensures if repeats || hostKeyCode in old(activeChords) then events == old(events)
              else
                && |events| == |old(events)| + Differences(old(guestModifierFlags), guestModifierFlags) + 1
                && events[|events| - 1] == KeyEvent(chord.keyCode, true, chord.modifiers)
    {
      if repeats || hostKeyCode in activeChords {
        return;
      }
      latchedModifierFlags := chord.modifiers;
      activeChords := activeChords[hostKeyCode := chord];
      activeHostModifiers := activeHostModifiers[hostKeyCode := Normalized(hostModifiers)];
      TargetHasChord(activeChords, pointerModifierFlags, hostModifierFlags, latchedModifierFlags,
                     hostKeyCode);
      Synchronize(chord.modifiers, old(activeChords));
      EmitDown(hostKeyCode, chord, old(activeChords));
    }

    /** `release` */
    method ReleaseKey(hostKeyCode: nat)
      requires Valid()
      modifies this
      ensures Valid() && old(events) <= events
      ensures Current() == Released(old(Current()), hostKeyCode)
      ensures if hostKeyCode !in old(activeChords) then events == old(events)
              else
                && |events| == |old(events)| + 1 + Differences(old(guestModifierFlags), guestModifierFlags)
                && events[|old(events)|] == var chord := old(activeChords)[hostKeyCode];
                                            KeyEvent(chord.keyCode, false, chord.modifiers)
    {
      if hostKeyCode !in activeChords {
        return;
      }
      var chord := activeChords[hostKeyCode];
      TargetHasChord(activeChords, pointerModifierFlags, hostModifierFlags, latchedModifierFlags,
                     hostKeyCode);
      assert Normalized(chord.modifiers) <= guestModifierFlags;
      activeChords := activeChords - {hostKeyCode};
      activeHostModifiers := activeHostModifiers - {hostKeyCode};
      EmitUp(hostKeyCode, chord, chord.modifiers, old(activeChords));
      Synchronize({}, activeChords);
    }

    /** A guest key goes up for an active chord. */
    method EmitUp(ghost hostKeyCode: nat, chord: GuestChord, modifiers: Flags, ghost chords: map<nat, GuestChord>)
      requires Tracks(events, guestModifierFlags, chords) && Normalized(modifiers) <= guestModifierFlags
      requires hostKeyCode in chords && chords[hostKeyCode] == chord
      modifies this`events
      ensures Tracks(events, guestModifierFlags, chords - {hostKeyCode})
      ensures events == old(events) + [KeyEvent(chord.keyCode, false, modifiers)]
    {
      ActiveIsDown(events, chords, hostKeyCode);
      EmitKey(chord.keyCode, false, modifiers);
      BalancedUp(old(events), events, chords, hostKeyCode);
    }

    /** A guest key goes down for a new chord. */
    method EmitDown(ghost hostKeyCode: nat, chord: GuestChord, ghost chords: map<nat, GuestChord>)
      requires Tracks(events, guestModifierFlags, chords) && Normalized(chord.modifiers) <= guestModifierFlags
      requires hostKeyCode !in chords
      modifies this`events
      ensures Tracks(events, guestModifierFlags, chords[hostKeyCode := chord])
      ensures events == old(events) + [KeyEvent(chord.keyCode, true, chord.modifiers)]
    {
      EmitKey(chord.keyCode, true, chord.modifiers);
      BalancedDown(old(events), events, chords, hostKeyCode, chord);
    }

    /** `beginPointerInteraction` */
    method BeginPointerInteraction(modifiers: Flags)
      requires Valid()
      modifies this
      ensures Valid() && old(events) <= events
      ensures Current() == Pointing(old(Current()), modifiers)
      ensures |events| == |old(events)| + Differences(old(guestModifierFlags), guestModifierFlags)
    {
      pointerModifierFlags := Normalized(modifiers);
      Synchronize({}, activeChords);
    }

    /** `endPointerInteraction` */
    method EndPointerInteraction()
      requires Valid()
      modifies this
      ensures Valid() && old(events) <= events
      ensures Current() == Pointing(old(Current()), {})
      ensures |events| == |old(events)| + Differences(old(guestModifierFlags), guestModifierFlags)
    {
      pointerModifierFlags := {};
      Synchronize({}, activeChords);
    }

    /** `updateHostModifiers` */
    method UpdateHostModifiers(modifiers: Flags)
      requires Valid()
      modifies this
      ensures Valid() && old(events) <= events
      ensures Current() == HostUpdated(old(Current()), modifiers)
    {
      var updated := Normalized(modifiers);
      ReleaseLost(updated);
      AdoptHost(updated);
    }

    /** Release the keys that need a host modifier which is up now. */
    method ReleaseLost(updated: Flags)
      requires Valid()
      modifies this
      ensures Valid() && old(events) <= events
      ensures Current() == Dropped(old(Current()), Lost(old(activeHostModifiers), updated))
    {
      var keysToRelease := Listing(Lost(activeHostModifiers, updated));
      ReleaseKeys(keysToRelease);
    }

    /** The rest of `updateHostModifiers` */
    method AdoptHost(updated: Flags)
      requires Valid() && updated <= KEYBOARD
      modifies this`latchedModifierFlags, this`hostModifierFlags, this`guestModifierFlags, this`events
      ensures Valid() && old(events) <= events && ReleasesFirst(events, |old(events)|)
      ensures |events| == |old(events)| + Differences(old(guestModifierFlags), guestModifierFlags)
      ensures Current() == Adopted(old(Current()), updated)
    {
      UpdateLatch(updated);
      hostModifierFlags := updated;
      Synchronize({}, activeChords);
    }

    /** The changes of the latched modifiers in `updateHostModifiers`. */
    method UpdateLatch(updated: Flags)
      requires hostModifierFlags <= KEYBOARD
      modifies this`latchedModifierFlags
      ensures latchedModifierFlags == Latched(old(latchedModifierFlags), hostModifierFlags, updated)
    {
      if Command in hostModifierFlags && Command !in updated {
        latchedModifierFlags := {};
      }
      if Shift in hostModifierFlags && Shift !in updated {
        latchedModifierFlags := latchedModifierFlags - {Shift};
      }
      if Control in hostModifierFlags && Control !in updated {
        latchedModifierFlags := latchedModifierFlags - {Control};
      }
      if Opt in hostModifierFlags && Opt !in updated {
        latchedModifierFlags := latchedModifierFlags - {Opt};
      }
      if updated == {} {
        latchedModifierFlags := {};
      }
    }

    /** The release loop of `updateHostModifiers`. */
    method ReleaseKeys(keys: seq<nat>)
      requires Valid() && Distinct(keys) && KeySet(keys, |keys|) <= activeChords.Keys
      modifies this
      ensures Valid() && old(events) <= events
      ensures Current() == Dropped(old(Current()), KeySet(keys, |keys|))
    {
      ghost var s := Current();
      DroppedNone(s);
      for i := 0 to |keys|
        invariant Releasing(s, KeySet(keys, i)) && old(events) <= events
      {
        KeyIsNext(keys, i);
        ReleaseNext(s, KeySet(keys, i), keys[i]);
      }
    }

    /** On the way from the state `s`, with the keys `released` released. */
    ghost predicate Releasing(s: State, released: set<nat>)
      reads this
    {
      Valid() && Current() == Dropped(s, released)
    }

    method ReleaseNext(ghost s: State, ghost released: set<nat>, k: nat)
      requires Releasing(s, released) && k in s.chords && k !in released
      modifies this
      ensures Releasing(s, released + {k}) && old(events) <= events
    {
      DroppedMore(s, released, k);
      ReleaseKey(k);
    }

    /** `sendChord`: the key goes down and up between two changes of the modifiers, there and back. */
    method SendOneChord(chord: GuestChord)
      requires Valid()
      modifies this
      ensures Valid() && old(events) <= events
      ensures Current() == Settled(old(Current()))
      ensures var target := Target(activeChords, pointerModifierFlags, hostModifierFlags, latchedModifierFlags,
                                   chord.modifiers);
              var n := |old(events)| + Differences(old(guestModifierFlags), target);
              && |events| == n + 2 + Differences(target, guestModifierFlags)
              && events[n] == KeyEvent(chord.keyCode, true, chord.modifiers)
              && events[n + 1] == KeyEvent(chord.keyCode, false, chord.modifiers)
    {
      TargetKeyboard(activeChords, pointerModifierFlags, hostModifierFlags, latchedModifierFlags,
                     chord.modifiers);
      Synchronize(chord.modifiers, activeChords);
      Tap(chord, activeChords);
      Synchronize({}, activeChords);
    }

    method Tap(chord: GuestChord, ghost chords: map<nat, GuestChord>)
      requires Tracks(events, guestModifierFlags, chords) && Normalized(chord.modifiers) <= guestModifierFlags
      modifies this`events
      ensures Tracks(events, guestModifierFlags, chords)
      ensures events == old(events) + [KeyEvent(chord.keyCode, true, chord.modifiers),
                                       KeyEvent(chord.keyCode, false, chord.modifiers)]
    {
      EmitKey(chord.keyCode, true, chord.modifiers);
      EmitKey(chord.keyCode, false, chord.modifiers);
    }

    /** `releaseAll` */
    method ReleaseEverything()
      requires Valid()
      modifies this
      ensures Valid() && old(events) <= events
      ensures Current() == INITIAL
      ensures |events| == |old(events)| + |old(activeChords)| + Differences(old(guestModifierFlags), {})
    {
      EmitAllUp();
      ClearEverything();
    }

    /** Its assignments, once the keys are up. */
    method ClearEverything()
      requires Tracks(events, guestModifierFlags, map[])
      modifies this
      ensures Valid() && old(events) <= events
      ensures Current() == INITIAL
      ensures |events| == |old(events)| + Differences(old(guestModifierFlags), {})
    {
      activeChords := map[];
      activeHostModifiers := map[];
      pointerModifierFlags := {};
      hostModifierFlags := {};
      latchedModifierFlags := {};
      NothingHeld();
      Synchronize({}, map[]);
      assert Current() == INITIAL;
    }

    /** The loop of `releaseAll`. */
    method EmitAllUp()
      requires Tracks(events, guestModifierFlags, activeChords)
      modifies this`events
      ensures Tracks(events, guestModifierFlags, map[])
      ensures old(events) <= events && |events| == |old(events)| + |activeChords|
      ensures KeysGoUp(events, |old(events)|)
    {
      var remaining := activeChords;
      while remaining != map[]
        invariant Tracks(events, guestModifierFlags, remaining) && old(events) <= events
        invariant |events| + |remaining| == |old(events)| + |activeChords|
        invariant KeysGoUp(events, |old(events)|)
        decreases |remaining|
      {
        var k :| k in remaining;
        EmitUp(k, remaining[k], guestModifierFlags, remaining);
        assert remaining.Keys == (remaining - {k}).Keys + {k};
        remaining := remaining - {k};
      }
    }

    /** `synchronizeGuestModifiers`: one event for every modifier that changes, releases first. */
    method Synchronize(additional: Flags, ghost chords: map<nat, GuestChord>)
      requires Tracks(events, guestModifierFlags, chords)
      modifies this`events, this`guestModifierFlags
      ensures Tracks(events, guestModifierFlags, chords) && old(events) <= events
      ensures ReleasesFirst(events, |old(events)|)
      ensures |events| == |old(events)| + Differences(old(guestModifierFlags), guestModifierFlags)
      ensures guestModifierFlags == Target(activeChords, pointerModifierFlags, hostModifierFlags, latchedModifierFlags,
                                           additional)
    {
      var target := Target(activeChords, pointerModifierFlags, hostModifierFlags, latchedModifierFlags,
                           additional);
      TargetKeyboard(activeChords, pointerModifierFlags, hostModifierFlags, latchedModifierFlags,
                     additional);
      MoveTo(target, chords);
    }

    /** One event for each modifier in which the guest differs from the target. */
    method MoveTo(target: Flags, ghost chords: map<nat, GuestChord>)
      requires Tracks(events, guestModifierFlags, chords) && target <= KEYBOARD
      modifies this`events, this`guestModifierFlags
      ensures Tracks(events, target, chords) && guestModifierFlags == target
      ensures old(events) <= events && |events| == |old(events)| + Differences(old(guestModifierFlags), target)
      ensures ReleasesFirst(events, |old(events)|)
    {
      var current := LiftModifiers(guestModifierFlags, target, chords);
      PressModifiers(current, target, chords);
      guestModifierFlags := target;
    }

    /** The first loop of `synchronizeGuestModifiers`. */
    method LiftModifiers(flags: Flags, target: Flags, ghost chords: map<nat, GuestChord>) returns (current: Flags)
      requires Tracks(events, flags, chords)
      modifies this`events
      ensures Tracks(events, current, chords) && current == flags * target
      ensures Moved(old(events), events, flags, current, false)
    {
      current := flags;
      FirstAll();
      for i := 0 to |MODIFIERS|
        invariant Tracks(events, current, chords)
        invariant forall m :: m in current <==> m in flags && (m in First(i) ==> m in target)
        invariant Moved(old(events), events, flags, current, false)
      {
        var (flag, keyCode) := MODIFIERS[i];
        NextModifier(i);
        if flag in current && flag !in target {
          ghost var before := events;
          EmitModifier(keyCode, current - {flag}, flag, current, chords);
          MovedOnce(old(events), before, events[|before|], flags, current, current - {flag}, flag, false);
          current := current - {flag};
        }
      }
    }

    /** The second loop of `synchronizeGuestModifiers`. */
    method PressModifiers(flags: Flags, target: Flags, ghost chords: map<nat, GuestChord>)
      requires Tracks(events, flags, chords) && flags <= target <= KEYBOARD
      modifies this`events
      ensures Tracks(events, target, chords)
      ensures Moved(old(events), events, flags, target, true)
    {
      var current := flags;
      FirstAll();
      for i := 0 to |MODIFIERS|
        invariant Tracks(events, current, chords)
        invariant forall m :: m in current <==> m in flags || (m in First(i) && m in target)
        invariant Moved(old(events), events, flags, current, true)
      {
        var (flag, keyCode) := MODIFIERS[i];
        NextModifier(i);
        if flag !in current && flag in target {
          ghost var before := events;
          EmitModifier(keyCode, current + {flag}, flag, current, chords);
          MovedOnce(old(events), before, events[|before|], flags, current, current + {flag}, flag, true);
          current := current + {flag};
        }
      }
      assert current == target;
    }

    method EmitModifier(keyCode: nat, flags: Flags, ghost flag: Modifier, ghost held: Flags,
                        ghost chords: map<nat, GuestChord>)
      requires Tracks(events, held, chords) && ModifierFlag(keyCode) == {flag} && flag in KEYBOARD
      requires flags == if flag in held then held - {flag} else held + {flag}
      modifies this`events
      ensures Tracks(events, flags, chords)
      ensures events == old(events) + [GuestKeyEvent(keyCode, flag in flags, false, flags, true)]
    {
      var e := GuestKeyEvent(keyCode, ModifierFlag(keyCode) <= flags, false, flags, true);
      Appended(events, e);
      events := events + [e];
    }

    method EmitKey(keyCode: nat, isDown: bool, modifiers: Flags)
      requires AllSensible(events) && Normalized(modifiers) <= Held(events)
      requires !isDown ==> Count(events, keyCode) > 0
      modifies this`events
      ensures events == old(events) + [KeyEvent(keyCode, isDown, modifiers)]
      ensures AllSensible(events) && Held(events) == Held(old(events))
      ensures forall code :: Count(events, code) ==
                             Count(old(events), code) + if code != keyCode then 0 else if isDown then 1 else -1
    {
      var e := KeyEvent(keyCode, isDown, modifiers);
      Appended(events, e);
      events := events + [e];
    }
  }

  /** The modifiers among the first `n` entries of `MODIFIERS`. */
  function First(n: nat): Flags
    requires n <= |MODIFIERS|
  {
    if n == 0 then {} else First(n - 1) + {MODIFIERS[n - 1].0}
  }

  lemma FirstAll()
    ensures First(0) == {} && First(|MODIFIERS|) == KEYBOARD
  {
    assert First(1) == {Control} && First(2) == {Control, Opt} && First(3) == {Control, Opt, Shift};
  }

  lemma NextModifier(i: nat)
    requires i < |MODIFIERS|
    ensures First(i + 1) == First(i) + {MODIFIERS[i].0} && MODIFIERS[i].0 !in First(i)
    ensures ModifierFlag(MODIFIERS[i].1) == {MODIFIERS[i].0}
  {
    FirstAll();
    assert First(1) == {Control} && First(2) == {Control, Opt} && First(3) == {Control, Opt, Shift};
  }
}
