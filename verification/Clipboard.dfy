/**
 Keeping the clipboards of the host and the guest the same, by polling.

 Texts are compared by fingerprint.  Everything here holds for every fingerprint function, whatever it
 collides on.
 */
module Clipboard {
  import opened Wrappers
  import opened GuestProtocol
  import Utf8

  type Fingerprint = string -> nat

  // ----- the loop guard

  datatype ClipboardLoopGuard = ClipboardLoopGuard(lastSentToGuest: Option<nat>, lastAppliedFromGuest: Option<nat>) {

    predicate CanSendToGuest(text: string, digest: Fingerprint) {
      Some(digest(text)) != lastAppliedFromGuest && Some(digest(text)) != lastSentToGuest
    }

    function MarkSentToGuest(text: string, digest: Fingerprint): ClipboardLoopGuard {
      ClipboardLoopGuard(Some(digest(text)),
                         if Some(digest(text)) != lastAppliedFromGuest then None else lastAppliedFromGuest)
    }

    predicate ShouldApplyFromGuest(text: string, digest: Fingerprint) {
      Some(digest(text)) != lastSentToGuest && Some(digest(text)) != lastAppliedFromGuest
    }

    function MarkApplied(text: string, digest: Fingerprint): ClipboardLoopGuard {
      ClipboardLoopGuard(lastSentToGuest, Some(digest(text)))
    }
  }

  // ----- one step, as a function

  /** Both clipboards, with no text as `None`, and the synchronizer's fields. */
  datatype World = World(
    host: Option<string>,
    changes: nat,
    guest: Option<string>,
    seen: nat,
    loopGuard: ClipboardLoopGuard,
    pending: Option<string>,
    attempts: nat)

  datatype WriteReply = Accepted | Rejected | WriteFailed

  /** A copy by somebody else. */
  datatype Change = HostCopies(hostText: Option<string>) | GuestCopies(guestText: Option<string>)

  /** What happens during one poll: the guest's answers, and the copies made while the poll awaits them.  A write
      that is not accepted may have reached the guest's clipboard all the same. */
  datatype Poll = Poll(write: WriteReply, reached: bool, readFails: bool, whileWriting: seq<Change>,
                       whileReading: seq<Change>)

  predicate Undisturbed(p: Poll) {
    p.whileWriting == [] && p.whileReading == []
  }

  predicate Small(text: string) {
    Utf8.Size(text) <= MAX_CLIPBOARD
  }

  predicate Oversized(w: World) {
    w.changes != w.seen && w.host.Some? && !Small(w.host.value)
  }

  function Changed(w: World, c: Change): World {
    match c
    case HostCopies(text) => w.(host := text, changes := w.changes + 1)
    case GuestCopies(text) => w.(guest := text)
  }

  function ChangedBy(w: World, changes: seq<Change>): World {
    if changes == [] then w else Changed(ChangedBy(w, changes[..|changes| - 1]), changes[|changes| - 1])
  }

  /** Look at the host's clipboard. */
  function Observe(w: World, digest: Fingerprint): World {
    if w.changes == w.seen then w
    else
      var pending := if w.host.Some? && Small(w.host.value) && w.loopGuard.CanSendToGuest(w.host.value, digest)
                     then w.host else None;
      w.(seen := w.changes, pending := pending, attempts := 0)
  }

  /** The pending text on its way to the guest. */
  function Sent(w: World, p: Poll): World
    requires w.pending.Some?
  {
    if p.write.Accepted? || p.reached then w.(guest := w.pending) else w
  }

  /** After the guest's answer to the write; the third attempt is the last. */
  function Answered(w: World, p: Poll, digest: Fingerprint): World
    requires w.pending.Some?
  {
    if p.write.Accepted? then
      w.(loopGuard := w.loopGuard.MarkSentToGuest(w.pending.value, digest), pending := None, attempts := 0)
    else if w.attempts + 1 < 3 then w.(attempts := w.attempts + 1)
    else w.(pending := None, attempts := 0)
  }

  /** After the guest's answer to the read: copy a new text to the host. */
  function Apply(w: World, text: string, digest: Fingerprint): World {
    if !Small(text) || !w.loopGuard.ShouldApplyFromGuest(text, digest) then w
    else
      var marked := w.(loopGuard := w.loopGuard.MarkApplied(text, digest));
      if w.host == Some(text) then marked
      else marked.(host := Some(text), changes := w.changes + 1, seen := w.changes + 1)
  }

  function Fetch(w: World, p: Poll, digest: Fingerprint): World {
    var later := ChangedBy(w, p.whileReading);
    if p.readFails || w.guest.None? then later else Apply(later, w.guest.value, digest)
  }

  predicate Writes(w: World, digest: Fingerprint) {
    !Oversized(w) && Observe(w, digest).pending.Some?
  }

  function Attempt(w: World, p: Poll, digest: Fingerprint): (t: World)
    requires w.pending.Some?
  {
    PendingStays(Sent(w, p), p.whileWriting);
    Answered(ChangedBy(Sent(w, p), p.whileWriting), p, digest)
  }

  lemma {:induction false} PendingStays(w: World, changes: seq<Change>)
    ensures var t := ChangedBy(w, changes);
            && t.pending == w.pending && t.attempts == w.attempts && t.loopGuard == w.loopGuard && t.seen == w.seen
            && w.changes <= t.changes
  {
    if changes != [] {
      PendingStays(w, changes[..|changes| - 1]);
    }
  }

  function Step(w: World, p: Poll, digest: Fingerprint): World {
    var observed := Observe(w, digest);
    if Oversized(w) then observed
    else if observed.pending.None? then Fetch(observed, p, digest)
    else
      var attempted := Attempt(observed, p, digest);
      if attempted.pending.Some? then attempted else Fetch(attempted, p, digest)
  }

  // ----- the synchronizer

  class Pasteboard {
    var text: Option<string>
    var changeCount: nat
  }

  class GuestClipboard {
    var text: Option<string>
  }

  class GuestClipboardSynchronizer {
    const digest: Fingerprint
    const pasteboard: Pasteboard
    const guest: GuestClipboard
    var lastPasteboardChangeCount: nat
    var loopGuard: ClipboardLoopGuard
    var pendingHostText: Option<string>
    var pendingHostWriteAttempts: nat

    function Current(): World
      reads this, pasteboard, guest
    {
      World(pasteboard.text, pasteboard.changeCount, guest.text, lastPasteboardChangeCount, loopGuard,
            pendingHostText, pendingHostWriteAttempts)
    }

    /** `start` */
    constructor (pasteboard: Pasteboard, guest: GuestClipboard, digest: Fingerprint)
      ensures this.pasteboard == pasteboard && this.guest == guest && this.digest == digest
      ensures Current() == Started(pasteboard.text, pasteboard.changeCount, guest.text)
    {
      this.pasteboard := pasteboard;
      this.guest := guest;
      this.digest := digest;
      lastPasteboardChangeCount := pasteboard.changeCount;
      loopGuard := ClipboardLoopGuard(None, None);
      pendingHostText := None;
      pendingHostWriteAttempts := 0;
    }

    /** `synchronize`; `p` is what happens during it, and `writes` tells whether a write was requested. */
    method Synchronize(p: Poll) returns (writes: bool)
      modifies this, pasteboard, guest
      ensures Current() == Step(old(Current()), p, digest)
      ensures writes == Writes(old(Current()), digest)
    {
      writes := false;
      if pasteboard.changeCount != lastPasteboardChangeCount {
        lastPasteboardChangeCount := pasteboard.changeCount;
        pendingHostText := None;
        pendingHostWriteAttempts := 0;
        if pasteboard.text.Some? {
          var text := pasteboard.text.value;
          if !Small(text) {
            pendingHostText := None;
            return;
          }
          if loopGuard.CanSendToGuest(text, digest) {
            pendingHostText := Some(text);
          }
        }
      }
      if pendingHostText.Some? {
        writes := true;
        var retry := SendPending(p);
        if retry {
          return;
        }
      }
      ReadGuest(p);
    }

    /** The part about the pending text */
    method SendPending(p: Poll) returns (retry: bool)
      requires pendingHostText.Some?
      modifies this, pasteboard, guest
      ensures Current() == Attempt(old(Current()), p, digest)
      ensures retry == pendingHostText.Some?
    {
      var text := pendingHostText.value;
      if p.write.Accepted? || p.reached {
        guest.text := Some(text);
      }
      PendingStays(Current(), p.whileWriting);
      OthersCopy(p.whileWriting);
      if p.write.Accepted? {
        loopGuard := loopGuard.MarkSentToGuest(text, digest);
        pendingHostText := None;
        pendingHostWriteAttempts := 0;
      } else {
        pendingHostWriteAttempts := pendingHostWriteAttempts + 1;
        if pendingHostWriteAttempts < 3 {
          return true;
        }
        pendingHostText := None;
        pendingHostWriteAttempts := 0;
      }
      return false;
    }

    /** The part about the guest's text */
    method ReadGuest(p: Poll)
      modifies this, pasteboard, guest
      ensures Current() == Fetch(old(Current()), p, digest)
    {
      var response := guest.text;
      OthersCopy(p.whileReading);
      if p.readFails || response.None? || !Small(response.value) {
        return;
      }
      var text := response.value;
      if !loopGuard.ShouldApplyFromGuest(text, digest) {
        return;
      }
      loopGuard := loopGuard.MarkApplied(text, digest);
      if pasteboard.text == Some(text) {
        return;
      }
      pasteboard.text := Some(text);
      pasteboard.changeCount := pasteboard.changeCount + 1;
      lastPasteboardChangeCount := pasteboard.changeCount;
    }

    /** Copies by others, while the synchronizer awaits the guest */
    method OthersCopy(changes: seq<Change>)
      modifies pasteboard, guest
      ensures Current() == ChangedBy(old(Current()), changes)
    {
      for i := 0 to |changes|
        invariant Current() == ChangedBy(old(Current()), changes[..i])
      {
        assert changes[..i + 1][..i] == changes[..i];
        match changes[i] {
          case HostCopies(text) =>
            pasteboard.text := text;
            pasteboard.changeCount := pasteboard.changeCount + 1;
          case GuestCopies(text) =>
            guest.text := text;
        }
      }
      assert changes[..|changes|] == changes;
    }
  }

  function Started(host: Option<string>, changes: nat, guest: Option<string>): World {
    World(host, changes, guest, changes, ClipboardLoopGuard(None, None), None, 0)
  }

  // ----- runs

  /** A run with changes from outside, between the polls and during them. */
  datatype Event = Between(change: Change) | Synchronized(poll: Poll)

  function After(w: World, e: Event, digest: Fingerprint): World {
    match e
    case Between(change) => Changed(w, change)
    case Synchronized(p) => Step(w, p, digest)
  }

  function AfterAll(w: World, events: seq<Event>, digest: Fingerprint): World {
    if events == [] then w else After(AfterAll(w, events[..|events| - 1], digest), events[|events| - 1], digest)
  }

  predicate WritesAt(w: World, e: Event, digest: Fingerprint) {
    e.Synchronized? && Writes(w, digest)
  }

  function WritesIn(w: World, events: seq<Event>, digest: Fingerprint): nat {
    if events == [] then 0
    else
      var before, e := AfterAll(w, events[..|events| - 1], digest), events[|events| - 1];
      WritesIn(w, events[..|events| - 1], digest) + if WritesAt(before, e, digest) then 1 else 0
  }

  // ----- quiescence

  /** Nothing is copied by anybody else. */
  predicate AllUndisturbed(events: seq<Event>) {
    forall i :: 0 <= i < |events| ==> events[i].Synchronized? && Undisturbed(events[i].poll)
  }

  /** Nothing is pending or unseen, and the guest's text is not to be applied. */
  predicate Quiet(w: World, digest: Fingerprint) {
    && w.pending.None? && w.seen == w.changes
    && (w.guest.Some? && Small(w.guest.value) ==> !w.loopGuard.ShouldApplyFromGuest(w.guest.value, digest))
  }

  lemma QuietStep(w: World, p: Poll, digest: Fingerprint)
    requires Quiet(w, digest) && Undisturbed(p)
    ensures Step(w, p, digest) == w && !Writes(w, digest)
  {
  }

  /** In a quiet world no poll changes anything or requests a write. */
  lemma {:induction false} QuietStays(w: World, events: seq<Event>, digest: Fingerprint)
    requires Quiet(w, digest) && AllUndisturbed(events)
    ensures AfterAll(w, events, digest) == w && WritesIn(w, events, digest) == 0
  {
    if events != [] {
      var n := |events| - 1;
      QuietStays(w, events[..n], digest);
      QuietStep(w, events[n].poll, digest);
    }
  }

  /** Once the synchronizer has read the guest, all is quiet. */
  lemma FetchIsQuiet(w: World, p: Poll, digest: Fingerprint)
    requires w.pending.None? && w.seen == w.changes && !p.readFails && Undisturbed(p)
    ensures Quiet(Fetch(w, p, digest), digest)
  {
  }

  lemma StepTowardsQuiet(w: World, p: Poll, digest: Fingerprint)
    requires !p.readFails && Undisturbed(p)
    ensures var t := Step(w, p, digest);
            || Quiet(t, digest)
            || (Oversized(w) && t.seen == t.changes && t.pending.None?)
            || (t.seen == t.changes && t.pending.Some? && t.attempts == Observe(w, digest).attempts + 1 && t.attempts < 3)
  {
    var observed := Observe(w, digest);
    if !Oversized(w) {
      if observed.pending.None? {
        FetchIsQuiet(observed, p, digest);
      } else {
        var attempted := Attempt(observed, p, digest);
        if attempted.pending.None? {
          FetchIsQuiet(attempted, p, digest);
        }
      }
    }
  }

  /**
   Without changes from outside, and with readable clipboards, three polls are enough: whatever becomes of the
   writes, no later poll changes a clipboard or requests a write, even if reads fail then.
   */
  lemma QuietAfterThree(w: World, a: Poll, b: Poll, c: Poll, later: seq<Event>, digest: Fingerprint)
    requires !a.readFails && !b.readFails && !c.readFails
    requires Undisturbed(a) && Undisturbed(b) && Undisturbed(c) && AllUndisturbed(later)
    ensures var t := Step(Step(Step(w, a, digest), b, digest), c, digest);
            AfterAll(t, later, digest) == t && WritesIn(t, later, digest) == 0
  {
    var w1 := Step(w, a, digest);
    var w2 := Step(w1, b, digest);
    var w3 := Step(w2, c, digest);
    StepTowardsQuiet(w, a, digest);
    StepTowardsQuiet(w1, b, digest);
    StepTowardsQuiet(w2, c, digest);
    if Quiet(w1, digest) {
      QuietStep(w1, b, digest);
    }
    if Quiet(w2, digest) {
      QuietStep(w2, c, digest);
    }
    QuietStays(w3, later, digest);
  }

  // ----- how often the host writes

  function HostCopiesIn(changes: seq<Change>): nat {
    if changes == [] then 0
    else HostCopiesIn(changes[..|changes| - 1]) + if changes[|changes| - 1].HostCopies? then 1 else 0
  }

  /** How often the host's clipboard is changed from outside. */
  function HostChanges(e: Event): nat {
    match e
    case Between(change) => if change.HostCopies? then 1 else 0
    case Synchronized(p) => HostCopiesIn(p.whileWriting) + HostCopiesIn(p.whileReading)
  }

  function AllHostChanges(events: seq<Event>): nat {
    if events == [] then 0 else AllHostChanges(events[..|events| - 1]) + HostChanges(events[|events| - 1])
  }

  predicate ByGuestOnly(changes: seq<Change>) {
    forall i :: 0 <= i < |changes| ==> changes[i].GuestCopies?
  }

  /** Nobody else copies anything on the host. */
  predicate LeavesHost(e: Event) {
    match e
    case Between(change) => change.GuestCopies?
    case Synchronized(p) => ByGuestOnly(p.whileWriting) && ByGuestOnly(p.whileReading)
  }

  predicate HostUnchanged(events: seq<Event>) {
    forall i :: 0 <= i < |events| ==> LeavesHost(events[i])
  }

  lemma {:induction false} NoHostCopies(changes: seq<Change>)
    ensures HostCopiesIn(changes) == 0 <==> ByGuestOnly(changes)
  {
    if changes != [] {
      NoHostCopies(changes[..|changes| - 1]);
    }
  }

  lemma NoHostChanges(e: Event)
    ensures HostChanges(e) == 0 <==> LeavesHost(e)
  {
    if e.Synchronized? {
      NoHostCopies(e.poll.whileWriting);
      NoHostCopies(e.poll.whileReading);
    }
  }

  /** The writes that the present state can still lead to on its own. */
  function Budget(w: World): nat {
    if w.seen != w.changes then 3 else if w.pending.Some? && w.attempts < 3 then 3 - w.attempts else 0
  }

  predicate Bounded(w: World) {
    w.attempts < 3 && (w.seen <= w.changes)
  }

  lemma {:induction false} ChangesCounted(w: World, changes: seq<Change>)
    ensures ChangedBy(w, changes).changes == w.changes + HostCopiesIn(changes)
    ensures HostCopiesIn(changes) == 0 ==> ChangedBy(w, changes).host == w.host
  {
    if changes != [] {
      ChangesCounted(w, changes[..|changes| - 1]);
    }
  }

  /** A poll uses up what it writes, unless the host's clipboard is changed during it. */
  lemma StepWithinBudget(w: World, p: Poll, digest: Fingerprint)
    requires Bounded(w)
    ensures Bounded(Step(w, p, digest))
    ensures Budget(Step(w, p, digest)) <= 3
    ensures HostChanges(Synchronized(p)) == 0 ==>
              Budget(Step(w, p, digest)) + (if Writes(w, digest) then 1 else 0) <= Budget(w)
    ensures Writes(w, digest) ==> Budget(w) >= 1
  {
    var observed := Observe(w, digest);
    if Oversized(w) {
    } else if observed.pending.None? {
      FetchWithinBudget(observed, p, digest);
    } else {
      var sent := Sent(observed, p);
      PendingStays(sent, p.whileWriting);
      ChangesCounted(sent, p.whileWriting);
      var attempted := Attempt(observed, p, digest);
      if attempted.pending.None? {
        FetchWithinBudget(attempted, p, digest);
      }
    }
  }

  lemma FetchWithinBudget(w: World, p: Poll, digest: Fingerprint)
    requires Bounded(w) && w.pending.None?
    ensures Bounded(Fetch(w, p, digest)) && Fetch(w, p, digest).pending.None?
    ensures HostCopiesIn(p.whileReading) == 0 ==> Budget(Fetch(w, p, digest)) <= Budget(w)
  {
    PendingStays(w, p.whileReading);
    ChangesCounted(w, p.whileReading);
  }

  /** Until the host's clipboard is changed again, there are no more writes than the state allows. */
  lemma {:induction false} WritesPerChange(w: World, events: seq<Event>, digest: Fingerprint)
    requires Bounded(w) && HostUnchanged(events)
    ensures Bounded(AfterAll(w, events, digest))
    ensures WritesIn(w, events, digest) + Budget(AfterAll(w, events, digest)) <= Budget(w) <= 3
  {
    if events != [] {
      var before, e := events[..|events| - 1], events[|events| - 1];
      WritesPerChange(w, before, digest);
      NoHostChanges(e);
      if e.Synchronized? {
        StepWithinBudget(AfterAll(w, before, digest), e.poll, digest);
      }
    }
  }

  lemma {:induction false} ReachableIsBounded(host: Option<string>, changes: nat, guest: Option<string>,
                                              events: seq<Event>, digest: Fingerprint)
    ensures Bounded(AfterAll(Started(host, changes, guest), events, digest))
  {
    if events != [] {
      var before, e := events[..|events| - 1], events[|events| - 1];
      ReachableIsBounded(host, changes, guest, before, digest);
      if e.Synchronized? {
        StepWithinBudget(AfterAll(Started(host, changes, guest), before, digest), e.poll, digest);
      }
    }
  }

  /** In every run, each change of the host's clipboard causes at most three writes: that many can follow it, up to
      and including the event in which the next change happens, and none can come before the first. */
  lemma EachChangeAtMostThreeWrites(host: Option<string>, changes: nat, guest: Option<string>, before: seq<Event>,
                                    segment: seq<Event>, last: Event, digest: Fingerprint)
    requires HostUnchanged(segment)
    ensures var w := AfterAll(Started(host, changes, guest), before, digest);
            WritesIn(w, segment + [last], digest) <= if HostUnchanged(before) then 0 else 3
  {
    var start := Started(host, changes, guest);
    var w := AfterAll(start, before, digest);
    ReachableIsBounded(host, changes, guest, before, digest);
    WritesPerChange(w, segment, digest);
    if HostUnchanged(before) {
      WritesPerChange(start, before, digest);
    }
    assert (segment + [last])[..|segment|] == segment;
    if last.Synchronized? {
      StepWithinBudget(AfterAll(w, segment, digest), last.poll, digest);
    }
  }

  lemma HostUnchangedOnly(e: Event)
    ensures HostUnchanged([e]) <==> HostChanges(e) == 0
  {
    NoHostChanges(e);
    assert [e][0] == e;
  }

  /** So the writes of a whole run are at most three times the changes. */
  lemma {:induction false} AtMostThreeWrites(host: Option<string>, changes: nat, guest: Option<string>,
                                             events: seq<Event>, digest: Fingerprint)
    ensures var w := Started(host, changes, guest);
            WritesIn(w, events, digest) + Budget(AfterAll(w, events, digest)) <= 3 * AllHostChanges(events)
  {
    if events != [] {
      var before, e := events[..|events| - 1], events[|events| - 1];
      var w := AfterAll(Started(host, changes, guest), before, digest);
      AtMostThreeWrites(host, changes, guest, before, digest);
      ReachableIsBounded(host, changes, guest, before, digest);
      if HostChanges(e) == 0 {
        HostUnchangedOnly(e);
        WritesPerChange(w, [e], digest);
        assert [e][..0] == [];
      } else if e.Synchronized? {
        StepWithinBudget(w, e.poll, digest);
      }
    }
  }

  // ----- when the clipboards end up equal

  /** A pending text that is not outdated is the host's. */
  predicate PendingIsHost(w: World) {
    w.pending.Some? && w.seen == w.changes ==> w.pending == w.host
  }

  lemma StepKeepsPending(w: World, p: Poll, digest: Fingerprint)
    requires PendingIsHost(w) && Bounded(w)
    ensures PendingIsHost(Step(w, p, digest))
  {
    var observed := Observe(w, digest);
    if !Oversized(w) {
      if observed.pending.None? {
        FetchWithinBudget(observed, p, digest);
      } else {
        var sent := Sent(observed, p);
        PendingStays(sent, p.whileWriting);
        ChangesCounted(sent, p.whileWriting);
        var attempted := Attempt(observed, p, digest);
        if attempted.pending.None? {
          FetchWithinBudget(attempted, p, digest);
        }
      }
    }
  }

  lemma {:induction false} ReachablePending(host: Option<string>, changes: nat, guest: Option<string>,
                                            events: seq<Event>, digest: Fingerprint)
    ensures PendingIsHost(AfterAll(Started(host, changes, guest), events, digest))
  {
    if events != [] {
      var before, e := events[..|events| - 1], events[|events| - 1];
      ReachablePending(host, changes, guest, before, digest);
      ReachableIsBounded(host, changes, guest, before, digest);
      if e.Synchronized? {
        StepKeepsPending(AfterAll(Started(host, changes, guest), before, digest), e.poll, digest);
      }
    }
  }

  /** The guest's text after changes */
  function GuestAfter(guest: Option<string>, changes: seq<Change>): Option<string> {
    if changes == [] then guest
    else match changes[|changes| - 1]
      case HostCopies(_) => GuestAfter(guest, changes[..|changes| - 1])
      case GuestCopies(text) => text
  }

  /** The text of the last host copy, if there is one */
  function LastHostCopy(changes: seq<Change>): Option<Option<string>> {
    if changes == [] then None
    else match changes[|changes| - 1]
      case HostCopies(text) => Some(text)
      case GuestCopies(_) => LastHostCopy(changes[..|changes| - 1])
  }

  /** What the guest has when it is read. */
  function GuestText(w: World, p: Poll, digest: Fingerprint): Option<string> {
    if !Writes(w, digest) then w.guest
    else GuestAfter(if p.write.Accepted? || p.reached then Observe(w, digest).pending else w.guest, p.whileWriting)
  }

  /** The guard as it stands when the guest is read. */
  function GuardAtRead(w: World, p: Poll, digest: Fingerprint): ClipboardLoopGuard {
    if Writes(w, digest) && p.write.Accepted?
    then w.loopGuard.MarkSentToGuest(Observe(w, digest).pending.value, digest)
    else w.loopGuard
  }

  /** The poll gets as far as reading the guest. */
  predicate Reads(w: World, p: Poll, digest: Fingerprint) {
    !Oversized(w) && (Writes(w, digest) ==> p.write.Accepted? || Observe(w, digest).attempts + 1 >= 3)
  }

  /** The copies by others that fall into the poll's awaits. */
  function Copies(w: World, p: Poll, digest: Fingerprint): seq<Change> {
    (if Writes(w, digest) then p.whileWriting else []) + if Reads(w, p, digest) then p.whileReading else []
  }

  /** The guest's text is new to the synchronizer, which can read it. */
  predicate IsNews(w: World, p: Poll, digest: Fingerprint) {
    var text := GuestText(w, p, digest);
    && Reads(w, p, digest) && !p.readFails && text.Some? && Small(text.value)
    && GuardAtRead(w, p, digest).ShouldApplyFromGuest(text.value, digest)
  }

  /**
   After every undisturbed poll of every run the clipboards are equal exactly if the guest has accepted a write in
   it, or they were equal by then, or the guest's text was news.
   */
  lemma EqualExactlyIf(w: World, p: Poll, digest: Fingerprint)
    requires PendingIsHost(w) && Undisturbed(p)
    ensures var t := Step(w, p, digest);
            t.host == t.guest <==>
              || (Writes(w, digest) && p.write.Accepted?)
              || w.host == GuestText(w, p, digest)
              || IsNews(w, p, digest)
  {
    var observed := Observe(w, digest);
    if !Oversized(w) && observed.pending.Some? {
      assert observed.pending == w.host;
    }
  }

  lemma {:induction false} AfterCopies(w: World, changes: seq<Change>)
    ensures var t := ChangedBy(w, changes);
            && t.guest == GuestAfter(w.guest, changes)
            && t.host == (if LastHostCopy(changes).Some? then LastHostCopy(changes).value else w.host)
            && t.pending == w.pending && t.attempts == w.attempts && t.loopGuard == w.loopGuard && t.seen == w.seen
            && w.changes <= t.changes && (LastHostCopy(changes).Some? ==> w.changes < t.changes)
  {
    if changes != [] {
      AfterCopies(w, changes[..|changes| - 1]);
    }
  }

  lemma {:induction false} LastOfBoth(first: seq<Change>, second: seq<Change>)
    ensures LastHostCopy(first + second) ==
            if LastHostCopy(second).Some? then LastHostCopy(second) else LastHostCopy(first)
  {
    if second == [] {
      assert first + second == first;
    } else {
      assert (first + second)[..|first + second| - 1] == first + second[..|second| - 1];
      LastOfBoth(first, second[..|second| - 1]);
    }
  }

  /** The world when the guest's answer to the read arrives. */
  ghost predicate ReadsIn(w: World, p: Poll, arrived: World, digest: Fingerprint) {
    && Reads(w, p, digest)
    && Step(w, p, digest) == (if p.readFails || GuestText(w, p, digest).None? then arrived
                              else Apply(arrived, GuestText(w, p, digest).value, digest))
    && arrived.pending.None? && arrived.loopGuard == GuardAtRead(w, p, digest)
    && arrived.guest == GuestAfter(GuestText(w, p, digest), p.whileReading)
  }

  lemma WhenRead(w: World, p: Poll, digest: Fingerprint) returns (arrived: World)
    requires Bounded(w) && Reads(w, p, digest)
    ensures ReadsIn(w, p, arrived, digest)
    ensures var copy := LastHostCopy(Copies(w, p, digest));
            copy.Some? ==> arrived.host == copy.value && arrived.seen < arrived.changes
  {
    var observed := Observe(w, digest);
    LastOfBoth(p.whileWriting, p.whileReading);
    assert [] + p.whileReading == p.whileReading;
    if observed.pending.None? {
      AfterCopies(observed, p.whileReading);
      arrived := ChangedBy(observed, p.whileReading);
    } else {
      AfterCopies(Sent(observed, p), p.whileWriting);
      var attempted := Attempt(observed, p, digest);
      AfterCopies(attempted, p.whileReading);
      arrived := ChangedBy(attempted, p.whileReading);
      assert attempted.pending.None? && Step(w, p, digest) == Fetch(attempted, p, digest);
    }
  }

  /**
   Whatever is copied on either side during a poll's awaits: the last host copy stays, to be looked at in the next
   poll, exactly unless the guest's text is news and a different one.
   */
  lemma HostCopyStaysExactlyIf(w: World, p: Poll, copy: Option<string>, digest: Fingerprint)
    requires Bounded(w) && LastHostCopy(Copies(w, p, digest)) == Some(copy)
    ensures var t := Step(w, p, digest);
            (t.host == copy && t.seen != t.changes) <==> !IsNews(w, p, digest) || GuestText(w, p, digest) == copy
  {
    if Reads(w, p, digest) {
      var arrived := WhenRead(w, p, digest);
    } else if Writes(w, digest) {
      var observed := Observe(w, digest);
      assert p.whileWriting + [] == p.whileWriting;
      AfterCopies(Sent(observed, p), p.whileWriting);
      assert Step(w, p, digest) == Attempt(observed, p, digest);
    }
  }

  /** Otherwise the guest's text takes its place.  Nothing is pending then, and until the host's clipboard is changed
      again nothing is written; all is quiet, unless the guest's clipboard has changed as well. */
  lemma HostCopyIsLost(w: World, p: Poll, copy: Option<string>, later: seq<Event>, digest: Fingerprint)
    requires Bounded(w) && LastHostCopy(Copies(w, p, digest)) == Some(copy)
    requires IsNews(w, p, digest) && GuestText(w, p, digest) != copy
    requires HostUnchanged(later)
    ensures var t := Step(w, p, digest);
            && t.host == GuestText(w, p, digest) && t.pending.None? && t.seen == t.changes
            && WritesIn(t, later, digest) == 0
            && (GuestAfter(GuestText(w, p, digest), p.whileReading) == GuestText(w, p, digest) ==> Quiet(t, digest))
  {
    var arrived := WhenRead(w, p, digest);
    StepWithinBudget(w, p, digest);
    WritesPerChange(Step(w, p, digest), later, digest);
  }

  lemma OneChange(w: World, c: Change)
    ensures ChangedBy(w, [c]) == Changed(w, c)
  {
    assert [c][..0] == [];
  }

  // ----- what a copy leads to

  /** Whatever was applied before: once the guest has accepted the text `x`, the next text that is copied there is on
      the host after the next poll, exactly if it is within 1 MiB and has another fingerprint. */
  lemma GuestCopyArrives(w: World, p: Poll, x: string, y: string, q: Poll, digest: Fingerprint)
    requires Writes(w, digest) && p.write.Accepted? && Undisturbed(p) && Step(w, p, digest).guest == Some(x)
    requires Undisturbed(q) && !q.readFails
    ensures var t := Step(w, p, digest);
            var u := Step(Changed(t, GuestCopies(Some(y))), q, digest);
            && u.guest == Some(y)
            && u.host == if Utf8.Size(y) <= 1024 * 1024 && digest(y) != digest(x) then Some(y) else t.host
  {
    var observed := Observe(w, digest);
    assert Attempt(observed, p, digest) == Answered(Sent(observed, p), p, digest);
  }

  /** The text of the last write that the guest has accepted */
  function LastAccepted(w: World, events: seq<Event>, digest: Fingerprint): Option<string> {
    if events == [] then None
    else
      var before, e := AfterAll(w, events[..|events| - 1], digest), events[|events| - 1];
      if WritesAt(before, e, digest) && e.poll.write.Accepted? then Observe(before, digest).pending
      else LastAccepted(w, events[..|events| - 1], digest)
  }

  /** In every run the synchronizer remembers the fingerprint of exactly that text. */
  lemma {:induction false} RemembersLastAccepted(host: Option<string>, changes: nat, guest: Option<string>,
                                                 events: seq<Event>, digest: Fingerprint)
    ensures var start := Started(host, changes, guest);
            var last := LastAccepted(start, events, digest);
            AfterAll(start, events, digest).loopGuard.lastSentToGuest ==
            if last.Some? then Some(digest(last.value)) else None
  {
    if events != [] {
      var before, e := events[..|events| - 1], events[|events| - 1];
      RemembersLastAccepted(host, changes, guest, before, digest);
      if e.Synchronized? {
        StepRemembers(AfterAll(Started(host, changes, guest), before, digest), e.poll, digest);
      }
    }
  }

  lemma StepRemembers(w: World, p: Poll, digest: Fingerprint)
    ensures Step(w, p, digest).loopGuard.lastSentToGuest ==
            if Writes(w, digest) && p.write.Accepted? then Some(digest(Observe(w, digest).pending.value))
            else w.loopGuard.lastSentToGuest
  {
    var observed := Observe(w, digest);
    if Oversized(w) {
    } else if observed.pending.None? {
      PendingStays(observed, p.whileReading);
    } else {
      PendingStays(Sent(observed, p), p.whileWriting);
      PendingStays(Attempt(observed, p, digest), p.whileReading);
    }
  }

  /** Once the guest's text `y` has been taken, a text that is then copied on the host reaches the guest with an
      accepted write, exactly if it is within 1 MiB and its fingerprint is neither that of `y` nor that of the text
      that was sent last. */
  lemma HostCopyArrives(w: World, y: string, p: Poll, x: string, q: Poll, digest: Fingerprint)
    requires w.pending.None? && w.seen == w.changes && w.guest == Some(y) && w.host != Some(y)
    requires Undisturbed(p) && Step(w, p, digest).host == Some(y)
    requires Undisturbed(q) && q.write.Accepted?
    ensures var t := Changed(Step(w, p, digest), HostCopies(Some(x)));
            var sent := && Utf8.Size(x) <= 1024 * 1024 && digest(x) != digest(y)
                        && Some(digest(x)) != w.loopGuard.lastSentToGuest;
            && (Writes(t, digest) <==> sent)
            && Step(t, q, digest).guest == if sent then Some(x) else Some(y)
  {
  }

  /** A text from the host that the guest does not accept is written three times, whatever has been tried before: the
      bound of three writes for a change is reached. */
  lemma ThreeAttempts(w: World, x: string, events: seq<Event>, digest: Fingerprint)
    requires Bounded(w) && Utf8.Size(x) <= 1024 * 1024
    requires Some(digest(x)) != w.loopGuard.lastSentToGuest && Some(digest(x)) != w.loopGuard.lastAppliedFromGuest
    requires |events| == 4 && events[0] == Between(HostCopies(Some(x)))
    requires forall i :: 1 <= i < 4 ==> IsRejected(events[i])
    ensures WritesIn(w, events, digest) == 3 && AllHostChanges(events) == 1
    ensures AfterAll(w, events[..3], digest).host == Some(x) && !Writes(AfterAll(w, events, digest), digest)
  {
    var w0 := Changed(w, HostCopies(Some(x)));
    FirstEvents(w, events, 1, digest);
    FirstEvents(w, events, 2, digest);
    FirstEvents(w, events, 3, digest);
    FirstEvents(w, events, 4, digest);
    assert events[..0] == [] && events[..4] == events;
    TriedThrice(w, x, events[1].poll, events[2].poll, events[3].poll, digest);
    NoHostChanges(events[1]);
    NoHostChanges(events[2]);
    NoHostChanges(events[3]);
  }

  /** An undisturbed poll with a write that is not accepted, if there is one */
  predicate IsRejected(e: Event) {
    e.Synchronized? && Undisturbed(e.poll) && !e.poll.write.Accepted?
  }

  lemma FirstEvents(w: World, events: seq<Event>, n: nat, digest: Fingerprint)
    requires 0 < n <= |events|
    ensures var before, e := events[..n - 1], events[n - 1];
            && AfterAll(w, events[..n], digest) == After(AfterAll(w, before, digest), e, digest)
            && WritesIn(w, events[..n], digest) ==
               WritesIn(w, before, digest) + (if WritesAt(AfterAll(w, before, digest), e, digest) then 1 else 0)
            && AllHostChanges(events[..n]) == AllHostChanges(before) + HostChanges(e)
  {
    assert events[..n][..n - 1] == events[..n - 1];
  }

  lemma TriedThrice(w: World, x: string, a: Poll, b: Poll, c: Poll, digest: Fingerprint)
    requires Bounded(w) && Small(x)
    requires Some(digest(x)) != w.loopGuard.lastSentToGuest && Some(digest(x)) != w.loopGuard.lastAppliedFromGuest
    requires Undisturbed(a) && Undisturbed(b) && Undisturbed(c)
    requires !a.write.Accepted? && !b.write.Accepted? && !c.write.Accepted?
    ensures var w0 := Changed(w, HostCopies(Some(x)));
            var w1 := Step(w0, a, digest);
            var w2 := Step(w1, b, digest);
            && Writes(w0, digest) && Writes(w1, digest) && Writes(w2, digest) && !Writes(Step(w2, c, digest), digest)
            && w2.host == Some(x)
  {
    var w1 := Step(Changed(w, HostCopies(Some(x))), a, digest);
    assert w1.pending == w1.host == Some(x) && w1.attempts == 1 && w1.seen == w1.changes;
    var w2 := Step(w1, b, digest);
    assert w2.pending == w2.host == Some(x) && w2.attempts == 2 && w2.seen == w2.changes;
    var attempted := Attempt(w2, c, digest);
    assert attempted.pending.None? && Step(w2, c, digest) == Fetch(attempted, c, digest);
  }

  /** A text that is too large is skipped, and the guest is not even read. */
  lemma OversizedIsSkipped(w: World, x: string, p: Poll, digest: Fingerprint)
    requires Utf8.Size(x) > 1024 * 1024 && Bounded(w)
    ensures var t := Changed(w, HostCopies(Some(x)));
            Step(t, p, digest) == t.(seen := t.changes, pending := None, attempts := 0) && !Writes(t, digest)
  {
  }

  /** A host copy is lost while the guest is read; */
  lemma CopyWhileReadingIsLost(b: string, c: string, digest: Fingerprint)
    requires b != c && Small(b)
    ensures var poll := Poll(Accepted, false, false, [], [HostCopies(Some(c))]);
            var t := Step(Started(None, 0, Some(b)), poll, digest);
            t.host == Some(b) && t.guest == Some(b) && Quiet(t, digest)
  {
    OneChange(Started(None, 0, Some(b)), HostCopies(Some(c)));
  }

  /** while the third write is awaited, which is rejected like the others; */
  lemma CopyWhileWritingIsLost(a: string, b: string, c: string, digest: Fingerprint)
    requires b != c && Small(a) && Small(b)
    ensures var w := Changed(Started(None, 0, Some(b)), HostCopies(Some(a)));
            var rejected := Poll(Rejected, false, false, [], []);
            var t := Step(Step(Step(w, rejected, digest), rejected, digest),
                          rejected.(whileWriting := [HostCopies(Some(c))]), digest);
            t.host == Some(b) && t.guest == Some(b) && Quiet(t, digest)
    ensures var w := Changed(Started(None, 0, Some(b)), HostCopies(Some(a)));
            var rejected := Poll(Rejected, false, false, [], []);
            var last := rejected.(whileWriting := [HostCopies(Some(c))]);
            Copies(Step(Step(w, rejected, digest), rejected, digest), last, digest) == [HostCopies(Some(c))]
  {
    var w := Changed(Started(None, 0, Some(b)), HostCopies(Some(a)));
    var rejected := Poll(Rejected, false, false, [], []);
    var second := Step(Step(w, rejected, digest), rejected, digest);
    assert second == World(Some(a), 1, Some(b), 1, ClipboardLoopGuard(None, None), Some(a), 2);
    OneChange(second, HostCopies(Some(c)));
  }

  /** and while the guest is read after a write it has accepted, if something is copied on the guest during that. */
  lemma CopyAfterWriteIsLost(a: string, b: string, c: string, digest: Fingerprint)
    requires b != c && digest(a) != digest(b) && Small(a) && Small(b)
    ensures var w := Changed(Started(None, 0, None), HostCopies(Some(a)));
            var t := Step(w, Poll(Accepted, false, false, [GuestCopies(Some(b))], [HostCopies(Some(c))]), digest);
            t.host == Some(b) && t.guest == Some(b) && Quiet(t, digest)
  {
    var w := Changed(Started(None, 0, None), HostCopies(Some(a)));
    var p := Poll(Accepted, false, false, [GuestCopies(Some(b))], [HostCopies(Some(c))]);
    var observed := Observe(w, digest);
    OneChange(Sent(observed, p), GuestCopies(Some(b)));
    OneChange(Attempt(observed, p, digest), HostCopies(Some(c)));
  }

  const CALM := Synchronized(Poll(Accepted, false, false, [], []))

  /** After a text from the host and then one from the guest have been copied over. */
  function BothWays(a: string, b: string, digest: Fingerprint): World {
    var first := After(After(Started(None, 0, None), Between(HostCopies(Some(a))), digest), CALM, digest);
    After(After(first, Between(GuestCopies(Some(b))), digest), CALM, digest)
  }

  lemma AfterBothWays(a: string, b: string, digest: Fingerprint)
    requires digest(a) != digest(b) && Small(a) && Small(b)
    ensures var w := BothWays(a, b, digest);
            && w.host == Some(b) && w.guest == Some(b) && Quiet(w, digest)
            && w.loopGuard == ClipboardLoopGuard(Some(digest(a)), Some(digest(b)))
  {
    var first := After(After(Started(None, 0, None), Between(HostCopies(Some(a))), digest), CALM, digest);
    assert first.guest == Some(a) && first.loopGuard == ClipboardLoopGuard(Some(digest(a)), None);
  }

  /** The clipboards need not end up equal: copying the host's old text again on the host is not sent. */
  lemma CopyingAgainIsNotSent(a: string, b: string, digest: Fingerprint)
    requires digest(a) != digest(b) && Small(a) && Small(b)
    ensures var t := After(After(BothWays(a, b, digest), Between(HostCopies(Some(a))), digest), CALM, digest);
            t.host == Some(a) && t.guest == Some(b) && Quiet(t, digest)
  {
    AfterBothWays(a, b, digest);
  }

  /** Neither is it applied when it is copied again on the guest. */
  lemma CopyingAgainIsNotApplied(a: string, b: string, digest: Fingerprint)
    requires digest(a) != digest(b) && Small(a) && Small(b)
    ensures var t := After(After(BothWays(a, b, digest), Between(GuestCopies(Some(a))), digest), CALM, digest);
            t.host == Some(b) && t.guest == Some(a) && Quiet(t, digest)
  {
    AfterBothWays(a, b, digest);
  }
}
