/**
 The one result of opening a guest connection, with completions racing against each other and against the
 installation of the continuation.

 Each method has one section under the lock, so a concurrent run is a sequence of those sections.  What a
 section decides - to resume the continuation or to close a connection - happens after the unlock, in any
 order; `decided` collects it.
 */
module ConnectionCompletion {
  import opened Wrappers

  /** The result of an attempt: a connection by its number, or an error. */
  type ConnectionResult = Result<nat, string>

  datatype Decision = Resume(result: ConnectionResult) | Close(connection: nat)

  datatype State = State(
    waiting: bool,
    pendingResult: Option<ConnectionResult>,
    isCompleted: bool,
    decided: multiset<Decision>)

  const INITIAL := State(false, None, false, multiset{})

  datatype Section = Install | Complete(result: ConnectionResult)

  function Step(s: State, section: Section): State {
    match section
    case Install =>
      (match s.pendingResult
       case None => s.(waiting := true)
       case Some(result) => s.(pendingResult := None, decided := s.decided + multiset{Resume(result)}))
    case Complete(result) =>
      if s.isCompleted then
        match result
        case Ok(connection) => s.(decided := s.decided + multiset{Close(connection)})
        case Err(_) => s
      else if s.waiting then
        s.(isCompleted := true, waiting := false, decided := s.decided + multiset{Resume(result)})
      else s.(isCompleted := true, pendingResult := Some(result))
  }

  function Run(sections: seq<Section>): State {
    if sections == [] then INITIAL else Step(Run(sections[..|sections| - 1]), sections[|sections| - 1])
  }

  class SocketConnectionCompletion {
    var continuation: Option<()>
    var pendingResult: Option<ConnectionResult>
    var isCompleted: bool
    var decided: multiset<Decision>

    function Current(): State
      reads this
    {
      State(continuation.Some?, pendingResult, isCompleted, decided)
    }

    constructor ()
      ensures Current() == INITIAL
    {
      continuation, pendingResult, isCompleted, decided := None, None, false, multiset{};
    }

    /** `install` */
    method InstallContinuation()
      modifies this
      ensures Current() == Step(old(Current()), Install)
    {
      var result := pendingResult;
      if result.None? {
        continuation := Some(());
      } else {
        pendingResult := None;
      }
      if result.Some? {
        decided := decided + multiset{Resume(result.value)};
      }
    }

    /** `complete` */
    method CompleteWith(result: ConnectionResult)
      modifies this
      ensures Current() == Step(old(Current()), Complete(result))
    {
      if isCompleted {
        if result.Ok? {
          decided := decided + multiset{Close(result.value)};
        }
        return;
      }
      isCompleted := true;
      var waiting := continuation;
      if waiting.None? {
        pendingResult := Some(result);
      } else {
        continuation := None;
      }
      if waiting.Some? {
        decided := decided + multiset{Resume(result)};
      }
    }

    /** Any interleaving of the sections. */
    method Perform(sections: seq<Section>)
      requires Current() == INITIAL
      modifies this
      ensures Current() == Run(sections)
    {
      for i := 0 to |sections|
        invariant Current() == Run(sections[..i])
      {
        assert sections[..i + 1][..i] == sections[..i];
        match sections[i]
        case Install => InstallContinuation();
        case Complete(result) => CompleteWith(result);
      }
      assert sections[..|sections|] == sections;
    }
  }

  // ----- what a run decides

  function Installs(sections: seq<Section>): nat {
    if sections == [] then 0
    else Installs(sections[..|sections| - 1]) + if sections[|sections| - 1].Install? then 1 else 0
  }

  /** The result of the first completion. */
  function First(sections: seq<Section>): Option<ConnectionResult> {
    if sections == [] then None
    else
      var earlier, last := First(sections[..|sections| - 1]), sections[|sections| - 1];
      if earlier.None? && last.Complete? then Some(last.result) else earlier
  }

  /** A close for each connection that a completion after the first one brings. */
  function LosersClosed(sections: seq<Section>): multiset<Decision> {
    if sections == [] then multiset{}
    else
      var before, last := sections[..|sections| - 1], sections[|sections| - 1];
      LosersClosed(before) +
      if First(before).Some? && last.Complete? && last.result.Ok? then multiset{Close(last.result.value)} else multiset{}
  }

  /**
   In every interleaving of one installation and any number of completions, the continuation is resumed
   exactly once if both have happened and never otherwise, with the result of the first completion, and
   exactly the connections of the other completions are closed.
   */
  lemma {:induction false} ResumedOnce(sections: seq<Section>)
    requires Installs(sections) <= 1
    ensures var s, installed, first := Run(sections), Installs(sections) == 1, First(sections);
            && s.decided == LosersClosed(sections) +
                 (if installed && first.Some? then multiset{Resume(first.value)} else multiset{})
            && s.isCompleted == first.Some?
            && s.waiting == (installed && first.None?)
            && s.pendingResult == if installed then None else first
  {
    if sections != [] {
      ResumedOnce(sections[..|sections| - 1]);
    }
  }

  /** No resumption is among the closes. */
  lemma {:induction false} OnlyCloses(sections: seq<Section>, d: Decision)
    requires d in LosersClosed(sections)
    ensures d.Close? && Complete(Ok(d.connection)) in sections
  {
    var before := sections[..|sections| - 1];
    if d in LosersClosed(before) {
      OnlyCloses(before, d);
    }
  }
}
