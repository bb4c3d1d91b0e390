/**
 Downloads that end exactly once.

 The session calls back on one serial queue, so each callback is one step.  The file operations of a callback
 may fail at any point.
 */
module ImageDownload {
  import opened Wrappers
  import T = Texts

  type Bytes = seq<nat>

  /** Where a file may be: at the destination of a download, or beside it while it is verified. */
  datatype Location = Destination(path: string) | Partial(path: string)

  datatype DownloadError =
    | InvalidResponse
    | HttpStatus(status: int)
    | ChecksumMismatch(expected: string, actual: string)
    | IncompleteDownload
    | FileError
    | SessionError

  datatype Context = Context(destination: string, expectedSHA256: string, receivedFile: bool)

  type Outcome = Result<string, DownloadError>

  /** Which of a callback's file operations fail. */
  datatype Faults = Faults(
    createDirectory: bool,
    removeStalePartial: bool,
    moveToPartial: bool,
    digest: bool,
    removeRejected: bool,
    removeOld: bool,
    moveToDestination: bool)

  /** A file operation fails that a verified download cannot do without. */
  predicate Spoiled(files: map<Location, Bytes>, destination: string, faults: Faults) {
    || faults.createDirectory || faults.moveToPartial || faults.digest || faults.moveToDestination
    || (Partial(destination) in files && faults.removeStalePartial)
    || (Destination(destination) in files && faults.removeOld)
  }

  /** An error that blames the response or the digest names what was wrong with it. */
  predicate Truthful(outcome: Outcome, response: Option<int>, actual: string, expected: string) {
    && (outcome == Err(InvalidResponse) <==> response.None?)
    && (outcome.Err? && outcome.error.HttpStatus? <==> response.Some? && !(200 <= response.value < 300))
    && (outcome.Err? && outcome.error.HttpStatus? ==> response == Some(outcome.error.status))
    && (outcome.Err? && outcome.error.ChecksumMismatch? ==>
          outcome.error == ChecksumMismatch(expected, actual) && actual != expected)
    && (outcome.Err? ==> !outcome.error.SessionError? && !outcome.error.IncompleteDownload?)
  }

  /** How often the continuation of a download has been resumed. */
  function Resumptions(log: seq<(nat, Outcome)>, id: nat): nat {
    if log == [] then 0
    else Resumptions(log[..|log| - 1], id) + if log[|log| - 1].0 == id then 1 else 0
  }

  lemma ResumptionsAfter(log: seq<(nat, Outcome)>, id: nat, outcome: Outcome, other: nat)
    ensures Resumptions(log + [(id, outcome)], other) == Resumptions(log, other) + if other == id then 1 else 0
  {
    assert (log + [(id, outcome)])[..|log|] == log;
  }

  class ImageDownloadClient {
    const sha256: Bytes -> string
    var contexts: map<nat, Context>
    var files: map<Location, Bytes>
    /** Every download that has been started, and every continuation that has been resumed, in order. */
    var started: set<nat>
    var resumed: seq<(nat, Outcome)>

    /** A download is either waiting, with no file received, or has been resumed once. */
    ghost predicate Valid()
      reads this
    {
      && contexts.Keys <= started
      && (forall id :: id in contexts ==> !contexts[id].receivedFile)
      && forall id :: Resumptions(resumed, id) == if id in started && id !in contexts then 1 else 0
    }

    constructor (sha256: Bytes -> string, files: map<Location, Bytes>)
      ensures Valid() && this.sha256 == sha256 && this.files == files && started == {}
    {
      this.sha256 := sha256;
      this.files := files;
      contexts := map[];
      started := {};
      resumed := [];
    }

    /** `download`, up to the start of its task; the session gives every task a new identifier. */
    method Download(id: nat, destination: string, expectedSHA256: string)
      requires Valid() && id !in started
      modifies this
      ensures Valid() && started == old(started) + {id} && files == old(files) && resumed == old(resumed)
      ensures contexts == old(contexts)[id := Context(destination, T.Lowercased(expectedSHA256), false)]
    {
      contexts := contexts[id := Context(destination, T.Lowercased(expectedSHA256), false)];
      started := started + {id};
    }

    /** `finish`: only the first call for a download resumes its continuation. */
    method Finish(id: nat, outcome: Outcome)
      modifies this`contexts, this`resumed
      ensures contexts == old(contexts) - {id}
      ensures resumed == if id in old(contexts) then old(resumed) + [(id, outcome)] else old(resumed)
    {
      if id in contexts {
        contexts := contexts - {id};
        resumed := resumed + [(id, outcome)];
      }
    }

    /** Resuming the one download `id` keeps the books. */
    lemma Booked(before: seq<(nat, Outcome)>, contextsBefore: map<nat, Context>, id: nat, outcome: Outcome)
      requires id in contextsBefore && contextsBefore.Keys <= started && contexts == contextsBefore - {id}
      requires forall other :: other in contexts ==> !contexts[other].receivedFile
      requires forall other :: Resumptions(before, other) == if other in started && other !in contextsBefore then 1 else 0
      requires resumed == before + [(id, outcome)]
      ensures Valid()
    {
      forall other
        ensures Resumptions(resumed, other) == if other in started && other !in contexts then 1 else 0
      {
        ResumptionsAfter(before, id, outcome, other);
      }
    }

    /** `didFinishDownloadingTo`: `response` is the HTTP status, if there is one, and `data` the downloaded file. */
    method DidFinishDownloading(id: nat, response: Option<int>, data: Bytes, faults: Faults)
      requires Valid()
      modifies this
      ensures Valid() && started == old(started)
      ensures id !in old(contexts) ==> resumed == old(resumed) && files == old(files) && contexts == old(contexts)
      ensures id in old(contexts) ==>
                var c := old(contexts[id]);
                && contexts == old(contexts) - {id}
                && (exists outcome ::
                      && resumed == old(resumed) + [(id, outcome)]
                      && Delivered(old(files), c, data, outcome)
                      && Truthful(outcome, response, sha256(data), c.expectedSHA256)
                      && (outcome.Ok? <==>
                            && response.Some? && 200 <= response.value < 300
                            && sha256(data) == c.expectedSHA256
                            && !Spoiled(old(files), c.destination, faults)))
    {
      if id !in contexts {
        return;
      }
      ghost var contextsBefore: map<nat, Context> := contexts;
      ghost var before := resumed;
      var outcome := ReceiveFile(id, response, data, faults);
      Finish(id, outcome);
      assert contexts == contextsBefore - {id};
      Booked(before, contextsBefore, id, outcome);
    }

    /** What the callback does before it finishes */
    method ReceiveFile(id: nat, response: Option<int>, data: Bytes, faults: Faults) returns (outcome: Outcome)
      requires id in contexts
      modifies this`files, this`contexts
      ensures id in contexts && contexts - {id} == old(contexts) - {id}
      ensures var c := old(contexts)[id];
              && Delivered(old(files), c, data, outcome)
              && Truthful(outcome, response, sha256(data), c.expectedSHA256)
              && (outcome.Ok? <==>
                    && response.Some? && 200 <= response.value < 300
                    && sha256(data) == c.expectedSHA256
                    && !Spoiled(old(files), c.destination, faults))
    {
      var context := contexts[id];
      var partial := Partial(context.destination);
      if response.None? {
        return Err(InvalidResponse);
      }
      if !(200 <= response.value < 300) {
        return Err(HttpStatus(response.value));
      }
      if faults.createDirectory || (partial in files && faults.removeStalePartial) {
        return Err(FileError);
      }
      files := files - {partial};
      if faults.moveToPartial {
        return Err(FileError);
      }
      files := files[partial := data];
      context := context.(receivedFile := true);
      contexts := contexts[id := context];
      ghost var received := files;
      outcome := Verify(context, faults);
      DeliveredFrom(old(files), received, context, data, outcome);
    }

    /** Moving the file beside the destination changes nothing that a delivery is about. */
    lemma DeliveredFrom(before: map<Location, Bytes>, received: map<Location, Bytes>, c: Context, data: Bytes,
                        outcome: Outcome)
      requires Delivered(received, c, data, outcome)
      requires forall l :: l != Partial(c.destination) ==>
                 (l in received <==> l in before) && (l in received ==> received[l] == before[l])
      ensures forall received: bool :: Delivered(before, c.(receivedFile := received), data, outcome)
    {
    }

    /** The part of the callback after the file has been received. */
    method Verify(context: Context, faults: Faults) returns (outcome: Outcome)
      requires Partial(context.destination) in files
      modifies this`files
      ensures var data := old(files)[Partial(context.destination)];
              && Delivered(old(files), context, data, outcome)
              && (outcome.Ok? <==>
                    && sha256(data) == context.expectedSHA256
                    && !faults.digest && !faults.moveToDestination
                    && !(Destination(context.destination) in old(files) && faults.removeOld))
              && Truthful(outcome, Some(200), sha256(data), context.expectedSHA256)
              && (outcome.Err? && outcome.error.ChecksumMismatch? ==>
                    (Partial(context.destination) in files <==> faults.removeRejected))
    {
      var partial, destination := Partial(context.destination), Destination(context.destination);
      if faults.digest {
        return Err(FileError);
      }
      var actualSHA256 := sha256(files[partial]);
      if actualSHA256 != context.expectedSHA256 {
        if !faults.removeRejected {
          files := files - {partial};
        }
        return Err(ChecksumMismatch(context.expectedSHA256, actualSHA256));
      }
      if destination in files {
        if faults.removeOld {
          return Err(FileError);
        }
        files := files - {destination};
      }
      if faults.moveToDestination {
        return Err(FileError);
      }
      files := files[destination := files[partial]] - {partial};
      return Ok(context.destination);
    }

    /** A success means that the destination holds the verified data; a failure leaves it as it was, or absent if
        only the last move failed.  Other downloads' destinations are left alone. */
    ghost predicate Delivered(before: map<Location, Bytes>, c: Context, data: Bytes, outcome: Outcome)
      reads this
    {
      var destination := Destination(c.destination);
      && (outcome.Ok? ==>
            && outcome.value == c.destination
            && destination in files && files[destination] == data && sha256(data) == c.expectedSHA256
            && Partial(c.destination) !in files)
      && (outcome.Err? ==>
            || (destination !in files && (destination in before ==> sha256(data) == c.expectedSHA256))
            || (destination in files && destination in before && files[destination] == before[destination]))
      && (forall l :: l != destination && l != Partial(c.destination) ==>
            (l in files <==> l in before) && (l in files ==> files[l] == before[l]))
    }

    /** `didCompleteWithError`: after it, the download has been resumed exactly once. */
    method DidComplete(id: nat, failed: bool)
      requires Valid()
      modifies this
      ensures Valid() && started == old(started) && files == old(files)
      ensures contexts == old(contexts) - {id}
      ensures id in started ==> Resumptions(resumed, id) == 1
      ensures resumed == if id !in old(contexts) then old(resumed)
                         else old(resumed) + [(id, Err(if failed then SessionError else IncompleteDownload))]
    {
      ghost var contextsBefore: map<nat, Context> := contexts;
      ghost var before := resumed;
      if failed {
        Finish(id, Err(SessionError));
      } else if id in contexts && contexts[id].receivedFile == false {
        Finish(id, Err(IncompleteDownload));
      }
      if id in contextsBefore {
        Booked(before, contextsBefore, id, resumed[|before|].1);
      } else {
        assert contexts == contextsBefore;
      }
    }

    /** Any serial sequence of new downloads and callbacks: no continuation is ever resumed twice, and every download
        whose task has completed has been resumed. */
    method Perform(events: seq<Event>)
      requires Valid() && NewIdentifiers(events, started)
      modifies this
      ensures Valid() && started == old(started) + StartedIn(events, |events|)
      ensures forall id :: Resumptions(resumed, id) <= 1
      ensures forall i :: 0 <= i < |events| && events[i].Completed? && Known(events, i, old(started)) ==>
                Resumptions(resumed, events[i].id) == 1
    {
      for i := 0 to |events|
        invariant Valid() && started == old(started) + StartedIn(events, i)
        invariant forall j :: 0 <= j < i && events[j].Completed? && Known(events, j, old(started)) ==>
                    events[j].id in started && events[j].id !in contexts
      {
        match events[i]
        case Started(id, destination, expectedSHA256) => Download(id, destination, expectedSHA256);
        case Finished(id, response, data, faults) => DidFinishDownloading(id, response, data, faults);
        case Completed(id, failed) => DidComplete(id, failed);
      }
    }
  }

  datatype Event =
    | Started(id: nat, destination: string, expectedSHA256: string)
    | Finished(id: nat, response: Option<int>, data: Bytes, faults: Faults)
    | Completed(id: nat, failed: bool)

  /** The identifiers of the downloads started by the first `n` events. */
  function StartedIn(events: seq<Event>, n: nat): set<nat>
    requires n <= |events|
  {
    if n == 0 then {} else StartedIn(events, n - 1) + if events[n - 1].Started? then {events[n - 1].id} else {}
  }

  /** The session gives every task a new identifier. */
  predicate NewIdentifiers(events: seq<Event>, started: set<nat>) {
    forall i :: 0 <= i < |events| && events[i].Started? ==> events[i].id !in started + StartedIn(events, i)
  }

  /** The download of the event has been started before it. */
  predicate Known(events: seq<Event>, i: nat, started: set<nat>)
    requires i < |events|
  {
    events[i].id in started + StartedIn(events, i)
  }
}
