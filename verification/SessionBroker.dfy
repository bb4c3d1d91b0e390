/**
 Calls of the daemon's threads to the one session helper.

 The frames on this hop carry no identifiers.  What keeps replies and requests together is the lock around a
 call and the rule that every error closes the connection.  The model interleaves the threads, the helpers of
 all connections there have ever been, and the accept loop; `call` numbers are for the proof and are not sent.
 */
module SessionBroker {
  import opened Wrappers

  datatype Phase<Q, R> =
    | Requested(request: Q)
    | Holding(request: Q)
    | Written(request: Q)
    | Answered(request: Q, reply: HelperReply<Q, R>)
    | Raised(request: Q, reply: HelperReply<Q, R>)
    | Disconnected

  /** A request frame, with the number of its call. */
  datatype Note<Q> = Note(call: nat, request: Q)

  /** A reply frame, with the request that the helper was handling when it wrote it. */
  datatype HelperReply<Q, R> = HelperReply(note: Note<Q>, content: R)

  /** Both directions of a connection, and the request that its helper is working on. */
  datatype Channel<Q, R> = Channel(requests: seq<Note<Q>>, working: Option<Note<Q>>, replies: seq<HelperReply<Q, R>>)

  datatype State<Q, R> = State(
    locked: Option<nat>,
    connection: Option<nat>,
    channels: map<nat, Channel<Q, R>>,
    calls: map<nat, Phase<Q, R>>)

  datatype Action<Q, R> =
    | Begin(call: nat, request: Q)
    | Acquire(call: nat)
    | Write(call: nat)
    | Read(call: nat, raises: bool)
    | Fail(call: nat)
    | Accept(connection: nat)
    | Stop
    | HelperTakes(connection: nat)
    | HelperReplies(connection: nat, reply: R)

  predicate Enabled<Q, R>(s: State<Q, R>, a: Action<Q, R>) {
    match a
    case Begin(c, _) => c !in s.calls
    case Acquire(c) => s.locked.None? && c in s.calls && s.calls[c].Requested?
    case Write(c) => c in s.calls && s.calls[c].Holding? && s.connection.Some? && s.connection.value in s.channels
    case Read(c, _) =>
      && c in s.calls && s.calls[c].Written? && s.connection.Some? && s.connection.value in s.channels
      && s.channels[s.connection.value].replies != []
    case Fail(c) => c in s.calls && (s.calls[c].Holding? || s.calls[c].Written?)
    case Accept(n) => s.locked.None? && n !in s.channels
    case Stop => s.locked.None?
    case HelperTakes(n) => n in s.channels && s.channels[n].working.None? && s.channels[n].requests != []
    case HelperReplies(n, _) => n in s.channels && s.channels[n].working.Some?
  }

  function Step<Q, R>(s: State<Q, R>, a: Action<Q, R>): State<Q, R>
    requires Enabled(s, a)
  {
    match a
    case Begin(c, request) => s.(calls := s.calls[c := Requested(request)])
    case Acquire(c) =>
      if s.connection.None? then s.(calls := s.calls[c := Disconnected])
      else s.(locked := Some(c), calls := s.calls[c := Holding(s.calls[c].request)])
    case Write(c) =>
      var n, request := s.connection.value, s.calls[c].request;
      var channel := s.channels[n];
      s.(channels := s.channels[n := channel.(requests := channel.requests + [Note(c, request)])],
         calls := s.calls[c := Written(request)])
    case Read(c, raises) =>
      var n, request := s.connection.value, s.calls[c].request;
      var channel := s.channels[n];
      var reply := channel.replies[0];
      s.(locked := None,
         channels := s.channels[n := channel.(replies := channel.replies[1..])],
         calls := s.calls[c := if raises then Raised(request, reply) else Answered(request, reply)])
    case Fail(c) => s.(locked := None, connection := None, calls := s.calls[c := Disconnected])
    case Accept(n) => s.(connection := Some(n), channels := s.channels[n := Channel([], None, [])])
    case Stop => s.(connection := None)
    case HelperTakes(n) =>
      var channel := s.channels[n];
      s.(channels := s.channels[n := channel.(requests := channel.requests[1..], working := Some(channel.requests[0]))])
    case HelperReplies(n, reply) =>
      var channel := s.channels[n];
      s.(channels := s.channels[n := channel.(working := None,
                                              replies := channel.replies + [HelperReply(channel.working.value, reply)])])
  }

  predicate Idle<Q(==), R(==)>(channel: Channel<Q, R>) {
    channel.requests == [] && channel.working.None? && channel.replies == []
  }

  /** The request of the call, or the reply to it, is the only thing on the channel. */
  predicate Busy<Q(==), R(==)>(channel: Channel<Q, R>, note: Note<Q>) {
    || (channel.requests == [note] && channel.working.None? && channel.replies == [])
    || (channel.requests == [] && channel.working == Some(note) && channel.replies == [])
    || (channel.requests == [] && channel.working.None? && |channel.replies| == 1 && channel.replies[0].note == note)
  }

  predicate InCall<Q, R>(p: Phase<Q, R>) {
    p.Holding? || p.Written?
  }

  /** Every call that has read a reply, even if that has raised an exception, has read the helper's reply to its own
      request. */
  ghost predicate OwnReplies<Q, R>(s: State<Q, R>) {
    forall c :: c in s.calls && (s.calls[c].Answered? || s.calls[c].Raised?) ==>
      s.calls[c].reply.note == Note(c, s.calls[c].request)
  }

  ghost predicate Sound<Q, R>(s: State<Q, R>) {
    && (s.connection.Some? ==> s.connection.value in s.channels)
    && (s.locked.Some? ==> s.locked.value in s.calls && InCall(s.calls[s.locked.value]) && s.connection.Some?)
    && (forall c :: c in s.calls && InCall(s.calls[c]) ==> s.locked == Some(c))
    && (s.connection.Some? ==>
          var channel := s.channels[s.connection.value];
          if s.locked.Some? && s.calls[s.locked.value].Written? then
            Busy(channel, Note(s.locked.value, s.calls[s.locked.value].request))
          else Idle(channel))
    && OwnReplies(s)
  }

  ghost predicate Reachable<Q, R>(actions: seq<Action<Q, R>>, states: seq<State<Q, R>>) {
    && |states| == |actions| + 1
    && states[0] == State(None, None, map[], map[])
    && forall i :: 0 <= i < |actions| ==> Enabled(states[i], actions[i]) && states[i + 1] == Step(states[i], actions[i])
  }

  lemma StepSound<Q, R>(s: State<Q, R>, a: Action<Q, R>)
    requires Sound(s) && Enabled(s, a)
    ensures Sound(Step(s, a))
  {
  }

  /**
   In every run, between calls the connection carries nothing, and each call that is answered gets the reply to
   its own request - with any interleaving of threads, timeouts, reconnections and slow helpers of closed
   connections.
   */
  lemma {:induction false} EachCallGetsItsReply<Q, R>(actions: seq<Action<Q, R>>, states: seq<State<Q, R>>)
    requires Reachable(actions, states)
    ensures Sound(states[|actions|])
    ensures var s := states[|actions|];
            && (s.locked.None? && s.connection.Some? ==>
                  s.connection.value in s.channels && Idle(s.channels[s.connection.value]))
            && OwnReplies(s)
  {
    if actions != [] {
      var n := |actions| - 1;
      EachCallGetsItsReply(actions[..n], states[..n + 1]);
      StepSound(states[n], actions[n]);
    }
  }

  // ----- the broker

  /** How a call ends: with the reply, with a `ConnectionError`, or with an exception that nobody expects. */
  datatype Outcome<R> = Returned(reply: R) | Closed | Escaped

  /** The broker's connection and lock, and what is on the connections.  Of the run so far, only the phase of each
      call is kept. */
  class SessionBroker<Q(!new), R(!new)> {
    /** How many containers the text of a reply opens inside one another. */
    const depth: R -> nat
    /** How deeply the JSON parser can descend. */
    const limit: nat
    var locked: Option<nat>
    var connection: Option<nat>
    var channels: map<nat, Channel<Q, R>>
    var calls: map<nat, Phase<Q, R>>

    function World(): State<Q, R>
      reads this
    {
      State(locked, connection, channels, calls)
    }

    constructor (depth: R -> nat, limit: nat)
      ensures this.depth == depth && this.limit == limit
      ensures World() == State(None, None, map[], map[]) && Sound(World())
    {
      this.depth, this.limit := depth, limit;
      locked, connection, channels, calls := None, None, map[], map[];
    }

    /** `call`; `answers` is what helpers write in the meantime.  With the lock held it reads the reply to its own
        request or closes the connection.  It keeps the connection and returns no reply exactly if that reply is
        nested too deeply; in every case it leaves nothing behind on the connection. */
    method Call(c: nat, request: Q, answers: seq<R>) returns (r: Outcome<R>)
      requires Sound(World()) && locked.None? && c !in calls
      modifies this
      ensures Sound(World()) && locked.None?
      ensures calls.Keys == old(calls).Keys + {c}
      ensures old(connection).None? ==> r.Closed?
      ensures if r.Closed? then connection.None? && calls[c].Disconnected?
              else
                && connection == old(connection) && Ended(calls[c], request, r)
                && calls[c].reply.note == Note(c, request)
    {
      var entered := Enter(c, request);
      if !entered {
        return Closed;
      }
      r := Closed;
      var written := WriteFrame(c);
      if written {
        HelpersRun(answers);
        r := ReadFrame(c);
      }
      if r.Closed? {
        Abandon(c);
      }
    }

    /** The call has ended with its reply, or with the exception that a reply causes which is nested too deeply. */
    ghost predicate Ended(p: Phase<Q, R>, request: Q, r: Outcome<R>) {
      match r
      case Returned(reply) => p.Answered? && p.request == request && p.reply.content == reply && depth(reply) <= limit
      case Escaped => p.Raised? && p.request == request && depth(p.reply.content) > limit
      case Closed => false
    }

    /** Take the lock and look for a connection. */
    method Enter(c: nat, request: Q) returns (entered: bool)
      requires Sound(World()) && locked.None? && c !in calls
      modifies this`calls, this`locked
      ensures Sound(World()) && calls.Keys == old(calls).Keys + {c}
      ensures entered == connection.Some?
      ensures if entered then locked == Some(c) && calls[c] == Holding(request)
              else locked.None? && calls[c].Disconnected?
    {
      ghost var before := World();
      calls := calls[c := Requested(request)];
      Stepped(before, Begin(c, request), World());
      before := World();
      if connection.None? {
        calls := calls[c := Disconnected];
      } else {
        locked, calls := Some(c), calls[c := Holding(request)];
      }
      Stepped(before, Acquire(c), World());
      entered := connection.Some?;
    }

    /** The `except` branch */
    method Abandon(c: nat)
      requires Sound(World()) && locked == Some(c) && c in calls
      modifies this
      ensures Sound(World()) && locked.None? && connection.None?
      ensures calls == old(calls)[c := Disconnected] && channels == old(channels)
    {
      ghost var before := World();
      CloseConnection();
      locked, calls := None, calls[c := Disconnected];
      Stepped(before, Fail(c), World());
    }

    /** `write_frame`, which may fail or run out of time */
    method WriteFrame(c: nat) returns (written: bool)
      requires Sound(World()) && locked == Some(c) && calls[c].Holding?
      modifies this`channels, this`calls
      ensures Sound(World()) && calls.Keys == old(calls).Keys && c in calls && calls[c].request == old(calls[c].request)
      ensures if written then calls[c].Written? else World() == old(World())
    {
      written := *;
      if written {
        ghost var before := World();
        var n, request := connection.value, calls[c].request;
        var channel := channels[n];
        channels := channels[n := channel.(requests := channel.requests + [Note(c, request)])];
        calls := calls[c := Written(request)];
        Stepped(before, Write(c), World());
      }
    }

    /** `read_frame`, which may fail or run out of time, and which raises a `RecursionError` for a text that is
        nested too deeply */
    method ReadFrame(c: nat) returns (r: Outcome<R>)
      requires Sound(World()) && locked == Some(c) && calls[c].Written?
      modifies this`channels, this`calls, this`locked
      ensures Sound(World()) && calls.Keys == old(calls).Keys
      ensures if r.Closed? then World() == old(World())
              else
                && locked.None? && c in calls && Ended(calls[c], old(calls[c].request), r)
                && calls[c].reply.note == Note(c, calls[c].request)
    {
      var arrived := *;
      var n := connection.value;
      var channel := channels[n];
      if !arrived || channel.replies == [] {
        return Closed;
      }
      ghost var before := World();
      var request, reply := calls[c].request, channel.replies[0];
      var raises := depth(reply.content) > limit;
      channels := channels[n := channel.(replies := channel.replies[1..])];
      locked, calls := None, calls[c := if raises then Raised(request, reply) else Answered(request, reply)];
      Stepped(before, Read(c, raises), World());
      return if raises then Escaped else Returned(reply.content);
    }

    /** The helpers of all connections, for a while */
    method HelpersRun(answers: seq<R>)
      requires Sound(World())
      modifies this`channels
      ensures Sound(World())
    {
      for i := 0 to |answers|
        invariant Sound(World())
      {
        var n: nat :| true;
        if n in channels {
          ghost var before := World();
          var channel := channels[n];
          if channel.working.Some? {
            channels := channels[n := channel.(working := None,
                                               replies := channel.replies + [HelperReply(channel.working.value, answers[i])])];
            Stepped(before, HelperReplies(n, answers[i]), World());
          } else if channel.requests != [] {
            channels := channels[n := channel.(requests := channel.requests[1..], working := Some(channel.requests[0]))];
            Stepped(before, HelperTakes(n), World());
          }
        }
      }
    }

    /** The section of `_accept_loop` under the lock, for a new connection with a valid registration */
    method Install(n: nat)
      requires Sound(World()) && locked.None? && n !in channels
      modifies this
      ensures World() == Step(old(World()), Accept(n)) && Sound(World())
      ensures connection == Some(n) && channels == old(channels)[n := Channel([], None, [])] && calls == old(calls)
    {
      CloseConnection();
      connection := Some(n);
      channels := channels[n := Channel([], None, [])];
      Stepped(old(World()), Accept(n), World());
    }

    /** `_close_connection` */
    method CloseConnection()
      modifies this`connection
      ensures connection.None?
    {
      connection := None;
    }

    /** `stop` */
    method StopServing()
      requires Sound(World()) && locked.None?
      modifies this
      ensures World() == Step(old(World()), Stop) && Sound(World())
      ensures connection.None? && calls == old(calls)
    {
      CloseConnection();
      Stepped(old(World()), Stop, World());
    }
  }

  lemma Stepped<Q, R>(s: State<Q, R>, a: Action<Q, R>, t: State<Q, R>)
    requires Sound(s) && Enabled(s, a) && t == Step(s, a)
    ensures Sound(t)
  {
    StepSound(s, a);
  }
}
