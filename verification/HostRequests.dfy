/**
 Requests of the host and replies of the guest, over channels that may keep stale frames.

 The worst case is the QEMU port: every request opens a new connection of the host, but they all share one
 stream to the guest.  So a reply that comes after its request has timed out is read by a later request.  A request
 that is cut short, and a reply of which only a part is read, leave the readers inside a frame; these get no message
 then but a whole one that has been sent (`CutFrames.OnlySentMessages`).  Here, whatever is swallowed on the way is a
 request or a reply that is lost.
 */
module HostRequests {
  import opened Wrappers
  import opened GuestProtocol

  /** An envelope as the host decodes it.  Requests and responses are opaque here. */
  datatype Reply<R> = Reply(protocolVersion: int, requestID: Option<string>, response: R)

  datatype RequestError = IncompatibleVersion(version: int) | MismatchedRequestID

  /** The version and identifier checks of `GuestAgentSocketTransport.request`, and what they let pass. */
  function Check<R>(reply: Reply<R>, requestID: string): (r: Result<R, RequestError>)
    ensures r.Ok? <==>
              || (reply.protocolVersion == 2 && reply.requestID == Some(requestID))
              || (reply.protocolVersion == 1 && (reply.requestID.None? || reply.requestID == Some(requestID)))
    ensures r.Ok? ==> r.value == reply.response
  {
    if !(1 <= reply.protocolVersion <= PROTOCOL_VERSION) then Err(IncompatibleVersion(reply.protocolVersion))
    else if reply.protocolVersion >= 2 && reply.requestID != Some(requestID) then Err(MismatchedRequestID)
    else if reply.protocolVersion == 1 && reply.requestID.Some? && reply.requestID.value != requestID then
      Err(MismatchedRequestID)
    else Ok(reply.response)
  }

  /** The guest has dispatched a request; a legacy guest does not repeat the identifier. */
  datatype Dispatch<Q, R> = Dispatch(requestID: string, request: Q, response: R, legacy: bool)

  datatype State<Q, R> = State(
    sent: map<string, Q>,
    waiting: set<string>,
    toGuest: seq<string>,
    dispatched: seq<Dispatch<Q, R>>,
    toHost: seq<Reply<R>>,
    returned: map<string, R>)

  datatype Action<Q, R> =
    | Send(requestID: string, request: Q)
    | Serve(response: R, legacy: bool)
    | Receive(requestID: string)
    | TimeOut(requestID: string)
    | LoseRequest
    | LoseReply

  predicate Enabled<Q, R>(s: State<Q, R>, a: Action<Q, R>) {
    match a
    case Send(id, _) => id !in s.sent
    case Serve(_, _) => s.toGuest != [] && s.toGuest[0] in s.sent
    case Receive(id) => id in s.waiting && s.toHost != []
    case TimeOut(id) => id in s.waiting
    case LoseRequest => s.toGuest != []
    case LoseReply => s.toHost != []
  }

  function Step<Q, R>(s: State<Q, R>, a: Action<Q, R>): State<Q, R>
    requires Enabled(s, a)
  {
    match a
    case Send(id, request) =>
      s.(sent := s.sent[id := request], waiting := s.waiting + {id}, toGuest := s.toGuest + [id])
    case Serve(response, legacy) =>
      var id := s.toGuest[0];
      s.(toGuest := s.toGuest[1..],
         dispatched := s.dispatched + [Dispatch(id, s.sent[id], response, legacy)],
         toHost := s.toHost + [if legacy then Reply(1, None, response) else Reply(2, Some(id), response)])
    case Receive(id) =>
      var left := s.(waiting := s.waiting - {id}, toHost := s.toHost[1..]);
      (match Check(s.toHost[0], id)
       case Ok(response) => left.(returned := s.returned[id := response])
       case Err(_) => left)
    case TimeOut(id) => s.(waiting := s.waiting - {id})
    case LoseRequest => s.(toGuest := s.toGuest[1..])
    case LoseReply => s.(toHost := s.toHost[1..])
  }

  ghost predicate Reachable<Q, R>(actions: seq<Action<Q, R>>, states: seq<State<Q, R>>) {
    && |states| == |actions| + 1
    && states[0] == State(map[], {}, [], [], [], map[])
    && forall i :: 0 <= i < |actions| ==> Enabled(states[i], actions[i]) && states[i + 1] == Step(states[i], actions[i])
  }

  /** The response is that of a dispatch of the request `id`, or of any request if a legacy guest sent it. */
  ghost predicate Answers<Q, R>(s: State<Q, R>, id: string, response: R) {
    exists k :: 0 <= k < |s.dispatched| && s.dispatched[k].response == response
                && (s.dispatched[k].requestID == id || s.dispatched[k].legacy)
  }

  ghost predicate Sound<Q, R>(s: State<Q, R>) {
    && (forall i :: 0 <= i < |s.toGuest| ==> s.toGuest[i] in s.sent)
    && (forall i, j :: 0 <= i < j < |s.toGuest| ==> s.toGuest[i] != s.toGuest[j])
    && (forall k :: 0 <= k < |s.dispatched| ==>
          && s.dispatched[k].requestID in s.sent
          && s.dispatched[k].request == s.sent[s.dispatched[k].requestID]
          && s.dispatched[k].requestID !in s.toGuest)
    && (forall k, l :: 0 <= k < l < |s.dispatched| ==> s.dispatched[k].requestID != s.dispatched[l].requestID)
    && (forall i :: 0 <= i < |s.toHost| ==> Genuine(s, s.toHost[i]))
    && (forall id :: id in s.returned ==> id in s.sent && Answers(s, id, s.returned[id]))
    && s.waiting <= s.sent.Keys
    && s.waiting !! s.returned.Keys
  }

  /** The reply was sent by the guest. */
  ghost predicate Genuine<Q, R>(s: State<Q, R>, reply: Reply<R>) {
    exists k :: 0 <= k < |s.dispatched| && IsReplyOf(reply, s.dispatched[k])
  }

  predicate IsReplyOf<Q(==), R(==)>(reply: Reply<R>, d: Dispatch<Q, R>) {
    reply == if d.legacy then Reply(1, None, d.response) else Reply(2, Some(d.requestID), d.response)
  }

  lemma StepKeepsDispatches<Q, R>(s: State<Q, R>, a: Action<Q, R>)
    requires Enabled(s, a)
    ensures s.dispatched <= Step(s, a).dispatched
    ensures forall reply :: Genuine(s, reply) ==> Genuine(Step(s, a), reply)
    ensures forall id, response :: Answers(s, id, response) ==> Answers(Step(s, a), id, response)
  {
    var t := Step(s, a);
    forall reply | Genuine(s, reply)
      ensures Genuine(t, reply)
    {
      var k :| 0 <= k < |s.dispatched| && IsReplyOf(reply, s.dispatched[k]);
      assert t.dispatched[k] == s.dispatched[k];
    }
    forall id, response | Answers(s, id, response)
      ensures Answers(t, id, response)
    {
      var k :| 0 <= k < |s.dispatched| && s.dispatched[k].response == response
               && (s.dispatched[k].requestID == id || s.dispatched[k].legacy);
      assert t.dispatched[k] == s.dispatched[k];
    }
  }

  lemma ReceivedAnswers<Q, R>(s: State<Q, R>, reply: Reply<R>, id: string)
    requires Genuine(s, reply) && Check(reply, id).Ok?
    ensures Answers(s, id, reply.response)
  {
    var k :| 0 <= k < |s.dispatched| && IsReplyOf(reply, s.dispatched[k]);
    assert s.dispatched[k].response == reply.response;
  }

  lemma StepSound<Q, R>(s: State<Q, R>, a: Action<Q, R>)
    requires Sound(s) && Enabled(s, a)
    ensures Sound(Step(s, a))
  {
    match a {
      case Send(_, _) => StepKeepsDispatches(s, a);
      case Serve(_, _) => ServeSound(s, a);
      case Receive(_) => ReceiveSound(s, a);
      case _ => StepKeepsDispatches(s, a);
    }
  }

  lemma ReceiveSound<Q, R>(s: State<Q, R>, a: Action<Q, R>)
    requires Sound(s) && Enabled(s, a) && a.Receive?
    ensures Sound(Step(s, a))
  {
    StepKeepsDispatches(s, a);
    if Check(s.toHost[0], a.requestID).Ok? {
      ReceivedAnswers(s, s.toHost[0], a.requestID);
    }
  }

  lemma ServeSound<Q, R>(s: State<Q, R>, a: Action<Q, R>)
    requires Sound(s) && Enabled(s, a) && a.Serve?
    ensures Sound(Step(s, a))
  {
    var t := Step(s, a);
    StepKeepsDispatches(s, a);
    assert IsReplyOf(t.toHost[|s.toHost|], t.dispatched[|s.dispatched|]);
    assert Genuine(t, t.toHost[|s.toHost|]);
  }

  lemma {:induction false} AlwaysSound<Q, R>(actions: seq<Action<Q, R>>, states: seq<State<Q, R>>)
    requires Reachable(actions, states)
    ensures Sound(states[|actions|])
  {
    if actions != [] {
      var n := |actions| - 1;
      AlwaysSound(actions[..n], states[..n + 1]);
      StepSound(states[n], actions[n]);
    }
  }

  /** How many requests were sent and lost, and how many replies read and lost */
  datatype Tally = Tally(sent: nat, lostRequests: nat, read: nat, lostReplies: nat)

  function Counted<Q, R>(t: Tally, a: Action<Q, R>): Tally {
    match a
    case Send(_, _) => t.(sent := t.sent + 1)
    case LoseRequest => t.(lostRequests := t.lostRequests + 1)
    case Receive(_) => t.(read := t.read + 1)
    case LoseReply => t.(lostReplies := t.lostReplies + 1)
    case _ => t
  }

  function TallyOf<Q, R>(actions: seq<Action<Q, R>>): Tally {
    if actions == [] then Tally(0, 0, 0, 0) else Counted(TallyOf(actions[..|actions| - 1]), actions[|actions| - 1])
  }

  predicate Balanced<Q, R>(s: State<Q, R>, t: Tally) {
    && |s.sent| == t.sent == |s.toGuest| + |s.dispatched| + t.lostRequests
    && |s.dispatched| == |s.toHost| + t.read + t.lostReplies
  }

  lemma StepConserves<Q, R>(s: State<Q, R>, a: Action<Q, R>, t: Tally)
    requires Enabled(s, a) && Balanced(s, t)
    ensures Balanced(Step(s, a), Counted(t, a))
  {
    if a.Send? {
      assert Step(s, a).sent.Keys == s.sent.Keys + {a.requestID};
    }
  }

  /** Nothing is duplicated or made up: every request that was sent waits for the guest, has been dispatched once or is
      lost, and every reply is on its way, has been read once or is lost. */
  lemma {:induction false} Conserved<Q, R>(actions: seq<Action<Q, R>>, states: seq<State<Q, R>>)
    requires Reachable(actions, states)
    ensures Balanced(states[|actions|], TallyOf(actions))
  {
    if actions != [] {
      var n := |actions| - 1;
      Conserved(actions[..n], states[..n + 1]);
      StepConserves(states[n], actions[n], TallyOf(actions[..n]));
    }
  }

  /** A request ends once: when it has timed out or read a reply it waits no more, and what it has returned, or that it
      has returned nothing, stays so. */
  lemma EndsOnce<Q, R>(s: State<Q, R>, a: Action<Q, R>, id: string)
    requires Sound(s) && Enabled(s, a)
    ensures a == TimeOut(id) || a == Receive(id) ==> id !in Step(s, a).waiting
    ensures id in s.sent && id !in s.waiting ==>
              && id !in Step(s, a).waiting
              && (id in Step(s, a).returned <==> id in s.returned)
              && (id in s.returned ==> Step(s, a).returned[id] == s.returned[id])
    ensures id in Step(s, a).returned && id !in s.returned ==> a == Receive(id) && id in s.waiting
  {
  }

  lemma {:induction false} LegacyComesFromServe<Q, R>(actions: seq<Action<Q, R>>, states: seq<State<Q, R>>, k: nat)
    requires Reachable(actions, states) && k < |states[|actions|].dispatched|
    requires states[|actions|].dispatched[k].legacy
    ensures exists i :: 0 <= i < |actions| && actions[i].Serve? && actions[i].legacy
  {
    if actions != [] {
      var n := |actions| - 1;
      if k < |states[n].dispatched| {
        LegacyComesFromServe(actions[..n], states[..n + 1], k);
        var i :| 0 <= i < n && actions[..n][i].Serve? && actions[..n][i].legacy;
        assert actions[i] == actions[..n][i];
      } else {
        assert actions[n].Serve? && actions[n].legacy;
      }
    }
  }

  /**
   Whatever times out, is lost or arrives late: with a guest of version 2, what a request returns is the
   response of the one dispatch of that same request.
   */
  lemma NoMisattributedReply<Q, R>(actions: seq<Action<Q, R>>, states: seq<State<Q, R>>, id: string)
    requires Reachable(actions, states)
    requires forall i :: 0 <= i < |actions| ==> !(actions[i].Serve? && actions[i].legacy)
    requires id in states[|actions|].returned
    ensures var s := states[|actions|];
            && id in s.sent
            && exists k :: 0 <= k < |s.dispatched| && s.dispatched[k].requestID == id && s.dispatched[k].request == s.sent[id]
                           && s.dispatched[k].response == s.returned[id]
                           && forall l :: 0 <= l < |s.dispatched| && l != k ==> s.dispatched[l].requestID != id
  {
    AlwaysSound(actions, states);
    var s := states[|actions|];
    var k :| 0 <= k < |s.dispatched| && s.dispatched[k].response == s.returned[id]
             && (s.dispatched[k].requestID == id || s.dispatched[k].legacy);
    if s.dispatched[k].legacy {
      LegacyComesFromServe(actions, states, k);
    }
  }

  /** With a legacy guest, a late reply to one request is returned for another one. */
  lemma LegacyRepliesCanBeMisattributed(a: string, b: string, first: int, second: int)
    requires a != b
    ensures exists actions: seq<Action<int, int>>, states: seq<State<int, int>> ::
              && Reachable(actions, states)
              && var s := states[|actions|];
                 b in s.returned && s.dispatched == [Dispatch(a, first, second, true)]
  {
    var s0: State<int, int> := State(map[], {}, [], [], [], map[]);
    var actions := [Send(a, first), TimeOut(a), Serve(second, true), Send(b, first), Receive(b)];
    var s1 := Step(s0, actions[0]);
    var s2 := Step(s1, actions[1]);
    var s3 := Step(s2, actions[2]);
    var s4 := Step(s3, actions[3]);
    var s5 := Step(s4, actions[4]);
    var states := [s0, s1, s2, s3, s4, s5];
    assert Reachable(actions, states);
    assert b in states[|actions|].returned;
  }
}
