/** What the daemon does with a request, and what the host makes of its reply. */
module Daemon {
  import opened Wrappers
  import opened Json
  import opened GuestProtocol
  import opened RequestCodec
  import S = StatusCodec
  import T = Texts
  import HostRequests
  import Utf8

  const MAX_MESSAGE := 512

  function Cut(message: string): string {
    if |message| <= MAX_MESSAGE then message else message[..MAX_MESSAGE]
  }

  // ----- mounting the shared directory

  /** The last look at the mount table, with its state replaced if an error is reported. */
  datatype MountReply = MountReply(mount: S.MountState, error: Option<string>)

  /** How a `mount` command ends; `Breaks` is an exception. */
  datatype Command = Succeeds | Fails(stderr: string) | Breaks(message: string)

  /** One of the two commands that are run breaks; the second is run if the first fails. */
  predicate Breaks(commands: seq<Command>)
    requires |commands| == 2
  {
    commands[0].Breaks? || (commands[0].Fails? && commands[1].Breaks?)
  }

  predicate IsMounted(r: MountReply) {
    r.error.None? && r.mount.state == "mounted"
  }

  /** `mount_shared_directory`; `commands` are the results of its commands, as far as they are run, and `later` is
      what the mount table says after them.  The share is reported as mounted exactly if it was visible before, or if
      no exception came up and it is visible afterwards - whichever command, or somebody else, has mounted it. */
  method MountSharedDirectory(before: S.MountState, makeDirectory: Option<string>, commands: seq<Command>,
                              later: S.MountState)
    returns (r: MountReply, runs: nat)
    requires S.FromTable(before) && S.FromTable(later) && |commands| == |S.MOUNT_FILESYSTEMS|
    ensures IsMounted(r) <==>
              if before.mounted then before.state == "mounted"
              else makeDirectory.None? && !Breaks(commands) && later.state == "mounted"
    ensures !IsMounted(r) ==>
              || (r.mount.mounted && r.mount.state == "occupied")
              || (r.mount.state == "error" && r.error.Some?)
    ensures before.mounted ==> r.mount == before
    ensures runs == if before.mounted || makeDirectory.Some? then 0 else if commands[0].Fails? then 2 else 1
  {
    runs := 0;
    if before.mounted {
      if S.IsSharedFilesystem(before.filesystem) {
        return MountReply(before, None), 0;
      }
      return MountReply(before, Some("fixed mount point is occupied")), 0;
    }
    if makeDirectory.Some? {
      return MountReply(before.(state := "error"), makeDirectory), 0;
    }
    var errors: seq<string> := [];
    var completed := commands[0];
    while runs < |S.MOUNT_FILESYSTEMS|
      invariant runs <= |commands| && forall i :: 0 <= i < runs ==> commands[i].Fails?
      invariant runs > 0 ==> completed == commands[runs - 1]
    {
      completed := commands[runs];
      runs := runs + 1;
      if completed.Succeeds? {
        break;
      }
      if completed.Breaks? {
        return MountReply(before.(state := "error"), Some(completed.message)), runs;
      }
      errors := errors + [if completed.stderr == "" then "mount failed" else completed.stderr];
    }
    if completed.Fails? {
      if later.mounted && later.state == "mounted" {
        return MountReply(later, None), runs;
      }
      var message := Cut(T.Joined(errors, "; "));
      return MountReply(before.(state := "error"), Some(if message == "" then "mount failed" else message)), runs;
    }
    if !later.mounted || later.state != "mounted" {
      return MountReply(later.(state := "error"), Some("mount did not become visible")), runs;
    }
    return MountReply(later, None), runs;
  }

  // ----- requests

  /** The session helper, and the frame that it answers a call with. */
  datatype Helper = NotConnected | Sends(text: FrameText)

  /** How a call of the session broker ends: with a `ConnectionError`, a reply, or an exception that is not caught. */
  datatype Answer = Unavailable(message: string) | Replied(value: Value) | Escaped

  function CallHelper(helper: Helper, limit: nat): Answer {
    match helper
    case NotConnected => Unavailable("no desktop session helper is connected")
    case Sends(text) =>
      match ReadText(text, limit)
      case Read(fields) => Replied(Obj(fields))
      case NotRead => Unavailable("desktop session helper disconnected")
      case Unexpected => Escaped
  }

  /** Everything a dispatch depends on besides the request; `limit` is how deeply the JSON parser can descend. */
  datatype Situation = Situation(
    session: Option<S.Session>,
    identity: S.Identity,
    mount: S.MountState,
    power: Option<string>,
    mounting: MountReply,
    helper: Helper,
    limit: nat)

  /** What the guest's own functions make sure of. */
  predicate Possible(s: Situation) {
    && (s.session.Some? ==> S.ValidSession(s.session.value))
    && S.GuestMountState(s.mount.state)
    && (IsMounted(s.mounting) || s.mounting.mount.state == "error"
        || (s.mounting.mount.mounted && s.mounting.mount.state == "occupied"))
  }

  function Accepted(operation: string): Fields {
    map["type" := Str("accepted"), "operation" := Str(operation)]
  }

  function Failure(code: string, message: string): Fields {
    map["type" := Str("failure"), "code" := Str(code), "message" := Str(Cut(message))]
  }

  function MountReplyFields(r: MountReply): Value {
    var fields := S.MountFields(r.mount).fields;
    Obj(if r.error.Some? then fields["error" := Str(r.error.value)] else fields)
  }

  function DispatchMount(r: MountReply): Fields {
    if r.mount.state == "error" || (r.mount.mounted && r.mount.state == "occupied") then
      Failure("mountFailed", if r.error.Some? then r.error.value else "mount point is occupied")
        ["sharedMountStatus" := MountReplyFields(r)]
    else Accepted("mountSharedDirectory")["sharedMountStatus" := MountReplyFields(r)]
  }

  function DispatchSession(answer: Answer): Option<Fields> {
    match answer
    case Unavailable(message) => Some(Failure("sessionUnavailable", message))
    case Replied(value) =>
      Some(if value.Obj? && S.PassedOn(value.fields) then value.fields
           else Failure("invalidSessionResponse", "session helper response is invalid"))
    case Escaped => None
  }

  function DispatchPower(power: Option<string>, operation: string): Fields {
    if power.None? then Accepted(operation) else Failure("powerOperationFailed", power.value)
  }

  predicate AsksHelper(request: Request) {
    request.ReadClipboard? || request.WriteClipboard? || request.ResizeDisplay?
  }

  /** `Agent.dispatch`; without a reply, an exception has gone through it that ends the thread. */
  function Dispatch(request: Request, s: Situation): Option<Fields> {
    match request
    case Status => Some(S.StatusReply(s.session, s.identity, s.mount))
    case Shutdown => Some(DispatchPower(s.power, "shutdown"))
    case Reboot => Some(DispatchPower(s.power, "reboot"))
    case MountSharedDirectory => Some(DispatchMount(s.mounting))
    case Hello(_) => Some(Failure("notAllowed", "operation is not allowed"))
    case _ => DispatchSession(CallHelper(s.helper, s.limit))
  }

  // ----- what the host is to learn

  /** What a helper's answer means to the host; nothing for a failure that is not properly written. */
  function HelperMeans(answer: Answer): Option<S.Response>
    requires !answer.Escaped?
  {
    match answer
    case Unavailable(message) => Some(S.FailureReply("sessionUnavailable", Cut(message)))
    case Replied(value) =>
      if !value.Obj? || !S.PassedOn(value.fields) then
        Some(S.FailureReply("invalidSessionResponse", "session helper response is invalid"))
      else if value.fields["type"].s == "clipboard" then Some(S.ClipboardReply(value.fields["text"].s))
      else if value.fields["type"].s == "accepted" then Some(S.AcceptedReply)
      else
        match (RequiredString(value.fields, "message"), StringOr(value.fields, "code", "guestError"))
        case (Ok(message), Ok(code)) => Some(S.FailureReply(code, message))
        case _ => None
  }

  /** The request is for the helper, and its reply is nested too deeply. */
  predicate IsLost(request: Request, s: Situation) {
    AsksHelper(request) && s.helper.Sends? && TooDeep(s.helper.text, s.limit)
  }

  function Meaning(request: Request, s: Situation): Option<S.Response>
    requires Possible(s) && !IsLost(request, s)
  {
    match request
    case Status => Some(S.StatusValue(S.HostStatus(s.session, s.identity, s.mount)))
    case Shutdown => Some(PowerMeans(s.power))
    case Reboot => Some(PowerMeans(s.power))
    case MountSharedDirectory =>
      Some(if IsMounted(s.mounting) then S.AcceptedReply
           else S.FailureReply("mountFailed", Cut(if s.mounting.error.Some? then s.mounting.error.value
                                                  else "mount point is occupied")))
    case Hello(_) => Some(S.FailureReply("notAllowed", "operation is not allowed"))
    case _ => HelperMeans(CallHelper(s.helper, s.limit))
  }

  function PowerMeans(power: Option<string>): S.Response {
    if power.None? then S.AcceptedReply else S.FailureReply("powerOperationFailed", Cut(power.value))
  }

  lemma TypedDecodes(reply: Fields, requestID: string)
    requires "type" in reply && reply["type"].Str?
    ensures S.DecodeResponseEnvelope(S.ResponseMessage(requestID, reply)) ==
            match S.DecodeTyped(reply["type"].s, reply)
            case Ok(response) => Ok(S.ResponseEnvelope(PROTOCOL_VERSION, Some(requestID), response))
            case Err(_) => Err(Mismatch)
  {
    assert S.DecodeResponse(Obj(reply)) == S.DecodeTyped(reply["type"].s, reply);
    S.EnvelopeDecodes(requestID, reply);
  }

  /** The host takes the reply for what it means; without a meaning it does not decode. */
  predicate Decodes(reply: Fields, requestID: string, meaning: Option<S.Response>) {
    S.DecodeResponseEnvelope(S.ResponseMessage(requestID, reply)) ==
    match meaning
    case Some(response) => Ok(S.ResponseEnvelope(PROTOCOL_VERSION, Some(requestID), response))
    case None => Err(Mismatch)
  }

  /**
   The daemon replies to every request in every situation, unless the session helper is asked and its reply is nested
   too deeply.  Each reply decodes on the host to what it means; the one exception is a failure of the session helper
   that is not properly written, which does not decode at all.
   */
  lemma HostUnderstands(request: Request, s: Situation, requestID: string)
    requires Possible(s)
    ensures Dispatch(request, s).None? <==> IsLost(request, s)
    ensures Dispatch(request, s).Some? ==>
              Decodes(Dispatch(request, s).value, requestID, Meaning(request, s))
  {
    if AsksHelper(request) {
      if !IsLost(request, s) {
        SessionUnderstood(CallHelper(s.helper, s.limit), requestID);
      }
    } else {
      DaemonUnderstood(request, s, requestID);
    }
  }

  lemma DaemonUnderstood(request: Request, s: Situation, requestID: string)
    requires Possible(s) && !AsksHelper(request)
    ensures Dispatch(request, s).Some? && Decodes(Dispatch(request, s).value, requestID, Meaning(request, s))
  {
    if request.Status? {
      S.StatusSurvives(s.session, s.identity, s.mount, requestID);
    } else if request.MountSharedDirectory? {
      MountUnderstood(s, requestID);
    } else {
      TypedDecodes(Dispatch(request, s).value, requestID);
    }
  }

  lemma MountUnderstood(s: Situation, requestID: string)
    requires Possible(s)
    ensures Decodes(DispatchMount(s.mounting), requestID, Meaning(Request.MountSharedDirectory, s))
  {
    TypedDecodes(DispatchMount(s.mounting), requestID);
  }

  lemma SessionUnderstood(answer: Answer, requestID: string)
    requires !answer.Escaped?
    ensures Decodes(DispatchSession(answer).value, requestID, HelperMeans(answer))
  {
    TypedDecodes(DispatchSession(answer).value, requestID);
  }

  // ----- what the host learns, reply by reply

  /** What the host makes of the reply to the request, if there is one. */
  function Learns(request: Request, s: Situation, requestID: string): Option<Result<S.ResponseEnvelope, DecodingError>> {
    match Dispatch(request, s)
    case Some(reply) => Some(S.DecodeResponseEnvelope(S.ResponseMessage(requestID, reply)))
    case None => None
  }

  function Says(requestID: string, response: S.Response): Option<Result<S.ResponseEnvelope, DecodingError>> {
    Some(Ok(S.ResponseEnvelope(2, Some(requestID), response)))
  }

  lemma LearnsMeaning(request: Request, s: Situation, fields: Fields, requestID: string)
    requires Possible(s) && AsksHelper(request)
    requires s.helper == Sends(Message(fields)) && !DeeperThan(Obj(fields), s.limit)
    ensures Learns(request, s, requestID) ==
            match HelperMeans(Replied(Obj(fields)))
            case Some(response) => Says(requestID, response)
            case None => Some(Err(Mismatch))
  {
    HostUnderstands(request, s, requestID);
  }

  /** From an object that the helper sends, the host learns that the request is accepted, a text of at most 1 MiB or a
      failure, as the object says; a failure without a proper message or code does not decode; and exactly all other
      objects are reported as invalid. */
  lemma HelperObjectArrives(request: Request, s: Situation, fields: Fields, requestID: string)
    requires Possible(s) && (request.ReadClipboard? || request.WriteClipboard? || request.ResizeDisplay?)
    requires s.helper == Sends(Message(fields)) && !DeeperThan(Obj(fields), s.limit)
    ensures var kind := if "type" in fields && fields["type"].Str? then fields["type"].s else "";
            var isText := "text" in fields && fields["text"].Str? && Utf8.Size(fields["text"].s) <= 1024 * 1024;
            Learns(request, s, requestID) ==
            if kind == "accepted" then Says(requestID, S.AcceptedReply)
            else if kind == "clipboard" && isText then Says(requestID, S.ClipboardReply(fields["text"].s))
            else if kind != "failure" then
              Says(requestID, S.FailureReply("invalidSessionResponse", "session helper response is invalid"))
            else if "message" !in fields || !fields["message"].Str? then Some(Err(Mismatch))
            else if "code" !in fields || fields["code"].Null? then
              Says(requestID, S.FailureReply("guestError", fields["message"].s))
            else if fields["code"].Str? then Says(requestID, S.FailureReply(fields["code"].s, fields["message"].s))
            else Some(Err(Mismatch))
  {
    LearnsMeaning(request, s, fields, requestID);
  }

  /** Without such an object it learns that the session is unavailable. */
  lemma NoHelperObjectArrives(request: Request, s: Situation, requestID: string)
    requires Possible(s) && (request.ReadClipboard? || request.WriteClipboard? || request.ResizeDisplay?)
    ensures s.helper == NotConnected ==>
              Learns(request, s, requestID) ==
              Says(requestID, S.FailureReply("sessionUnavailable", "no desktop session helper is connected"))
    ensures s.helper == Sends(Unreadable) || (s.helper.Sends? && s.helper.text.Malformed? && s.helper.text.depth <= s.limit) ==>
              Learns(request, s, requestID) ==
              Says(requestID, S.FailureReply("sessionUnavailable", "desktop session helper disconnected"))
  {
    HostUnderstands(request, s, requestID);
  }

  /** The host learns that the guest goes down exactly if the command for it has succeeded, and otherwise why not, in
      at most 512 characters. */
  lemma PowerArrives(request: Request, s: Situation, requestID: string)
    requires Possible(s) && (request.Shutdown? || request.Reboot?)
    ensures s.power.None? ==> Learns(request, s, requestID) == Says(requestID, S.AcceptedReply)
    ensures s.power.Some? ==>
              var message := s.power.value;
              Learns(request, s, requestID) ==
              Says(requestID, S.FailureReply("powerOperationFailed", if |message| <= 512 then message else message[..512]))
  {
    HostUnderstands(request, s, requestID);
  }

  /** The host learns that the share is mounted, or that mounting has failed and why. */
  lemma MountArrives(s: Situation, requestID: string)
    requires Possible(s)
    ensures var message := if s.mounting.error.Some? then s.mounting.error.value else "mount point is occupied";
            Learns(Request.MountSharedDirectory, s, requestID) ==
            Says(requestID,
                 if s.mounting.error.None? && s.mounting.mount.state == "mounted" then S.AcceptedReply
                 else S.FailureReply("mountFailed", if |message| <= 512 then message else message[..512]))
  {
    HostUnderstands(Request.MountSharedDirectory, s, requestID);
  }

  /** With both replies goes the state of the mount: mounted, or failed and why. */
  lemma MountReplyTells(s: Situation)
    requires Possible(s)
    ensures var reply := DispatchMount(s.mounting);
            && "sharedMountStatus" in reply && reply["sharedMountStatus"].Obj?
            && S.DecodeMount(reply["sharedMountStatus"]) ==
               Ok(S.SharedMount(if s.mounting.error.None? && s.mounting.mount.state == "mounted" then S.Mounted else S.Failed,
                                "share", "/mnt/simplevm-share", None))
            && Present(reply["sharedMountStatus"].fields, "error") ==
               if s.mounting.error.Some? then Some(Str(s.mounting.error.value)) else None
  {
  }

  /** A reply of the daemon itself that accepts a request names it by the type with which the host has sent it. */
  lemma AcceptedNamesRequest(request: Request, s: Situation, requestID: string, sent: Value)
    requires EncodeEnvelope(RequestEnvelope(PROTOCOL_VERSION, Some(requestID), request)) == Ok(sent)
    requires !AsksHelper(request) && Dispatch(request, s).value["type"] == Str("accepted")
    ensures "operation" in Dispatch(request, s).value
    ensures sent.fields["request"].fields["type"] == Dispatch(request, s).value["operation"]
  {
  }

  /**
   A whole exchange: what the host encodes, the guest takes as the same request; its reply passes the host's checks
   and means what the dispatch of that request means.
   */
  lemma Exchange(request: Request, requestID: string, sent: Value, s: Situation)
    requires EncodeEnvelope(RequestEnvelope(PROTOCOL_VERSION, Some(requestID), request)) == Ok(sent)
    requires !request.Hello? && requestID != "" && Utf8.Size(requestID) <= 256
    requires Possible(s) && !IsLost(request, s) && Meaning(request, s).Some?
    ensures sent.Obj? && GuestDecode(sent.fields) == Ok(GuestRequest(request, false, Some(requestID)))
    ensures Dispatch(request, s).Some?
    ensures var reply := S.DecodeResponseEnvelope(S.ResponseMessage(requestID, Dispatch(request, s).value));
            && reply.Ok?
            && HostRequests.Check(
                 HostRequests.Reply(reply.value.protocolVersion, reply.value.requestID, reply.value.response), requestID)
               == Ok(Meaning(request, s).value)
  {
    GuestAcceptsHost(request, requestID, sent);
    HostUnderstands(request, s, requestID);
  }

  /** The host is told that the share is mounted exactly if it is. */
  method HandleMount(before: S.MountState, makeDirectory: Option<string>, commands: seq<Command>, later: S.MountState,
                     requestID: string)
    returns (reply: Value)
    requires S.FromTable(before) && S.FromTable(later) && |commands| == |S.MOUNT_FILESYSTEMS|
    ensures S.DecodeResponseEnvelope(reply).Ok?
    ensures S.DecodeResponseEnvelope(reply).value.response.AcceptedReply? <==>
              if before.mounted then before.state == "mounted"
              else makeDirectory.None? && !Breaks(commands) && later.state == "mounted"
  {
    var mounting, _ := MountSharedDirectory(before, makeDirectory, commands, later);
    reply := S.ResponseMessage(requestID, DispatchMount(mounting));
    ghost var s := Situation(None, S.Identity("", "", "", []), before, None, mounting, NotConnected, 0);
    MountUnderstood(s, requestID);
  }
}
