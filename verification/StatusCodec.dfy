/** The guest's replies and what the host makes of them, from session registration to decoded status. */
module StatusCodec {
  import opened Wrappers
  import opened Json
  import opened GuestProtocol
  import T = Texts
  import Utf8

  const AGENT_VERSION := "2.0.0"
  const MAX_DISTRO := 128
  const MOUNT_POINT := "/mnt/simplevm-share"
  const MOUNT_TAG := "share"
  const MOUNT_FILESYSTEMS: seq<string> := ["virtiofs", "9p"]

  // ----- the guest: session registrations

  datatype Session = Session(
    desktopEnvironment: string,
    sessionType: string,
    capabilities: seq<string>,
    distroID: string,
    distroVersion: string)

  /** A registration is accepted, refused with a `ValueError`, or makes the validator raise a `TypeError`. */
  datatype Registration = Accepted(session: Session) | Refused | Raised

  const REGISTRATION_KEYS: set<string> :=
    {"type", "uid", "desktopEnvironment", "sessionType", "capabilities", "distroID", "distroVersion"}
  const DESKTOPS: set<string> := {"gnome", "hyprland", "other"}
  const SESSION_TYPES: set<string> := {"wayland", "x11", "other"}
  const SESSION_CAPABILITIES: set<string> := {"clipboardRead", "clipboardWrite", "displayResize"}

  /** Python's `==` between a JSON value and a number. */
  predicate EqualsNumber(v: Value, n: int) {
    match v
    case Int(i) => i == n
    case Bool(b) => n == if b then 1 else 0
    case Real(r) => r == n as real
    case _ => false
  }

  predicate IsOneOf(v: Value, names: set<string>) {
    v.Str? && v.s in names
  }

  predicate Hashable(v: Value) {
    !v.Arr? && !v.Obj?
  }

  /** The capability list has no duplicates and only allowed names. */
  predicate AreCapabilities(items: seq<Value>) {
    && (forall i :: 0 <= i < |items| ==> IsOneOf(items[i], SESSION_CAPABILITIES))
    && forall i, j :: 0 <= i < j < |items| ==> items[i] != items[j]
  }

  predicate IsDistroText(v: Value) {
    v.Str? && Utf8.Size(v.s) <= MAX_DISTRO
  }

  function Texts(items: seq<Value>): seq<string>
    requires forall i :: 0 <= i < |items| ==> items[i].Str?
  {
    seq(|items|, i requires 0 <= i < |items| => items[i].s)
  }

  /** `_validate_registration` for a peer with user `uid`. */
  function ValidateRegistration(fields: Fields, uid: int): Registration {
    if fields.Keys != REGISTRATION_KEYS || fields["type"] != Str("register") then Refused
    else if !EqualsNumber(fields["uid"], uid) then Refused
    else if !IsOneOf(fields["desktopEnvironment"], DESKTOPS) then Refused
    else if !IsOneOf(fields["sessionType"], SESSION_TYPES) then Refused
    else if !fields["capabilities"].Arr? then Refused
    else if exists i :: 0 <= i < |fields["capabilities"].items| && !Hashable(fields["capabilities"].items[i]) then Raised
    else if !AreCapabilities(fields["capabilities"].items) then Refused
    else if !IsDistroText(fields["distroID"]) || !IsDistroText(fields["distroVersion"]) then Refused
    else
      assert forall i :: 0 <= i < |fields["capabilities"].items| ==>
        IsOneOf(fields["capabilities"].items[i], SESSION_CAPABILITIES);
      Accepted(Session(fields["desktopEnvironment"].s, fields["sessionType"].s, Texts(fields["capabilities"].items),
                       fields["distroID"].s, fields["distroVersion"].s))
  }

  /** The text of a registration of the session; `uid` may be any value that equals the user's number. */
  function RegistrationOf(session: Session, uid: Value): Fields {
    map["type" := Str("register"), "uid" := uid, "desktopEnvironment" := Str(session.desktopEnvironment),
        "sessionType" := Str(session.sessionType), "capabilities" := Arr(Strings(session.capabilities)),
        "distroID" := Str(session.distroID), "distroVersion" := Str(session.distroVersion)]
  }

  /** What the text of a session has to fulfil: known names, no capability twice, and short texts. */
  predicate MayRegister(session: Session) {
    && session.desktopEnvironment in {"gnome", "hyprland", "other"}
    && session.sessionType in {"wayland", "x11", "other"}
    && (forall i :: 0 <= i < |session.capabilities| ==>
          session.capabilities[i] in {"clipboardRead", "clipboardWrite", "displayResize"})
    && (forall i, j :: 0 <= i < j < |session.capabilities| ==> session.capabilities[i] != session.capabilities[j])
    && Utf8.Size(session.distroID) <= 128 && Utf8.Size(session.distroVersion) <= 128
  }

  /** Exactly the registrations of such sessions are accepted, as the sessions that they are of. */
  lemma AcceptedExactly(fields: Fields, uid: int, session: Session)
    ensures ValidateRegistration(fields, uid) == Accepted(session) <==>
              && "uid" in fields && IsNumber(fields["uid"], uid)
              && fields == RegistrationOf(session, fields["uid"]) && MayRegister(session)
  {
    if ValidateRegistration(fields, uid) == Accepted(session) {
      AcceptedIsOne(fields, uid, session);
    }
    if "uid" in fields && IsNumber(fields["uid"], uid) && MayRegister(session) {
      OneIsAccepted(session, fields["uid"], uid);
    }
  }

  lemma AcceptedIsOne(fields: Fields, uid: int, session: Session)
    requires ValidateRegistration(fields, uid) == Accepted(session)
    ensures IsNumber(fields["uid"], uid) && fields == RegistrationOf(session, fields["uid"]) && MayRegister(session)
  {
    var items := fields["capabilities"].items;
    assert forall i :: 0 <= i < |items| ==> IsOneOf(items[i], SESSION_CAPABILITIES);
    TextsAreItems(items);
    forall i, j | 0 <= i < j < |items|
      ensures Texts(items)[i] != Texts(items)[j]
    {
      assert items[i] != items[j];
    }
    RegistrationIs(fields, session);
  }

  lemma RegistrationIs(fields: Fields, session: Session)
    requires fields.Keys == REGISTRATION_KEYS && fields["type"] == Str("register")
    requires fields["desktopEnvironment"] == Str(session.desktopEnvironment)
    requires fields["sessionType"] == Str(session.sessionType)
    requires fields["capabilities"] == Arr(Strings(session.capabilities))
    requires fields["distroID"] == Str(session.distroID) && fields["distroVersion"] == Str(session.distroVersion)
    ensures fields == RegistrationOf(session, fields["uid"])
  {
  }

  lemma OneIsAccepted(session: Session, number: Value, uid: int)
    requires IsNumber(number, uid) && MayRegister(session)
    ensures ValidateRegistration(RegistrationOf(session, number), uid) == Accepted(session)
  {
    var fields := RegistrationOf(session, number);
    var items := Strings(session.capabilities);
    StringsAll(session.capabilities);
    assert fields.Keys == REGISTRATION_KEYS;
    assert forall i :: 0 <= i < |items| ==> IsOneOf(items[i], SESSION_CAPABILITIES);
    assert Texts(items) == session.capabilities;
  }

  lemma TextsAreItems(items: seq<Value>)
    requires forall i :: 0 <= i < |items| ==> items[i].Str?
    ensures Strings(Texts(items)) == items
  {
    StringsAll(Texts(items));
  }

  /** The number, as an integer or a real, or a boolean that Python takes for it */
  predicate IsNumber(v: Value, n: int) {
    v == Int(n) || (v.Real? && v.r == n as real) || (n == 0 && v == Bool(false)) || (n == 1 && v == Bool(true))
  }

  lemma StringsAll(texts: seq<string>)
    ensures |Strings(texts)| == |texts| && forall i :: 0 <= i < |texts| ==> Strings(texts)[i] == Str(texts[i])
  {
    if texts == [] {
      assert Strings(texts) == [];
    } else {
      StringsAt(texts, 0);
    }
    forall i | 0 <= i < |texts|
      ensures Strings(texts)[i] == Str(texts[i])
    {
      StringsAt(texts, i);
    }
  }

  predicate ValidSession(s: Session) {
    && s.desktopEnvironment in DESKTOPS && s.sessionType in SESSION_TYPES
    && forall name :: name in s.capabilities ==> name in SESSION_CAPABILITIES
  }

  // ----- the guest: the shared mount

  datatype MountState = MountState(mounted: bool, state: string, filesystem: string)

  /** A line of the mount table, cut at its first " - ", and each side cut at white space. */
  datatype MountLine = MountLine(left: seq<string>, right: Option<seq<string>>)

  predicate IsSpace(c: char) {
    c == ' ' || c == '\t' || c == '\n' || c == '\r'
  }

  function ReadMountLine(line: string): MountLine {
    match T.Partition(line, " - ")
    case None => MountLine(T.Parts(line, IsSpace), None)
    case Some((left, right)) => MountLine(T.Parts(left, IsSpace), Some(T.Parts(right, IsSpace)))
  }

  /** A line as the kernel writes it, up to its end. */
  function MountLineText(left: seq<string>, right: seq<string>): string {
    T.Joined(left, " ") + " - " + T.Joined(right, " ")
  }

  lemma NoMarkAt(s: string, i: nat)
    requires i + 3 <= |s| ==> s[i] != ' ' || s[i + 1] != '-' || s[i + 2] != ' '
    ensures !T.IsAt(s, " - ", i)
  {
    if i + 3 <= |s| {
      assert s[i..i + 3][0] == s[i] && s[i..i + 3][1] == s[i + 1] && s[i..i + 3][2] == s[i + 2];
    }
  }

  lemma {:induction false} NoMarkInFields(left: seq<string>, rest: string, i: nat)
    requires T.AreParts(left, IsSpace) && "-" !in left && i < |T.Joined(left, " ")|
    ensures !T.IsAt(T.Joined(left, " ") + " - " + rest, " - ", i)
  {
    var field := left[0];
    var s := T.Joined(left, " ") + " - " + rest;
    assert T.IsPart(field, IsSpace);
    if i < |field| {
      assert s[i] == field[i] && !IsSpace(field[i]);
      NoMarkAt(s, i);
    } else {
      var others := T.Joined(left[1..], " ") + " - " + rest;
      assert T.IsPart(left[1], IsSpace);
      assert s == field + " " + others;
      if i == |field| {
        assert left[1] == T.Joined(left[1..], " ")[..|left[1]|];
        assert others[0] == left[1][0];
        assert |left[1]| > 1 ==> others[1] == left[1][1];
        assert |left[1]| == 1 ==> left[1] == [others[0]];
        assert left[1] != "-";
        assert s[i + 1] == others[0] && s[i + 2] == others[1];
        assert s[i + 1] != '-' || s[i + 2] != ' ';
        NoMarkAt(s, i);
      } else {
        NoMarkInFields(left[1..], rest, i - |field| - 1);
        T.IsAtShifted(field + " ", others, " - ", i - |field| - 1);
      }
    }
  }

  /** Such a line is read as the fields it was written from, whatever white space ends it, if none of the first ones is
      a lone hyphen. */
  lemma MountLineReadsBack(left: seq<string>, right: seq<string>, ending: string)
    requires T.AreParts(left, IsSpace) && T.AreParts(right, IsSpace) && "-" !in left
    requires forall i :: 0 <= i < |ending| ==> ending[i] in {' ', '\t', '\n', '\r'}
    ensures ReadMountLine(MountLineText(left, right) + ending) == MountLine(left, Some(right))
  {
    var l, r := T.Joined(left, " "), T.Joined(right, " ") + ending;
    assert MountLineText(left, right) + ending == l + " - " + r;
    forall i | 0 <= i < |l|
      ensures !T.IsAt(l + " - " + r, " - ", i)
    {
      NoMarkInFields(left, r, i);
    }
    T.PartitionAt(l, " - ", r);
    T.PartsOfJoined(left, " ", IsSpace);
    T.PartsOfJoined(right, " ", IsSpace);
    T.PartsDropEnd(T.Joined(right, " "), ending, "", IsSpace);
  }

  predicate IsSharedFilesystem(name: string) {
    name in MOUNT_FILESYSTEMS
  }

  /** What a look at the mount table can say. */
  predicate FromTable(m: MountState) {
    && GuestMountState(m.state)
    && (m.mounted <==> m.state == "mounted" || m.state == "occupied")
    && (m.state == "mounted" ==> IsSharedFilesystem(m.filesystem))
  }

  predicate MountsShare(text: string) {
    var line := ReadMountLine(text);
    line.right.Some? && |line.left| > 4 && line.left[4] == MOUNT_POINT
  }

  /** Of the lines that the kernel writes, those whose fifth field is the share's mount point mount it. */
  lemma MountsShareExactly(left: seq<string>, right: seq<string>)
    requires T.AreParts(left, IsSpace) && T.AreParts(right, IsSpace) && "-" !in left
    ensures MountsShare(MountLineText(left, right) + "\n") <==> |left| > 4 && left[4] == "/mnt/simplevm-share"
  {
    MountLineReadsBack(left, right, "\n");
  }

  /** `shared_mount_status`; `None` means that the table cannot be opened. */
  method SharedMountStatus(table: Option<seq<string>>) returns (status: MountState)
    ensures FromTable(status)
    ensures status.state == "unavailable" <==> table.None?
    ensures table.Some? && !status.mounted ==> status == MountState(false, "notMounted", "virtiofs")
    ensures status.mounted <==> table.Some? && exists i :: 0 <= i < |table.value| && MountsShare(table.value[i])
    ensures status.mounted ==>
              exists i :: 0 <= i < |table.value| && MountsShare(table.value[i])
                          && (forall j :: 0 <= j < i ==> !MountsShare(table.value[j]))
                          && var right := ReadMountLine(table.value[i]).right.value;
                             (status.state == "mounted" <==>
                                |right| > 1 && right[0] in {"virtiofs", "9p"} && right[1] == "share")
  {
    status := MountState(false, "notMounted", MOUNT_FILESYSTEMS[0]);
    if table.None? {
      return status.(state := "unavailable");
    }
    for i := 0 to |table.value|
      invariant status == MountState(false, "notMounted", "virtiofs")
      invariant forall j :: 0 <= j < i ==> !MountsShare(table.value[j])
    {
      var line := ReadMountLine(table.value[i]);
      if line.right.Some? && |line.left| > 4 && line.left[4] == MOUNT_POINT {
        var right := line.right.value;
        var filesystem := if right != [] then right[0] else "unknown";
        var source := if |right| > 1 then right[1] else "unknown";
        assert MountsShare(table.value[i]);
        return MountState(true, if IsSharedFilesystem(filesystem) && source == MOUNT_TAG then "mounted" else "occupied",
                          filesystem);
      }
    }
  }

  // ----- the guest: the status reply

  datatype Identity = Identity(hostname: string, distroID: string, distroVersion: string, ipAddresses: seq<string>)

  const BASE_CAPABILITIES: seq<string> := ["gracefulShutdown", "gracefulReboot", "mountSharedDirectory"]

  function MountFields(m: MountState): Value {
    Obj(map["mounted" := Bool(m.mounted), "state" := Str(m.state), "mountPoint" := Str(MOUNT_POINT),
            "tag" := Str(MOUNT_TAG), "filesystem" := Str(m.filesystem)])
  }

  /** `Agent.status` */
  function StatusReply(session: Option<Session>, identity: Identity, mount: MountState): Fields {
    map["type" := Str("status"),
        "protocolVersion" := Int(PROTOCOL_VERSION),
        "agentVersion" := Str(AGENT_VERSION),
        "hostname" := Str(identity.hostname),
        "operatingSystem" := Str("Linux"),
        "distroID" := Str(if session.Some? then session.value.distroID else identity.distroID),
        "distroVersion" := Str(if session.Some? then session.value.distroVersion else identity.distroVersion),
        "ipAddresses" := Arr(Strings(identity.ipAddresses)),
        "desktopEnvironment" := Str(if session.Some? then session.value.desktopEnvironment else "other"),
        "sessionType" := Str(if session.Some? then session.value.sessionType else "other"),
        "capabilities" := Arr(Strings(BASE_CAPABILITIES + if session.Some? then session.value.capabilities else [])),
        "sharedMountStatus" := MountFields(mount)]
  }

  /** `response_message` for a request that is not a legacy one. */
  function ResponseMessage(requestID: string, response: Fields): Value {
    Obj(map["protocolVersion" := Int(PROTOCOL_VERSION), "requestID" := Str(requestID), "response" := Obj(response)])
  }

  // ----- the host: decoding

  datatype Desktop = Gnome | Hyprland | OtherDesktop
  datatype SessionType = Wayland | X11 | OtherSession
  datatype Capability = GracefulShutdown | GracefulReboot | MountSharedDirectory | ClipboardRead | ClipboardWrite | DisplayResize
  datatype SharedMountState = Unavailable | Unmounted | Mounted | Failed

  datatype SharedMountStatusValue = SharedMount(state: SharedMountState, tag: string, mountPoint: string, message: Option<string>)

  datatype GuestStatus = GuestStatus(
    protocolVersion: int,
    agentVersion: string,
    hostname: string,
    ipAddresses: seq<string>,
    operatingSystem: string,
    distroID: string,
    distroVersion: string,
    desktopEnvironment: Desktop,
    sessionType: SessionType,
    capabilities: set<Capability>,
    sharedMountStatus: SharedMountStatusValue)

  datatype Response =
    | HelloReply(protocolVersion: int)
    | StatusValue(status: GuestStatus)
    | AcceptedReply
    | ClipboardReply(text: string)
    | FailureReply(code: string, message: string)

  function DesktopNamed(name: string): Option<Desktop> {
    match name
    case "gnome" => Some(Gnome)
    case "hyprland" => Some(Hyprland)
    case "other" => Some(OtherDesktop)
    case _ => None
  }

  function SessionTypeNamed(name: string): Option<SessionType> {
    match name
    case "wayland" => Some(Wayland)
    case "x11" => Some(X11)
    case "other" => Some(OtherSession)
    case _ => None
  }

  function CapabilityNamed(name: string): Option<Capability> {
    match name
    case "gracefulShutdown" => Some(GracefulShutdown)
    case "gracefulReboot" => Some(GracefulReboot)
    case "mountSharedDirectory" => Some(MountSharedDirectory)
    case "clipboardRead" => Some(ClipboardRead)
    case "clipboardWrite" => Some(ClipboardWrite)
    case "displayResize" => Some(DisplayResize)
    case _ => None
  }

  function MountStateNamed(name: string): Option<SharedMountState> {
    match name
    case "unavailable" => Some(Unavailable)
    case "unmounted" => Some(Unmounted)
    case "notMounted" => Some(Unmounted)
    case "mounted" => Some(Mounted)
    case "failed" => Some(Failed)
    case "error" => Some(Failed)
    case "occupied" => Some(Failed)
    case _ => None
  }

  function AsCapabilities(items: seq<Value>): Result<set<Capability>, DecodingError> {
    if items == [] then Ok({})
    else
      match (items[0], AsCapabilities(items[1..]))
      case (Str(name), Ok(rest)) =>
        (match CapabilityNamed(name) case Some(c) => Ok({c} + rest) case None => Err(Mismatch))
      case _ => Err(Mismatch)
  }

  function DecodeMount(v: Value): Result<SharedMountStatusValue, DecodingError> {
    if !v.Obj? then Err(Mismatch)
    else
      match (RequiredString(v.fields, "state"), RequiredString(v.fields, "tag"), RequiredString(v.fields, "mountPoint"))
      case (Ok(state), Ok(tag), Ok(mountPoint)) =>
        (match (MountStateNamed(state), Present(v.fields, "message"))
         case (Some(s), None) => Ok(SharedMount(s, tag, mountPoint, None))
         case (Some(s), Some(Str(message))) => Ok(SharedMount(s, tag, mountPoint, Some(message)))
         case _ => Err(Mismatch))
      case _ => Err(Mismatch)
  }

  function DesktopOr(fields: Fields): Result<Desktop, DecodingError> {
    match Present(fields, "desktopEnvironment")
    case None => Ok(OtherDesktop)
    case Some(v) => if v.Str? && DesktopNamed(v.s).Some? then Ok(DesktopNamed(v.s).value) else Err(Mismatch)
  }

  function SessionTypeOr(fields: Fields): Result<SessionType, DecodingError> {
    match Present(fields, "sessionType")
    case None => Ok(OtherSession)
    case Some(v) => if v.Str? && SessionTypeNamed(v.s).Some? then Ok(SessionTypeNamed(v.s).value) else Err(Mismatch)
  }

  function CapabilitiesOr(fields: Fields): Result<set<Capability>, DecodingError> {
    match Present(fields, "capabilities")
    case None => Ok({})
    case Some(v) => if v.Arr? then AsCapabilities(v.items) else Err(Mismatch)
  }

  function StringsOr(fields: Fields, key: string): Result<seq<string>, DecodingError> {
    match Present(fields, key)
    case None => Ok([])
    case Some(v) => if v.Arr? then AsStrings(v.items) else Err(Mismatch)
  }

  function MountOr(fields: Fields): Result<SharedMountStatusValue, DecodingError> {
    match Present(fields, "sharedMountStatus")
    case Some(v) => DecodeMount(v)
    case None =>
      match StringsOr(fields, "sharedDirectories")
      case Err(e) => Err(e)
      case Ok(paths) =>
        if paths == [] then Ok(SharedMount(Unmounted, MOUNT_TAG, MOUNT_POINT, None))
        else Ok(SharedMount(Mounted, MOUNT_TAG, MOUNT_POINT, Some(paths[0])))
  }

  /** `GuestAgentStatus.init(from:)` */
  function DecodeStatus(v: Value): Result<GuestStatus, DecodingError> {
    if !v.Obj? then Err(Mismatch)
    else
      var f := v.fields;
      match (RequiredInt(f, "protocolVersion"), StringOr(f, "agentVersion", "unknown"), RequiredString(f, "hostname"),
             StringsOr(f, "ipAddresses"), StringOr(f, "operatingSystem", "Linux"), StringOr(f, "distroID", "unknown"),
             StringOr(f, "distroVersion", "unknown"))
      case (Ok(version), Ok(agent), Ok(hostname), Ok(addresses), Ok(system), Ok(distro), Ok(distroVersion)) =>
        (match (DesktopOr(f), SessionTypeOr(f), CapabilitiesOr(f), MountOr(f))
         case (Ok(desktop), Ok(session), Ok(capabilities), Ok(mount)) =>
           Ok(GuestStatus(version, agent, hostname, addresses, system, distro, distroVersion, desktop, session,
                          capabilities, mount))
         case _ => Err(Mismatch))
      case _ => Err(Mismatch)
  }

  function DecodeTyped(kind: string, fields: Fields): Result<Response, DecodingError> {
    match kind
    case "hello" =>
      (match RequiredInt(fields, "protocolVersion") case Ok(v) => Ok(HelloReply(v)) case Err(e) => Err(e))
    case "status" =>
      (match DecodeStatus(if "status" in fields then fields["status"] else Obj(fields))
       case Ok(status) => Ok(StatusValue(status))
       case Err(e) => Err(e))
    case "accepted" => Ok(AcceptedReply)
    case "clipboard" =>
      (match RequiredString(fields, "text")
       case Ok(text) => if Utf8.Size(text) <= MAX_CLIPBOARD then Ok(ClipboardReply(text)) else Err(Mismatch)
       case Err(e) => Err(e))
    case "failure" =>
      (match (StringOr(fields, "code", "guestError"), RequiredString(fields, "message"))
       case (Ok(code), Ok(message)) => Ok(FailureReply(code, message))
       case _ => Err(Mismatch))
    case _ => Err(Mismatch)
  }

  /** `GuestAgentResponse.init(from:)` */
  function DecodeResponse(v: Value): Result<Response, DecodingError> {
    if !v.Obj? then Err(Mismatch)
    else match Present(v.fields, "type")
      case Some(kind) => if kind.Str? then DecodeTyped(kind.s, v.fields) else Err(Mismatch)
      case None =>
        match Present(v.fields, "hello")
        case Some(hello) =>
          if !hello.Obj? then Err(Mismatch)
          else (match RequiredInt(hello.fields, "protocolVersion") case Ok(n) => Ok(HelloReply(n)) case Err(e) => Err(e))
        case None =>
          if "status" in v.fields then
            (match DecodeStatus(v.fields["status"]) case Ok(status) => Ok(StatusValue(status)) case Err(e) => Err(e))
          else if "accepted" in v.fields then Ok(AcceptedReply)
          else
            match Present(v.fields, "failure")
            case Some(failure) =>
              if !failure.Obj? then Err(Mismatch)
              else (match RequiredString(failure.fields, "message")
                    case Ok(message) => Ok(FailureReply("legacyFailure", message))
                    case Err(e) => Err(e))
            case None => Err(Mismatch)
  }

  datatype ResponseEnvelope = ResponseEnvelope(protocolVersion: int, requestID: Option<string>, response: Response)

  /** `GuestAgentResponseEnvelope.init(from:)` */
  function DecodeResponseEnvelope(v: Value): Result<ResponseEnvelope, DecodingError> {
    if !v.Obj? then Err(Mismatch)
    else if "response" in v.fields then
      match (RequiredInt(v.fields, "protocolVersion"), DecodeResponse(v.fields["response"]))
      case (Ok(version), Ok(response)) =>
        (match Present(v.fields, "requestID")
         case None => Ok(ResponseEnvelope(version, None, response))
         case Some(id) => if id.Str? then Ok(ResponseEnvelope(version, Some(id.s), response)) else Err(Mismatch))
      case _ => Err(Mismatch)
    else
      match DecodeResponse(v)
      case Err(e) => Err(e)
      case Ok(response) =>
        var version := match response
          case HelloReply(n) => n
          case StatusValue(status) => status.protocolVersion
          case _ => 1;
        Ok(ResponseEnvelope(version, None, response))
  }

  // ----- a status survives

  lemma AcceptedIsValid(fields: Fields, uid: int)
    requires ValidateRegistration(fields, uid).Accepted?
    ensures ValidSession(ValidateRegistration(fields, uid).session)
  {
    var items := fields["capabilities"].items;
    forall i | 0 <= i < |items|
      ensures Texts(items)[i] in SESSION_CAPABILITIES
    {
      assert IsOneOf(items[i], SESSION_CAPABILITIES);
    }
  }

  /** The capabilities that the names stand for. */
  function CapabilitySet(names: seq<string>): set<Capability> {
    set name | name in names && CapabilityNamed(name).Some? :: CapabilityNamed(name).value
  }

  lemma {:induction false} CapabilitiesDecode(names: seq<string>)
    requires forall name :: name in names ==> CapabilityNamed(name).Some?
    ensures AsCapabilities(Strings(names)) == Ok(CapabilitySet(names))
  {
    if names != [] {
      var rest := names[1..];
      assert names == [names[0]] + rest;
      CapabilitiesDecode(rest);
      assert Strings(names)[1..] == Strings(rest);
      assert CapabilitySet(names) == {CapabilityNamed(names[0]).value} + CapabilitySet(rest);
    } else {
      assert CapabilitySet(names) == {};
    }
  }

  predicate GuestMountState(state: string) {
    state in {"notMounted", "mounted", "occupied", "unavailable"}
  }

  function HostCapabilities(session: Option<Session>): set<Capability> {
    var base := {GracefulShutdown, GracefulReboot, MountSharedDirectory};
    if session.Some? then base + CapabilitySet(session.value.capabilities) else base
  }

  /** What the host has to know: the capabilities of the daemon and of the session, the session's desktop, type and
      distribution or else the defaults, and a defined mount state. */
  function HostStatus(session: Option<Session>, identity: Identity, mount: MountState): GuestStatus
    requires session.Some? ==> ValidSession(session.value)
    requires GuestMountState(mount.state)
  {
    var sharedMount := SharedMount(HostMountState(mount.state), MOUNT_TAG, MOUNT_POINT, None);
    match session
    case Some(s) =>
      GuestStatus(PROTOCOL_VERSION, AGENT_VERSION, identity.hostname, identity.ipAddresses, "Linux", s.distroID,
                  s.distroVersion, DesktopNamed(s.desktopEnvironment).value, SessionTypeNamed(s.sessionType).value,
                  HostCapabilities(session), sharedMount)
    case None =>
      GuestStatus(PROTOCOL_VERSION, AGENT_VERSION, identity.hostname, identity.ipAddresses, "Linux",
                  identity.distroID, identity.distroVersion, OtherDesktop, OtherSession,
                  HostCapabilities(session), sharedMount)
  }

  /**
   Every status the guest builds, from any registration it has accepted or from none, and from any mount table,
   arrives at the host.
   */
  lemma StatusSurvives(session: Option<Session>, identity: Identity, mount: MountState, requestID: string)
    requires session.Some? ==> ValidSession(session.value)
    requires GuestMountState(mount.state)
    ensures DecodeResponseEnvelope(ResponseMessage(requestID, StatusReply(session, identity, mount))) ==
            Ok(ResponseEnvelope(PROTOCOL_VERSION, Some(requestID), StatusValue(HostStatus(session, identity, mount))))
  {
    var fields := StatusReply(session, identity, mount);
    StatusDecodes(session, identity, mount);
    FieldsOfStatus(session, identity, mount);
    assert DecodeResponse(Obj(fields)) == DecodeTyped("status", fields);
    EnvelopeDecodes(requestID, fields);
  }

  /** What the host knows of a session */
  lemma HostKnowsSession(s: Session, identity: Identity, mount: MountState)
    requires ValidSession(s) && GuestMountState(mount.state)
    ensures var status := HostStatus(Some(s), identity, mount);
            && status.desktopEnvironment == (match s.desktopEnvironment
                                             case "gnome" => Gnome
                                             case "hyprland" => Hyprland
                                             case _ => OtherDesktop)
            && status.sessionType == (match s.sessionType
                                      case "wayland" => Wayland
                                      case "x11" => X11
                                      case _ => OtherSession)
            && (ClipboardRead in status.capabilities <==> "clipboardRead" in s.capabilities)
            && (ClipboardWrite in status.capabilities <==> "clipboardWrite" in s.capabilities)
            && (DisplayResize in status.capabilities <==> "displayResize" in s.capabilities)
  {
    forall name | name in s.capabilities
      ensures CapabilityNamed(name) == (if name == "clipboardRead" then Some(ClipboardRead)
                                        else if name == "clipboardWrite" then Some(ClipboardWrite)
                                        else Some(DisplayResize))
    {
    }
  }

  /** What it knows in any case */
  lemma HostKnows(session: Option<Session>, identity: Identity, mount: MountState)
    requires session.Some? ==> ValidSession(session.value)
    requires GuestMountState(mount.state)
    ensures var status := HostStatus(session, identity, mount);
            && status.protocolVersion == 2 && status.agentVersion == "2.0.0" && status.operatingSystem == "Linux"
            && status.hostname == identity.hostname && status.ipAddresses == identity.ipAddresses
            && status.distroID == (if session.Some? then session.value.distroID else identity.distroID)
            && status.distroVersion == (if session.Some? then session.value.distroVersion else identity.distroVersion)
            && (session.None? ==> status.desktopEnvironment == OtherDesktop && status.sessionType == OtherSession)
            && status.sharedMountStatus.tag == "share" && status.sharedMountStatus.mountPoint == "/mnt/simplevm-share"
            && (status.sharedMountStatus.state == Mounted <==> mount.state == "mounted")
            && (status.sharedMountStatus.state == Failed <==> mount.state == "occupied")
            && (status.sharedMountStatus.state == Unmounted <==> mount.state == "notMounted")
            && (status.sharedMountStatus.state == Unavailable <==> mount.state == "unavailable")
  {
  }

  lemma StatusDecodes(session: Option<Session>, identity: Identity, mount: MountState)
    requires session.Some? ==> ValidSession(session.value)
    requires GuestMountState(mount.state)
    ensures DecodeStatus(Obj(StatusReply(session, identity, mount))) == Ok(HostStatus(session, identity, mount))
  {
    FieldsOfStatus(session, identity, mount);
    FieldsOfSession(session, identity, mount);
    FieldsDecode(StatusReply(session, identity, mount), session, identity, mount);
  }

  lemma FieldsDecode(f: Fields, session: Option<Session>, identity: Identity, mount: MountState)
    requires session.Some? ==> ValidSession(session.value)
    requires GuestMountState(mount.state)
    requires HasSystemFields(f, identity) && HasSessionFields(f, session, identity, mount)
    ensures DecodeStatus(Obj(f)) == Ok(HostStatus(session, identity, mount))
  {
    StringsDecode(identity.ipAddresses);
    AllCapabilities(session);
    MountDecodes(mount);
    var host := HostStatus(session, identity, mount);
    DecodeStatusFrom(f, identity.hostname, identity.ipAddresses, f["desktopEnvironment"].s, f["sessionType"].s,
                     host.capabilities, host.sharedMountStatus);
  }

  ghost predicate HasSystemFields(f: Fields, identity: Identity) {
    && {"protocolVersion", "agentVersion", "hostname", "operatingSystem", "ipAddresses"} <= f.Keys
    && f["protocolVersion"] == Int(PROTOCOL_VERSION) && f["agentVersion"] == Str(AGENT_VERSION)
    && f["hostname"] == Str(identity.hostname) && f["operatingSystem"] == Str("Linux")
    && f["ipAddresses"] == Arr(Strings(identity.ipAddresses))
  }

  ghost predicate HasSessionFields(f: Fields, session: Option<Session>, identity: Identity, mount: MountState) {
    && {"distroID", "distroVersion", "desktopEnvironment", "sessionType", "capabilities", "sharedMountStatus"} <= f.Keys
    && f["distroID"] == Str(if session.Some? then session.value.distroID else identity.distroID)
    && f["distroVersion"] == Str(if session.Some? then session.value.distroVersion else identity.distroVersion)
    && f["desktopEnvironment"] == Str(if session.Some? then session.value.desktopEnvironment else "other")
    && f["sessionType"] == Str(if session.Some? then session.value.sessionType else "other")
    && f["capabilities"] == Arr(Strings(BASE_CAPABILITIES + if session.Some? then session.value.capabilities else []))
    && f["sharedMountStatus"] == MountFields(mount)
  }

  lemma EnvelopeDecodes(requestID: string, reply: Fields)
    ensures DecodeResponse(Obj(reply)).Ok? ==>
              DecodeResponseEnvelope(ResponseMessage(requestID, reply)) ==
              Ok(ResponseEnvelope(PROTOCOL_VERSION, Some(requestID), DecodeResponse(Obj(reply)).value))
    ensures DecodeResponse(Obj(reply)).Err? ==> DecodeResponseEnvelope(ResponseMessage(requestID, reply)).Err?
  {
  }

  lemma MountDecodes(mount: MountState)
    requires GuestMountState(mount.state)
    ensures DecodeMount(MountFields(mount)) == Ok(SharedMount(HostMountState(mount.state), MOUNT_TAG, MOUNT_POINT, None))
    ensures Present(MountFields(mount).fields, "mounted") == Some(Bool(mount.mounted))
    ensures Present(MountFields(mount).fields, "filesystem") == Some(Str(mount.filesystem))
  {
  }

  lemma FieldsOfStatus(session: Option<Session>, identity: Identity, mount: MountState)
    ensures var f := StatusReply(session, identity, mount);
            HasSystemFields(f, identity) && "status" !in f && "type" in f && f["type"] == Str("status")
  {
  }

  lemma FieldsOfSession(session: Option<Session>, identity: Identity, mount: MountState)
    ensures HasSessionFields(StatusReply(session, identity, mount), session, identity, mount)
  {
  }

  lemma DecodeStatusFrom(f: Fields, hostname: string, addresses: seq<string>, desktop: string, sessionType: string,
                         capabilities: set<Capability>, mount: SharedMountStatusValue)
    requires {"protocolVersion", "agentVersion", "hostname", "operatingSystem", "distroID", "distroVersion",
              "ipAddresses", "desktopEnvironment", "sessionType", "capabilities", "sharedMountStatus"} <= f.Keys
    requires f["protocolVersion"] == Int(PROTOCOL_VERSION)
    requires f["agentVersion"].Str? && f["operatingSystem"].Str? && f["distroID"].Str? && f["distroVersion"].Str?
    requires f["hostname"] == Str(hostname)
    requires f["ipAddresses"].Arr? && AsStrings(f["ipAddresses"].items) == Ok(addresses)
    requires f["desktopEnvironment"] == Str(desktop) && DesktopNamed(desktop).Some?
    requires f["sessionType"] == Str(sessionType) && SessionTypeNamed(sessionType).Some?
    requires f["capabilities"].Arr? && AsCapabilities(f["capabilities"].items) == Ok(capabilities)
    requires !f["sharedMountStatus"].Null? && DecodeMount(f["sharedMountStatus"]) == Ok(mount)
    ensures DecodeStatus(Obj(f)) ==
            Ok(GuestStatus(PROTOCOL_VERSION, f["agentVersion"].s, hostname, addresses, f["operatingSystem"].s,
                           f["distroID"].s, f["distroVersion"].s, DesktopNamed(desktop).value,
                           SessionTypeNamed(sessionType).value, capabilities, mount))
  {
  }

  /** The host's names for the guest's mount states. */
  function HostMountState(state: string): SharedMountState
    requires GuestMountState(state)
  {
    if state == "notMounted" then Unmounted
    else if state == "mounted" then Mounted
    else if state == "occupied" then Failed
    else Unavailable
  }

  /** Capabilities decode exactly if all are known names. */
  lemma {:induction false} CapabilitiesExactly(items: seq<Value>)
    ensures AsCapabilities(items).Ok? <==>
              forall i :: 0 <= i < |items| ==>
                && items[i].Str?
                && items[i].s in {"gracefulShutdown", "gracefulReboot", "mountSharedDirectory", "clipboardRead",
                                  "clipboardWrite", "displayResize"}
  {
    if items != [] {
      CapabilitiesExactly(items[1..]);
      assert forall i :: 0 < i < |items| ==> items[i] == items[1..][i - 1];
    }
  }

  lemma {:induction false} StringsExactly(items: seq<Value>)
    ensures AsStrings(items).Ok? <==> forall i :: 0 <= i < |items| ==> items[i].Str?
  {
    if items != [] {
      StringsExactly(items[1..]);
      assert forall i :: 0 < i < |items| ==> items[i] == items[1..][i - 1];
    }
  }

  /** The key is missing or null, or has a text. */
  predicate MayBeText(f: Fields, key: string) {
    key in f ==> f[key].Null? || f[key].Str?
  }

  /** The key is missing or null, or has a list of texts. */
  predicate MayBeTexts(f: Fields, key: string) {
    key in f ==> f[key].Null? || (f[key].Arr? && forall i :: 0 <= i < |f[key].items| ==> f[key].items[i].Str?)
  }

  /** A status decodes exactly if it has a version and a host name, and nothing in it is of a wrong kind. */
  lemma StatusDecodesExactly(f: Fields)
    ensures DecodeStatus(Obj(f)).Ok? <==>
              && "protocolVersion" in f && AsInt(f["protocolVersion"]).Ok? && "hostname" in f && f["hostname"].Str?
              && MayBeText(f, "agentVersion") && MayBeText(f, "operatingSystem") && MayBeText(f, "distroID")
              && MayBeText(f, "distroVersion") && MayBeTexts(f, "ipAddresses")
              && (Present(f, "desktopEnvironment").Some? ==>
                    f["desktopEnvironment"].Str? && f["desktopEnvironment"].s in {"gnome", "hyprland", "other"})
              && (Present(f, "sessionType").Some? ==>
                    f["sessionType"].Str? && f["sessionType"].s in {"wayland", "x11", "other"})
              && (Present(f, "capabilities").Some? ==>
                    f["capabilities"].Arr? && AsCapabilities(f["capabilities"].items).Ok?)
              && (if Present(f, "sharedMountStatus").Some? then DecodeMount(f["sharedMountStatus"]).Ok?
                  else MayBeTexts(f, "sharedDirectories"))
  {
    if "ipAddresses" in f && f["ipAddresses"].Arr? {
      StringsExactly(f["ipAddresses"].items);
    }
    if "sharedDirectories" in f && f["sharedDirectories"].Arr? {
      StringsExactly(f["sharedDirectories"].items);
    }
  }

  /** What the host makes of an object with a type */
  lemma ReplyDecodes(fields: Fields)
    requires "type" in fields && !fields["type"].Null?
    ensures var isText := "text" in fields && fields["text"].Str? && Utf8.Size(fields["text"].s) <= 1024 * 1024;
            var kind := if fields["type"].Str? then fields["type"].s else "";
            DecodeResponse(Obj(fields)) ==
            if kind == "accepted" then Ok(AcceptedReply)
            else if kind == "clipboard" && isText then Ok(ClipboardReply(fields["text"].s))
            else if kind == "failure" && "message" in fields && fields["message"].Str? && MayBeText(fields, "code") then
              Ok(FailureReply(if "code" in fields && fields["code"].Str? then fields["code"].s else "guestError",
                              fields["message"].s))
            else if kind == "hello" && "protocolVersion" in fields && AsInt(fields["protocolVersion"]).Ok? then
              Ok(HelloReply(AsInt(fields["protocolVersion"]).value))
            else if kind == "status" then
              match DecodeStatus(if "status" in fields then fields["status"] else Obj(fields))
              case Ok(status) => Ok(StatusValue(status))
              case Err(_) => Err(Mismatch)
            else Err(Mismatch)
  {
  }

  /** A mount is decoded from its state's name, and a message if there is one. */
  lemma MountNames(fields: Fields, tag: string, mountPoint: string)
    requires {"state", "tag", "mountPoint"} <= fields.Keys && fields["state"].Str?
    requires fields["tag"] == Str(tag) && fields["mountPoint"] == Str(mountPoint)
    ensures var name := fields["state"].s;
            var message := if "message" in fields then fields["message"] else Null;
            var state := if name == "mounted" then Some(Mounted)
                         else if name in {"unmounted", "notMounted"} then Some(Unmounted)
                         else if name in {"failed", "error", "occupied"} then Some(Failed)
                         else if name == "unavailable" then Some(Unavailable)
                         else None;
            DecodeMount(Obj(fields)) ==
            if state.None? || (!message.Null? && !message.Str?) then Err(Mismatch)
            else Ok(SharedMount(state.value, tag, mountPoint, if message.Str? then Some(message.s) else None))
  {
  }

  /** The status of an old guest, which has little to say: the rest is filled in, and the first of its shared
      directories counts as the mount. */
  lemma OldStatusDecodes(fields: Fields, version: int, hostname: string, directories: seq<string>)
    requires fields.Keys == {"protocolVersion", "hostname", "sharedDirectories"}
    requires fields["protocolVersion"] == Int(version) && -0x8000_0000_0000_0000 <= version < 0x8000_0000_0000_0000
    requires fields["hostname"] == Str(hostname) && fields["sharedDirectories"] == Arr(Strings(directories))
    ensures DecodeStatus(Obj(fields)) ==
            Ok(GuestStatus(version, "unknown", hostname, [], "Linux", "unknown", "unknown", OtherDesktop, OtherSession, {},
                           if directories == [] then SharedMount(Unmounted, "share", "/mnt/simplevm-share", None)
                           else SharedMount(Mounted, "share", "/mnt/simplevm-share", Some(directories[0]))))
  {
    StringsDecode(directories);
    assert DesktopOr(fields) == Ok(OtherDesktop) && SessionTypeOr(fields) == Ok(OtherSession);
    assert CapabilitiesOr(fields) == Ok({}) && StringsOr(fields, "ipAddresses") == Ok([]);
    assert StringsOr(fields, "sharedDirectories") == Ok(directories);
  }

  // ----- legacy replies

  /** `response_message` for a legacy request: the type has become the only key. */
  function LegacyMessage(response: Fields): Value
    requires "type" in response && response["type"].Str?
  {
    Obj(map[response["type"].s := Obj(response - {"type"})])
  }

  /** A status in this form arrives all the same, with its own protocol version and no identifier. */
  lemma LegacyStatusSurvives(session: Option<Session>, identity: Identity, mount: MountState)
    requires session.Some? ==> ValidSession(session.value)
    requires GuestMountState(mount.state)
    ensures DecodeResponseEnvelope(LegacyMessage(StatusReply(session, identity, mount))) ==
            Ok(ResponseEnvelope(2, None, StatusValue(HostStatus(session, identity, mount))))
  {
    var fields := StatusReply(session, identity, mount);
    FieldsOfStatus(session, identity, mount);
    FieldsOfSession(session, identity, mount);
    FieldsDecode(fields - {"type"}, session, identity, mount);
    OnlyStatus(fields - {"type"});
  }

  lemma OnlyStatus(fields: Fields)
    ensures DecodeResponseEnvelope(Obj(map["status" := Obj(fields)])) ==
            match DecodeStatus(Obj(fields))
            case Ok(status) => Ok(ResponseEnvelope(status.protocolVersion, None, StatusValue(status)))
            case Err(_) => Err(Mismatch)
  {
  }

  /** So do acceptances, failures with a message, and a hello with a version that fits in 64 bits; a clipboard's text
      does not, since no legacy request asks for it. */
  lemma LegacyRepliesDecode(reply: Fields)
    requires "type" in reply && reply["type"].Str?
    ensures reply["type"].s == "accepted" ==>
              DecodeResponseEnvelope(LegacyMessage(reply)) == Ok(ResponseEnvelope(1, None, AcceptedReply))
    ensures reply["type"].s == "failure" && "message" in reply && reply["message"].Str? ==>
              DecodeResponseEnvelope(LegacyMessage(reply)) ==
              Ok(ResponseEnvelope(1, None, FailureReply("legacyFailure", reply["message"].s)))
    ensures reply["type"].s == "failure" && ("message" in reply ==> !reply["message"].Str?) ==>
              DecodeResponseEnvelope(LegacyMessage(reply)).Err?
    ensures reply["type"].s == "hello" && "protocolVersion" in reply && reply["protocolVersion"].Int?
            && -0x8000_0000_0000_0000 <= reply["protocolVersion"].i < 0x8000_0000_0000_0000 ==>
              DecodeResponseEnvelope(LegacyMessage(reply)) ==
              Ok(ResponseEnvelope(reply["protocolVersion"].i, None, HelloReply(reply["protocolVersion"].i)))
    ensures reply["type"].s == "clipboard" ==> DecodeResponseEnvelope(LegacyMessage(reply)).Err?
  {
    var body := reply - {"type"};
    assert "response" !in map[reply["type"].s := Obj(body)] || reply["type"].s == "response";
    assert forall key :: key in body <==> key in reply && key != "type";
  }

  lemma AllCapabilities(session: Option<Session>)
    requires session.Some? ==> ValidSession(session.value)
    ensures var names := BASE_CAPABILITIES + (if session.Some? then session.value.capabilities else []);
            AsCapabilities(Strings(names)) == Ok(HostCapabilities(session))
  {
    var own := if session.Some? then session.value.capabilities else [];
    var names := BASE_CAPABILITIES + own;
    assert forall name :: name in names <==> name in BASE_CAPABILITIES || name in own;
    assert forall name :: name in SESSION_CAPABILITIES ==> CapabilityNamed(name).Some?;
    assert CapabilitySet([]) == {};
    CapabilitiesDecode(names);
    BaseCapabilities();
    assert CapabilitySet(names) == CapabilitySet(BASE_CAPABILITIES) + CapabilitySet(own);
    assert CapabilitySet(names) == HostCapabilities(session);
  }

  lemma BaseCapabilities()
    ensures CapabilitySet(BASE_CAPABILITIES) == {GracefulShutdown, GracefulReboot, MountSharedDirectory}
  {
    assert BASE_CAPABILITIES[0] in BASE_CAPABILITIES && BASE_CAPABILITIES[1] in BASE_CAPABILITIES
           && BASE_CAPABILITIES[2] in BASE_CAPABILITIES;
  }

  // ----- replies of the session helper

  /** The helper's reply is one that the daemon passes on. */
  predicate PassedOn(reply: Fields) {
    && "type" in reply && reply["type"].Str?
    && (|| (reply["type"].s == "clipboard" && "text" in reply && reply["text"].Str?
            && Utf8.Size(reply["text"].s) <= MAX_CLIPBOARD)
        || reply["type"].s == "accepted" || reply["type"].s == "failure")
  }

  /** A reply that the daemon passes on can be decoded by the host, except for a failure with no proper message
      or code. */
  lemma PassedOnDecodes(reply: Fields, requestID: string)
    requires PassedOn(reply)
    ensures DecodeResponseEnvelope(ResponseMessage(requestID, reply)).Ok? <==>
              (reply["type"].s == "failure" ==>
                 && "message" in reply && reply["message"].Str?
                 && (Present(reply, "code").Some? ==> reply["code"].Str?))
  {
    assert DecodeResponse(Obj(reply)) == DecodeTyped(reply["type"].s, reply);
    EnvelopeDecodes(requestID, reply);
  }
}
