/** What the desktop-session helper registers, followed all the way to the host. */
module SessionHelper {
  import opened Wrappers
  import opened Json
  import opened GuestProtocol
  import opened StatusCodec
  import A = SessionAccept
  import T = Texts
  import Utf8

  /** What the helper looks at.  The texts are in lower case; a variable is set if it is there and not empty, and a
      tool is there if it is on the path. */
  datatype Desk = Desk(
    desktopText: string,
    sessionText: string,
    hyprlandSignature: bool,
    waylandDisplay: bool,
    display: bool,
    wlCopy: bool,
    wlPaste: bool,
    hyprctl: bool)

  /** The `ID` and `VERSION_ID` of the release file, if it has them. */
  datatype Release = Release(id: Option<string>, version: Option<string>)

  function DesktopName(d: Desk): string {
    if d.hyprlandSignature || T.Mentions(d.desktopText, "hyprland") then "hyprland"
    else if T.Mentions(d.desktopText, "gnome") then "gnome"
    else "other"
  }

  function SessionTypeName(d: Desk): string {
    if d.sessionText == "wayland" || d.waylandDisplay then "wayland"
    else if d.sessionText == "x11" || d.display then "x11"
    else "other"
  }

  /** `SessionHelper.capabilities` */
  function Capabilities(d: Desk): seq<string> {
    var clipboard := SessionTypeName(d) == "wayland" && d.waylandDisplay && d.wlCopy && d.wlPaste;
    var display := DesktopName(d) == "hyprland" && SessionTypeName(d) == "wayland" && d.hyprlandSignature && d.hyprctl;
    (if clipboard then ["clipboardRead", "clipboardWrite"] else []) + if display then ["displayResize"] else []
  }

  function Text(value: Option<string>): string {
    if value.Some? then value.value else "unknown"
  }

  /** `SessionHelper.registration` of a user */
  function Registration(d: Desk, release: Release, uid: int): Fields {
    map["type" := Str("register"),
        "uid" := Int(uid),
        "desktopEnvironment" := Str(DesktopName(d)),
        "sessionType" := Str(SessionTypeName(d)),
        "capabilities" := Arr(Strings(Capabilities(d))),
        "distroID" := Str(Text(release.id)),
        "distroVersion" := Str(Text(release.version))]
  }

  function Registered(d: Desk, release: Release): Session {
    Session(DesktopName(d), SessionTypeName(d), Capabilities(d), Text(release.id), Text(release.version))
  }

  /** The release file's texts are short enough. */
  predicate Brief(release: Release) {
    Utf8.Size(Text(release.id)) <= 128 && Utf8.Size(Text(release.version)) <= 128
  }

  lemma CapabilityTexts(d: Desk)
    ensures AreCapabilities(Strings(Capabilities(d)))
    ensures Texts(Strings(Capabilities(d))) == Capabilities(d)
  {
    var names := Capabilities(d);
    var items := Strings(names);
    if names != [] {
      StringsAt(names, 0);
    }
    forall i | 0 <= i < |names|
      ensures items[i] == Str(names[i]) && names[i] in SESSION_CAPABILITIES
    {
      StringsAt(names, i);
    }
    assert forall i, j :: 0 <= i < j < |names| ==> names[i] != names[j] by {
      assert "clipboardRead"[9] != "clipboardWrite"[9] && |"displayResize"| == 13 && "displayResize"[0] == 'd';
    }
  }

  /** The broker accepts a helper's own registration as what it says, exactly if the release file's texts have at
      most 128 bytes. */
  lemma OwnRegistrationAccepted(d: Desk, release: Release, uid: int)
    ensures ValidateRegistration(Registration(d, release, uid), uid) ==
            if Brief(release) then Accepted(Registered(d, release)) else Refused
  {
    var fields := Registration(d, release, uid);
    assert fields.Keys == REGISTRATION_KEYS;
    CapabilityTexts(d);
    assert forall i :: 0 <= i < |Strings(Capabilities(d))| ==>
             IsOneOf(Strings(Capabilities(d))[i], SESSION_CAPABILITIES);
  }

  /** So the accept loop takes it, if the parser can descend into an object and a list in it. */
  lemma OwnRegistrationJoins(d: Desk, release: Release, uid: int, limit: nat)
    requires uid != 0 && Brief(release) && limit >= 2
    ensures A.Session(A.Peer(uid, Message(Registration(d, release, uid))), limit) == Some(Registered(d, release))
  {
    var fields := Registration(d, release, uid);
    var items := fields["capabilities"].items;
    CapabilityTexts(d);
    assert forall i :: 0 <= i < |items| ==> IsOneOf(items[i], SESSION_CAPABILITIES) && items[i].Str?;
    assert forall key :: key in fields ==> !DeeperThan(fields[key], limit - 1);
    OwnRegistrationAccepted(d, release, uid);
  }

  /** What the host learns about a helper that has registered: it may use the clipboard exactly in a Wayland session
      with both clipboard tools, and resize the display exactly in a Hyprland session with its control tool. */
  lemma HostLearnsCapabilities(d: Desk, release: Release, uid: int, session: Session, identity: Identity,
                               mount: MountState, requestID: string)
    requires ValidateRegistration(Registration(d, release, uid), uid) == Accepted(session)
    requires GuestMountState(mount.state)
    ensures exists status ::
              && DecodeResponseEnvelope(ResponseMessage(requestID, StatusReply(Some(session), identity, mount))) ==
                 Ok(ResponseEnvelope(PROTOCOL_VERSION, Some(requestID), StatusValue(status)))
              && Allows(status.capabilities, d)
  {
    AcceptedIsWhatIsThere(d, release, uid, session);
    StatusSurvives(Some(session), identity, mount, requestID);
    NamedCapabilities(d);
    assert Allows(HostStatus(Some(session), identity, mount).capabilities, d);
  }

  /** What else it learns: the desktop and the type of the session, and the distribution. */
  lemma HostLearnsDesk(d: Desk, release: Release, uid: int, session: Session, identity: Identity, mount: MountState,
                       requestID: string)
    requires ValidateRegistration(Registration(d, release, uid), uid) == Accepted(session)
    requires GuestMountState(mount.state)
    ensures ValidSession(session)
    ensures DecodeResponseEnvelope(ResponseMessage(requestID, StatusReply(Some(session), identity, mount))) ==
            Ok(ResponseEnvelope(2, Some(requestID), StatusValue(HostStatus(Some(session), identity, mount))))
    ensures var status := HostStatus(Some(session), identity, mount);
            && status.desktopEnvironment ==
               (if d.hyprlandSignature || T.Mentions(d.desktopText, "hyprland") then Hyprland
                else if T.Mentions(d.desktopText, "gnome") then Gnome
                else OtherDesktop)
            && status.sessionType ==
               (if d.waylandDisplay || d.sessionText == "wayland" then Wayland
                else if d.display || d.sessionText == "x11" then X11
                else OtherSession)
            && status.distroID == (if release.id.Some? then release.id.value else "unknown")
            && status.distroVersion == (if release.version.Some? then release.version.value else "unknown")
  {
    AcceptedIsWhatIsThere(d, release, uid, session);
    StatusSurvives(Some(session), identity, mount, requestID);
  }

  lemma AcceptedIsWhatIsThere(d: Desk, release: Release, uid: int, session: Session)
    requires ValidateRegistration(Registration(d, release, uid), uid) == Accepted(session)
    ensures session == Registered(d, release) && ValidSession(session)
  {
    OwnRegistrationAccepted(d, release, uid);
    AcceptedIsValid(Registration(d, release, uid), uid);
  }

  predicate Allows(capabilities: set<Capability>, d: Desk) {
    && {GracefulShutdown, GracefulReboot, MountSharedDirectory} <= capabilities
    && (ClipboardRead in capabilities <==> d.waylandDisplay && d.wlCopy && d.wlPaste)
    && (ClipboardWrite in capabilities <==> d.waylandDisplay && d.wlCopy && d.wlPaste)
    && (DisplayResize in capabilities <==> d.hyprlandSignature && d.hyprctl && SessionTypeName(d) == "wayland")
  }

  lemma NamedCapabilities(d: Desk)
    ensures ClipboardRead in CapabilitySet(Capabilities(d)) <==> d.waylandDisplay && d.wlCopy && d.wlPaste
    ensures ClipboardWrite in CapabilitySet(Capabilities(d)) <==> d.waylandDisplay && d.wlCopy && d.wlPaste
    ensures DisplayResize in CapabilitySet(Capabilities(d)) <==>
              d.hyprlandSignature && d.hyprctl && SessionTypeName(d) == "wayland"
  {
    var names := Capabilities(d);
    if d.waylandDisplay && d.wlCopy && d.wlPaste {
      assert names[0] == "clipboardRead" && names[1] == "clipboardWrite";
      assert "clipboardRead" in names && "clipboardWrite" in names;
    }
    if d.hyprlandSignature && d.hyprctl && SessionTypeName(d) == "wayland" {
      assert names[|names| - 1] == "displayResize";
      assert "displayResize" in names;
    }
  }
}
