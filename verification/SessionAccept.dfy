/** The loop that accepts session helpers. */
module SessionAccept {
  import opened Wrappers
  import opened Json
  import opened StatusCodec

  /** What a round of the loop meets: nobody within a second, a listener that fails, or a peer and the frame that it
      sends as its registration. */
  datatype Arrival = Nobody | ListenerFails | Peer(uid: int, registration: FrameText)

  /** What becomes of a peer's registration; `limit` is how deeply the JSON parser can descend. */
  function Registered(uid: int, text: FrameText, limit: nat): Registration {
    match ReadText(text, limit)
    case Read(fields) => ValidateRegistration(fields, uid)
    case Unexpected => Raised
    case NotRead => Refused
  }

  /** The exceptions of the round end the thread. */
  predicate Ends(a: Arrival, limit: nat) {
    match a
    case Nobody => false
    case ListenerFails => true
    case Peer(uid, text) => uid != 0 && Registered(uid, text, limit).Raised?
  }

  function Session(a: Arrival, limit: nat): Option<StatusCodec.Session> {
    if a.Peer? && a.uid != 0 && Registered(a.uid, a.registration, limit).Accepted?
    then Some(Registered(a.uid, a.registration, limit).session)
    else None
  }

  /** Only an unprivileged peer with a registration that is read and accepted has a session. */
  lemma SessionExactly(a: Arrival, limit: nat, session: StatusCodec.Session)
    ensures Session(a, limit) == Some(session) <==>
              && a.Peer? && a.uid != 0 && a.registration.Message? && !DeeperThan(Obj(a.registration.fields), limit)
              && ValidateRegistration(a.registration.fields, a.uid) == Accepted(session)
  {
  }

  /** Nobody, a privileged peer and a frame that cannot be read do not end the loop; a failing listener does, and so
      does text that is nested too deeply, even if it is no JSON. */
  lemma EndsExactly(a: Arrival, limit: nat)
    ensures a.Nobody? || (a.Peer? && (a.uid == 0 || a.registration.Unreadable?)) ==> !Ends(a, limit)
    ensures a.ListenerFails? ==> Ends(a, limit)
    ensures a.Peer? && a.uid != 0 && a.registration.Malformed? ==> (Ends(a, limit) <==> a.registration.depth > limit)
  {
  }

  function Sessions(arrivals: seq<Arrival>, limit: nat): (sessions: seq<Option<StatusCodec.Session>>)
    ensures |sessions| == |arrivals| && forall i :: 0 <= i < |arrivals| ==> sessions[i] == Session(arrivals[i], limit)
  {
    seq(|arrivals|, i requires 0 <= i < |arrivals| => Session(arrivals[i], limit))
  }

  /** The last of the first `n` items that is there, if any is. */
  ghost predicate IsLast<T>(last: Option<T>, items: seq<Option<T>>, n: nat)
    requires n <= |items|
  {
    if last.None? then forall i :: 0 <= i < n ==> items[i].None?
    else exists i :: 0 <= i < n && items[i] == last && forall j :: i < j < n ==> items[j].None?
  }

  lemma NextIsLast<T>(last: Option<T>, items: seq<Option<T>>, n: nat)
    requires n < |items| && IsLast(last, items, n)
    ensures IsLast(if items[n].Some? then items[n] else last, items, n + 1)
  {
  }

  /** `_accept_loop`, until it ends or there are no more arrivals */
  method AcceptLoop(arrivals: seq<Arrival>, limit: nat) returns (session: Option<StatusCodec.Session>, alive: bool)
    ensures alive <==> forall i :: 0 <= i < |arrivals| ==> !Ends(arrivals[i], limit)
    ensures exists n :: 0 <= n <= |arrivals| && IsLast(session, Sessions(arrivals, limit), n)
                        && (forall i :: 0 <= i < n ==> !Ends(arrivals[i], limit))
                        && (n < |arrivals| ==> Ends(arrivals[n], limit))
  {
    session := None;
    for i := 0 to |arrivals|
      invariant IsLast(session, Sessions(arrivals, limit), i)
      invariant forall j :: 0 <= j < i ==> !Ends(arrivals[j], limit)
    {
      NextIsLast(session, Sessions(arrivals, limit), i);
      match arrivals[i]
      case Nobody =>
      case ListenerFails => return session, false;
      case Peer(uid, text) =>
        if uid != 0 {
          match ReadText(text, limit)
          case Read(fields) =>
            match ValidateRegistration(fields, uid) {
              case Accepted(accepted) => session := Some(accepted);
              case Refused =>
              case Raised => return session, false;
            }
          case Unexpected => return session, false;
          case NotRead =>
        }
    }
    alive := true;
  }

  /** The registration is right as far as its capabilities are looked at, and one of these is a list or an object. */
  predicate HasUnhashableCapability(fields: Fields, uid: int) {
    && fields.Keys == REGISTRATION_KEYS && fields["type"] == Str("register")
    && EqualsNumber(fields["uid"], uid)
    && IsOneOf(fields["desktopEnvironment"], DESKTOPS)
    && IsOneOf(fields["sessionType"], SESSION_TYPES)
    && fields["capabilities"].Arr?
    && exists v :: v in fields["capabilities"].items && (v.Arr? || v.Obj?)
  }

  /** The loop survives a peer exactly if its frame is not nested too deeply for the parser, and its registration
      has no list or object among its capabilities. */
  lemma SurvivesExactlyIf(uid: int, text: FrameText, limit: nat)
    requires uid != 0
    ensures !Ends(Peer(uid, text), limit) <==>
              !TooDeep(text, limit) && !(text.Message? && HasUnhashableCapability(text.fields, uid))
  {
    if text.Message? {
      RaisesExactlyIf(uid, text.fields);
    }
  }

  lemma RaisesExactlyIf(uid: int, fields: Fields)
    ensures ValidateRegistration(fields, uid).Raised? <==> HasUnhashableCapability(fields, uid)
  {
    if fields.Keys == REGISTRATION_KEYS && fields["capabilities"].Arr? {
      var items := fields["capabilities"].items;
      if v :| v in items && (v.Arr? || v.Obj?) {
        var i :| 0 <= i < |items| && items[i] == v;
        assert !Hashable(items[i]);
      }
    }
  }

  /** A registration that is right but for a list among its capabilities. */
  function WithListCapability(uid: int): Fields {
    map["type" := Str("register"), "uid" := Int(uid), "desktopEnvironment" := Str("other"),
        "sessionType" := Str("other"), "capabilities" := Arr([Arr([])]), "distroID" := Str(""),
        "distroVersion" := Str("")]
  }

  /** It ends the loop, and no helper is accepted after it. */
  lemma ListCapabilityEndsLoop(uid: int, limit: nat)
    requires uid != 0
    ensures Ends(Peer(uid, Message(WithListCapability(uid))), limit)
  {
    var fields := WithListCapability(uid);
    assert fields.Keys == REGISTRATION_KEYS;
    assert !Hashable(fields["capabilities"].items[0]);
  }

  /** So does a small frame that is nested more deeply than the parser can descend, whatever the limit is. */
  lemma NestedFrameEndsLoop(uid: int, limit: nat)
    requires uid != 0
    ensures Ends(Peer(uid, Message(map["a" := Nested(limit)])), limit)
  {
    var fields := map["a" := Nested(limit)];
    if limit > 0 {
      NestedIsDeep(limit, limit - 1);
      assert DeeperThan(fields["a"], limit - 1);
    }
  }
}
