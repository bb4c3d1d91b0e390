/** Requests of the host, and the two validators they pass: the host's coder and the guest's `decode_request`. */
module RequestCodec {
  import opened Wrappers
  import opened Json
  import opened GuestProtocol
  import Utf8

  datatype Request =
    | Hello(protocolVersion: int)
    | Status
    | Shutdown
    | Reboot
    | MountSharedDirectory
    | ReadClipboard
    | WriteClipboard(text: string)
    | ResizeDisplay(width: int, height: int)

  datatype CodingError = ClipboardTooLarge | InvalidDisplaySize | InvalidMessage

  predicate IsValidSize(width: int, height: int) {
    640 <= width <= 16384 && 480 <= height <= 16384
  }

  // ----- the host

  function TypeName(r: Request): string {
    match r
    case Hello(_) => "hello"
    case Status => "status"
    case Shutdown => "shutdown"
    case Reboot => "reboot"
    case MountSharedDirectory => "mountSharedDirectory"
    case ReadClipboard => "readClipboard"
    case WriteClipboard(_) => "writeClipboard"
    case ResizeDisplay(_, _) => "resizeDisplay"
  }

  function EncodeRequest(r: Request): Result<Value, CodingError> {
    match r
    case Hello(version) => Ok(Obj(map["type" := Str(TypeName(r)), "protocolVersion" := Int(version)]))
    case WriteClipboard(text) =>
      if Utf8.Size(text) > MAX_CLIPBOARD then Err(ClipboardTooLarge)
      else Ok(Obj(map["type" := Str(TypeName(r)), "text" := Str(text)]))
    case ResizeDisplay(width, height) =>
      if !IsValidSize(width, height) then Err(InvalidDisplaySize)
      else Ok(Obj(map["type" := Str(TypeName(r)), "width" := Int(width), "height" := Int(height)]))
    case _ => Ok(Obj(map["type" := Str(TypeName(r))]))
  }

  function DecodeTyped(kind: string, fields: Fields): Result<Request, CodingError> {
    match kind
    case "hello" =>
      (match RequiredInt(fields, "protocolVersion") case Ok(v) => Ok(Hello(v)) case Err(_) => Err(InvalidMessage))
    case "status" => Ok(Status)
    case "shutdown" => Ok(Shutdown)
    case "reboot" => Ok(Reboot)
    case "mountSharedDirectory" => Ok(MountSharedDirectory)
    case "readClipboard" => Ok(ReadClipboard)
    case "writeClipboard" =>
      (match RequiredString(fields, "text") case Ok(text) => Ok(WriteClipboard(text)) case Err(_) => Err(InvalidMessage))
    case "resizeDisplay" =>
      (match (RequiredInt(fields, "width"), RequiredInt(fields, "height"))
       case (Ok(w), Ok(h)) => Ok(ResizeDisplay(w, h))
       case _ => Err(InvalidMessage))
    case _ => Err(InvalidMessage)
  }

  function DecodeRequest(v: Value): Result<Request, CodingError> {
    if !v.Obj? then Err(InvalidMessage)
    else match Present(v.fields, "type")
      case Some(kind) => if kind.Str? then DecodeTyped(kind.s, v.fields) else Err(InvalidMessage)
      case None =>
        match Present(v.fields, "hello")
        case Some(hello) =>
          if !hello.Obj? then Err(InvalidMessage)
          else (match RequiredInt(hello.fields, "protocolVersion")
                case Ok(version) => Ok(Hello(version))
                case Err(_) => Err(InvalidMessage))
        case None =>
          if "status" in v.fields then Ok(Status)
          else if "shutdown" in v.fields then Ok(Shutdown)
          else if "reboot" in v.fields then Ok(Reboot)
          else Err(InvalidMessage)
  }

  datatype RequestEnvelope = RequestEnvelope(protocolVersion: int, requestID: Option<string>, request: Request)

  function EncodeEnvelope(e: RequestEnvelope): Result<Value, CodingError> {
    match EncodeRequest(e.request)
    case Err(error) => Err(error)
    case Ok(request) =>
      var fields := map["protocolVersion" := Int(e.protocolVersion), "request" := request];
      Ok(Obj(if e.requestID.Some? then fields["requestID" := Str(e.requestID.value)] else fields))
  }

  function DecodeEnvelope(v: Value): Result<RequestEnvelope, CodingError> {
    if !v.Obj? then Err(InvalidMessage)
    else if "request" in v.fields then
      var id := Present(v.fields, "requestID");
      match (RequiredInt(v.fields, "protocolVersion"), DecodeRequest(v.fields["request"]))
      case (Ok(version), Ok(request)) =>
        if id.None? then Ok(RequestEnvelope(version, None, request))
        else if id.value.Str? then Ok(RequestEnvelope(version, Some(id.value.s), request))
        else Err(InvalidMessage)
      case (Ok(_), Err(error)) => Err(if id.Some? && !id.value.Str? then InvalidMessage else error)
      case (Err(_), _) => Err(InvalidMessage)
    else
      match DecodeRequest(v)
      case Err(error) => Err(error)
      case Ok(request) => Ok(RequestEnvelope(if request.Hello? then request.protocolVersion else 1, None, request))
  }

  /** All requests but over-large texts and impossible sizes can be encoded. */
  lemma EncodesExactly(r: Request)
    ensures EncodeRequest(r) == Err(ClipboardTooLarge) <==> r.WriteClipboard? && Utf8.Size(r.text) > 1024 * 1024
    ensures EncodeRequest(r) == Err(InvalidDisplaySize) <==>
              r.ResizeDisplay? && !(640 <= r.width <= 16384 && 480 <= r.height <= 16384)
    ensures EncodeRequest(r) != Err(InvalidMessage)
  {
  }

  predicate IsWord(i: int) {
    -0x8000_0000_0000_0000 <= i < 0x8000_0000_0000_0000
  }

  /** What the host encodes it decodes as the same, exactly if the versions in it fit in 64 bits, as Swift's do. */
  lemma HostReadsItself(e: RequestEnvelope, v: Value)
    requires EncodeEnvelope(e) == Ok(v)
    ensures DecodeEnvelope(v) == Ok(e) <==>
              IsWord(e.protocolVersion) && (e.request.Hello? ==> IsWord(e.request.protocolVersion))
  {
    assert v.Obj? && "request" in v.fields;
    RequestReadsItself(e.request);
  }

  lemma RequestReadsItself(r: Request)
    requires EncodeRequest(r).Ok?
    ensures DecodeRequest(EncodeRequest(r).value) == if r.Hello? && !IsWord(r.protocolVersion) then Err(InvalidMessage) else Ok(r)
  {
  }

  predicate HasNumber(fields: Fields, key: string) {
    key in fields && AsInt(fields[key]).Ok?
  }

  /** An object is a request for the host exactly if it has a known type and what that needs, or without a type is a
      hello or has one of three legacy keys. */
  lemma RequestDecodesExactly(fields: Fields)
    ensures DecodeRequest(Obj(fields)).Ok? <==>
              if "type" in fields && !fields["type"].Null? then
                && fields["type"].Str?
                && var kind := fields["type"].s;
                   || kind in {"status", "shutdown", "reboot", "mountSharedDirectory", "readClipboard"}
                   || (kind == "hello" && HasNumber(fields, "protocolVersion"))
                   || (kind == "writeClipboard" && "text" in fields && fields["text"].Str?)
                   || (kind == "resizeDisplay" && HasNumber(fields, "width") && HasNumber(fields, "height"))
              else if "hello" in fields && !fields["hello"].Null? then
                fields["hello"].Obj? && HasNumber(fields["hello"].fields, "protocolVersion")
              else "status" in fields || "shutdown" in fields || "reboot" in fields
  {
  }

  // ----- the guest

  /** The normalized request of `decode_request`; a legacy hello has become a status request. */
  datatype GuestRequest = GuestRequest(request: Request, legacy: bool, requestID: Option<string>)

  datatype ProtocolError =
    | UnsupportedVersion
    | InvalidRequestID
    | InvalidRequest
    | MalformedHello
    | LegacyBodyNotEmpty
    | UnrecognizedEnvelope

  function ValidateNewRequest(v: Value): Result<Request, ProtocolError> {
    if !v.Obj? || "type" !in v.fields || !v.fields["type"].Str? then Err(InvalidRequest)
    else
      var fields, kind := v.fields, v.fields["type"].s;
      match kind
      case "status" => if fields.Keys == {"type"} then Ok(Status) else Err(InvalidRequest)
      case "shutdown" => if fields.Keys == {"type"} then Ok(Shutdown) else Err(InvalidRequest)
      case "reboot" => if fields.Keys == {"type"} then Ok(Reboot) else Err(InvalidRequest)
      case "mountSharedDirectory" => if fields.Keys == {"type"} then Ok(MountSharedDirectory) else Err(InvalidRequest)
      case "readClipboard" => if fields.Keys == {"type"} then Ok(ReadClipboard) else Err(InvalidRequest)
      case "writeClipboard" =>
        if fields.Keys != {"type", "text"} || !fields["text"].Str? then Err(InvalidRequest)
        else if Utf8.Size(fields["text"].s) > MAX_CLIPBOARD then Err(InvalidRequest)
        else Ok(WriteClipboard(fields["text"].s))
      case "resizeDisplay" =>
        if fields.Keys != {"type", "width", "height"} then Err(InvalidRequest)
        else if fields["width"].Int? && fields["height"].Int? && IsValidSize(fields["width"].i, fields["height"].i) then
          Ok(ResizeDisplay(fields["width"].i, fields["height"].i))
        else Err(InvalidRequest)
      case _ => Err(InvalidRequest)
  }

  function DecodeLegacy(kind: string, body: Fields): Result<GuestRequest, ProtocolError> {
    match kind
    case "hello" =>
      if body.Keys != {"protocolVersion"} then Err(MalformedHello)
      else if body["protocolVersion"] != Int(1) then Err(UnsupportedVersion)
      else Ok(GuestRequest(Status, true, None))
    case "status" => if body != map[] then Err(LegacyBodyNotEmpty) else Ok(GuestRequest(Status, true, None))
    case "shutdown" => if body != map[] then Err(LegacyBodyNotEmpty) else Ok(GuestRequest(Shutdown, true, None))
    case "reboot" => if body != map[] then Err(LegacyBodyNotEmpty) else Ok(GuestRequest(Reboot, true, None))
    case _ => Err(UnrecognizedEnvelope)
  }

  function GuestDecode(message: Fields): Result<GuestRequest, ProtocolError> {
    if message.Keys == {"protocolVersion", "requestID", "request"} then
      if message["protocolVersion"] != Int(PROTOCOL_VERSION) then Err(UnsupportedVersion)
      else if !IsRequestID(message["requestID"]) then Err(InvalidRequestID)
      else match ValidateNewRequest(message["request"])
        case Err(error) => Err(error)
        case Ok(request) => Ok(GuestRequest(request, false, Some(message["requestID"].s)))
    else if message.Keys == {"hello"} && message["hello"].Obj? then DecodeLegacy("hello", message["hello"].fields)
    else if message.Keys == {"status"} && message["status"].Obj? then DecodeLegacy("status", message["status"].fields)
    else if message.Keys == {"shutdown"} && message["shutdown"].Obj? then
      DecodeLegacy("shutdown", message["shutdown"].fields)
    else if message.Keys == {"reboot"} && message["reboot"].Obj? then DecodeLegacy("reboot", message["reboot"].fields)
    else Err(UnrecognizedEnvelope)
  }

  predicate IsRequestID(v: Value) {
    v.Str? && v.s != "" && Utf8.Size(v.s) <= MAX_REQUEST_ID
  }

  // ----- the two agree

  /**
   What the host can encode, the guest accepts as the same request with the same identifier, exactly if it is
   not a hello and the identifier has one to 256 bytes.
   */
  lemma GuestAcceptsHost(r: Request, id: string, v: Value)
    requires EncodeEnvelope(RequestEnvelope(PROTOCOL_VERSION, Some(id), r)) == Ok(v)
    ensures v.Obj?
    ensures GuestDecode(v.fields).Ok? <==> !r.Hello? && id != "" && Utf8.Size(id) <= 256
    ensures GuestDecode(v.fields).Ok? ==> GuestDecode(v.fields) == Ok(GuestRequest(r, false, Some(id)))
  {
    var fields := v.fields;
    assert fields.Keys == {"protocolVersion", "requestID", "request"};
    var request := fields["request"].fields;
    match r {
      case Hello(_) => assert request.Keys == {"type", "protocolVersion"};
      case WriteClipboard(_) => assert request.Keys == {"type", "text"};
      case ResizeDisplay(_, _) => assert request.Keys == {"type", "width", "height"};
      case _ => assert request.Keys == {"type"};
    }
  }

  /** What the guest accepts in a new envelope, the host decodes as the same request and encodes to the same
      object again. */
  lemma HostAcceptsGuest(message: Fields, g: GuestRequest)
    requires GuestDecode(message) == Ok(g) && !g.legacy
    ensures DecodeEnvelope(Obj(message)) == Ok(RequestEnvelope(PROTOCOL_VERSION, g.requestID, g.request))
    ensures EncodeEnvelope(RequestEnvelope(PROTOCOL_VERSION, g.requestID, g.request)) == Ok(Obj(message))
  {
    var request := message["request"];
    ValidatedIsEncoded(request, g.request);
    assert message == map["protocolVersion" := Int(PROTOCOL_VERSION), "request" := request]
                         ["requestID" := Str(g.requestID.value)];
  }

  lemma ValidatedIsEncoded(v: Value, r: Request)
    requires ValidateNewRequest(v) == Ok(r)
    ensures DecodeRequest(v) == Ok(r) && EncodeRequest(r) == Ok(v)
  {
    var fields := v.fields;
    match r {
      case WriteClipboard(text) => assert fields == map["type" := Str("writeClipboard"), "text" := Str(text)];
      case ResizeDisplay(w, h) =>
        assert fields == map["type" := Str("resizeDisplay"), "width" := Int(w), "height" := Int(h)];
      case Hello(_) =>
      case _ => assert fields == map["type" := Str(TypeName(r))];
    }
  }

  /** A request without an envelope is of version 1, unless it is a hello, which says its version. */
  lemma BareRequests(fields: Fields, r: Request)
    requires "request" !in fields && DecodeRequest(Obj(fields)) == Ok(r)
    ensures DecodeEnvelope(Obj(fields)) ==
            Ok(RequestEnvelope(match r case Hello(version) => version case _ => 1, None, r))
  {
  }

  /** What the guest makes of an object with one key: the four legacy requests, if their bodies are as they should be. */
  lemma LegacyExactly(kind: string, body: Value)
    ensures GuestDecode(map[kind := body]) ==
            if kind !in {"hello", "status", "shutdown", "reboot"} || !body.Obj? then Err(UnrecognizedEnvelope)
            else if kind == "hello" then
              if body.fields.Keys != {"protocolVersion"} then Err(MalformedHello)
              else if body.fields["protocolVersion"] == Int(1) then Ok(GuestRequest(Status, true, None))
              else Err(UnsupportedVersion)
            else if body.fields != map[] then Err(LegacyBodyNotEmpty)
            else Ok(GuestRequest(if kind == "status" then Status else if kind == "shutdown" then Shutdown else Reboot,
                                 true, None))
  {
    assert map[kind := body].Keys == {kind};
    assert kind in {kind};
  }

  /** A legacy request that the guest accepts means the same to the host, with a hello for the status request. */
  lemma HostReadsLegacy(message: Fields, g: GuestRequest)
    requires GuestDecode(message) == Ok(g) && g.legacy
    ensures DecodeEnvelope(Obj(message)) ==
            Ok(RequestEnvelope(1, None, if "hello" in message then Hello(1) else g.request))
  {
  }

  /** A request with an identifier of the host's own, 36 ASCII characters, is accepted as what it is. */
  lemma OwnIdentifierIsAccepted(r: Request, id: string, v: Value)
    requires |id| == 36 && forall i :: 0 <= i < |id| ==> id[i] < 128 as char
    requires EncodeEnvelope(RequestEnvelope(2, Some(id), r)) == Ok(v) && !r.Hello?
    ensures v.Obj? && GuestDecode(v.fields) == Ok(GuestRequest(r, false, Some(id)))
  {
    AsciiSize(id);
    GuestAcceptsHost(r, id, v);
  }

  /** The identifiers that the host makes, 36 ASCII characters, are accepted. */
  lemma {:induction false} AsciiSize(text: string)
    requires forall i :: 0 <= i < |text| ==> text[i] < 128 as char
    ensures Utf8.Size(text) == |text|
  {
    if text != "" {
      AsciiSize(text[..|text| - 1]);
    }
  }
}
