/** JSON values, and the ways both sides look at them. */
module Json {
  import opened Wrappers

  datatype Value =
    | Null
    | Bool(b: bool)
    | Int(i: int)
    | Real(r: real)
    | Str(s: string)
    | Arr(items: seq<Value>)
    | Obj(fields: map<string, Value>)

  type Fields = map<string, Value>

  datatype DecodingError = Mismatch

  // ----- reading the text of a frame

  /** More than `n` containers are inside one another. */
  predicate DeeperThan(v: Value, n: nat)
    decreases n
  {
    match v
    case Arr(items) => n == 0 || exists i :: 0 <= i < |items| && DeeperThan(items[i], n - 1)
    case Obj(fields) => n == 0 || exists key :: key in fields && DeeperThan(fields[key], n - 1)
    case _ => false
  }

  /** A frame that cannot be read, one whose text is refused after `depth` containers have been opened inside one
      another, or the fields of an object. */
  datatype FrameText = Unreadable | Malformed(depth: nat) | Message(fields: Fields)

  /** The parser would have to be inside more than `limit` containers. */
  predicate TooDeep(text: FrameText, limit: nat) {
    match text
    case Unreadable => false
    case Malformed(depth) => depth > limit
    case Message(fields) => DeeperThan(Obj(fields), limit)
  }

  /** How `read_frame` ends: with an error that its callers expect, or with a `RecursionError`, which they do not. */
  datatype Reading = Read(fields: Fields) | NotRead | Unexpected

  function ReadText(text: FrameText, limit: nat): Reading {
    if TooDeep(text, limit) then Unexpected
    else if text.Message? then Read(text.fields)
    else NotRead
  }

  function Nested(n: nat): Value {
    Arr(if n == 0 then [] else [Nested(n - 1)])
  }

  lemma {:induction false} NestedIsDeep(n: nat, k: nat)
    requires k <= n
    ensures DeeperThan(Nested(n), k)
  {
    if k > 0 {
      NestedIsDeep(n - 1, k - 1);
      assert DeeperThan(Nested(n).items[0], k - 1);
    }
  }

  // ----- decoding values

  /** Swift's `decode(Int.self)`: a whole number that fits in 64 bits. */
  function AsInt(v: Value): Result<int, DecodingError> {
    match v
    case Int(i) => if -0x8000_0000_0000_0000 <= i < 0x8000_0000_0000_0000 then Ok(i) else Err(Mismatch)
    case Real(r) =>
      if r == r.Floor as real && -0x8000_0000_0000_0000 <= r.Floor < 0x8000_0000_0000_0000 then Ok(r.Floor)
      else Err(Mismatch)
    case _ => Err(Mismatch)
  }

  /** It takes integers and whole reals, exactly if they fit. */
  lemma AsIntExactly(v: Value, n: int)
    ensures AsInt(v) == Ok(n) <==>
              && (v == Int(n) || (v.Real? && v.r == n as real))
              && -9223372036854775808 <= n <= 9223372036854775807
  {
  }

  function AsString(v: Value): Result<string, DecodingError> {
    if v.Str? then Ok(v.s) else Err(Mismatch)
  }

  /** The value of a key, unless it is missing or null: what `decodeIfPresent` looks at. */
  function Present(fields: Fields, key: string): Option<Value> {
    if key in fields && !fields[key].Null? then Some(fields[key]) else None
  }

  function StringOr(fields: Fields, key: string, default: string): Result<string, DecodingError> {
    match Present(fields, key)
    case None => Ok(default)
    case Some(v) => AsString(v)
  }

  function RequiredInt(fields: Fields, key: string): Result<int, DecodingError> {
    if key in fields then AsInt(fields[key]) else Err(Mismatch)
  }

  function RequiredString(fields: Fields, key: string): Result<string, DecodingError> {
    if key in fields then AsString(fields[key]) else Err(Mismatch)
  }

  /** `[String].self` */
  function AsStrings(items: seq<Value>): Result<seq<string>, DecodingError> {
    if items == [] then Ok([])
    else match (items[0], AsStrings(items[1..]))
      case (Str(s), Ok(rest)) => Ok([s] + rest)
      case _ => Err(Mismatch)
  }

  function Strings(texts: seq<string>): seq<Value> {
    if texts == [] then [] else [Str(texts[0])] + Strings(texts[1..])
  }

  lemma {:induction false} StringsAt(texts: seq<string>, i: nat)
    requires i < |texts|
    ensures |Strings(texts)| == |texts| && Strings(texts)[i] == Str(texts[i])
  {
    if i > 0 {
      StringsAt(texts[1..], i - 1);
    } else if |texts| > 1 {
      StringsAt(texts[1..], 0);
    }
  }

  lemma {:induction false} StringsDecode(texts: seq<string>)
    ensures AsStrings(Strings(texts)) == Ok(texts)
  {
    if texts != [] {
      StringsDecode(texts[1..]);
      assert Strings(texts)[1..] == Strings(texts[1..]);
      assert texts == [texts[0]] + texts[1..];
    }
  }
}
