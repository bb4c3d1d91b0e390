/**
 Length-prefixed frames on a byte stream, as the host and the guest write and read them.

 What a stream delivers is a list of arrivals: pieces of any size, interrupted calls, and an end.
 */
module Framing {
  import opened Wrappers
  import opened Utf8
  import opened GuestProtocol

  datatype Side = Host | Guest

  datatype StreamError = Disconnected | TimedOut | Io | PayloadTooLarge | InvalidLength

  // ----- frames

  function Header(n: nat): (h: Bytes)
    requires n < 0x1_0000_0000
    ensures |h| == 4
  {
    var n1 := n / 0x100;
    var n2 := n1 / 0x100;
    var n3 := n2 / 0x100;
    [n3 as byte, (n2 % 0x100) as byte, (n1 % 0x100) as byte, (n % 0x100) as byte]
  }

  /** The big-endian number that the bytes spell. */
  function Number(h: Bytes): nat {
    if h == [] then 0 else Number(h[..|h| - 1]) * 0x100 + h[|h| - 1] as nat
  }

  function Encode(payload: Bytes): Result<Bytes, StreamError> {
    if |payload| > MAX_PAYLOAD then Err(PayloadTooLarge) else Ok(Header(|payload|) + payload)
  }

  /** The guest refuses an empty payload; the host leaves it to the message decoder. */
  predicate Accepts(side: Side, length: nat) {
    length <= MAX_PAYLOAD && (side.Guest? ==> length != 0)
  }

  datatype Parsed = Frame(payload: Bytes, rest: Bytes) | Incomplete | Invalid

  /** The frame at the front of the bytes. */
  function Parse(side: Side, data: Bytes): Parsed {
    if |data| < 4 then Incomplete
    else
      var length := Number(data[..4]);
      if !Accepts(side, length) then Invalid
      else if |data| < 4 + length then Incomplete
      else Frame(data[4..4 + length], data[4 + length..])
  }

  /** The payloads of all whole frames at the front of the bytes. */
  function ParseAll(side: Side, data: Bytes): seq<Bytes>
    decreases |data|
  {
    match Parse(side, data)
    case Frame(payload, rest) => [payload] + ParseAll(side, rest)
    case _ => []
  }

  predicate Sendable(payload: Bytes) {
    payload != [] && Encode(payload).Ok?
  }

  predicate AllSendable(payloads: seq<Bytes>) {
    forall i :: 0 <= i < |payloads| ==> Sendable(payloads[i])
  }

  function EncodeAll(payloads: seq<Bytes>): Bytes
    requires AllSendable(payloads)
  {
    if payloads == [] then []
    else Encode(payloads[0]).value + EncodeAll(payloads[1..])
  }

  lemma NumberOfHeader(n: nat)
    requires n < 0x1_0000_0000
    ensures Number(Header(n)) == n
  {
    var h := Header(n);
    NumberOfFour(h[0], h[1], h[2], h[3]);
  }

  lemma NumberOfFour(a: byte, b: byte, c: byte, d: byte)
    ensures Number([a, b, c, d]) == ((a as nat * 0x100 + b as nat) * 0x100 + c as nat) * 0x100 + d as nat
  {
    assert [a, b, c, d][..3] == [a, b, c];
    assert [a, b, c][..2] == [a, b];
    assert [a, b][..1] == [a];
    assert [a][..0] == [];
    assert Number([a]) == a as nat;
    assert Number([a, b]) == a as nat * 0x100 + b as nat;
    assert Number([a, b, c]) == (a as nat * 0x100 + b as nat) * 0x100 + c as nat;
  }

  lemma EncodesExactly(payload: Bytes)
    ensures Encode(payload).Ok? <==> |payload| <= 2 * 1024 * 1024
  {
  }

  /** What is read after any length: the host takes up to 2 MiB, the guest does so too but for nothing at all. */
  lemma ParseExactly(side: Side, n: nat, rest: Bytes)
    requires n < 0x1_0000_0000
    ensures Parse(side, Header(n) + rest) ==
            if n > 2 * 1024 * 1024 || (side == Guest && n == 0) then Invalid
            else if |rest| < n then Incomplete
            else Frame(rest[..n], rest[n..])
    ensures forall data: Bytes :: |data| < 4 ==> Parse(side, data) == Incomplete
  {
    var data := Header(n) + rest;
    NumberOfHeader(n);
    assert data[..4] == Header(n);
    if |rest| >= n {
      assert data[4..4 + n] == rest[..n] && data[4 + n..] == rest[n..];
    }
  }

  lemma ParseEncoded(side: Side, payload: Bytes, rest: Bytes)
    requires Sendable(payload)
    ensures Parse(side, Encode(payload).value + rest) == Frame(payload, rest)
  {
    var data := Header(|payload|) + payload + rest;
    NumberOfHeader(|payload|);
    assert data[..4] == Header(|payload|);
    assert data[4..4 + |payload|] == payload;
    assert data[4 + |payload|..] == rest;
  }

  lemma ParseAllEncoded(side: Side, payload: Bytes, rest: Bytes)
    requires Sendable(payload)
    ensures ParseAll(side, Encode(payload).value + rest) == [payload] + ParseAll(side, rest)
  {
    ParseEncoded(side, payload, rest);
  }

  /** Frames can be told apart: what comes after whole frames does not matter to them. */
  lemma {:induction false} UniquelyDecodable(side: Side, payloads: seq<Bytes>, rest: Bytes)
    requires AllSendable(payloads)
    ensures ParseAll(side, EncodeAll(payloads) + rest) == payloads + ParseAll(side, rest)
  {
    if payloads == [] {
      assert EncodeAll(payloads) + rest == rest;
    } else {
      var frame, others := Encode(payloads[0]).value, EncodeAll(payloads[1..]);
      assert EncodeAll(payloads) + rest == frame + (others + rest);
      ParseAllEncoded(side, payloads[0], others + rest);
      UniquelyDecodable(side, payloads[1..], rest);
      assert payloads == [payloads[0]] + payloads[1..];
    }
  }

  /** Two sequences of payloads with the same bytes on the stream are the same. */
  lemma EncodingIsInjective(a: seq<Bytes>, b: seq<Bytes>)
    requires AllSendable(a) && AllSendable(b)
    requires EncodeAll(a) == EncodeAll(b)
    ensures a == b
  {
    UniquelyDecodable(Host, a, []);
    UniquelyDecodable(Host, b, []);
    assert EncodeAll(a) + [] == EncodeAll(b) + [];
    assert ParseAll(Host, []) == [];
    assert a + [] == a && b + [] == b;
  }

  lemma LengthOfFour(data: Bytes)
    requires |data| >= 4
    ensures Number(data[..4]) == ((data[0] as nat * 0x100 + data[1] as nat) * 0x100 + data[2] as nat) * 0x100 + data[3] as nat
  {
    assert data[..4] == [data[0], data[1], data[2], data[3]];
    NumberOfFour(data[0], data[1], data[2], data[3]);
  }

  // ----- reading

  /** One result of a read or receive call; data that is empty means the end of the stream. */
  datatype Arrival = Data(bytes: Bytes) | Interrupted | Broken(error: StreamError)

  /** The bytes that arrive before the stream ends, breaks or runs out of time. */
  function Delivered(arrivals: seq<Arrival>): Bytes {
    if arrivals == [] then []
    else match arrivals[0]
      case Data(bytes) => if bytes == [] then [] else bytes + Delivered(arrivals[1..])
      case Interrupted => Delivered(arrivals[1..])
      case Broken(_) => []
  }

  function Ending(arrivals: seq<Arrival>): StreamError {
    if arrivals == [] then TimedOut
    else match arrivals[0]
      case Data(bytes) => if bytes == [] then Disconnected else Ending(arrivals[1..])
      case Interrupted => Ending(arrivals[1..])
      case Broken(error) => error
  }

  /** A measure of what is still to come. */
  function Pending(arrivals: seq<Arrival>): nat {
    if arrivals == [] then 0
    else Pending(arrivals[1..]) + 1 + if arrivals[0].Data? then |arrivals[0].bytes| else 0
  }

  /** Store the bytes at an offset of a buffer. */
  method Fill(buffer: array<byte>, offset: nat, bytes: Bytes)
    requires offset + |bytes| <= buffer.Length
    modifies buffer
    ensures buffer[..offset + |bytes|] == old(buffer[..offset]) + bytes
  {
    forall k | 0 <= k < |bytes| {
      buffer[offset + k] := bytes[k];
    }
  }

  /** What has been read and what is still to come are the whole. */
  predicate Collected(read: Bytes, coming: Bytes, whole: Bytes) {
    whole == read + coming
  }

  lemma CollectMore(read: Bytes, bytes: Bytes, coming: Bytes, whole: Bytes)
    requires Collected(read, bytes + coming, whole)
    ensures Collected(read + bytes, coming, whole)
  {
    assert read + (bytes + coming) == (read + bytes) + coming;
  }

  class Stream {
    var arrivals: seq<Arrival>
    var sent: Bytes

    function Incoming(): Bytes
      reads this
    {
      Delivered(arrivals)
    }

    /** One call for at most `most` bytes. */
    method Receive(most: nat) returns (a: Arrival)
      requires most > 0
      modifies this`arrivals
      ensures a.Data? ==> |a.bytes| <= most
      ensures a.Data? && a.bytes != [] ==>
                && old(Incoming()) == a.bytes + Incoming() && Ending(arrivals) == Ending(old(arrivals))
                && Pending(arrivals) < Pending(old(arrivals))
      ensures a.Interrupted? ==>
                && Incoming() == old(Incoming()) && Ending(arrivals) == Ending(old(arrivals))
                && Pending(arrivals) < Pending(old(arrivals))
      ensures a.Broken? || (a.Data? && a.bytes == []) ==>
                && arrivals == old(arrivals) && Incoming() == []
                && Ending(arrivals) == if a.Broken? then a.error else Disconnected
    {
      if arrivals == [] {
        return Broken(TimedOut);
      }
      a := arrivals[0];
      if a.Interrupted? {
        arrivals := arrivals[1..];
      } else if a.Data? && a.bytes != [] {
        if |a.bytes| <= most {
          arrivals := arrivals[1..];
        } else {
          var rest := a.bytes[most..];
          a := Data(a.bytes[..most]);
          assert a.bytes + rest == arrivals[0].bytes;
          arrivals := [Data(rest)] + arrivals[1..];
          assert arrivals[1..] == old(arrivals)[1..];
        }
      }
    }

    /** The host's `readExactly`: fill a buffer of the given size. */
    method HostReadExactly(count: nat) returns (r: Result<Bytes, StreamError>)
      modifies this`arrivals
      ensures Ending(arrivals) == Ending(old(arrivals))
      ensures if |old(Incoming())| >= count
              then r == Ok(old(Incoming())[..count]) && Incoming() == old(Incoming())[count..]
              else r == Err(Ending(old(arrivals))) && Incoming() == []
    {
      var result := new byte[count];
      var offset := 0;
      ghost var collected: Bytes := [];
      while offset < count
        invariant |collected| == offset <= count == result.Length && fresh(result)
        invariant collected == result[..offset] && Collected(collected, Incoming(), old(Incoming()))
        invariant Ending(arrivals) == Ending(old(arrivals))
        decreases Pending(arrivals)
      {
        var a := Receive(count - offset);
        if a.Data? && a.bytes != [] {
          CollectMore(collected, a.bytes, Incoming(), old(Incoming()));
          Fill(result, offset, a.bytes);
          collected := collected + a.bytes;
          offset := offset + |a.bytes|;
        } else if !a.Interrupted? {
          return Err(if a.Broken? then a.error else Disconnected);
        }
      }
      assert result[..] == collected;
      return Ok(result[..]);
    }

    /** The guest's `_read_exact`: collect chunks; an interrupted call is retried by the runtime. */
    method GuestReadExact(count: nat) returns (r: Result<Bytes, StreamError>)
      modifies this`arrivals
      ensures Ending(arrivals) == Ending(old(arrivals))
      ensures Pending(arrivals) <= Pending(old(arrivals))
      ensures if |old(Incoming())| >= count
              then r == Ok(old(Incoming())[..count]) && Incoming() == old(Incoming())[count..]
              else r == Err(Ending(old(arrivals))) && Incoming() == []
    {
      var chunks: Bytes := [];
      var remaining: nat := count;
      while remaining != 0
        invariant |chunks| + remaining == count && Ending(arrivals) == Ending(old(arrivals))
        invariant Collected(chunks, Incoming(), old(Incoming()))
        invariant Pending(arrivals) <= Pending(old(arrivals))
        decreases Pending(arrivals)
      {
        var a := Receive(remaining);
        if a.Data? && a.bytes != [] {
          CollectMore(chunks, a.bytes, Incoming(), old(Incoming()));
          chunks := chunks + a.bytes;
          remaining := remaining - |a.bytes|;
        } else if !a.Interrupted? {
          return Err(if a.Broken? then a.error else Disconnected);
        }
      }
      return Ok(chunks);
    }

    /** The reading part of the host's `request`. */
    method HostReadFrame() returns (r: Result<Bytes, StreamError>)
      modifies this`arrivals
      ensures match Parse(Host, old(Incoming()))
              case Frame(payload, rest) => r == Ok(payload) && Incoming() == rest
              case Incomplete => r == Err(Ending(old(arrivals)))
              case Invalid => r == Err(PayloadTooLarge)
    {
      var header := HostReadExactly(4);
      if header.Err? {
        return header;
      }
      var payloadLength := Number(header.value);
      if payloadLength > MAX_PAYLOAD {
        return Err(PayloadTooLarge);
      }
      ghost var data := old(Incoming());
      assert payloadLength <= |data| - 4 ==> data[4..][..payloadLength] == data[4..4 + payloadLength];
      r := HostReadExactly(payloadLength);
    }

    /** The guest's `read_frame`, up to the JSON text. */
    method GuestReadFrame() returns (r: Result<Bytes, StreamError>)
      modifies this`arrivals
      ensures match Parse(Guest, old(Incoming()))
              case Frame(payload, rest) => r == Ok(payload) && Incoming() == rest
              case Incomplete => r == Err(Ending(old(arrivals)))
              case Invalid => r == Err(InvalidLength)
    {
      var header := GuestReadExact(4);
      if header.Err? {
        return header;
      }
      var length := Number(header.value);
      if length == 0 || length > MAX_PAYLOAD {
        return Err(InvalidLength);
      }
      ghost var data := old(Incoming());
      assert length <= |data| - 4 ==> data[4..][..length] == data[4..4 + length];
      r := GuestReadExact(length);
    }

    /** The reading side of the guest's loop: every whole frame is read, in order, until the stream ends. */
    method GuestReadLoop() returns (payloads: seq<Bytes>)
      modifies this`arrivals
      ensures payloads == ParseAll(Guest, old(Incoming()))
    {
      payloads := [];
      while true
        invariant payloads + ParseAll(Guest, Incoming()) == ParseAll(Guest, old(Incoming()))
        decreases |Incoming()|
      {
        var frame := GuestReadFrame();
        if frame.Err? {
          return;
        }
        payloads := payloads + [frame.value];
      }
    }

    /** The host's `write`: `progress` is what the successive calls accept; 0 is a closed pipe, `None` an
        interrupted call, and when it runs out the deadline has passed. */
    method HostWrite(data: Bytes, progress: seq<Option<nat>>) returns (r: Result<(), StreamError>)
      modifies this`sent
      ensures old(sent) <= sent <= old(sent) + data
      ensures r.Ok? <==> sent == old(sent) + data
      ensures r == Err(Io) ==> Some(0) in progress
      ensures r.Err? && Some(0) !in progress ==> r == Err(TimedOut)
    {
      var offset, i := 0, 0;
      while offset < |data|
        invariant 0 <= offset <= |data| && i <= |progress|
        invariant sent == old(sent) + data[..offset]
        decreases |progress| - i
      {
        if i == |progress| {
          return Err(TimedOut);
        }
        if progress[i].Some? {
          var count := if progress[i].value <= |data| - offset then progress[i].value else |data| - offset;
          if count == 0 {
            return Err(Io);
          }
          sent := sent + data[offset..offset + count];
          offset := offset + count;
          assert data[..offset] == data[..offset - count] + data[offset - count..offset];
        }
        i := i + 1;
      }
      assert data[..offset] == data;
      return Ok(());
    }
  }

  /** However the frames are cut into pieces, the guest's loop reads back exactly the payloads that were sent. */
  method ReadBack(stream: Stream, payloads: seq<Bytes>) returns (read: seq<Bytes>)
    requires AllSendable(payloads)
    requires stream.Incoming() == EncodeAll(payloads)
    modifies stream`arrivals
    ensures read == payloads
  {
    UniquelyDecodable(Guest, payloads, []);
    assert EncodeAll(payloads) + [] == EncodeAll(payloads);
    assert Parse(Guest, []) == Incomplete;
    read := stream.GuestReadLoop();
  }
}
