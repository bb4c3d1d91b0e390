/**
 Streams on which frames have been cut short.

 A write that times out leaves the first part of a frame on the stream, and a reader that gives up leaves the next
 one inside a frame.  Wherever a reader begins then, and whatever lengths it reads there, it gets no message but one
 that has been sent as a whole.
 */
module CutFrames {
  import opened Wrappers
  import opened Utf8
  import opened GuestProtocol
  import opened Framing

  const QUOTE: byte := 34
  const COLON: byte := 58
  const BACKSLASH: byte := 92
  const BRACE: byte := 123

  /** The white space of JSON (section 2 of RFC 8259) */
  predicate IsWhite(b: byte) {
    b == 9 || b == 10 || b == 13 || b == 32
  }

  predicate IsLetter(b: byte) {
    65 <= b <= 90 || 97 <= b <= 122
  }

  // ----- the text of an object

  /** Where a reader of JSON text is: before the object, at and in its first name and behind it, then outside and
      inside the strings of its members, and behind the object; or where no text of an object with a member leads. */
  datatype Place =
    | Start | Opened | Name | NameEscape | Named
    | Outside(depth: nat) | Inside(depth: nat) | Escape(depth: nat)
    | Closed | Nowhere

  function Next(p: Place, b: byte): Place {
    match p
    case Start => if IsWhite(b) then Start else if b == BRACE then Opened else Nowhere
    case Opened => if IsWhite(b) then Opened else if b == QUOTE then Name else Nowhere
    case Name => if b == BACKSLASH then NameEscape else if b == QUOTE then Named else Name
    case NameEscape => Name
    case Named => if IsWhite(b) then Named else if b == COLON then Outside(0) else Nowhere
    case Outside(depth) =>
      if b == QUOTE then Inside(depth)
      else if b == BRACE || b == 91 then Outside(depth + 1)
      else if b != 125 && b != 93 then Outside(depth)
      else if depth == 0 then Closed
      else Outside(depth - 1)
    case Inside(depth) => if b == BACKSLASH then Escape(depth) else if b == QUOTE then Outside(depth) else Inside(depth)
    case Escape(depth) => Inside(depth)
    case Closed => if IsWhite(b) then Closed else Nowhere
    case Nowhere => Nowhere
  }

  function Follow(p: Place, text: Bytes): Place {
    if text == [] then p else Next(Follow(p, text[..|text| - 1]), text[|text| - 1])
  }

  /** What every JSON text of an object with a member fulfills: it has no zero bytes, begins with a name and a colon,
      and its brackets are closed at its end. */
  predicate MayBeMessage(text: Bytes) {
    Follow(Start, text).Closed? && forall i :: 0 <= i < |text| ==> text[i] != 0
  }

  /** The text of an object without white space around it, whose first name begins with a letter. */
  predicate IsMessage(payload: Bytes) {
    && Sendable(payload) && MayBeMessage(payload) && |payload| >= 3
    && payload[0] == BRACE && payload[1] == QUOTE && IsLetter(payload[2])
    && forall k :: 0 <= k < |payload| ==> !Follow(Start, payload[..k]).Closed?
  }

  lemma {:induction false} FollowBoth(p: Place, first: Bytes, second: Bytes)
    ensures Follow(p, first + second) == Follow(Follow(p, first), second)
  {
    if second == [] {
      assert first + second == first;
    } else {
      assert (first + second)[..|first + second| - 1] == first + second[..|second| - 1];
      FollowBoth(p, first, second[..|second| - 1]);
    }
  }

  lemma {:induction false} NowhereStays(text: Bytes)
    ensures Follow(Nowhere, text).Nowhere?
  {
    if text != [] {
      NowhereStays(text[..|text| - 1]);
    }
  }

  lemma FollowOne(p: Place, text: Bytes)
    requires text != []
    ensures Follow(p, text) == Follow(Next(p, text[0]), text[1..])
  {
    assert text == [text[0]] + text[1..];
    FollowBoth(p, [text[0]], text[1..]);
    assert Follow(p, [text[0]]) == Next(Follow(p, [text[0]][..0]), text[0]);
  }

  lemma FollowAll(text: Bytes, places: seq<Place>, k: nat)
    requires |places| == |text| + 1 && places[0] == Start && k <= |text|
    requires forall i :: 0 <= i < |text| ==> places[i + 1] == Next(places[i], text[i])
    ensures Follow(Start, text[..k]) == places[k]
  {
    if k > 0 {
      FollowAll(text, places, k - 1);
      assert text[..k][..k - 1] == text[..k - 1];
    }
  }

  /** `{"status":{}}`, the request of a legacy host, is a message. */
  lemma StatusIsMessage()
    ensures IsMessage([123, 34, 115, 116, 97, 116, 117, 115, 34, 58, 123, 125, 125])
  {
    var text: Bytes := [123, 34, 115, 116, 97, 116, 117, 115, 34, 58, 123, 125, 125];
    var places := [Start, Opened, Name, Name, Name, Name, Name, Name, Name, Named, Outside(0), Outside(1), Outside(0),
                   Closed];
    forall k | 0 <= k <= |text|
      ensures Follow(Start, text[..k]) == places[k]
    {
      FollowAll(text, places, k);
    }
    assert text[..|text|] == text;
  }

  /** A wrong first byte */
  lemma WrongStart(text: Bytes)
    requires text != [] && !IsWhite(text[0]) && text[0] != BRACE
    ensures !MayBeMessage(text)
  {
    FollowOne(Start, text);
    NowhereStays(text[1..]);
  }

  /** No further than at a first name, and not at the start either. */
  predicate Early(p: Place) {
    p.Opened? || p.Name? || p.NameEscape? || p.Named? || p.Nowhere?
  }

  /** At a first name, no beginning of a message leads anywhere. */
  lemma MessageAfterEarly(p: Place, payload: Bytes, k: nat)
    requires IsMessage(payload) && Early(p) && k <= |payload|
    ensures !Follow(p, payload[..k]).Closed?
  {
    var text := payload[..k];
    if k > 0 {
      FollowOne(p, text);
      var p1 := Next(p, BRACE);
      if k > 1 {
        FollowOne(p1, text[1..]);
        var p2 := Next(p1, QUOTE);
        if k > 2 {
          FollowOne(p2, text[1..][1..]);
          assert text[1..][1..][0] == payload[2];
          NowhereStays(text[1..][1..][1..]);
        }
      }
    }
  }

  /** A few bytes before a message only leave a reader at the start if they are white space. */
  lemma FewBytes(lead: Bytes)
    requires |lead| <= 3
    ensures Follow(Start, lead).Start? ==> forall i :: 0 <= i < |lead| ==> IsWhite(lead[i])
    ensures Follow(Start, lead).Start? || Early(Follow(Start, lead))
  {
    if |lead| > 0 {
      FollowOne(Start, lead);
      var one := Next(Start, lead[0]);
      if |lead| > 1 {
        FollowOne(one, lead[1..]);
        if |lead| > 2 {
          FollowOne(Next(one, lead[1]), lead[1..][1..]);
        }
      }
    }
  }

  /** With a few bytes before it, a message must be whole, and these bytes white space. */
  lemma LeadIsWhite(lead: Bytes, payload: Bytes, k: nat)
    requires IsMessage(payload) && |lead| <= 3 && k <= |payload|
    requires MayBeMessage(lead + payload[..k])
    ensures k == |payload| && forall i :: 0 <= i < |lead| ==> IsWhite(lead[i])
  {
    FollowBoth(Start, lead, payload[..k]);
    FewBytes(lead);
    if Early(Follow(Start, lead)) {
      MessageAfterEarly(Follow(Start, lead), payload, k);
    }
  }

  // ----- what a reader gets inside a frame

  /** The bytes of the payload's frame. */
  function FrameByte(payload: Bytes, i: nat): byte
    requires Sendable(payload) && i < 4 + |payload|
  {
    if i < 4 then Header(|payload|)[i] else payload[i - 4]
  }

  lemma HeaderBytes(n: nat)
    requires n <= MAX_PAYLOAD
    ensures var h := Header(n);
            h[0] == 0 && h[1] <= 0x20 && n == h[1] as nat * 0x10000 + h[2] as nat * 0x100 + h[3] as nat
  {
    NumberOfHeader(n);
    LengthOfFour(Header(n));
    assert Header(n)[..4] == Header(n);
  }

  /** A reader takes the four bytes `length` and the text behind them, of which the text lies `a` bytes inside the
      frame of the payload. */
  predicate IsCut(payload: Bytes, length: Bytes, text: Bytes, a: nat)
    requires Sendable(payload)
  {
    && |length| == 4 && Number(length) == |text| <= MAX_PAYLOAD
    && 0 < a && a + |text| <= 4 + |payload|
    && (forall i :: 0 <= i < |text| ==> text[i] == FrameByte(payload, a + i))
    && (forall i :: 0 <= i < 4 && 4 - i <= a ==> length[i] == FrameByte(payload, a + i - 4))
  }

  lemma LengthIs(length: Bytes)
    requires |length| == 4 && Number(length) <= MAX_PAYLOAD
    ensures length[0] == 0 && length[1] <= 0x20
    ensures Number(length) == length[1] as nat * 0x10000 + length[2] as nat * 0x100 + length[3] as nat
  {
    LengthOfFour(length);
    assert length[..4] == length;
  }

  /** Behind the frame's header */
  lemma CutBehind(payload: Bytes, length: Bytes, text: Bytes, a: nat)
    requires IsMessage(payload) && IsCut(payload, length, text, a) && a > 4
    ensures !MayBeMessage(text)
  {
    LengthIs(length);
    if text != [] && a < 7 {
      WrongStart(text);
    }
  }

  lemma CutAt(payload: Bytes, length: Bytes, text: Bytes)
    requires IsMessage(payload) && IsCut(payload, length, text, 4)
    ensures text == payload
  {
    assert length == Header(|payload|);
    NumberOfHeader(|payload|);
  }

  /** In the frame's header */
  lemma CutInHeader(payload: Bytes, length: Bytes, text: Bytes, a: nat)
    requires IsMessage(payload) && IsCut(payload, length, text, a) && a < 4
    ensures !MayBeMessage(text)
  {
    var m := 4 - a;
    var h := Header(|payload|);
    LengthIs(length);
    HeaderBytes(|payload|);
    if |text| <= m {
      FewBytes(text);
    } else if MayBeMessage(text) {
      assert text == h[a..] + payload[..|text| - m];
      LeadIsWhite(h[a..], payload, |text| - m);
      WholeIsTooLong(h, length, |payload|, a);
    }
  }

  /** The length that such a reader takes is not that of the bytes from there to the end of the frame. */
  lemma WholeIsTooLong(h: Bytes, length: Bytes, n: nat, a: nat)
    requires |h| == |length| == 4 && 0 < a < 4
    requires h[0] == 0 && h[1] <= 0x20 && n == h[1] as nat * 0x10000 + h[2] as nat * 0x100 + h[3] as nat
    requires length[0] == 0
    requires forall i :: 4 - a <= i < 4 ==> length[i] == h[a + i - 4]
    requires forall i :: 0 <= i < 4 - a ==> IsWhite(h[a..][i])
    ensures length[1] as nat * 0x10000 + length[2] as nat * 0x100 + length[3] as nat != n + 4 - a
  {
    assert forall i :: a <= i < 4 ==> h[i] == h[a..][i - a];
  }

  lemma OnlyWhole(payload: Bytes, length: Bytes, text: Bytes, a: nat)
    requires IsMessage(payload) && IsCut(payload, length, text, a)
    ensures MayBeMessage(text) ==> a == 4 && text == payload
  {
    if a > 4 {
      CutBehind(payload, length, text, a);
    } else if a == 4 {
      CutAt(payload, length, text);
    } else {
      CutInHeader(payload, length, text, a);
    }
  }

  // ----- streams

  /** The first bytes of a frame, or all of them. */
  datatype Piece = Piece(payload: Bytes, sent: nat)

  predicate IsPiece(p: Piece) {
    IsMessage(p.payload) && 0 < p.sent <= 4 + |p.payload|
  }

  predicate ArePieces(pieces: seq<Piece>) {
    forall i :: 0 <= i < |pieces| ==> IsPiece(pieces[i])
  }

  /** What successive writers put on the stream. */
  function Sent(pieces: seq<Piece>): Bytes
    requires ArePieces(pieces)
  {
    if pieces == [] then [] else Encode(pieces[0].payload).value[..pieces[0].sent] + Sent(pieces[1..])
  }

  /** The piece begins at this position of the stream. */
  predicate IsAt(data: Bytes, p: Piece, start: nat)
    requires IsPiece(p)
  {
    start + p.sent <= |data| && forall k :: 0 <= k < p.sent ==> data[start + k] == FrameByte(p.payload, k)
  }

  predicate NoZeros(data: Bytes, from: nat, to: nat) {
    from <= to <= |data| && forall k :: from <= k < to ==> data[k] != 0
  }

  lemma FirstPiece(pieces: seq<Piece>)
    requires ArePieces(pieces) && pieces != []
    ensures Sent(pieces)[0] == 0 && IsAt(Sent(pieces), pieces[0], 0)
  {
    HeaderBytes(|pieces[0].payload|);
  }

  lemma LaterPiece(pieces: seq<Piece>, j: nat, start: nat)
    requires ArePieces(pieces) && j + 1 < |pieces|
    requires IsAt(Sent(pieces[1..]), pieces[j + 1], start) && start == |Sent(pieces[1..][..j])|
    ensures IsAt(Sent(pieces), pieces[j + 1], pieces[0].sent + start)
    ensures pieces[0].sent + start == |Sent(pieces[..j + 1])|
  {
    var n, data, rest := pieces[0].sent, Sent(pieces), Sent(pieces[1..]);
    var payload := pieces[j + 1].payload;
    assert pieces[..j + 1][1..] == pieces[1..][..j];
    assert forall k :: 0 <= k < |rest| ==> rest[k] == data[n + k];
    forall k | 0 <= k < pieces[j + 1].sent
      ensures data[n + start + k] == FrameByte(payload, k)
    {
      assert rest[start + k] == FrameByte(payload, k);
    }
  }

  lemma NextIsZero(pieces: seq<Piece>)
    requires ArePieces(pieces) && |pieces| > 1
    ensures |Sent(pieces)| > pieces[0].sent && Sent(pieces)[pieces[0].sent] == 0
  {
    FirstPiece(pieces[1..]);
  }

  lemma ZerosSeparate(pieces: seq<Piece>, from: nat, to: nat)
    requires ArePieces(pieces) && pieces != [] && NoZeros(Sent(pieces), from, to) && from < pieces[0].sent
    ensures to <= pieces[0].sent
  {
    if |pieces| > 1 {
      NextIsZero(pieces);
    } else {
      assert |Sent(pieces)| == pieces[0].sent;
    }
  }

  lemma NoZerosLater(pieces: seq<Piece>, from: nat, to: nat)
    requires ArePieces(pieces) && pieces != [] && NoZeros(Sent(pieces), from, to) && pieces[0].sent <= from
    ensures NoZeros(Sent(pieces[1..]), from - pieces[0].sent, to - pieces[0].sent)
  {
    var n := pieces[0].sent;
    assert forall k :: 0 <= k < |Sent(pieces[1..])| ==> Sent(pieces[1..])[k] == Sent(pieces)[n + k];
  }

  /** Bytes without a zero among them lie in one piece, and not at its beginning. */
  lemma {:induction false} InOnePiece(pieces: seq<Piece>, from: nat, to: nat) returns (i: nat, start: nat)
    requires ArePieces(pieces) && from < to && NoZeros(Sent(pieces), from, to)
    ensures i < |pieces| && start == |Sent(pieces[..i])| && IsAt(Sent(pieces), pieces[i], start)
    ensures start < from && to <= start + pieces[i].sent
  {
    if from < pieces[0].sent {
      i, start := 0, 0;
      FirstPiece(pieces);
      ZerosSeparate(pieces, from, to);
    } else {
      NoZerosLater(pieces, from, to);
      var j, s := InOnePiece(pieces[1..], from - pieces[0].sent, to - pieces[0].sent);
      i, start := j + 1, pieces[0].sent + s;
      LaterPiece(pieces, j, s);
    }
  }

  /** What is read there is cut out of the piece's frame. */
  lemma ReadIsCut(data: Bytes, p: Piece, start: nat, from: nat, side: Side)
    requires IsPiece(p) && IsAt(data, p, start) && start < from + 4 && from <= |data|
    requires Parse(side, data[from..]).Frame?
    requires from + 4 + |Parse(side, data[from..]).payload| <= start + p.sent
    ensures IsCut(p.payload, data[from..][..4], Parse(side, data[from..]).payload, from + 4 - start)
  {
    var length, text, a := data[from..][..4], Parse(side, data[from..]).payload, from + 4 - start;
    var rest := data[from..];
    assert text == rest[4..4 + |text|] && forall i :: 0 <= i < |rest| ==> rest[i] == data[from + i];
    forall i | 0 <= i < |text|
      ensures text[i] == FrameByte(p.payload, a + i)
    {
      assert text[i] == rest[4 + i] == data[start + (a + i)];
    }
    forall i | 0 <= i < 4 && 4 - i <= a
      ensures length[i] == FrameByte(p.payload, a + i - 4)
    {
      assert length[i] == rest[i] == data[start + (a + i - 4)];
    }
  }

  lemma MessageHasNoZeros(data: Bytes, from: nat, side: Side)
    requires from <= |data| && Parse(side, data[from..]).Frame? && MayBeMessage(Parse(side, data[from..]).payload)
    ensures var text := Parse(side, data[from..]).payload;
            text != [] && NoZeros(data, from + 4, from + 4 + |text|)
  {
    var text, rest := Parse(side, data[from..]).payload, data[from..];
    assert text == rest[4..4 + |text|] && forall i :: 0 <= i < |rest| ==> rest[i] == data[from + i];
    assert forall k :: from + 4 <= k < from + 4 + |text| ==> data[k] == text[k - (from + 4)];
  }

  /**
   Wherever a reader begins on a stream of frames, any of which may have been cut short: what it gets is a message
   that has been sent as a whole, read at its own place, or nothing that it can take for a message.
   */
  lemma OnlySentMessages(side: Side, pieces: seq<Piece>, from: nat)
    requires ArePieces(pieces) && from <= |Sent(pieces)|
    ensures var read := Parse(side, Sent(pieces)[from..]);
            read.Frame? && MayBeMessage(read.payload) ==>
              exists i :: && 0 <= i < |pieces| && read.payload == pieces[i].payload
                          && pieces[i].sent == 4 + |pieces[i].payload| && from == |Sent(pieces[..i])|
  {
    var data := Sent(pieces);
    var read := Parse(side, data[from..]);
    if read.Frame? && MayBeMessage(read.payload) {
      MessageHasNoZeros(data, from, side);
      var i, start := InOnePiece(pieces, from + 4, from + 4 + |read.payload|);
      ReadIsCut(data, pieces[i], start, from, side);
      OnlyWhole(pieces[i].payload, data[from..][..4], read.payload, from + 4 - start);
    }
  }
}
