/** Bytes, and the size of text in UTF-8. */
module Utf8 {
  import opened Wrappers

  newtype byte = x: int | 0 <= x < 256

  type Bytes = seq<byte>

  /** The number of bytes of one character. */
  function Width(c: char): nat {
    if c < 128 as char then 1 else if c < 2048 as char then 2 else if c < 65536 as char then 3 else 4
  }

  /** Swift's `utf8.count` and Python's `len(text.encode("utf-8"))`. */
  function Size(text: string): nat {
    if text == [] then 0 else Size(text[..|text| - 1]) + Width(text[|text| - 1])
  }

  /** The bytes of one character (section 3 of RFC 3629) */
  function Encoded(c: char): (bytes: Bytes)
    ensures |bytes| == Width(c)
  {
    var n := c as int;
    match Width(c)
    case 1 => (assert n < 128; [n as byte])
    case 2 => (assert n < 2048; [(0xC0 + n / 0x40) as byte, (0x80 + n % 0x40) as byte])
    case 3 => (assert n < 65536; [(0xE0 + n / 0x1000) as byte, (0x80 + n / 0x40 % 0x40) as byte, (0x80 + n % 0x40) as byte])
    case _ => [(0xF0 + n / 0x40000) as byte, (0x80 + n / 0x1000 % 0x40) as byte, (0x80 + n / 0x40 % 0x40) as byte,
               (0x80 + n % 0x40) as byte]
  }

  function EncodedText(text: string): Bytes {
    if text == [] then [] else EncodedText(text[..|text| - 1]) + Encoded(text[|text| - 1])
  }

  predicate IsTail(bytes: Bytes, n: nat) {
    |bytes| >= n && forall i :: 1 <= i < n ==> 0x80 <= bytes[i] < 0xC0
  }

  /** The number of the first character and how many bytes it takes; none if they are no UTF-8, or longer than need be. */
  function Decoded(bytes: Bytes): Option<(int, nat)> {
    if bytes == [] then None
    else
      var b := bytes[0] as int;
      if b < 0x80 then Some((b, 1))
      else if 0xC0 <= b < 0xE0 && IsTail(bytes, 2) then
        AtLeast(0x80, (b - 0xC0) * 0x40 + bytes[1] as int - 0x80, 2)
      else if 0xE0 <= b < 0xF0 && IsTail(bytes, 3) then
        AtLeast(0x800, (b - 0xE0) * 0x1000 + (bytes[1] as int - 0x80) * 0x40 + bytes[2] as int - 0x80, 3)
      else if 0xF0 <= b < 0xF8 && IsTail(bytes, 4) then
        AtLeast(0x10000, (b - 0xF0) * 0x40000 + (bytes[1] as int - 0x80) * 0x1000 + (bytes[2] as int - 0x80) * 0x40
                         + bytes[3] as int - 0x80, 4)
      else None
  }

  function AtLeast(least: int, n: int, width: nat): Option<(int, nat)> {
    if n >= least then Some((n, width)) else None
  }

  /** A character reads back, whatever follows it. */
  lemma EncodedReadsBack(c: char, rest: Bytes)
    ensures Decoded(Encoded(c) + rest) == Some((c as int, Width(c)))
  {
    var n, bytes := c as int, Encoded(c) + rest;
    assert forall i :: 0 <= i < Width(c) ==> bytes[i] == Encoded(c)[i];
    if Width(c) == 3 {
      assert n / 0x40 == n / 0x1000 * 0x40 + n / 0x40 % 0x40;
    } else if Width(c) == 4 {
      assert n / 0x40 == n / 0x1000 * 0x40 + n / 0x40 % 0x40;
      assert n / 0x1000 == n / 0x40000 * 0x40 + n / 0x1000 % 0x40;
    }
  }

  /** The size of a text is how many bytes it has. */
  lemma {:induction false} SizeIsExact(text: string)
    ensures |EncodedText(text)| == Size(text)
  {
    if text != [] {
      SizeIsExact(text[..|text| - 1]);
    }
  }
}
