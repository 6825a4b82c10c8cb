/** Decoders for UTF-8 and UTF-16, and the proof that they read back every encoded string. */
module Decoding {
  import opened Common
  import opened Encodings

  /** A character and the units after it. */
  datatype Decoded = Decoded(c: char, rest: seq<int>)

  /** A Unicode scalar value, which no surrogate is. */
  predicate IsScalar(n: int) { 0 <= n < 0xD800 || 0xE000 <= n < 0x110000 }

  predicate IsContinuation(u: int) { 0x80 <= u <= 0xBF }

  /** Section 3 of RFC 3629: one to four bytes, in the shortest form. */
  function FirstUtf8(units: seq<int>): (r: Option<Decoded>)
    ensures r.Some? ==> |r.value.rest| < |units|
  {
    if units == [] then None
    else if 0 <= units[0] <= 0x7F then Some(Decoded(units[0] as char, units[1..]))
    else if 0xC0 <= units[0] <= 0xDF && |units| >= 2 && IsContinuation(units[1]) then
      Shortest(0x80, 0x40 * (units[0] - 0xC0) + (units[1] - 0x80), units[2..])
    else if 0xE0 <= units[0] <= 0xEF && |units| >= 3 && IsContinuation(units[1]) && IsContinuation(units[2]) then
      Shortest(0x800, 0x1000 * (units[0] - 0xE0) + 0x40 * (units[1] - 0x80) + (units[2] - 0x80), units[3..])
    else if 0xF0 <= units[0] <= 0xF7 && |units| >= 4
         && IsContinuation(units[1]) && IsContinuation(units[2]) && IsContinuation(units[3]) then
      Shortest(0x10000, 0x40000 * (units[0] - 0xF0) + 0x1000 * (units[1] - 0x80) + 0x40 * (units[2] - 0x80)
                        + (units[3] - 0x80), units[4..])
    else None
  }

  function Shortest(least: int, n: int, rest: seq<int>): Option<Decoded> {
    if least <= n && IsScalar(n) then Some(Decoded(n as char, rest)) else None
  }

  /** Section 2.2 of RFC 2781: a unit, or a high surrogate followed by a low one. */
  function FirstUtf16(units: seq<int>): (r: Option<Decoded>)
    ensures r.Some? ==> |r.value.rest| < |units|
  {
    if units == [] then None
    else if 0 <= units[0] <= 0xFFFF && IsScalar(units[0]) then Some(Decoded(units[0] as char, units[1..]))
    else if |units| >= 2 && 0xD800 <= units[0] <= 0xDBFF && 0xDC00 <= units[1] <= 0xDFFF then
      Some(Decoded((0x10000 + 0x400 * (units[0] - 0xD800) + (units[1] - 0xDC00)) as char, units[2..]))
    else None
  }

  function First(e: Encoding, units: seq<int>): (r: Option<Decoded>)
    ensures r.Some? ==> |r.value.rest| < |units|
  {
    match e
    case CodePoints =>
      if units != [] && IsScalar(units[0]) then Some(Decoded(units[0] as char, units[1..])) else None
    case Utf16 => FirstUtf16(units)
    case Utf8 => FirstUtf8(units)
  }

  function Decode(e: Encoding, units: seq<int>): Option<string>
    decreases |units|
  {
    if units == [] then Some("")
    else
      var first :- First(e, units);
      var more :- Decode(e, first.rest);
      Some([first.c] + more)
  }

  /* ---------- reading a character back ---------- */

  lemma {:induction false} Utf8CharReadBack(c: char, rest: seq<int>)
    ensures FirstUtf8(Utf8Units(c as int) + rest) == Some(Decoded(c, rest))
  {
    var n, units := c as int, Utf8Units(c as int) + rest;
    SixBits(n);
    SixBits(n / 0x40);
    SixBits(n / 0x40 / 0x40);
    match Utf8Length(n)
    case 1 => assert units[1..] == rest;
    case 2 => assert units[2..] == rest;
    case 3 => assert units[3..] == rest;
    case _ => assert units[4..] == rest;
  }

  lemma {:induction false} SixBits(n: nat)
    ensures n == 0x40 * (n / 0x40) + n % 0x40 && 0 <= n % 0x40 < 0x40
  {
  }

  lemma {:induction false} Utf16CharReadBack(c: char, rest: seq<int>)
    ensures FirstUtf16(CharUnits(Utf16, c) + rest) == Some(Decoded(c, rest))
  {
    var n, units := c as int, CharUnits(Utf16, c) + rest;
    if n <= 0xFFFF {
      assert units[1..] == rest;
    } else {
      assert units[2..] == rest;
      assert n - 0x10000 == 0x400 * ((n - 0x10000) / 0x400) + (n - 0x10000) % 0x400;
    }
  }

  /** Every encoding is read back by its decoder. */
  lemma {:induction false} DecodeEncode(e: Encoding, s: string)
    ensures Decode(e, Encode(e, s)) == Some(s)
  {
    if s != "" {
      var rest := Encode(e, s[1..]);
      match e {
        case CodePoints => assert (CharUnits(e, s[0]) + rest)[1..] == rest;
        case Utf16 => Utf16CharReadBack(s[0], rest);
        case Utf8 => Utf8CharReadBack(s[0], rest);
      }
      DecodeEncode(e, s[1..]);
      assert s == [s[0]] + s[1..];
    }
  }
}
