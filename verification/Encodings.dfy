/** Code points, UTF-16 code units and UTF-8 bytes of a string, and the
    lexicographic orders that sorting by each of them gives. */
module Encodings {
  import opened Common

  datatype Encoding = CodePoints | Utf16 | Utf8

  function CharUnits(e: Encoding, c: char): (units: seq<int>)
    ensures |units| > 0
    ensures e.Utf8? ==> forall k :: 0 <= k < |units| ==> 0 <= units[k] < 256
  {
    var n := c as int;
    match e
    case CodePoints => [n]
    case Utf16 => if n <= 0xFFFF then [n] else [0xD800 + (n - 0x10000) / 0x400, 0xDC00 + (n - 0x10000) % 0x400]
    case Utf8 => Utf8Units(n)
  }

  /** Six payload bits to a continuation byte, the rest in the leading byte. */
  function Utf8Units(n: nat): (units: seq<int>)
    requires n < 0x110000
    ensures |units| == Utf8Length(n)
    ensures forall k :: 0 <= k < |units| ==> 0 <= units[k] < 256
  {
    var q, r, t := n / 0x40, n / 0x40 / 0x40, n / 0x40 / 0x40 / 0x40;
    match Utf8Length(n)
    case 1 => [n]
    case 2 => [0xC0 + q, 0x80 + n % 0x40]
    case 3 => [0xE0 + r, 0x80 + q % 0x40, 0x80 + n % 0x40]
    case _ => [0xF0 + t, 0x80 + r % 0x40, 0x80 + q % 0x40, 0x80 + n % 0x40]
  }

  function Utf8Length(n: nat): nat {
    if n < 0x80 then 1 else if n < 0x800 then 2 else if n < 0x10000 then 3 else 4
  }

  function Encode(e: Encoding, s: string): (units: seq<int>)
    ensures e.Utf8? ==> forall k :: 0 <= k < |units| ==> 0 <= units[k] < 256
  {
    if s == "" then [] else CharUnits(e, s[0]) + Encode(e, s[1..])
  }

  function EncodeUtf8(s: string): Bytes {
    Encode(Utf8, s)
  }

  /** The sort key of RFC 8785, section 3.2.3, built unit by unit. */
  method Utf16CodeUnits(s: string) returns (out: seq<int>)
    ensures out == Encode(Utf16, s)
  {
    out := [];
    for i := 0 to |s|
      invariant out + Encode(Utf16, s[i..]) == Encode(Utf16, s)
    {
      assert s[i..][1..] == s[i + 1..];
      ghost var rest := Encode(Utf16, s[i + 1..]);
      var cp := s[i] as int;
      ghost var before := out;
      if cp <= 0xFFFF {
        out := out + [cp];
      } else {
        cp := cp - 0x10000;
        var high, low := 0xD800 + cp / 0x400, 0xDC00 + cp % 0x400;
        out := out + [high];
        out := out + [low];
      }
      assert out == before + CharUnits(Utf16, s[i]);
      assert out + rest == before + (CharUnits(Utf16, s[i]) + rest);
    }
  }

  /* ---------- lexicographic order ---------- */

  /** Python's order on tuples, lists of integers and byte strings. */
  predicate Less(a: seq<int>, b: seq<int>) {
    if b == [] then false
    else if a == [] then true
    else if a[0] != b[0] then a[0] < b[0]
    else Less(a[1..], b[1..])
  }

  predicate LessBy(e: Encoding, s: string, t: string) {
    Less(Encode(e, s), Encode(e, t))
  }

  lemma {:induction false} LessTrichotomy(a: seq<int>, b: seq<int>)
    ensures !(Less(a, b) && Less(b, a))
    ensures a == b ==> !Less(a, b)
    ensures a != b ==> Less(a, b) || Less(b, a)
  {
    if a != [] && b != [] {
      LessTrichotomy(a[1..], b[1..]);
      assert a == [a[0]] + a[1..] && b == [b[0]] + b[1..];
    }
  }

  lemma {:induction false} LessTransitive(a: seq<int>, b: seq<int>, c: seq<int>)
    requires Less(a, b) && Less(b, c)
    ensures Less(a, c)
  {
    if a != [] && a[0] == b[0] && b[0] == c[0] { LessTransitive(a[1..], b[1..], c[1..]); }
  }

  lemma {:induction false} LessCommonPrefix(p: seq<int>, a: seq<int>, b: seq<int>)
    ensures Less(p + a, p + b) == Less(a, b)
  {
    if p == [] {
      assert p + a == a && p + b == b;
    } else {
      assert (p + a)[1..] == p[1..] + a && (p + b)[1..] == p[1..] + b;
      LessCommonPrefix(p[1..], a, b);
    }
  }

  /* ---------- comparing encodings character by character ---------- */

  /** The order in which an encoding puts two different characters: UTF-16 puts
      U+E000..U+FFFF after the supplementary characters, the others follow the code point. */
  predicate CharBefore(e: Encoding, c: char, d: char) {
    if e.Utf16? && (c as int >= 0x10000) != (d as int >= 0x10000) && c as int >= 0xE000 && d as int >= 0xE000
    then c as int >= 0x10000
    else c < d
  }

  /** The two sequences first differ at k, and there a is the smaller. */
  predicate SplitAt(a: seq<int>, b: seq<int>, k: nat) {
    k < |a| && k < |b| && (forall j :: 0 <= j < k ==> a[j] == b[j]) && a[k] < b[k]
  }

  lemma {:induction false} FirstUnitDecides(a: seq<int>, b: seq<int>, x: seq<int>, y: seq<int>, k: nat)
    requires SplitAt(a, b, k)
    ensures Less(a + x, b + y) && !Less(b + y, a + x)
  {
    assert a[..k] == b[..k];
    assert a + x == a[..k] + (a[k..] + x) && b + y == a[..k] + (b[k..] + y);
    LessCommonPrefix(a[..k], a[k..] + x, b[k..] + y);
    LessCommonPrefix(a[..k], b[k..] + y, a[k..] + x);
  }

  lemma {:induction false} CharOrder(e: Encoding, c: char, d: char, x: seq<int>, y: seq<int>)
    requires CharBefore(e, c, d)
    ensures Less(CharUnits(e, c) + x, CharUnits(e, d) + y)
    ensures !Less(CharUnits(e, d) + y, CharUnits(e, c) + x)
  {
    var k := FirstDifferentUnit(e, c, d);
    FirstUnitDecides(CharUnits(e, c), CharUnits(e, d), x, y, k);
  }

  /** Comparing two numbers by quotient, then remainder. */
  lemma {:induction false} QuotientThenRemainder(m: nat, n: nat, base: int)
    requires m < n && (base == 0x40 || base == 0x400)
    ensures m / base < n / base || (m / base == n / base && m % base < n % base)
  {
  }

  /** Some unit index decides in favour of the character that comes before. */
  lemma {:induction false} FirstDifferentUnit(e: Encoding, c: char, d: char) returns (k: nat)
    requires CharBefore(e, c, d)
    ensures SplitAt(CharUnits(e, c), CharUnits(e, d), k)
  {
    var m, n := c as int, d as int;
    k := 0;
    if e.Utf8? {
      k := FirstDifferentByte(m, n);
    } else if e.Utf16? && m >= 0x10000 && n >= 0x10000 {
      QuotientThenRemainder(m - 0x10000, n - 0x10000, 0x400);
      if (m - 0x10000) / 0x400 == (n - 0x10000) / 0x400 { k := 1; }
    }
  }

  lemma {:induction false} FirstDifferentByte(m: nat, n: nat) returns (k: nat)
    requires m < n < 0x110000
    ensures SplitAt(Utf8Units(m), Utf8Units(n), k)
  {
    if n < 0x80 || Utf8Length(m) != Utf8Length(n) { k := 0; }
    else if n < 0x800 { k := FirstOfTwoBytes(m, n); }
    else if n < 0x10000 { k := FirstOfThreeBytes(m, n); }
    else { k := FirstOfFourBytes(m, n); }
  }

  lemma {:induction false} FirstOfTwoBytes(m: nat, n: nat) returns (k: nat)
    requires 0x80 <= m < n < 0x800
    ensures SplitAt(Utf8Units(m), Utf8Units(n), k)
  {
    QuotientThenRemainder(m, n, 0x40);
    k := if m / 0x40 == n / 0x40 then 1 else 0;
  }

  lemma {:induction false} FirstOfThreeBytes(m: nat, n: nat) returns (k: nat)
    requires 0x800 <= m < n < 0x10000
    ensures SplitAt(Utf8Units(m), Utf8Units(n), k)
  {
    QuotientThenRemainder(m, n, 0x40);
    if m / 0x40 == n / 0x40 { return 2; }
    QuotientThenRemainder(m / 0x40, n / 0x40, 0x40);
    k := if m / 0x40 / 0x40 == n / 0x40 / 0x40 then 1 else 0;
  }

  lemma {:induction false} FirstOfFourBytes(m: nat, n: nat) returns (k: nat)
    requires 0x10000 <= m < n < 0x110000
    ensures SplitAt(Utf8Units(m), Utf8Units(n), k)
  {
    var q, q' := m / 0x40, n / 0x40;
    QuotientThenRemainder(m, n, 0x40);
    if q == q' { return 3; }
    QuotientThenRemainder(q, q', 0x40);
    if q / 0x40 == q' / 0x40 { return 2; }
    QuotientThenRemainder(q / 0x40, q' / 0x40, 0x40);
    k := if q / 0x40 / 0x40 == q' / 0x40 / 0x40 then 1 else 0;
  }

  /** The order of two strings by one encoding, stated on their characters. */
  predicate Before(e: Encoding, s: string, t: string) {
    if t == "" then false
    else if s == "" then true
    else if s[0] != t[0] then CharBefore(e, s[0], t[0])
    else Before(e, s[1..], t[1..])
  }

  lemma {:induction false} EncodedOrder(e: Encoding, s: string, t: string)
    ensures LessBy(e, s, t) == Before(e, s, t)
  {
    if s != "" && t != "" {
      var x, y := Encode(e, s[1..]), Encode(e, t[1..]);
      if s[0] == t[0] {
        LessCommonPrefix(CharUnits(e, s[0]), x, y);
        EncodedOrder(e, s[1..], t[1..]);
      } else if CharBefore(e, s[0], t[0]) {
        CharOrder(e, s[0], t[0], x, y);
      } else {
        CharOrder(e, t[0], s[0], y, x);
      }
    }
  }

  /** Sorting by UTF-8 bytes is sorting by code points, on all strings. */
  lemma {:induction false} Utf8OrderIsCodePointOrder(s: string, t: string)
    ensures LessBy(Utf8, s, t) == LessBy(CodePoints, s, t)
  {
    EncodedOrder(Utf8, s, t);
    EncodedOrder(CodePoints, s, t);
    BeforeAgrees(s, t);
  }

  lemma {:induction false} BeforeAgrees(s: string, t: string)
    ensures Before(Utf8, s, t) == Before(CodePoints, s, t)
  {
    if s != "" && t != "" { BeforeAgrees(s[1..], t[1..]); }
  }

  /** Every encoding is injective on strings. */
  lemma {:induction false} EncodeInjective(e: Encoding, s: string, t: string)
    requires Encode(e, s) == Encode(e, t)
    ensures s == t
  {
    LessTrichotomy(Encode(e, s), Encode(e, t));
    EncodedOrder(e, s, t);
    EncodedOrder(e, t, s);
    NeitherBefore(e, s, t);
  }

  lemma {:induction false} NeitherBefore(e: Encoding, s: string, t: string)
    requires !Before(e, s, t) && !Before(e, t, s)
    ensures s == t
  {
    if s != "" && t != "" {
      NeitherBefore(e, s[1..], t[1..]);
      assert s == [s[0]] + s[1..] && t == [t[0]] + t[1..];
    }
  }

  /* ---------- where UTF-16 order leaves code-point order ---------- */

  /** The first differing characters are one supplementary character and one in U+E000..U+FFFF. */
  predicate OrdersConflict(s: string, t: string) {
    if s == "" || t == "" then false
    else if s[0] == t[0] then OrdersConflict(s[1..], t[1..])
    else s[0] as int >= 0xE000 && t[0] as int >= 0xE000 && (s[0] as int >= 0x10000) != (t[0] as int >= 0x10000)
  }

  /** UTF-16 order differs from code-point order on exactly the conflicting pairs. */
  lemma {:induction false} Utf16OrderDiffersExactlyOnConflicts(s: string, t: string)
    ensures (LessBy(Utf16, s, t) != LessBy(CodePoints, s, t)) <==> OrdersConflict(s, t)
  {
    EncodedOrder(Utf16, s, t);
    EncodedOrder(CodePoints, s, t);
    if s != "" && t != "" && s[0] == t[0] {
      Utf16OrderDiffersExactlyOnConflicts(s[1..], t[1..]);
      EncodedOrder(Utf16, s[1..], t[1..]);
      EncodedOrder(CodePoints, s[1..], t[1..]);
    }
  }

  /** No supplementary characters. */
  predicate InBmp(s: string) { forall k :: 0 <= k < |s| ==> s[k] as int <= 0xFFFF }

  lemma {:induction false} BmpNeverConflicts(s: string, t: string)
    requires InBmp(s) && InBmp(t)
    ensures !OrdersConflict(s, t)
  {
    if s != "" && t != "" { BmpNeverConflicts(s[1..], t[1..]); }
  }
}
