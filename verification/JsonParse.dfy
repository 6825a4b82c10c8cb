/** A parser for what the printers write, and the proof that it reads every
    float-free value back, whatever follows it. */
module JsonParse {
  import opened Common
  import opened KeyedSort
  import opened Json

  datatype Parsed<+T> = Parsed(value: T, rest: string)

  /* ---------- the parser ---------- */

  predicate IsDigit(c: char) { '0' <= c <= '9' }

  /** Text that does not begin with a digit. */
  predicate NoDigitAhead(t: string) { t == "" || !IsDigit(t[0]) }

  function DigitRun(t: string): (run: string)
    ensures run <= t
    ensures forall k :: 0 <= k < |run| ==> IsDigit(run[k])
  {
    if NoDigitAhead(t) then "" else [t[0]] + DigitRun(t[1..])
  }

  function DigitValue(c: char): nat
    requires IsDigit(c)
  {
    c as int - '0' as int
  }

  function NatValue(digits: string): nat
    requires forall k :: 0 <= k < |digits| ==> IsDigit(digits[k])
  {
    if digits == "" then 0
    else 10 * NatValue(digits[..|digits| - 1]) + DigitValue(digits[|digits| - 1])
  }

  function ParseNat(t: string): (r: Option<Parsed<nat>>)
    ensures r.Some? ==> |r.value.rest| < |t|
  {
    var run := DigitRun(t);
    if run == "" then None else Some(Parsed(NatValue(run), t[|run|..]))
  }

  function HexValue(c: char): Option<nat> {
    if '0' <= c <= '9' then Some(c as int - '0' as int)
    else if 'a' <= c <= 'f' then Some(c as int - 'a' as int + 10)
    else None
  }

  /** The character after a backslash, other than the \u form. */
  function Unescape(c: char): Option<char> {
    match c
    case '"' => Some('"')
    case '\\' => Some('\\')
    case 'b' => Some(BACKSPACE)
    case 'f' => Some(FORM_FEED)
    case 'n' => Some('\n')
    case 'r' => Some('\r')
    case 't' => Some('\t')
    case _ => None
  }

  /** One character of a string body. */
  function ParseChar(t: string): (r: Option<Parsed<char>>)
    ensures r.Some? ==> |r.value.rest| < |t|
  {
    if t == "" || t[0] == '"' || t[0] as int < 0x20 then None
    else if t[0] != '\\' then Some(Parsed(t[0], t[1..]))
    else if |t| >= 2 && Unescape(t[1]).Some? then Some(Parsed(Unescape(t[1]).value, t[2..]))
    else if |t| >= 6 && t[..4] == "\\u00" && HexValue(t[4]).Some? && HexValue(t[5]).Some? then
      Some(Parsed((16 * HexValue(t[4]).value + HexValue(t[5]).value) as char, t[6..]))
    else None
  }

  function ParseBody(t: string): (r: Option<Parsed<string>>)
    ensures r.Some? ==> |r.value.rest| < |t|
    decreases |t|
  {
    if t == "" then None
    else if t[0] == '"' then Some(Parsed("", t[1..]))
    else match ParseChar(t)
      case None => None
      case Some(Parsed(c, more)) =>
        match ParseBody(more)
        case None => None
        case Some(Parsed(s, rest)) => Some(Parsed([c] + s, rest))
  }

  function ParseString(t: string): (r: Option<Parsed<string>>)
    ensures r.Some? ==> |r.value.rest| < |t|
  {
    if t != "" && t[0] == '"' then ParseBody(t[1..]) else None
  }

  function ParseValue(t: string): (r: Option<Parsed<Json>>)
    ensures r.Some? ==> |r.value.rest| < |t|
    decreases |t|, 2
  {
    if t == "" then None
    else match t[0]
      case 'n' => if "null" <= t then Some(Parsed(Null, t[4..])) else None
      case 't' => if "true" <= t then Some(Parsed(Bool(true), t[4..])) else None
      case 'f' => if "false" <= t then Some(Parsed(Bool(false), t[5..])) else None
      case '"' =>
        (match ParseString(t)
         case None => None
         case Some(Parsed(s, rest)) => Some(Parsed(Str(s), rest)))
      case '-' =>
        (match ParseNat(t[1..])
         case None => None
         case Some(Parsed(n, rest)) => Some(Parsed(Int(0 - n), rest)))
      case '[' =>
        if |t| > 1 && t[1] == ']' then Some(Parsed(Arr([]), t[2..]))
        else (match ParseItems(t[1..])
              case None => None
              case Some(Parsed(items, rest)) => Some(Parsed(Arr(items), rest)))
      case '{' =>
        if |t| > 1 && t[1] == '}' then Some(Parsed(Obj([]), t[2..]))
        else (match ParseMembers(t[1..])
              case None => None
              case Some(Parsed(members, rest)) => Some(Parsed(Obj(members), rest)))
      case _ =>
        (match ParseNat(t)
         case None => None
         case Some(Parsed(n, rest)) => Some(Parsed(Int(n), rest)))
  }

  /** One or more values separated by commas, up to the closing bracket. */
  function ParseItems(t: string): (r: Option<Parsed<seq<Json>>>)
    ensures r.Some? ==> |r.value.rest| < |t|
    decreases |t|, 3
  {
    match ParseValue(t)
    case None => None
    case Some(Parsed(v, more)) =>
      if more != "" && more[0] == ']' then Some(Parsed([v], more[1..]))
      else if more != "" && more[0] == ',' then
        (match ParseItems(more[1..])
         case None => None
         case Some(Parsed(items, rest)) => Some(Parsed([v] + items, rest)))
      else None
  }

  function ParseMember(t: string): (r: Option<Parsed<Member>>)
    ensures r.Some? ==> |r.value.rest| < |t|
    decreases |t|, 3
  {
    match ParseString(t)
    case None => None
    case Some(Parsed(k, more)) =>
      if more != "" && more[0] == ':' then
        (match ParseValue(more[1..])
         case None => None
         case Some(Parsed(v, rest)) => Some(Parsed(Keyed(k, v), rest)))
      else None
  }

  function ParseMembers(t: string): (r: Option<Parsed<seq<Member>>>)
    ensures r.Some? ==> |r.value.rest| < |t|
    decreases |t|, 4
  {
    match ParseMember(t)
    case None => None
    case Some(Parsed(m, more)) =>
      if more != "" && more[0] == '}' then Some(Parsed([m], more[1..]))
      else if more != "" && more[0] == ',' then
        (match ParseMembers(more[1..])
         case None => None
         case Some(Parsed(members, rest)) => Some(Parsed([m] + members, rest)))
      else None
  }

  /* ---------- reading numbers back ---------- */

  lemma {:induction false} NatTextDigits(n: nat)
    ensures |NatText(n)| > 0
    ensures forall k :: 0 <= k < |NatText(n)| ==> IsDigit(NatText(n)[k])
    ensures NatValue(NatText(n)) == n
  {
    if n < 10 {
      assert NatText(n)[..0] == "";
      DigitAt(n);
    } else {
      NatTextDigits(n / 10);
      DigitAt(n % 10);
      assert NatText(n)[..|NatText(n)| - 1] == NatText(n / 10);
    }
  }

  lemma {:induction false} DigitAt(d: nat)
    requires d < 10
    ensures DIGITS[d] as int == '0' as int + d && IsDigit(DIGITS[d])
  {
  }

  lemma {:induction false} DigitRunStops(run: string, rest: string)
    requires forall k :: 0 <= k < |run| ==> IsDigit(run[k])
    requires NoDigitAhead(rest)
    ensures DigitRun(run + rest) == run
  {
    if run == "" {
      assert run + rest == rest;
    } else {
      assert (run + rest)[1..] == run[1..] + rest;
      DigitRunStops(run[1..], rest);
    }
  }

  lemma {:induction false} ParseNatText(n: nat, rest: string)
    requires NoDigitAhead(rest)
    ensures ParseNat(NatText(n) + rest) == Some(Parsed(n, rest))
  {
    NatTextDigits(n);
    DigitRunStops(NatText(n), rest);
    assert (NatText(n) + rest)[|NatText(n)|..] == rest;
  }

  /* ---------- reading strings back ---------- */

  lemma {:induction false} ParseEscapedChar(c: char, rest: string)
    ensures ParseChar(EscapeChar(c) + rest) == Some(Parsed(c, rest))
    ensures EscapeChar(c)[0] != '"'
  {
    var t := EscapeChar(c) + rest;
    if |EscapeChar(c)| == 6 {
      ParseHexEscape(c, rest);
    } else if |EscapeChar(c)| == 2 {
      assert t[0] == '\\' && t[1] == EscapeChar(c)[1] && t[2..] == rest;
    } else {
      assert t[0] == c && t[1..] == rest;
    }
  }

  lemma {:induction false} HexAt(d: nat)
    requires d < 16
    ensures HexValue(HEX_DIGITS[d]) == Some(d)
  {
  }

  lemma {:induction false} ParseHexEscape(c: char, rest: string)
    requires |EscapeChar(c)| == 6
    ensures ParseChar(EscapeChar(c) + rest) == Some(Parsed(c, rest))
  {
    var hi, lo := c as int / 16, c as int % 16;
    var t := EscapeChar(c) + rest;
    HexAt(hi);
    HexAt(lo);
    assert t[..4] == "\\u00" && t[4] == HEX_DIGITS[hi] && t[5] == HEX_DIGITS[lo] && t[6..] == rest;
  }

  lemma {:induction false} ParseEscapedBody(s: string, rest: string)
    ensures ParseBody(EscapeAll(s) + ("\"" + rest)) == Some(Parsed(s, rest))
  {
    var tail := "\"" + rest;
    if s == "" {
      assert EscapeAll(s) + tail == tail && tail[1..] == rest;
    } else {
      var more := EscapeAll(s[1..]) + tail;
      assert EscapeAll(s) + tail == EscapeChar(s[0]) + more;
      ParseEscapedChar(s[0], more);
      ParseEscapedBody(s[1..], rest);
      assert s == [s[0]] + s[1..];
    }
  }

  lemma {:induction false} ParseStringText(s: string, rest: string)
    ensures ParseString(StringText(s) + rest) == Some(Parsed(s, rest))
  {
    assert (StringText(s) + rest)[1..] == EscapeAll(s) + ("\"" + rest);
    ParseEscapedBody(s, rest);
  }

  /* ---------- reading values back ---------- */

  lemma {:induction false} PrintBegins(v: Json)
    ensures Print(v) != "" && Print(v)[0] != ']'
  {
    if v.Int? { NatTextDigits(if v.n < 0 then -v.n else v.n); }
  }

  /** The parser recovers every value from its text, with any following text that does
      not begin with a digit. */
  lemma {:induction false} ParsePrint(v: Json, rest: string)
    requires NoDigitAhead(rest)
    ensures ParseValue(Print(v) + rest) == Some(Parsed(v, rest))
    decreases v, 2
  {
    match v
    case Arr(items) => ParsePrintArr(items, rest);
    case Obj(members) => ParsePrintObj(members, rest);
    case _ => ParseScalar(v, rest);
  }

  lemma {:induction false} ParseScalar(v: Json, rest: string)
    requires !v.Arr? && !v.Obj? && NoDigitAhead(rest)
    ensures ParseValue(ScalarText(v) + rest) == Some(Parsed(v, rest))
  {
    match v
    case Int(n) => ParseInt(n, rest);
    case Str(s) =>
      ParseStringText(s, rest);
      assert (StringText(s) + rest)[0] == '"';
    case _ => ParseKeyword(v, rest);
  }

  lemma {:induction false} ParseKeyword(v: Json, rest: string)
    requires v.Null? || v.Bool?
    ensures ParseValue(ScalarText(v) + rest) == Some(Parsed(v, rest))
  {
    var word := ScalarText(v);
    var t := word + rest;
    assert t[0] == word[0] && word <= t && t[|word|..] == rest;
  }

  lemma {:induction false} ParseInt(n: int, rest: string)
    requires NoDigitAhead(rest)
    ensures ParseValue(IntText(n) + rest) == Some(Parsed(Int(n), rest))
  {
    var m := if n < 0 then -n else n;
    NatTextDigits(m);
    ParseNatText(m, rest);
    if n < 0 { NegativeNumber(NatText(m), m, rest); } else { Number(NatText(m), m, rest); }
  }

  lemma {:induction false} NegativeNumber(digits: string, n: nat, rest: string)
    requires ParseNat(digits + rest) == Some(Parsed(n, rest))
    ensures ParseValue("-" + digits + rest) == Some(Parsed(Int(0 - n), rest))
  {
    var t := "-" + digits + rest;
    assert t[0] == '-' && t[1..] == digits + rest;
  }

  lemma {:induction false} Number(digits: string, n: nat, rest: string)
    requires digits != "" && IsDigit(digits[0]) && ParseNat(digits + rest) == Some(Parsed(n, rest))
    ensures ParseValue(digits + rest) == Some(Parsed(Int(n), rest))
  {
    assert IsDigit((digits + rest)[0]);
  }

  lemma {:induction false} OpenObject(body: string, members: seq<Member>, rest: string)
    requires body != "" && body[0] != '}'
    requires ParseMembers(body + ("}" + rest)) == Some(Parsed(members, rest))
    ensures ParseValue("{" + body + "}" + rest) == Some(Parsed(Obj(members), rest))
  {
    var t := "{" + body + "}" + rest;
    assert t[0] == '{' && t[1] == body[0] && t[1..] == body + ("}" + rest);
  }

  lemma {:induction false} EmptyObject(rest: string)
    ensures ParseValue("{" + "" + "}" + rest) == Some(Parsed(Obj([]), rest))
  {
    var t := "{" + "" + "}" + rest;
    assert t[0] == '{' && t[1] == '}' && t[2..] == rest;
  }

  lemma {:induction false} ParsePrintArr(items: seq<Json>, rest: string)
    ensures ParseValue(Print(Arr(items)) + rest) == Some(Parsed(Arr(items), rest))
    decreases items, 4
  {
    var t := Print(Arr(items)) + rest;
    if items == [] {
      assert t[0] == '[' && t[1] == ']' && t[2..] == rest;
    } else {
      ParsePrintItems(items, rest);
      PrintBegins(items[0]);
      assert t[1..] == PrintItems(items) + ("]" + rest);
    }
  }

  lemma {:induction false} ParsePrintItems(items: seq<Json>, rest: string)
    requires items != []
    ensures ParseItems(PrintItems(items) + ("]" + rest)) == Some(Parsed(items, rest))
    decreases items, 3
  {
    var close := "]" + rest;
    assert close[1..] == rest && items == [items[0]] + items[1..];
    if |items| == 1 {
      assert items == [items[0]];
      ParsePrint(items[0], close);
    } else {
      var more := PrintItems(items[1..]) + close;
      ParsePrint(items[0], "," + more);
      ParsePrintItems(items[1..], rest);
      assert PrintItems(items) + close == Print(items[0]) + ("," + more);
      assert ("," + more)[1..] == more;
    }
  }

  lemma {:induction false} MembersBegin(members: seq<Member>)
    requires members != []
    ensures PrintMembers(members) != "" && PrintMembers(members)[0] == '"'
  {
    assert StringText(members[0].key)[0] == '"';
  }

  lemma {:induction false} ParsePrintObj(members: seq<Member>, rest: string)
    ensures ParseValue(Print(Obj(members)) + rest) == Some(Parsed(Obj(members), rest))
    decreases members, 4
  {
    if members == [] {
      EmptyObject(rest);
    } else {
      ParsePrintMembers(members, rest);
      MembersBegin(members);
      OpenObject(PrintMembers(members), members, rest);
    }
  }

  lemma {:induction false} ParsePrintMember(m: Member, rest: string)
    requires NoDigitAhead(rest)
    ensures ParseMember(PrintMember(m) + rest) == Some(Parsed(m, rest))
    decreases m
  {
    var value := Print(m.value) + rest;
    assert PrintMember(m) + rest == StringText(m.key) + (":" + value);
    ParseStringText(m.key, ":" + value);
    assert (":" + value)[1..] == value;
    ParsePrint(m.value, rest);
  }

  lemma {:induction false} MoreMembers(first: string, others: string, close: string)
    ensures (first + "," + others) + close == first + ("," + (others + close))
  {
  }

  lemma {:induction false} ParsePrintMembers(members: seq<Member>, rest: string)
    requires members != []
    ensures ParseMembers(PrintMembers(members) + ("}" + rest)) == Some(Parsed(members, rest))
    decreases members, 3
  {
    var close := "}" + rest;
    assert close[1..] == rest && members == [members[0]] + members[1..];
    if |members| == 1 {
      assert members == [members[0]];
      ParsePrintMember(members[0], close);
    } else {
      var more := PrintMembers(members[1..]) + close;
      ParsePrintMember(members[0], "," + more);
      ParsePrintMembers(members[1..], rest);
      assert PrintMembers(members) + close == PrintMember(members[0]) + ("," + more) by {
        MoreMembers(PrintMember(members[0]), PrintMembers(members[1..]), close);
      }
      assert ("," + more)[1..] == more;
    }
  }

  /** So printing in the order given is injective on values. */
  lemma {:induction false} PrintInjective(v: Json, w: Json)
    requires Print(v) == Print(w)
    ensures v == w
  {
    ParsePrint(v, "");
    ParsePrint(w, "");
  }
}
