/** The printed text of a value is the one shortest text that the parser reads as it: no
    escape, number or separator could be written shorter, or differently at that length. */
module ShortestText {
  import opened Common
  import opened Encodings
  import opened KeyedSort
  import opened Json
  import opened JsonParse
  import Jcs

  /** The text begins with the first one, or with something longer, before the rest. */
  predicate NoShorter(t: string, shortest: string, rest: string) {
    |t| >= |shortest| + |rest| && (|t| == |shortest| + |rest| ==> t == shortest + rest)
  }

  /** One part after another. */
  lemma {:induction false} PartsNoShorter(t: string, a: string, more: string, b: string, rest: string)
    requires NoShorter(t, a, more) && NoShorter(more, b, rest)
    ensures NoShorter(t, a + b, rest)
  {
    if |t| == |a + b| + |rest| { assert t == a + (b + rest) == (a + b) + rest; }
  }

  /** Two parts with a one-character separator. */
  lemma {:induction false} JoinedNoShorter(t: string, a: string, more: string, b: string, rest: string)
    requires more != "" && NoShorter(t, a, more) && NoShorter(more[1..], b, rest)
    ensures NoShorter(t, a + ([more[0]] + b), rest)
  {
    assert more == [more[0]] + more[1..];
    PartsNoShorter(more, [more[0]], more[1..], b, rest);
    PartsNoShorter(t, a, more, [more[0]] + b, rest);
  }

  /* ---------- strings ---------- */

  lemma {:induction false} CharShortest(t: string)
    requires ParseChar(t).Some?
    ensures NoShorter(t, EscapeChar(ParseChar(t).value.value), ParseChar(t).value.rest)
  {
    var c, rest := ParseChar(t).value.value, ParseChar(t).value.rest;
    if t[0] != '\\' {
      assert t == [t[0]] + t[1..];
    } else if Unescape(t[1]).Some? {
      assert t == t[..2] + t[2..] && t[..2] == [t[0], t[1]];
    } else {
      HexShortest(t);
    }
  }

  lemma {:induction false} HexShortest(t: string)
    requires |t| >= 6 && t[..4] == "\\u00" && HexValue(t[4]).Some? && HexValue(t[5]).Some?
    ensures NoShorter(t, EscapeChar((16 * HexValue(t[4]).value + HexValue(t[5]).value) as char), t[6..])
  {
    var hi, lo := HexValue(t[4]).value, HexValue(t[5]).value;
    assert (16 * hi + lo) / 16 == hi && (16 * hi + lo) % 16 == lo;
    assert t == t[..4] + [t[4], t[5]] + t[6..];
    HexOf(t[4]);
    HexOf(t[5]);
  }

  lemma {:induction false} HexOf(c: char)
    requires HexValue(c).Some?
    ensures HexValue(c).value < 16 && HEX_DIGITS[HexValue(c).value] == c
  {
  }

  lemma {:induction false} BodyShortest(t: string)
    requires ParseBody(t).Some?
    ensures NoShorter(t, EscapeAll(ParseBody(t).value.value) + "\"", ParseBody(t).value.rest)
    decreases |t|
  {
    if t[0] == '"' {
      assert t == "\"" + t[1..];
    } else {
      var c, more := ParseChar(t).value.value, ParseChar(t).value.rest;
      var s := ParseBody(more).value.value;
      CharShortest(t);
      BodyShortest(more);
      PartsNoShorter(t, EscapeChar(c), more, EscapeAll(s) + "\"", ParseBody(t).value.rest);
      assert ([c] + s)[1..] == s;
      assert EscapeAll([c] + s) + "\"" == EscapeChar(c) + (EscapeAll(s) + "\"");
    }
  }

  /** A string literal is the one shortest text that is read as its string. */
  lemma {:induction false} StringShortest(t: string)
    requires ParseString(t).Some?
    ensures NoShorter(t, StringText(ParseString(t).value.value), ParseString(t).value.rest)
  {
    BodyShortest(t[1..]);
    var body := EscapeAll(ParseString(t).value.value) + "\"";
    assert t == "\"" + t[1..];
    PartsNoShorter(t, "\"", t[1..], body, ParseString(t).value.rest);
    assert "\"" + body == StringText(ParseString(t).value.value);
  }

  lemma {:induction false} EscapeNext(c: char, s: string)
    ensures EscapeAll([c] + s) == EscapeChar(c) + EscapeAll(s)
  {
    assert ([c] + s)[1..] == s;
  }

  /** Four named escapes, as in section 3.2.2.2 of RFC 8785. */
  lemma {:induction false} EscapesWrittenOut()
    ensures StringText("\"\\\U{0008}\U{000C}") == "\"\\\"\\\\\\b\\f\""
  {
    EscapeNext('\U{000C}', "");
    EscapeNext('\U{0008}', "\U{000C}");
    EscapeNext('\\', "\U{0008}\U{000C}");
    EscapeNext('"', "\\\U{0008}\U{000C}");
  }

  /** The other three, a control character without a name, and a slash, which stays. */
  lemma {:induction false} MoreEscapesWrittenOut()
    ensures StringText("\n\r\t\U{000F}/") == "\"\\n\\r\\t\\u000f/\""
  {
    EscapeNext('/', "");
    EscapeNext('\U{000F}', "/");
    EscapeNext('\t', "\U{000F}/");
    EscapeNext('\r', "\t\U{000F}/");
    EscapeNext('\n', "\r\t\U{000F}/");
  }

  /* ---------- numbers ---------- */

  lemma {:induction false} DigitsShortest(run: string)
    requires run != "" && forall k :: 0 <= k < |run| ==> IsDigit(run[k])
    ensures NoShorter(run, NatText(NatValue(run)), "")
  {
    var n := |run| - 1;
    var d := DigitValue(run[n]);
    assert run == run[..n] + [run[n]] && DIGITS[d] == run[n];
    if n == 0 {
      assert run[..n] == "" && run == [run[0]];
    } else {
      DigitsShortest(run[..n]);
      assert NatValue(run) / 10 == NatValue(run[..n]) && NatValue(run) % 10 == d;
      NatTextDigits(NatValue(run[..n]));
    }
  }

  lemma {:induction false} NatShortest(t: string)
    requires ParseNat(t).Some?
    ensures NoShorter(t, NatText(ParseNat(t).value.value), ParseNat(t).value.rest)
  {
    var run := DigitRun(t);
    DigitsShortest(run);
    assert t == run + t[|run|..] && NatText(NatValue(run)) + "" == NatText(NatValue(run));
  }

  /* ---------- values ---------- */

  /** So the printed value is the one shortest text that is read as it. */
  lemma {:induction false} ValueShortest(t: string)
    requires ParseValue(t).Some?
    ensures NoShorter(t, Print(ParseValue(t).value.value), ParseValue(t).value.rest)
    decreases |t|, 2
  {
    assert t == [t[0]] + t[1..];
    match t[0]
    case 'n' => assert t == "null" + t[4..];
    case 't' => assert t == "true" + t[4..];
    case 'f' => assert t == "false" + t[5..];
    case '"' => StringShortest(t);
    case '-' => NegativeShortest(t);
    case '[' => ArrayShortest(t);
    case '{' => ObjectShortest(t);
    case _ => NatShortest(t);
  }

  lemma {:induction false} NegativeShortest(t: string)
    requires t != "" && t[0] == '-' && ParseNat(t[1..]).Some?
    ensures NoShorter(t, IntText(0 - ParseNat(t[1..]).value.value), ParseNat(t[1..]).value.rest)
  {
    var n, rest := ParseNat(t[1..]).value.value, ParseNat(t[1..]).value.rest;
    NatShortest(t[1..]);
    assert t == "-" + t[1..];
    PartsNoShorter(t, "-", t[1..], NatText(n), rest);
    NatTextDigits(n);
  }

  lemma {:induction false} ArrayShortest(t: string)
    requires t != "" && t[0] == '[' && ParseValue(t).Some?
    ensures NoShorter(t, Print(ParseValue(t).value.value), ParseValue(t).value.rest)
    decreases |t|, 1
  {
    var items, rest := ParseValue(t).value.value.items, ParseValue(t).value.rest;
    assert t == "[" + t[1..];
    if |t| > 1 && t[1] == ']' {
      assert t == "[" + "]" + t[2..] && Print(Arr([])) == "[]";
    } else {
      ItemsShortest(t[1..]);
      PartsNoShorter(t, "[", t[1..], PrintItems(items) + "]", rest);
      assert "[" + (PrintItems(items) + "]") == Print(Arr(items));
    }
  }

  lemma {:induction false} ItemsShortest(t: string)
    requires ParseItems(t).Some?
    ensures NoShorter(t, PrintItems(ParseItems(t).value.value) + "]", ParseItems(t).value.rest)
    decreases |t|, 3
  {
    var v, more := ParseValue(t).value.value, ParseValue(t).value.rest;
    var rest := ParseItems(t).value.rest;
    ValueShortest(t);
    assert more == [more[0]] + more[1..];
    if more[0] == ']' {
      PartsNoShorter(t, Print(v), more, "]", rest);
    } else {
      var others := ParseItems(more[1..]).value.value;
      ItemsShortest(more[1..]);
      JoinedNoShorter(t, Print(v), more, PrintItems(others) + "]", rest);
      MoreItems(v, others);
    }
  }

  lemma {:induction false} MoreItems(v: Json, others: seq<Json>)
    requires others != []
    ensures Print(v) + ("," + (PrintItems(others) + "]")) == PrintItems([v] + others) + "]"
  {
    assert ([v] + others)[1..] == others;
  }

  lemma {:induction false} ObjectShortest(t: string)
    requires t != "" && t[0] == '{' && ParseValue(t).Some?
    ensures NoShorter(t, Print(ParseValue(t).value.value), ParseValue(t).value.rest)
    decreases |t|, 1
  {
    var members, rest := ParseValue(t).value.value.members, ParseValue(t).value.rest;
    assert t == "{" + t[1..];
    if |t| > 1 && t[1] == '}' {
      assert t == "{" + "}" + t[2..] && Print(Obj([])) == "{}";
    } else {
      MembersShortest(t[1..]);
      PartsNoShorter(t, "{", t[1..], PrintMembers(members) + "}", rest);
      assert "{" + (PrintMembers(members) + "}") == Print(Obj(members));
    }
  }

  lemma {:induction false} MemberShortest(t: string)
    requires ParseMember(t).Some?
    ensures NoShorter(t, PrintMember(ParseMember(t).value.value), ParseMember(t).value.rest)
    decreases |t|, 3
  {
    var key, more := ParseString(t).value.value, ParseString(t).value.rest;
    var value, rest := ParseMember(t).value.value.value, ParseMember(t).value.rest;
    StringShortest(t);
    ValueShortest(more[1..]);
    assert more == ":" + more[1..];
    PartsNoShorter(more, ":", more[1..], Print(value), rest);
    PartsNoShorter(t, StringText(key), more, ":" + Print(value), rest);
    assert StringText(key) + (":" + Print(value)) == PrintMember(Keyed(key, value));
  }

  lemma {:induction false} MembersShortest(t: string)
    requires ParseMembers(t).Some?
    ensures NoShorter(t, PrintMembers(ParseMembers(t).value.value) + "}", ParseMembers(t).value.rest)
    decreases |t|, 4
  {
    var m, more := ParseMember(t).value.value, ParseMember(t).value.rest;
    var rest := ParseMembers(t).value.rest;
    MemberShortest(t);
    assert more == [more[0]] + more[1..];
    if more[0] == '}' {
      PartsNoShorter(t, PrintMember(m), more, "}", rest);
    } else {
      var others := ParseMembers(more[1..]).value.value;
      MembersShortest(more[1..]);
      JoinedNoShorter(t, PrintMember(m), more, PrintMembers(others) + "}", rest);
      OneMoreMember(m, others);
    }
  }

  lemma {:induction false} OneMoreMember(m: Member, others: seq<Member>)
    requires others != []
    ensures PrintMember(m) + ("," + (PrintMembers(others) + "}")) == PrintMembers([m] + others) + "}"
  {
    assert ([m] + others)[1..] == others;
  }

  /* ---------- canonical texts ---------- */

  /** The canonical text of a value is the one shortest text read as its sorted form. */
  lemma {:induction false} CanonicalIsShortest(e: Encoding, v: Json, t: string)
    requires ParseValue(t) == Some(Parsed(Norm(e, v), ""))
    ensures |t| >= |Serialize(e, v)|
    ensures |t| == |Serialize(e, v)| <==> t == Serialize(e, v)
  {
    ValueShortest(t);
    Jcs.SerializeIsPrintNorm(e, v);
    assert Print(Norm(e, v)) + "" == Print(Norm(e, v));
  }
}
