/** Float-free JSON values as Python holds them, and the two canonical printers:
    keys in UTF-16 order (the RFC 8785 canonicaliser) or in code-point order
    (the FTD verifier's fallback, and json.dumps with sorted keys). */
module Json {
  import opened Common
  import opened Encodings
  import opened KeyedSort

  /** A dict keeps its insertion order; its keys are distinct (IsDict below). */
  datatype Json =
    | Null
    | Bool(b: bool)
    | Int(n: int)
    | Str(s: string)
    | Arr(items: seq<Json>)
    | Obj(members: seq<Member>)

  type Member = Keyed<Json>

  /** Every object in the value has distinct keys, as a Python dict has. */
  ghost predicate IsDict(v: Json) {
    match v
    case Arr(items) => forall i :: 0 <= i < |items| ==> IsDict(items[i])
    case Obj(members) =>
      && DistinctKeys(members)
      && forall i :: 0 <= i < |members| ==> IsDict(members[i].value)
    case _ => true
  }

  /** Equality of JSON values, objects compared as maps. */
  ghost predicate JsonEq(v: Json, w: Json) {
    match (v, w)
    case (Arr(xs), Arr(ys)) => |xs| == |ys| && forall i :: 0 <= i < |xs| ==> JsonEq(xs[i], ys[i])
    case (Obj(a), Obj(b)) =>
      && |a| == |b|
      && forall i :: 0 <= i < |a| ==> exists j :: 0 <= j < |b| && b[j].key == a[i].key && JsonEq(a[i].value, b[j].value)
    case (_, _) => v == w
  }

  /* ---------- scalars ---------- */

  const BACKSPACE := '\U{0008}'
  const FORM_FEED := '\U{000C}'
  const DIGITS := "0123456789"
  const HEX_DIGITS := "0123456789abcdef"

  function NatText(n: nat): string {
    if n < 10 then [DIGITS[n]] else NatText(n / 10) + [DIGITS[n % 10]]
  }

  function IntText(n: int): string {
    if n < 0 then "-" + NatText(-n) else NatText(n)
  }

  function EscapeChar(c: char): (t: string)
    ensures |t| > 0
  {
    if c == '"' then "\\\""
    else if c == '\\' then "\\\\"
    else if c == BACKSPACE then "\\b"
    else if c == FORM_FEED then "\\f"
    else if c == '\n' then "\\n"
    else if c == '\r' then "\\r"
    else if c == '\t' then "\\t"
    else if c as int < 0x20 then "\\u00" + [HEX_DIGITS[c as int / 16], HEX_DIGITS[c as int % 16]]
    else [c]
  }

  function EscapeAll(s: string): string {
    if s == "" then "" else EscapeChar(s[0]) + EscapeAll(s[1..])
  }

  function StringText(s: string): string {
    "\"" + EscapeAll(s) + "\""
  }

  /* ---------- the printers ---------- */

  function ScalarText(v: Json): string
    requires !v.Arr? && !v.Obj?
  {
    match v
    case Null => "null"
    case Bool(b) => if b then "true" else "false"
    case Int(n) => IntText(n)
    case Str(s) => StringText(s)
  }

  /** The serialiser with object keys sorted by the given encoding. */
  function Serialize(e: Encoding, v: Json): string {
    match v
    case Arr(items) => "[" + Commas(SerializeItems(e, items)) + "]"
    case Obj(members) => "{" + Commas(EntryTexts(Sort(e, SerializeValues(e, members)))) + "}"
    case _ => ScalarText(v)
  }

  function SerializeItems(e: Encoding, items: seq<Json>): seq<string> {
    if items == [] then [] else [Serialize(e, items[0])] + SerializeItems(e, items[1..])
  }

  function SerializeValues(e: Encoding, members: seq<Member>): seq<Keyed<string>> {
    if members == [] then []
    else [Keyed(members[0].key, Serialize(e, members[0].value))] + SerializeValues(e, members[1..])
  }

  function EntryTexts(entries: seq<Keyed<string>>): seq<string> {
    if entries == [] then []
    else [StringText(entries[0].key) + ":" + entries[0].value] + EntryTexts(entries[1..])
  }

  /** ",".join(parts) */
  function Commas(parts: seq<string>): string {
    if parts == [] then ""
    else if |parts| == 1 then parts[0]
    else parts[0] + "," + Commas(parts[1..])
  }

  /** The RFC 8785 canonicaliser and the FTD verifier's local one. */
  function Canonicalize(v: Json): Bytes { EncodeUtf8(Serialize(Utf16, v)) }

  function LocalJcs(v: Json): Bytes { EncodeUtf8(Serialize(CodePoints, v)) }

  /* ---------- printing a value with its members in the order given ---------- */

  function Print(v: Json): string {
    match v
    case Arr(items) => "[" + PrintItems(items) + "]"
    case Obj(members) => "{" + PrintMembers(members) + "}"
    case _ => ScalarText(v)
  }

  function PrintItems(items: seq<Json>): string {
    if items == [] then ""
    else if |items| == 1 then Print(items[0])
    else Print(items[0]) + "," + PrintItems(items[1..])
  }

  function PrintMember(m: Member): string {
    StringText(m.key) + ":" + Print(m.value)
  }

  function PrintMembers(members: seq<Member>): string {
    if members == [] then ""
    else if |members| == 1 then PrintMember(members[0])
    else PrintMember(members[0]) + "," + PrintMembers(members[1..])
  }

  /** The value with the members of every object sorted. */
  function Norm(e: Encoding, v: Json): Json {
    match v
    case Arr(items) => Arr(NormItems(e, items))
    case Obj(members) => Obj(Sort(e, NormValues(e, members)))
    case _ => v
  }

  function NormItems(e: Encoding, items: seq<Json>): (normed: seq<Json>)
    ensures |normed| == |items|
    ensures forall i :: 0 <= i < |items| ==> normed[i] == Norm(e, items[i])
  {
    if items == [] then [] else [Norm(e, items[0])] + NormItems(e, items[1..])
  }

  function NormValues(e: Encoding, members: seq<Member>): (normed: seq<Member>)
    ensures |normed| == |members|
    ensures forall i :: 0 <= i < |members| ==> normed[i] == Keyed(members[i].key, Norm(e, members[i].value))
  {
    if members == [] then []
    else [Keyed(members[0].key, Norm(e, members[0].value))] + NormValues(e, members[1..])
  }
}
