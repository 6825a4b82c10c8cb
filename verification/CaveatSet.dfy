/** The caveat-set canonicalisation rule: normalise white space, drop duplicates,
    sort by UTF-8 bytes, print as a canonical JSON array. */
module CaveatSet {
  import opened Common
  import opened Encodings
  import opened KeyedSort
  import opened Json
  import Jcs

  /* ---------- step 1: white space ---------- */

  /** The class of the regular expression: space, tab, carriage return, line feed. */
  predicate IsBlank(c: char) { c == ' ' || c == '\t' || c == '\r' || c == '\n' }

  predicate AllBlank(s: string) { forall k :: 0 <= k < |s| ==> IsBlank(s[k]) }

  function DropBlanks(s: string): (t: string)
    ensures |t| <= |s|
    ensures t == "" || !IsBlank(t[0])
  {
    if s == "" || !IsBlank(s[0]) then s else DropBlanks(s[1..])
  }

  /** Every run of blanks becomes one space. */
  function Collapse(s: string): string
    decreases |s|
  {
    if s == "" then ""
    else if IsBlank(s[0]) then " " + Collapse(DropBlanks(s[1..]))
    else [s[0]] + Collapse(s[1..])
  }

  function StripLeft(s: string): (t: string)
    ensures t == "" || !IsSpace(t[0])
  {
    if s == "" || !IsSpace(s[0]) then s else StripLeft(s[1..])
  }

  function StripRight(s: string): (t: string)
    ensures t <= s
    ensures t == "" || !IsSpace(t[|t| - 1])
  {
    if s == "" || !IsSpace(s[|s| - 1]) then s else StripRight(s[..|s| - 1])
  }

  function NormalizeWhitespace(caveat: string): string {
    StripRight(StripLeft(Collapse(caveat)))
  }

  /** Only single spaces as blanks. */
  predicate Collapsed(s: string) {
    && (forall k :: 0 <= k < |s| && IsBlank(s[k]) ==> s[k] == ' ')
    && (forall k :: 0 <= k < |s| - 1 && IsBlank(s[k]) ==> !IsBlank(s[k + 1]))
  }

  predicate Normal(s: string) {
    Collapsed(s) && (s != "" ==> !IsSpace(s[0]) && !IsSpace(s[|s| - 1]))
  }

  lemma {:induction false} CollapseCollapses(s: string)
    ensures Collapsed(Collapse(s))
    ensures s != "" && !IsBlank(s[0]) ==> Collapse(s) != "" && !IsBlank(Collapse(s)[0])
    decreases |s|
  {
    if s != "" { CollapseCollapses(if IsBlank(s[0]) then DropBlanks(s[1..]) else s[1..]); }
  }

  lemma {:induction false} StripLeftCollapsed(s: string)
    requires Collapsed(s)
    ensures Collapsed(StripLeft(s))
  {
    if s != "" && IsSpace(s[0]) { StripLeftCollapsed(s[1..]); }
  }

  lemma {:induction false} CollapsedIsFixed(s: string)
    requires Collapsed(s)
    ensures Collapse(s) == s
  {
    if s != "" {
      CollapsedIsFixed(s[1..]);
      assert s == [s[0]] + s[1..];
      if IsBlank(s[0]) { assert DropBlanks(s[1..]) == s[1..]; }
    }
  }

  /** The normalised form is normal, and a normal caveat is left as it is. */
  lemma {:induction false} NormalizeIsNormal(s: string)
    ensures Normal(NormalizeWhitespace(s))
    ensures Normal(s) ==> NormalizeWhitespace(s) == s
  {
    CollapseCollapses(s);
    StripLeftCollapsed(Collapse(s));
    if Normal(s) { CollapsedIsFixed(s); }
  }

  lemma {:induction false} DropBlankRun(w: string, s: string)
    requires AllBlank(w)
    ensures DropBlanks(w + s) == DropBlanks(s)
  {
    if w == "" {
      assert w + s == s;
    } else {
      assert (w + s)[1..] == w[1..] + s;
      DropBlankRun(w[1..], s);
    }
  }

  lemma {:induction false} CollapseRun(w: string, s: string)
    requires AllBlank(w) && w != ""
    ensures Collapse(w + s) == " " + Collapse(DropBlanks(s))
  {
    assert (w + s)[1..] == w[1..] + s;
    DropBlankRun(w[1..], s);
  }

  lemma {:induction false} CollapseRespaced(a: string, v: string, w: string, s: string)
    requires AllBlank(v) && AllBlank(w) && v != "" && w != ""
    ensures Collapse(a + (v + s)) == Collapse(a + (w + s))
    decreases |a|
  {
    if AllBlank(a) {
      assert a + (v + s) == (a + v) + s && a + (w + s) == (a + w) + s;
      CollapseRun(a + v, s);
      CollapseRun(a + w, s);
    } else if !IsBlank(a[0]) {
      assert (a + (v + s))[1..] == a[1..] + (v + s) && (a + (w + s))[1..] == a[1..] + (w + s);
      CollapseRespaced(a[1..], v, w, s);
    } else {
      var a' := AfterBlanks(a);
      AfterBlanksSplits(a, v + s);
      AfterBlanksSplits(a, w + s);
      CollapseRespaced(a', v, w, s);
    }
  }

  function AfterBlanks(a: string): (t: string)
    requires a != "" && IsBlank(a[0])
    ensures |t| < |a|
  {
    DropBlanks(a[1..])
  }

  lemma {:induction false} AfterBlanksSplits(a: string, t: string)
    requires a != "" && IsBlank(a[0]) && !AllBlank(a)
    ensures Collapse(a + t) == " " + Collapse(AfterBlanks(a) + t)
  {
    assert (a + t)[1..] == a[1..] + t;
    DropBlanksMixed(a[1..], t);
  }

  lemma {:induction false} DropBlanksMixed(a: string, t: string)
    requires !AllBlank(a)
    ensures DropBlanks(a + t) == DropBlanks(a) + t
  {
    if IsBlank(a[0]) {
      assert (a + t)[1..] == a[1..] + t;
      DropBlanksMixed(a[1..], t);
    }
  }

  /** Changing the blanks of a run, in number or kind, never changes the normalised caveat. */
  lemma {:induction false} RespacingNeverMatters(a: string, v: string, w: string, s: string)
    requires AllBlank(v) && AllBlank(w) && v != "" && w != ""
    ensures NormalizeWhitespace(a + (v + s)) == NormalizeWhitespace(a + (w + s))
  {
    CollapseRespaced(a, v, w, s);
  }

  /* ---------- the rule as it is written, and when the code meets it ---------- */

  function TrimLeft(s: string): (t: string)
    ensures t == "" || t[0] != ' '
  {
    if s == "" || s[0] != ' ' then s else TrimLeft(s[1..])
  }

  function TrimRight(s: string): (t: string)
    ensures t <= s
    ensures t == "" || t[|t| - 1] != ' '
  {
    if s == "" || s[|s| - 1] != ' ' then s else TrimRight(s[..|s| - 1])
  }

  /** The documented rule: collapse the runs of the four blanks, then strip the spaces at
      the ends. */
  function Rule(caveat: string): string { TrimRight(TrimLeft(Collapse(caveat))) }

  predicate AllSpaces(w: string) { forall k :: 0 <= k < |w| ==> w[k] == ' ' }

  lemma {:induction false} StripLeftTrimmed(s: string)
    ensures StripLeft(TrimLeft(s)) == StripLeft(s)
  {
    if s != "" && s[0] == ' ' { StripLeftTrimmed(s[1..]); }
  }

  lemma {:induction false} TrimRightSplits(s: string) returns (w: string)
    ensures AllSpaces(w) && s == TrimRight(s) + w
  {
    if s == "" || s[|s| - 1] != ' ' {
      w := "";
    } else {
      var v := TrimRightSplits(s[..|s| - 1]);
      w := v + " ";
      assert s == s[..|s| - 1] + " ";
    }
  }

  lemma {:induction false} StripLeftOf(r: string, w: string)
    requires AllSpaces(w)
    ensures StripLeft(r + w) == if StripLeft(r) == "" then "" else StripLeft(r) + w
  {
    if r != "" {
      assert (r + w)[1..] == r[1..] + w;
      if IsSpace(r[0]) { StripLeftOf(r[1..], w); }
    } else if w != "" {
      assert r + w == w && "" + w[1..] == w[1..];
      StripLeftOf("", w[1..]);
    }
  }

  lemma {:induction false} StripRightOf(r: string, w: string)
    requires AllSpaces(w)
    ensures StripRight(r + w) == StripRight(r)
  {
    if w == "" {
      assert r + w == r;
    } else {
      assert (r + w)[..|r + w| - 1] == r + w[..|w| - 1];
      StripRightOf(r, w[..|w| - 1]);
    }
  }

  /** The code strips again what the rule leaves. */
  lemma {:induction false} NormalizeStripsTheRule(s: string)
    ensures NormalizeWhitespace(s) == StripRight(StripLeft(Rule(s)))
  {
    var d := TrimLeft(Collapse(s));
    StripLeftTrimmed(Collapse(s));
    var w := TrimRightSplits(d);
    StripLeftOf(Rule(s), w);
    StripRightOf(StripLeft(Rule(s)), w);
  }

  /** The code meets its rule on a caveat exactly when what the rule leaves has no other
      white space at its ends. */
  lemma {:induction false} CodeMeetsRuleIff(s: string)
    ensures NormalizeWhitespace(s) == Rule(s) <==>
              Rule(s) == "" || (!IsSpace(Rule(s)[0]) && !IsSpace(Rule(s)[|Rule(s)| - 1]))
  {
    var r := Rule(s);
    NormalizeStripsTheRule(s);
    if r != "" && StripRight(StripLeft(r)) == r {
      assert StripLeft(r) != "" && StripLeft(r)[0] == r[0];
    }
  }

  /* ---------- steps 2 and 3: duplicates and order ---------- */

  /** The first occurrences, in order. */
  function Dedup(xs: seq<string>): (ds: seq<string>)
    ensures forall x :: x in ds <==> x in xs
    ensures forall i, j :: 0 <= i < j < |ds| ==> ds[i] != ds[j]
  {
    if xs == [] then [] else
      var last, ds := xs[|xs| - 1], Dedup(xs[..|xs| - 1]);
      assert xs == xs[..|xs| - 1] + [last];
      if last in ds then ds else ds + [last]
  }

  /** sorted(xs, key=lambda s: s.encode("utf-8")) */
  function SortByBytes(xs: seq<string>): seq<string> { SortStrings(Utf8, xs) }

  function Normalised(caveats: seq<string>): (xs: seq<string>)
    ensures |xs| == |caveats|
    ensures forall i :: 0 <= i < |caveats| ==> xs[i] == NormalizeWhitespace(caveats[i])
  {
    seq(|caveats|, i requires 0 <= i < |caveats| => NormalizeWhitespace(caveats[i]))
  }

  method DedupThenSort(normalised: seq<string>) returns (r: seq<string>)
    ensures r == SortByBytes(Dedup(normalised))
  {
    var seen: set<string> := {};
    var deduped: seq<string> := [];
    for i := 0 to |normalised|
      invariant deduped == Dedup(normalised[..i])
      invariant forall x :: x in seen <==> x in normalised[..i]
    {
      var c := normalised[i];
      assert normalised[..i + 1][..i] == normalised[..i];
      if c in seen { continue; }
      seen := seen + {c};
      deduped := deduped + [c];
    }
    assert normalised[..|normalised|] == normalised;
    r := SortByBytes(deduped);
  }

  function Canonical(caveats: seq<string>): seq<string> {
    SortByBytes(Dedup(Normalised(caveats)))
  }

  method CanonicalizeCaveatSet(caveats: seq<string>) returns (r: seq<string>)
    ensures r == Canonical(caveats)
  {
    r := DedupThenSort(Normalised(caveats));
  }

  /* ---------- the main results ---------- */

  /** The caveat set: the normalised caveats, as a set. */
  function NormalSet(caveats: seq<string>): set<string> {
    set c | c in caveats :: NormalizeWhitespace(c)
  }

  /** The canonical list is strictly increasing and lists exactly the caveat set. */
  lemma {:induction false} CanonicalListsTheSet(caveats: seq<string>)
    ensures IncreasingStrings(Utf8, Canonical(caveats))
    ensures forall x :: x in Canonical(caveats) <==> x in NormalSet(caveats)
  {
    SortStringsProperties(Utf8, Dedup(Normalised(caveats)));
    forall x ensures x in Normalised(caveats) <==> x in NormalSet(caveats) {
      if x in NormalSet(caveats) {
        var c :| c in caveats && NormalizeWhitespace(c) == x;
        var i :| 0 <= i < |caveats| && caveats[i] == c;
        assert Normalised(caveats)[i] == x;
      }
    }
  }

  /** Canonicalising twice changes nothing. */
  lemma {:induction false} CanonicalIdempotent(caveats: seq<string>)
    ensures Canonical(Canonical(caveats)) == Canonical(caveats)
  {
    var once := Canonical(caveats);
    CanonicalListsTheSet(caveats);
    CanonicalListsTheSet(once);
    forall x ensures x in NormalSet(once) <==> x in once {
      forall c | c in once ensures NormalizeWhitespace(c) == c {
        assert c in NormalSet(caveats);
        var d :| d in caveats && NormalizeWhitespace(d) == c;
        NormalizeIsNormal(d);
        NormalizeIsNormal(c);
      }
    }
    IncreasingStringsUnique(Utf8, Canonical(once), once);
  }

  function AsJson(xs: seq<string>): (v: Json)
    ensures v.Arr? && |v.items| == |xs|
    ensures forall i :: 0 <= i < |xs| ==> v.items[i] == Str(xs[i])
  {
    Arr(seq(|xs|, i requires 0 <= i < |xs| => Str(xs[i])))
  }

  function CanonicalBytes(caveats: seq<string>): Bytes {
    Canonicalize(AsJson(Canonical(caveats)))
  }

  /** Two caveat lists have the same canonical bytes iff their caveat sets are equal:
      order, repetition and spacing never matter, anything else always does. */
  lemma {:induction false} CanonicalBytesDecideTheSet(cs: seq<string>, ds: seq<string>)
    ensures CanonicalBytes(cs) == CanonicalBytes(ds) <==> NormalSet(cs) == NormalSet(ds)
  {
    var xs, ys := Canonical(cs), Canonical(ds);
    CanonicalListsTheSet(cs);
    CanonicalListsTheSet(ds);
    Jcs.CanonicalBytesDecideEquality(Utf16, AsJson(xs), AsJson(ys));
    if CanonicalBytes(cs) == CanonicalBytes(ds) {
      assert |xs| == |ys|;
      forall i | 0 <= i < |xs| ensures xs[i] == ys[i] {
        assert JsonEq(AsJson(xs).items[i], AsJson(ys).items[i]);
      }
      assert xs == ys;
      assert NormalSet(cs) == NormalSet(ds);
    }
    if NormalSet(cs) == NormalSet(ds) {
      IncreasingStringsUnique(Utf8, xs, ys);
    }
  }

  /** Caveats that the rule keeps apart can get the same canonical bytes. */
  lemma {:induction false} StripGoesBeyondBlanks()
    ensures Rule("\U{00A0}p") != Rule("p")
    ensures CanonicalBytes(["\U{00A0}p"]) == CanonicalBytes(["p"])
  {
    var s := "\U{00A0}p";
    assert s[1..] == "p" && Collapsed(s) && Collapsed("p");
    CollapsedIsFixed(s);
    CollapsedIsFixed("p");
    assert StripLeft(s) == "p" && Rule(s) == s && Rule("p") == "p";
    CanonicalBytesDecideTheSet([s], ["p"]);
  }
}
