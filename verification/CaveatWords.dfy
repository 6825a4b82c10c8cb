/** The written white-space rule in terms of words: a caveat is its words, joined by single
    spaces, where the words are what stands between the four blanks. */
module CaveatWords {
  import opened Common
  import opened CaveatSet

  /** Space, tab, carriage return, line feed. */
  predicate Separates(c: char) { c in {' ', '\t', '\r', '\n'} }

  /** How many characters come before the first blank. */
  function WordLength(s: string): (n: nat)
    ensures n <= |s|
    ensures forall k :: 0 <= k < n ==> !Separates(s[k])
    ensures n < |s| ==> Separates(s[n])
  {
    if s == "" || Separates(s[0]) then 0 else 1 + WordLength(s[1..])
  }

  /** The longest stretches without a blank. */
  function Words(s: string): (words: seq<string>)
    ensures forall i :: 0 <= i < |words| ==> words[i] != ""
    decreases |s|
  {
    if s == "" then []
    else if Separates(s[0]) then Words(s[1..])
    else [s[..WordLength(s)]] + Words(s[WordLength(s)..])
  }

  /** " ".join(words) */
  function Spaced(words: seq<string>): string {
    if words == [] then ""
    else if |words| == 1 then words[0]
    else words[0] + " " + Spaced(words[1..])
  }

  /* ---------- the rule joins the words ---------- */

  lemma {:induction false} CollapseWord(w: string, t: string)
    requires forall k :: 0 <= k < |w| ==> !Separates(w[k])
    ensures Collapse(w + t) == w + Collapse(t)
  {
    if w == "" {
      assert w + t == t;
    } else {
      assert (w + t)[1..] == w[1..] + t;
      CollapseWord(w[1..], t);
      assert w == [w[0]] + w[1..];
    }
  }

  lemma {:induction false} WordsAfterBlanks(s: string)
    ensures Words(DropBlanks(s)) == Words(s)
  {
    if s != "" && IsBlank(s[0]) { WordsAfterBlanks(s[1..]); }
  }

  lemma {:induction false} TrimRightKeeps(a: string, b: string)
    requires TrimRight(b) != ""
    ensures TrimRight(a + b) == a + TrimRight(b)
    decreases |b|
  {
    if b[|b| - 1] == ' ' {
      assert (a + b)[..|a + b| - 1] == a + b[..|b| - 1];
      TrimRightKeeps(a, b[..|b| - 1]);
    }
  }

  lemma {:induction false} TrimRightWord(w: string)
    requires w != "" && forall k :: 0 <= k < |w| ==> !Separates(w[k])
    ensures TrimRight(w) == w && TrimRight(w + " ") == w
  {
    assert (w + " ")[..|w|] == w;
  }

  lemma {:induction false} OneMoreWord(w: string, words: seq<string>)
    requires words != []
    ensures Spaced([w] + words) == w + " " + Spaced(words)
  {
    assert ([w] + words)[1..] == words;
  }

  lemma {:induction false} WordThenRest(w: string, rest: string, words: seq<string>)
    requires TrimRight(rest) == Spaced(words) != "" && words != []
    ensures TrimRight(w + (" " + rest)) == Spaced([w] + words)
  {
    TrimRightKeeps(w + " ", rest);
    OneMoreWord(w, words);
    assert w + (" " + rest) == (w + " ") + rest;
  }

  /** The first word, and what is left after the blanks behind it. */
  lemma {:induction false} FirstWord(s: string) returns (w: string, u: string, last: bool)
    requires s != "" && !IsBlank(s[0])
    ensures w != "" && forall k :: 0 <= k < |w| ==> !Separates(w[k])
    ensures |u| < |s| && (u == "" || !IsBlank(u[0])) && (last ==> u == "")
    ensures Words(s) == [w] + Words(u) && Collapse(s) == w + (if last then "" else " " + Collapse(u))
  {
    var n := WordLength(s);
    w := s[..n];
    last := n == |s|;
    u := if last then "" else DropBlanks(s[n + 1..]);
    assert s == w + s[n..];
    CollapseWord(w, s[n..]);
    if !last {
      WordsAfterBlanks(s[n + 1..]);
      assert s[n..][1..] == s[n + 1..];
    }
  }

  /** A caveat that begins with a word. */
  lemma {:induction false} WordFirst(s: string)
    requires s != "" && !IsBlank(s[0])
    ensures TrimRight(Collapse(s)) == Spaced(Words(s)) && Spaced(Words(s)) != ""
    decreases |s|
  {
    var w, u, last := FirstWord(s);
    TrimRightWord(w);
    if u == "" {
      assert Words(s) == [w] && w + "" == w;
    } else {
      WordFirst(u);
      WordThenRest(w, Collapse(u), Words(u));
      OneMoreWord(w, Words(u));
    }
  }

  /** The rule as it is written is splitting into words and joining with spaces. */
  lemma {:induction false} RuleJoinsWords(caveat: string)
    ensures Rule(caveat) == Spaced(Words(caveat))
  {
    if caveat == "" {
    } else if IsBlank(caveat[0]) {
      var t := DropBlanks(caveat[1..]);
      WordsAfterBlanks(caveat[1..]);
      LeadingBlank(t);
      if t != "" { WordFirst(t); }
    } else {
      WordFirst(caveat);
    }
  }

  lemma {:induction false} LeadingBlank(t: string)
    requires t == "" || !IsBlank(t[0])
    ensures TrimLeft(" " + Collapse(t)) == Collapse(t)
  {
    assert (" " + Collapse(t))[1..] == Collapse(t);
  }

  /* ---------- what the code removes besides ---------- */

  /** The characters that str.strip() removes. */
  const WHITE_SPACE := {
    0x09, 0x0A, 0x0B, 0x0C, 0x0D, 0x1C, 0x1D, 0x1E, 0x1F, 0x20, 0x85, 0xA0, 0x1680,
    0x2000, 0x2001, 0x2002, 0x2003, 0x2004, 0x2005, 0x2006, 0x2007, 0x2008, 0x2009, 0x200A,
    0x2028, 0x2029, 0x202F, 0x205F, 0x3000
  }

  /** The text between the first and the last character that is no white space. */
  ghost predicate Stripped(s: string, t: string) {
    exists i, j :: 0 <= i <= j <= |s| && t == s[i..j]
      && (forall k :: 0 <= k < i || j <= k < |s| ==> s[k] as int in WHITE_SPACE)
      && (t != "" ==> s[i] as int !in WHITE_SPACE && s[j - 1] as int !in WHITE_SPACE)
  }

  lemma {:induction false} StripLeftFrom(s: string) returns (i: nat)
    ensures i <= |s| && StripLeft(s) == s[i..] && forall k :: 0 <= k < i ==> IsSpace(s[k])
  {
    if s == "" || !IsSpace(s[0]) {
      i := 0;
    } else {
      i := StripLeftFrom(s[1..]);
      i := i + 1;
    }
  }

  lemma {:induction false} StripRightTo(s: string) returns (j: nat)
    ensures j <= |s| && StripRight(s) == s[..j] && forall k :: j <= k < |s| ==> IsSpace(s[k])
  {
    if s == "" || !IsSpace(s[|s| - 1]) {
      j := |s|;
    } else {
      j := StripRightTo(s[..|s| - 1]);
    }
  }

  lemma {:induction false} SpaceIsListed(c: char)
    ensures IsSpace(c) <==> c as int in WHITE_SPACE
  {
  }

  lemma {:induction false} StripIsStripped(s: string)
    ensures Stripped(s, StripRight(StripLeft(s)))
  {
    var i := StripLeftFrom(s);
    var j := StripRightTo(s[i..]);
    var t := StripRight(StripLeft(s));
    assert t == s[i..][..j] == s[i..i + j];
    forall k | 0 <= k < i || i + j <= k < |s| ensures s[k] as int in WHITE_SPACE {
      SpaceIsListed(s[k]);
      if k >= i { assert s[i..][k - i] == s[k]; }
    }
    if t != "" {
      SpaceIsListed(s[i]);
      SpaceIsListed(s[i + j - 1]);
      assert t[0] == s[i] && t[|t| - 1] == s[i + j - 1] && StripLeft(s)[0] == s[i];
    }
  }

  /** The code's caveat is the words joined by single spaces, stripped of white space. */
  lemma {:induction false} NormalizeStripsWords(caveat: string)
    ensures Stripped(Spaced(Words(caveat)), NormalizeWhitespace(caveat))
  {
    var s := Spaced(Words(caveat));
    RuleJoinsWords(caveat);
    NormalizeStripsTheRule(caveat);
    StripIsStripped(s);
  }
}
