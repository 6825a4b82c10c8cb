/** The cache key of a signature verification: five texts joined by NUL and hashed.
    When the joined text determines the five, and how it can be split differently. */
module SignatureKeys {
  import opened Common
  import opened Json

  const NUL := '\U{0000}'

  predicate NulFree(s: string) { forall i | 0 <= i < |s| :: s[i] != NUL }

  function HexText(bytes: Bytes): string {
    if bytes == [] then "" else [HEX_DIGITS[bytes[0] / 16], HEX_DIGITS[bytes[0] % 16]] + HexText(bytes[1..])
  }

  /** The NUL-joined text. */
  function Joined(body: string, alg: string, kid: string, signature: string, pub: string): string {
    body + ([NUL] + (Middle(alg, kid, signature) + ([NUL] + pub)))
  }

  function Middle(alg: string, kid: string, signature: string): string {
    alg + ([NUL] + (kid + ([NUL] + signature)))
  }

  /* ---------- hexadecimal texts ---------- */

  lemma {:induction false} HexDigitsDiffer(i: nat, j: nat)
    requires i < 16 && j < 16
    ensures HEX_DIGITS[i] == HEX_DIGITS[j] <==> i == j
    ensures HEX_DIGITS[i] != NUL
  {
    assert HEX_DIGITS[i] as int == if i < 10 then '0' as int + i else 'a' as int + i - 10;
    assert HEX_DIGITS[j] as int == if j < 10 then '0' as int + j else 'a' as int + j - 10;
  }

  lemma {:induction false} HexInjective(a: Bytes, b: Bytes)
    requires HexText(a) == HexText(b)
    ensures a == b
  {
    if a != [] && b != [] {
      var s, t := HexText(a), HexText(b);
      assert s[0] == t[0] && s[1] == t[1] && s[2..] == t[2..];
      HexDigitsDiffer(a[0] / 16, b[0] / 16);
      HexDigitsDiffer(a[0] % 16, b[0] % 16);
      assert s[2..] == HexText(a[1..]) && t[2..] == HexText(b[1..]);
      HexInjective(a[1..], b[1..]);
      assert a == [a[0]] + a[1..] && b == [b[0]] + b[1..];
    }
  }

  lemma {:induction false} HexNulFree(a: Bytes)
    ensures NulFree(HexText(a))
  {
    if a != [] {
      HexDigitsDiffer(a[0] / 16, a[0] % 16);
      HexDigitsDiffer(a[0] % 16, a[0] / 16);
      HexNulFree(a[1..]);
    }
  }

  /* ---------- cutting at the first and at the last NUL ---------- */

  lemma {:induction false} FirstCut(a: string, x: string, b: string, y: string)
    requires NulFree(a) && NulFree(b) && a + ([NUL] + x) == b + ([NUL] + y)
    ensures a == b && x == y
    decreases |a|
  {
    var s, t := a + ([NUL] + x), b + ([NUL] + y);
    assert s[0] == (if a == "" then NUL else a[0]) && t[0] == (if b == "" then NUL else b[0]);
    if a == "" {
      assert x == s[1..] && y == t[1..];
    } else {
      assert s[1..] == a[1..] + ([NUL] + x) && t[1..] == b[1..] + ([NUL] + y);
      FirstCut(a[1..], x, b[1..], y);
      assert a == [a[0]] + a[1..] && b == [b[0]] + b[1..];
    }
  }

  lemma {:induction false} LastCut(x: string, a: string, y: string, b: string)
    requires NulFree(a) && NulFree(b) && x + ([NUL] + a) == y + ([NUL] + b)
    ensures a == b && x == y
    decreases |a|
  {
    var s, t := x + ([NUL] + a), y + ([NUL] + b);
    var n := |s| - 1;
    assert s[n] == (if a == "" then NUL else a[|a| - 1]) && t[n] == (if b == "" then NUL else b[|b| - 1]);
    if a == "" {
      assert x == s[..n] && y == t[..n];
    } else {
      var a', b' := a[..|a| - 1], b[..|b| - 1];
      assert s[..n] == x + ([NUL] + a') && t[..n] == y + ([NUL] + b');
      LastCut(x, a', y, b');
      assert a == a' + [a[|a| - 1]] && b == b' + [b[|b| - 1]];
    }
  }

  function FirstNul(t: string): (i: nat)
    requires !NulFree(t)
    ensures i < |t| && t[i] == NUL && NulFree(t[..i])
    ensures forall k :: 0 <= k < |t| && t[k] == NUL ==> i <= k
  {
    if t[0] == NUL then 0
    else
      assert forall k :: 1 <= k < |t| ==> t[1..][k - 1] == t[k];
      assert !NulFree(t[1..]);
      var i := FirstNul(t[1..]);
      assert t[..i + 1] == [t[0]] + t[1..][..i];
      i + 1
  }

  function LastNul(t: string): (i: nat)
    requires !NulFree(t)
    ensures i < |t| && t[i] == NUL && NulFree(t[i + 1..])
    ensures forall k :: 0 <= k < |t| && t[k] == NUL ==> k <= i
  {
    var n := |t| - 1;
    if t[n] == NUL then n
    else
      assert forall k :: 0 <= k < n ==> t[..n][k] == t[k];
      assert !NulFree(t[..n]);
      var i := LastNul(t[..n]);
      assert t[i + 1..] == t[..n][i + 1..] + [t[n]];
      i
  }

  /* ---------- the five texts from the joined one ---------- */

  datatype Block = Block(alg: string, kid: string, signature: string)

  lemma {:induction false} NulsOfMiddle(a: string, k: string, s: string)
    ensures var t := Middle(a, k, s);
            |t| == |a| + |k| + |s| + 2 && t[|a|] == NUL && t[|a| + 1 + |k|] == NUL
  {
  }

  lemma {:induction false} TwoNuls(b: Block)
    ensures var t := Middle(b.alg, b.kid, b.signature); !NulFree(t) && FirstNul(t) < LastNul(t)
  {
    NulsOfMiddle(b.alg, b.kid, b.signature);
  }

  /** The block whose first text ends at the first NUL and whose last starts after the
      last one: the only split in which these two are NUL-free. */
  function Resplit(b: Block): (r: Block)
    ensures NulFree(r.alg) && NulFree(r.signature)
    ensures Middle(r.alg, r.kid, r.signature) == Middle(b.alg, b.kid, b.signature)
  {
    var t := Middle(b.alg, b.kid, b.signature);
    TwoNuls(b);
    var i, j := FirstNul(t), LastNul(t);
    CutTwice(t, i, j);
    Block(t[..i], t[i + 1..j], t[j + 1..])
  }

  lemma {:induction false} CutTwice(t: string, i: nat, j: nat)
    requires i < j < |t| && t[i] == NUL && t[j] == NUL
    ensures Middle(t[..i], t[i + 1..j], t[j + 1..]) == t
  {
    assert [NUL] + t[j + 1..] == t[j..];
    assert t[i + 1..j] + t[j..] == t[i + 1..];
    assert [NUL] + t[i + 1..] == t[i..];
  }

  lemma {:induction false} SplitUnique(b: Block, c: Block)
    requires NulFree(b.alg) && NulFree(b.signature) && NulFree(c.alg) && NulFree(c.signature)
    requires Middle(b.alg, b.kid, b.signature) == Middle(c.alg, c.kid, c.signature)
    ensures b == c
  {
    FirstCut(b.alg, b.kid + ([NUL] + b.signature), c.alg, c.kid + ([NUL] + c.signature));
    LastCut(b.kid, b.signature, c.kid, c.signature);
  }

  /** Joined texts are equal iff the ends are and the blocks split alike. */
  lemma {:induction false} JoinedEqualIff(body: string, b: Block, pub: string, body': string, b': Block, pub': string)
    requires NulFree(body) && NulFree(body') && NulFree(pub) && NulFree(pub')
    ensures Joined(body, b.alg, b.kid, b.signature, pub) == Joined(body', b'.alg, b'.kid, b'.signature, pub')
            <==> body == body' && pub == pub' && Resplit(b) == Resplit(b')
  {
    var m, m' := Middle(b.alg, b.kid, b.signature), Middle(b'.alg, b'.kid, b'.signature);
    if Joined(body, b.alg, b.kid, b.signature, pub) == Joined(body', b'.alg, b'.kid, b'.signature, pub') {
      FirstCut(body, m + ([NUL] + pub), body', m' + ([NUL] + pub'));
      LastCut(m, pub, m', pub');
      SplitUnique(Resplit(b), Resplit(b'));
    }
  }
}
