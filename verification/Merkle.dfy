/** The self-contained reference Merkle tree of the compatibility vectors:
    bottom-up levels, odd levels padded by repeating the last node, sibling paths
    with a side per step, and their replay.  SHA-256 is a function parameter. */
module Merkle {
  import opened Common

  type Hash = Bytes -> Bytes

  /** One proof step: the sibling digest and the side it stands on. */
  datatype Step = Step(sibling: Bytes, side: char)

  datatype Error = NoLeaves | IndexError

  /* ---------- the tree ---------- */

  function Pad(level: seq<Bytes>): (padded: seq<Bytes>)
    ensures |level| > 0 ==> |padded| % 2 == 0
    ensures level <= padded && |padded| <= |level| + 1
  {
    if |level| % 2 == 1 then level + [level[|level| - 1]] else level
  }

  /** The parents of an even level. */
  function Parents(h: Hash, level: seq<Bytes>): (parents: seq<Bytes>)
    requires |level| % 2 == 0
    ensures |parents| == |level| / 2
  {
    if level == [] then [] else [h(level[0] + level[1])] + Parents(h, level[2..])
  }

  lemma {:induction false} ParentAt(h: Hash, level: seq<Bytes>, j: nat)
    requires |level| % 2 == 0 && 2 * j < |level|
    ensures Parents(h, level)[j] == h(level[2 * j] + level[2 * j + 1])
  {
    if j > 0 { ParentAt(h, level[2..], j - 1); }
  }

  function Next(h: Hash, level: seq<Bytes>): (above: seq<Bytes>)
    requires |level| > 0
    ensures |above| == (|level| + 1) / 2
  {
    Parents(h, Pad(level))
  }

  function Levels(h: Hash, level: seq<Bytes>): (levels: seq<seq<Bytes>>)
    requires |level| > 0
    ensures |levels| > 0
    decreases |level|
  {
    if |level| == 1 then [level] else [Pad(level)] + Levels(h, Next(h, level))
  }

  function Root(h: Hash, level: seq<Bytes>): Bytes
    requires |level| > 0
    decreases |level|
  {
    if |level| == 1 then level[0] else Root(h, Next(h, level))
  }

  lemma {:induction false} AppendLevel(done: seq<seq<Bytes>>, level: seq<Bytes>, rest: seq<seq<Bytes>>)
    ensures done + ([level] + rest) == (done + [level]) + rest
  {
  }

  method BuildMerkleTree(h: Hash, leaves: seq<Bytes>)
    returns (r: Result<(Bytes, seq<seq<Bytes>>), Error>)
    ensures leaves == [] ==> r == Err(NoLeaves)
    ensures leaves != [] ==> r == Ok((Root(h, leaves), Levels(h, leaves)))
  {
    if leaves == [] { return Err(NoLeaves); }
    var levels := [leaves];
    var current := leaves;
    while |current| > 1
      invariant |current| > 0 && |levels| > 0
      invariant levels[|levels| - 1] == current
      invariant levels[..|levels| - 1] + Levels(h, current) == Levels(h, leaves)
      invariant Root(h, current) == Root(h, leaves)
      decreases |current|
    {
      ghost var before, done := current, levels[..|levels| - 1];
      if |current| % 2 == 1 {
        current := current + [current[|current| - 1]];
      }
      levels := levels[|levels| - 1 := current];
      assert levels == done + [Pad(before)];
      current := Parents(h, current);
      levels := levels + [current];
      AppendLevel(done, Pad(before), Levels(h, current));
      assert levels[..|levels| - 1] == done + [Pad(before)];
    }
    assert levels == levels[..|levels| - 1] + [current];
    return Ok((current[0], levels));
  }

  /* ---------- sibling paths ---------- */

  /** idx ^ 1 on Python integers of either sign. */
  function Xor1(i: int): int {
    if i % 2 == 0 then i + 1 else i - 1
  }

  /** Python indexing: a negative index counts from the end. */
  function At(level: seq<Bytes>, i: int): Option<Bytes> {
    if 0 <= i < |level| then Some(level[i])
    else if -|level| <= i < 0 then Some(level[|level| + i])
    else None
  }

  function SiblingIndex(idx: int, width: nat): int {
    if Xor1(idx) < width then Xor1(idx) else idx
  }

  function SideOf(sib: int, idx: int): char {
    if sib < idx then 'L' else 'R'
  }

  /** What the proof loop collects from the levels below the last one. */
  function PathThrough(levels: seq<seq<Bytes>>, idx: int): Result<seq<Step>, Error> {
    if |levels| <= 1 then Ok([]) else
      var sib := SiblingIndex(idx, |levels[0]|);
      match At(levels[0], sib)
      case None => Err(IndexError)
      case Some(digest) =>
        match PathThrough(levels[1..], idx / 2)
        case Err(e) => Err(e)
        case Ok(rest) => Ok([Step(digest, SideOf(sib, idx))] + rest)
  }

  function Prepend(done: seq<Step>, rest: Result<seq<Step>, Error>): Result<seq<Step>, Error> {
    if rest.Ok? then Ok(done + rest.value) else rest
  }

  lemma {:induction false} PathThroughNext(levels: seq<seq<Bytes>>, idx: int, k: nat, done: seq<Step>)
    requires k + 1 < |levels|
    ensures var sib := SiblingIndex(idx, |levels[k]|);
            Prepend(done, PathThrough(levels[k..], idx)) ==
              match At(levels[k], sib)
              case None => Err(IndexError)
              case Some(digest) =>
                Prepend(done + [Step(digest, SideOf(sib, idx))], PathThrough(levels[k + 1..], idx / 2))
  {
    assert levels[k..][0] == levels[k] && levels[k..][1..] == levels[k + 1..];
    var sib := SiblingIndex(idx, |levels[k]|);
    var rest := PathThrough(levels[k + 1..], idx / 2);
    if At(levels[k], sib).Some? && rest.Ok? {
      var step := Step(At(levels[k], sib).value, SideOf(sib, idx));
      assert done + ([step] + rest.value) == (done + [step]) + rest.value;
    }
  }

  method MerkleProof(h: Hash, leaves: seq<Bytes>, leafIndex: int)
    returns (r: Result<seq<Step>, Error>)
    ensures leaves == [] ==> r == Err(NoLeaves)
    ensures leaves != [] ==> r == PathThrough(Levels(h, leaves), leafIndex)
  {
    var tree := BuildMerkleTree(h, leaves);
    if tree.Err? { return Err(tree.error); }
    var levels := tree.value.1;
    var out, idx, k := [], leafIndex, 0;
    assert levels[0..] == levels && forall r: seq<Step> :: [] + r == r;
    while k < |levels| - 1
      invariant 0 <= k <= |levels| - 1
      invariant PathThrough(levels, leafIndex) == Prepend(out, PathThrough(levels[k..], idx))
    {
      var level := levels[k];
      var sib := SiblingIndex(idx, |level|);
      var digest := At(level, sib);
      PathThroughNext(levels, idx, k, out);
      if digest.None? { return Err(IndexError); }
      out := out + [Step(digest.value, SideOf(sib, idx))];
      idx := idx / 2;
      k := k + 1;
    }
    assert out + [] == out;
    return Ok(out);
  }

  /** The sibling path of leaf i: at every level the other child of its parent. */
  function Path(h: Hash, level: seq<Bytes>, i: nat): seq<Step>
    requires i < |Pad(level)| && |level| > 0
    decreases |level|
  {
    if |level| == 1 then [] else
      [StepAt(level, i)] + Path(h, Next(h, level), i / 2)
  }

  function StepAt(level: seq<Bytes>, i: nat): Step
    requires i < |Pad(level)|
  {
    Step(Pad(level)[Xor1(i)], if i % 2 == 1 then 'L' else 'R')
  }

  /* ---------- replay ---------- */

  /** The digest a proof leads to; None for a side that is neither L nor R. */
  function Replay(h: Hash, current: Bytes, proof: seq<Step>): Option<Bytes>
    decreases |proof|
  {
    if proof == [] then Some(current)
    else if proof[0].side == 'L' then Replay(h, h(proof[0].sibling + current), proof[1..])
    else if proof[0].side == 'R' then Replay(h, h(current + proof[0].sibling), proof[1..])
    else None
  }

  predicate Verifies(h: Hash, leaf: Bytes, proof: seq<Step>, root: Bytes) {
    Replay(h, leaf, proof) == Some(root)
  }

  method VerifyMerkleProof(h: Hash, leafHash: Bytes, proof: seq<Step>, root: Bytes)
    returns (ok: bool)
    ensures ok == Verifies(h, leafHash, proof, root)
  {
    var current := leafHash;
    for k := 0 to |proof|
      invariant Replay(h, leafHash, proof) == Replay(h, current, proof[k..])
    {
      assert proof[k..][1..] == proof[k + 1..];
      if proof[k].side == 'L' {
        current := h(proof[k].sibling + current);
      } else if proof[k].side == 'R' {
        current := h(current + proof[k].sibling);
      } else {
        return false;
      }
    }
    return current == root;
  }

  /* ---------- completeness ---------- */

  lemma {:induction false} FirstStepIsSibling(level: seq<Bytes>, above: seq<seq<Bytes>>, i: nat)
    requires |level| > 1 && i < |Pad(level)| && |above| > 0
    ensures Xor1(i) < |Pad(level)|
    ensures PathThrough([Pad(level)] + above, i) == Prepend([StepAt(level, i)], PathThrough(above, i / 2))
  {
    assert ([Pad(level)] + above)[1..] == above;
  }

  /** For every index into the padded leaf level the proof loop succeeds and collects
      exactly the sibling path: the fall-back to the node itself is never taken. */
  lemma {:induction false} ProofIsSiblingPath(h: Hash, level: seq<Bytes>, i: nat)
    requires |level| > 0 && i < |Pad(level)|
    ensures PathThrough(Levels(h, level), i) == Ok(Path(h, level, i))
    ensures |level| > 1 ==> Xor1(i) < |Levels(h, level)[0]|
    decreases |level|
  {
    if |level| > 1 {
      var above := Levels(h, Next(h, level));
      FirstStepIsSibling(level, above, i);
      ProofIsSiblingPath(h, Next(h, level), i / 2);
    }
  }

  /** Outside the padded level, on either side, the loop ends in an IndexError; the loop of
      a single leaf does nothing, so it accepts every index. */
  lemma {:induction false} ProofDefinedExactlyOnPaddedLevel(h: Hash, level: seq<Bytes>, i: int)
    requires |level| > 0
    ensures PathThrough(Levels(h, level), i).Ok? <==> |level| == 1 || -|Pad(level)| <= i < |Pad(level)|
    ensures |level| == 1 ==> PathThrough(Levels(h, level), i) == Ok([])
    decreases |level|
  {
    if |level| > 1 {
      assert Levels(h, level)[1..] == Levels(h, Next(h, level));
      SiblingInRange(level, i);
      ProofDefinedExactlyOnPaddedLevel(h, Next(h, level), i / 2);
    }
  }

  lemma {:induction false} SiblingInRange(level: seq<Bytes>, i: int)
    requires |level| > 0
    ensures At(Pad(level), SiblingIndex(i, |Pad(level)|)).Some? <==> -|Pad(level)| <= i < |Pad(level)|
  {
  }

  function Pow2(k: nat): (p: nat)
    ensures p > 0
  {
    if k == 0 then 1 else 2 * Pow2(k - 1)
  }

  /** The steps from a list of this length to its root. */
  function Depth(width: nat): nat
    requires width > 0
  {
    if width == 1 then 0 else 1 + Depth((width + 1) / 2)
  }

  lemma {:induction false} DepthIsLeastPower(width: nat)
    requires width > 0
    ensures Pow2(Depth(width)) >= width
    ensures forall k: nat :: k < Depth(width) ==> Pow2(k) < width
  {
    if width > 1 {
      var above := (width + 1) / 2;
      DepthIsLeastPower(above);
      forall k: nat | k < Depth(width) ensures Pow2(k) < width {
        if k > 0 { assert Pow2(k - 1) < above; }
      }
    }
  }

  lemma {:induction false} PathHasDepth(h: Hash, level: seq<Bytes>, i: nat)
    requires |level| > 0 && i < |Pad(level)|
    ensures |Path(h, level, i)| == Depth(|level|)
    decreases |level|
  {
    if |level| > 1 { PathHasDepth(h, Next(h, level), i / 2); }
  }

  /** The proof length is the least k with 2^k at least the number of leaves. */
  lemma {:induction false} ProofLengthIsLeastPower(h: Hash, level: seq<Bytes>, i: nat)
    requires |level| > 0 && i < |Pad(level)|
    ensures Pow2(|Path(h, level, i)|) >= |level|
    ensures forall k: nat :: k < |Path(h, level, i)| ==> Pow2(k) < |level|
  {
    PathHasDepth(h, level, i);
    DepthIsLeastPower(|level|);
  }

  /** The sides read as bits, lowest first, with L for one. */
  function SideBits(proof: seq<Step>): nat {
    if proof == [] then 0 else (if proof[0].side == 'L' then 1 else 0) + 2 * SideBits(proof[1..])
  }

  /** The sides of a proof spell the index of the leaf. */
  lemma {:induction false} SidesSpellIndex(h: Hash, level: seq<Bytes>, i: nat)
    requires |level| > 0 && i < |level|
    ensures SideBits(Path(h, level, i)) == i
    decreases |level|
  {
    if |level| > 1 {
      assert Path(h, level, i)[1..] == Path(h, Next(h, level), i / 2);
      SidesSpellIndex(h, Next(h, level), i / 2);
    }
  }
}
