/** Which Merkle proofs verify, and what a root and a verifying proof bind: leaves and
    siblings, or else two different messages that were hashed have the same hash. */
module MerkleBinding {
  import opened Common
  import opened Merkle

  /* ---------- collisions ---------- */

  predicate IsDigest(d: Bytes) { |d| == 32 }

  predicate AllDigests(level: seq<Bytes>) { forall i :: 0 <= i < |level| ==> IsDigest(level[i]) }

  predicate DigestSteps(proof: seq<Step>) { forall k :: 0 <= k < |proof| ==> IsDigest(proof[k].sibling) }

  /** All that is asked of SHA-256: its results are 32 bytes long. */
  ghost predicate DigestHash(h: Hash) { forall m :: IsDigest(h(m)) }

  /** The messages hashed for the parents of an even level. */
  function Pairs(level: seq<Bytes>): (pairs: seq<Bytes>)
    requires |level| % 2 == 0
    ensures |pairs| == |level| / 2
    ensures forall j :: 0 <= j < |pairs| ==> pairs[j] == level[2 * j] + level[2 * j + 1]
  {
    seq(|level| / 2, j requires 0 <= j < |level| / 2 => level[2 * j] + level[2 * j + 1])
  }

  /** The messages hashed when the tree is built. */
  function TreeMessages(h: Hash, level: seq<Bytes>): seq<Bytes>
    requires |level| > 0
    decreases |level|
  {
    if |level| == 1 then [] else Pairs(Pad(level)) + TreeMessages(h, Next(h, level))
  }

  /** The message hashed for one proof step. */
  function Joined(x: Bytes, step: Step): Bytes {
    if step.side == 'L' then step.sibling + x else x + step.sibling
  }

  /** The messages hashed when the proof is replayed. */
  function ReplayMessages(h: Hash, x: Bytes, proof: seq<Step>): seq<Bytes>
    decreases |proof|
  {
    if proof == [] then []
    else [Joined(x, proof[0])] + ReplayMessages(h, h(Joined(x, proof[0])), proof[1..])
  }

  /** Two different pairs of digests, one in each list, with the same hash. */
  ghost predicate Collision(h: Hash, ms: seq<Bytes>, ns: seq<Bytes>) {
    exists m, n :: m in ms && n in ns && CollidingPairs(h, m, n)
  }

  predicate CollidingPairs(h: Hash, m: Bytes, n: Bytes) {
    |m| == 64 && |n| == 64 && m != n && h(m) == h(n)
  }

  lemma {:induction false} EqualOrColliding(h: Hash, a: Bytes, b: Bytes, c: Bytes, d: Bytes)
    requires IsDigest(a) && IsDigest(b) && IsDigest(c) && IsDigest(d)
    requires h(a + b) == h(c + d)
    ensures (a == c && b == d) || CollidingPairs(h, a + b, c + d)
  {
    if a + b == c + d {
      assert a == (a + b)[..32] && c == (c + d)[..32] && b == (a + b)[32..] && d == (c + d)[32..];
    }
  }

  /** Two steps to one parent, from the same side. */
  lemma {:induction false} StepBinds(h: Hash, x: Bytes, p: Step, y: Bytes, q: Step)
    requires IsDigest(x) && IsDigest(y) && IsDigest(p.sibling) && IsDigest(q.sibling)
    requires p.side == q.side && h(Joined(x, p)) == h(Joined(y, q))
    ensures (x == y && p == q) || CollidingPairs(h, Joined(x, p), Joined(y, q))
  {
    if p.side == 'L' {
      EqualOrColliding(h, p.sibling, x, q.sibling, y);
    } else {
      EqualOrColliding(h, x, p.sibling, y, q.sibling);
    }
  }

  lemma {:induction false} NextOfDigests(h: Hash, level: seq<Bytes>)
    requires DigestHash(h) && |level| > 0
    ensures AllDigests(Next(h, level))
  {
    forall j | 0 <= j < |Next(h, level)| ensures IsDigest(Next(h, level)[j]) {
      ParentAt(h, Pad(level), j);
    }
  }

  lemma {:induction false} ParentBinds(h: Hash, px: seq<Bytes>, py: seq<Bytes>, j: nat)
    requires AllDigests(px) && AllDigests(py) && |px| == |py| && |px| % 2 == 0 && 2 * j < |px|
    requires Parents(h, px) == Parents(h, py)
    ensures (px[2 * j] == py[2 * j] && px[2 * j + 1] == py[2 * j + 1]) || Collision(h, Pairs(px), Pairs(py))
  {
    ParentAt(h, px, j);
    ParentAt(h, py, j);
    EqualOrColliding(h, px[2 * j], px[2 * j + 1], py[2 * j], py[2 * j + 1]);
    assert Pairs(px)[j] in Pairs(px) && Pairs(py)[j] in Pairs(py);
  }

  /** One level: equal parents have equal children, or two of the hashed pairs collide. */
  lemma {:induction false} NextBinds(h: Hash, xs: seq<Bytes>, ys: seq<Bytes>)
    requires AllDigests(xs) && AllDigests(ys) && |xs| == |ys| > 0
    requires Next(h, xs) == Next(h, ys)
    ensures xs == ys || Collision(h, Pairs(Pad(xs)), Pairs(Pad(ys)))
  {
    if xs != ys {
      var i :| 0 <= i < |xs| && xs[i] != ys[i];
      assert i == 2 * (i / 2) || i == 2 * (i / 2) + 1;
      ParentBinds(h, Pad(xs), Pad(ys), i / 2);
    }
  }

  /** Two leaf lists of one length with one root are equal, or two different pairs of
      digests that were hashed while building the two trees collide. */
  lemma {:induction false} RootBindsLeaves(h: Hash, xs: seq<Bytes>, ys: seq<Bytes>)
    requires DigestHash(h) && AllDigests(xs) && AllDigests(ys) && |xs| == |ys| > 0
    requires Root(h, xs) == Root(h, ys)
    ensures xs == ys || Collision(h, TreeMessages(h, xs), TreeMessages(h, ys))
    decreases |xs|
  {
    if |xs| > 1 {
      NextOfDigests(h, xs);
      NextOfDigests(h, ys);
      RootBindsLeaves(h, Next(h, xs), Next(h, ys));
      if Next(h, xs) == Next(h, ys) { NextBinds(h, xs, ys); }
    }
  }

  /** The length is part of the hypothesis for a reason: repeating the last leaf of an
      odd list, as the padding does, leaves the root unchanged. */
  lemma {:induction false} RepeatedLastLeafKeepsRoot(h: Hash, xs: seq<Bytes>)
    requires |xs| > 1 && |xs| % 2 == 1
    ensures Root(h, xs) == Root(h, xs + [xs[|xs| - 1]])
  {
    assert Pad(xs + [xs[|xs| - 1]]) == Pad(xs);
  }

  predicate SameSides(p: seq<Step>, q: seq<Step>) {
    |p| == |q| && forall k :: 0 <= k < |p| ==> p[k].side == q[k].side
  }

  /** Two replays with the same sides and the same end start at the same digest and see the
      same siblings, or two different pairs that they hashed collide. */
  lemma {:induction false} ReplayBinds(h: Hash, x: Bytes, p: seq<Step>, y: Bytes, q: seq<Step>)
    requires DigestHash(h) && IsDigest(x) && IsDigest(y) && DigestSteps(p) && DigestSteps(q)
    requires SameSides(p, q) && Replay(h, x, p).Some? && Replay(h, x, p) == Replay(h, y, q)
    ensures (x == y && p == q) || Collision(h, ReplayMessages(h, x, p), ReplayMessages(h, y, q))
    decreases |p|
  {
    if p != [] {
      var m, n := Joined(x, p[0]), Joined(y, q[0]);
      ReplayBinds(h, h(m), p[1..], h(n), q[1..]);
      if h(m) == h(n) { StepBinds(h, x, p[0], y, q[0]); }
      assert p == [p[0]] + p[1..] && q == [q[0]] + q[1..];
      assert m in ReplayMessages(h, x, p) && n in ReplayMessages(h, y, q);
    }
  }

  /* ---------- what a verifying proof opens ---------- */

  /** The node that the sides spelling i lead to in a list of this length: past the end it
      is a repetition of the last node of some level. */
  function Spelled(width: nat, i: nat): (node: nat)
    requires width > 0
    ensures node < width
    ensures i < width ==> node == i
    decreases width, 0
  {
    if width == 1 then 0 else if PaddedNode(width, i) < width then PaddedNode(width, i) else width - 1
  }

  /** The same node in the padded list, where it has a parent. */
  function PaddedNode(width: nat, i: nat): (node: nat)
    requires width > 1
    ensures node < width + width % 2
    ensures i < width + width % 2 ==> node == i
    decreases width - 1, 1
  {
    2 * Spelled((width + 1) / 2, i / 2) + i % 2
  }

  lemma {:induction false} ParentOfPaddedNode(width: nat, i: nat)
    requires width > 1
    ensures PaddedNode(width, i) / 2 == Spelled((width + 1) / 2, i / 2) && PaddedNode(width, i) % 2 == i % 2
  {
  }

  /** The siblings on the way that the sides spelling i describe. */
  function Opening(h: Hash, level: seq<Bytes>, i: nat): seq<Step>
    requires |level| > 0
    decreases |level|
  {
    if |level| == 1 then [] else [StepAt(level, PaddedNode(|level|, i))] + Opening(h, Next(h, level), i / 2)
  }

  lemma {:induction false} PaddedNodeIsSpelled(level: seq<Bytes>, i: nat)
    requires |level| > 1
    ensures Pad(level)[PaddedNode(|level|, i)] == level[Spelled(|level|, i)]
  {
  }

  /** The first step of an opening: the node in the padded level, its parent, its sibling. */
  lemma {:induction false} OpeningHead(h: Hash, level: seq<Bytes>, i: nat) returns (node: nat)
    requires |level| > 1
    ensures node < |Pad(level)| && node % 2 == i % 2
    ensures level[Spelled(|level|, i)] == Pad(level)[node]
    ensures Next(h, level)[Spelled(|Next(h, level)|, i / 2)] == Next(h, level)[node / 2]
    ensures Opening(h, level, i) == [StepAt(level, node)] + Opening(h, Next(h, level), i / 2)
  {
    node := PaddedNode(|level|, i);
    ParentOfPaddedNode(|level|, i);
    PaddedNodeIsSpelled(level, i);
  }

  /** A node of a padded level and its sibling are the pair hashed for their parent. */
  lemma {:induction false} ParentOfStep(h: Hash, level: seq<Bytes>, node: nat)
    requires |level| > 1 && node < |Pad(level)|
    ensures var pair := Joined(Pad(level)[node], StepAt(level, node));
            pair in Pairs(Pad(level)) && h(pair) == Next(h, level)[node / 2]
  {
    ParentAt(h, Pad(level), node / 2);
    assert Pairs(Pad(level))[node / 2] in Pairs(Pad(level));
  }

  /** For the index of a leaf the opening is its sibling path. */
  lemma {:induction false} OpeningIsPath(h: Hash, level: seq<Bytes>, i: nat)
    requires |level| > 0 && i < |Pad(level)|
    ensures Opening(h, level, i) == Path(h, level, i)
    decreases |level|
  {
    if |level| > 1 { OpeningIsPath(h, Next(h, level), i / 2); }
  }

  lemma {:induction false} Halves(i: nat, p: nat)
    requires i < 2 * p
    ensures i / 2 < p && i == 2 * (i / 2) + i % 2
  {
  }

  lemma {:induction false} OpeningSpells(h: Hash, level: seq<Bytes>, i: nat)
    requires |level| > 0 && i < Pow2(Depth(|level|))
    ensures |Opening(h, level, i)| == Depth(|level|) && SideBits(Opening(h, level, i)) == i
    decreases |level|
  {
    if |level| > 1 {
      Halves(i, Pow2(Depth(|Next(h, level)|)));
      OpeningSpells(h, Next(h, level), i / 2);
      var node := OpeningHead(h, level, i);
      SideBitsCons(StepAt(level, node), Opening(h, Next(h, level), i / 2));
    }
  }

  lemma {:induction false} SideBitsCons(step: Step, rest: seq<Step>)
    ensures SideBits([step] + rest) == (if step.side == 'L' then 1 else 0) + 2 * SideBits(rest)
  {
    assert ([step] + rest)[1..] == rest;
  }

  lemma {:induction false} ReplayCons(h: Hash, x: Bytes, step: Step, rest: seq<Step>)
    requires step.side == 'L' || step.side == 'R'
    ensures Replay(h, x, [step] + rest) == Replay(h, h(Joined(x, step)), rest)
  {
    assert ([step] + rest)[1..] == rest;
  }

  /** Every opening verifies. */
  lemma {:induction false} OpeningVerifies(h: Hash, level: seq<Bytes>, i: nat)
    requires |level| > 0
    ensures Verifies(h, level[Spelled(|level|, i)], Opening(h, level, i), Root(h, level))
    decreases |level|
  {
    if |level| > 1 {
      var node := OpeningHead(h, level, i);
      OpeningVerifies(h, Next(h, level), i / 2);
      ParentOfStep(h, level, node);
      ReplayCons(h, Pad(level)[node], StepAt(level, node), Opening(h, Next(h, level), i / 2));
    }
  }

  /** Every generated proof verifies against the root. */
  lemma {:induction false} ProofVerifies(h: Hash, level: seq<Bytes>, i: nat)
    requires |level| > 0 && i < |level|
    ensures Verifies(h, level[i], Path(h, level, i), Root(h, level))
  {
    OpeningVerifies(h, level, i);
    OpeningIsPath(h, level, i);
  }

  /** One step to the parent of a node: it carries the node and its sibling, or collides. */
  lemma {:induction false} StepOpens(h: Hash, level: seq<Bytes>, x: Bytes, step: Step, node: nat)
    requires |level| > 1 && node < |Pad(level)| && AllDigests(level) && IsDigest(x) && IsDigest(step.sibling)
    requires step.side == if node % 2 == 1 then 'L' else 'R'
    requires h(Joined(x, step)) == Next(h, level)[node / 2]
    ensures || (x == Pad(level)[node] && step == StepAt(level, node))
            || Collision(h, [Joined(x, step)], Pairs(Pad(level)))
  {
    ParentOfStep(h, level, node);
    StepBinds(h, x, step, Pad(level)[node], StepAt(level, node));
    assert Joined(x, step) in [Joined(x, step)];
  }

  lemma {:induction false} FirstStepOpens(h: Hash, level: seq<Bytes>, x: Bytes, proof: seq<Step>, i: nat)
    requires |level| > 1 && AllDigests(level) && IsDigest(x) && proof != [] && IsDigest(proof[0].sibling)
    requires proof[0].side == if i % 2 == 1 then 'L' else 'R'
    requires proof[1..] == Opening(h, Next(h, level), i / 2)
    requires h(Joined(x, proof[0])) == Next(h, level)[Spelled(|Next(h, level)|, i / 2)]
    ensures || (x == level[Spelled(|level|, i)] && proof == Opening(h, level, i))
            || Collision(h, [Joined(x, proof[0])], Pairs(Pad(level)))
  {
    var node := OpeningHead(h, level, i);
    StepOpens(h, level, x, proof[0], node);
    assert proof == [proof[0]] + proof[1..];
  }

  lemma {:induction false} SideBitsHead(proof: seq<Step>)
    requires proof != []
    ensures SideBits(proof) / 2 == SideBits(proof[1..]) && SideBits(proof) % 2 == if proof[0].side == 'L' then 1 else 0
  {
  }

  /** The digest is the node that the sides of the proof spell, and the siblings are true. */
  predicate Opens(h: Hash, level: seq<Bytes>, x: Bytes, proof: seq<Step>)
    requires |level| > 0
  {
    x == level[Spelled(|level|, SideBits(proof))] && proof == Opening(h, level, SideBits(proof))
  }

  /** A proof of the tree's depth that verifies, whatever its sides, opens the node that its
      sides spell, with its true siblings; or a pair hashed by the replay collides with a
      different pair hashed by the tree. */
  lemma {:induction false} ProofOpensSpelledNode(h: Hash, leaves: seq<Bytes>, leaf: Bytes, proof: seq<Step>)
    requires DigestHash(h) && AllDigests(leaves) && |leaves| > 0
    requires IsDigest(leaf) && DigestSteps(proof) && |proof| == Depth(|leaves|)
    requires Verifies(h, leaf, proof, Root(h, leaves))
    ensures Opens(h, leaves, leaf, proof) || Collision(h, ReplayMessages(h, leaf, proof), TreeMessages(h, leaves))
    decreases |leaves|
  {
    if |leaves| > 1 {
      var parent := h(Joined(leaf, proof[0]));
      NextOfDigests(h, leaves);
      ProofOpensSpelledNode(h, Next(h, leaves), parent, proof[1..]);
      if !Collision(h, ReplayMessages(h, parent, proof[1..]), TreeMessages(h, Next(h, leaves))) {
        SideBitsHead(proof);
        FirstStepOpens(h, leaves, leaf, proof, SideBits(proof));
      }
    }
  }

  /** So, unless that yields a collision, a proof of the tree's depth verifies exactly when
      it is the opening of the index that its sides spell. */
  lemma {:induction false} VerifiesIffOpening(h: Hash, leaves: seq<Bytes>, leaf: Bytes, proof: seq<Step>)
    requires DigestHash(h) && AllDigests(leaves) && |leaves| > 0
    requires IsDigest(leaf) && DigestSteps(proof) && |proof| == Depth(|leaves|)
    ensures || (Verifies(h, leaf, proof, Root(h, leaves)) <==> Opens(h, leaves, leaf, proof))
            || Collision(h, ReplayMessages(h, leaf, proof), TreeMessages(h, leaves))
  {
    OpeningVerifies(h, leaves, SideBits(proof));
    if Verifies(h, leaf, proof, Root(h, leaves)) { ProofOpensSpelledNode(h, leaves, leaf, proof); }
  }

  /** The level this many steps above the leaves. */
  function Above(h: Hash, level: seq<Bytes>, steps: nat): (above: seq<Bytes>)
    requires |level| > 0 && steps <= Depth(|level|)
    ensures |above| > 0 && Depth(|above|) == Depth(|level|) - steps
    decreases steps
  {
    if steps == 0 then level else Above(h, Next(h, level), steps - 1)
  }

  /** A level above has the same root, and what is hashed from it is hashed from the leaves. */
  lemma {:induction false} AboveKeepsRoot(h: Hash, level: seq<Bytes>, steps: nat)
    requires DigestHash(h) && AllDigests(level) && |level| > 0 && steps <= Depth(|level|)
    ensures var above := Above(h, level, steps);
            && AllDigests(above) && Root(h, above) == Root(h, level)
            && forall n :: n in TreeMessages(h, above) ==> n in TreeMessages(h, level)
    decreases steps
  {
    if steps > 0 {
      NextOfDigests(h, level);
      AboveKeepsRoot(h, Next(h, level), steps - 1);
    }
  }

  lemma {:induction false} CollisionGrows(h: Hash, ms: seq<Bytes>, ns: seq<Bytes>, ns': seq<Bytes>)
    requires Collision(h, ms, ns) && forall n :: n in ns ==> n in ns'
    ensures Collision(h, ms, ns')
  {
  }

  /** A shorter proof that verifies opens a node of the level as far below the root as the
      proof is long. */
  lemma {:induction false} ShortProofOpensInnerNode(
      h: Hash, leaves: seq<Bytes>, steps: nat, node: Bytes, proof: seq<Step>)
    requires DigestHash(h) && AllDigests(leaves) && |leaves| > 0
    requires IsDigest(node) && DigestSteps(proof)
    requires steps <= Depth(|leaves|) && |proof| == Depth(|leaves|) - steps
    requires Verifies(h, node, proof, Root(h, leaves))
    ensures || Opens(h, Above(h, leaves, steps), node, proof)
            || Collision(h, ReplayMessages(h, node, proof), TreeMessages(h, leaves))
  {
    var level, hashed := Above(h, leaves, steps), ReplayMessages(h, node, proof);
    AboveKeepsRoot(h, leaves, steps);
    ProofOpensSpelledNode(h, level, node, proof);
    if Collision(h, hashed, TreeMessages(h, level)) {
      CollisionGrows(h, hashed, TreeMessages(h, level), TreeMessages(h, leaves));
    }
  }

  /** A longer proof that verifies passes through a leaf that is itself the hash of a pair. */
  lemma {:induction false} LongProofPassesALeaf(h: Hash, leaves: seq<Bytes>, x: Bytes, proof: seq<Step>)
    requires DigestHash(h) && AllDigests(leaves) && |leaves| > 0
    requires IsDigest(x) && DigestSteps(proof) && |proof| > Depth(|leaves|)
    requires Verifies(h, x, proof, Root(h, leaves))
    ensures || (exists m :: m in ReplayMessages(h, x, proof) && |m| == 64 && h(m) in leaves)
            || Collision(h, ReplayMessages(h, x, proof), TreeMessages(h, leaves))
    decreases |proof|
  {
    var m := Joined(x, proof[0]);
    assert m in ReplayMessages(h, x, proof) && |m| == 64;
    if |proof| == Depth(|leaves|) + 1 {
      ProofOpensSpelledNode(h, leaves, h(m), proof[1..]);
    } else {
      LongProofPassesALeaf(h, leaves, h(m), proof[1..]);
    }
  }

  lemma {:induction false} SameSidesSpellTheSame(p: seq<Step>, q: seq<Step>)
    requires SameSides(p, q)
    ensures SideBits(p) == SideBits(q)
  {
    if p != [] { SameSidesSpellTheSame(p[1..], q[1..]); }
  }

  /** A proof with the sides of leaf i that verifies carries leaf i and nothing but the
      siblings that MerkleProof returns for it, or it yields a collision. */
  lemma {:induction false} ProofBindsLeaf(h: Hash, leaves: seq<Bytes>, i: nat, leaf: Bytes, proof: seq<Step>)
    requires DigestHash(h) && AllDigests(leaves) && i < |leaves|
    requires IsDigest(leaf) && DigestSteps(proof) && SameSides(proof, Path(h, leaves, i))
    requires Verifies(h, leaf, proof, Root(h, leaves))
    ensures || (leaf == leaves[i] && PathThrough(Levels(h, leaves), i) == Ok(proof))
            || Collision(h, ReplayMessages(h, leaf, proof), TreeMessages(h, leaves))
  {
    SidesSpellIndex(h, leaves, i);
    SameSidesSpellTheSame(proof, Path(h, leaves, i));
    PathHasDepth(h, leaves, i);
    ProofOpensSpelledNode(h, leaves, leaf, proof);
    OpeningIsPath(h, leaves, i);
    ProofIsSiblingPath(h, leaves, i);
  }
}
