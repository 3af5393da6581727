/** The Merkle root loop and what it commits to (crypto.hpp). */
module Merkle {
  import opened Types

  function Joined(left: Hash256, right: Hash256): Bytes { left + right }

  lemma {:induction false} JoinedInjective(l: Hash256, r: Hash256, l': Hash256, r': Hash256)
    requires Joined(l, r) == Joined(l', r')
    ensures l == l' && r == r'
  {
    assert l == Joined(l, r)[..32] && l' == Joined(l', r')[..32];
    assert r == Joined(l, r)[32..] && r' == Joined(l', r')[32..];
  }

  function HashPair(left: Hash256, right: Hash256): Hash256 { Sha256(Joined(left, right)) }

  /** The right partner of position `2 * i`; the last hash of an odd level is its own partner. */
  function Partner(hs: seq<Hash256>, i: nat): Hash256
    requires 2 * i < |hs|
  {
    if 2 * i + 1 < |hs| then hs[2 * i + 1] else hs[2 * i]
  }

  function NextLevel(hs: seq<Hash256>): (up: seq<Hash256>)
    ensures |up| == (|hs| + 1) / 2
  {
    if hs == [] then []
    else if |hs| == 1 then [HashPair(hs[0], hs[0])]
    else [HashPair(hs[0], hs[1])] + NextLevel(hs[2..])
  }

  /** The byte strings hashed to produce the next level. */
  ghost function LevelPairs(hs: seq<Hash256>): set<Bytes> {
    if hs == [] then {}
    else if |hs| == 1 then {Joined(hs[0], hs[0])}
    else {Joined(hs[0], hs[1])} + LevelPairs(hs[2..])
  }

  lemma {:induction false} LevelAt(hs: seq<Hash256>, i: nat)
    requires 2 * i < |hs|
    ensures i < |NextLevel(hs)| && NextLevel(hs)[i] == HashPair(hs[2 * i], Partner(hs, i))
    ensures Joined(hs[2 * i], Partner(hs, i)) in LevelPairs(hs)
    decreases i
  {
    if i > 0 {
      var tail := hs[2..];
      LevelAt(tail, i - 1);
      assert tail[2 * (i - 1)] == hs[2 * i];
      assert Partner(tail, i - 1) == Partner(hs, i);
      assert NextLevel(hs)[i] == NextLevel(tail)[i - 1];
    }
  }

  function MerkleRoot(hs: seq<Hash256>): Hash256
    decreases |hs|
  {
    if hs == [] then Sha256([])
    else if |hs| == 1 then hs[0]
    else MerkleRoot(NextLevel(hs))
  }

  /** merkle_root: halves the list until one hash is left. */
  method ComputeMerkleRoot(hashes: seq<Hash256>) returns (root: Hash256)
    ensures root == MerkleRoot(hashes)
    ensures hashes == [] ==> root == Sha256([])
  {
    if hashes == [] {
      return Sha256([]);
    }
    var level := hashes;
    while |level| > 1
      invariant level != [] && MerkleRoot(level) == MerkleRoot(hashes)
    {
      level := Halve(level);
    }
    root := level[0];
  }

  /** One round of the loop: hash the pairs, the last one with itself if it has no partner. */
  method Halve(hashes: seq<Hash256>) returns (next: seq<Hash256>)
    ensures next == NextLevel(hashes)
  {
    next := [];
    var i := 0;
    while i < |hashes|
      invariant 0 <= i <= |hashes| + 1
      invariant i <= |hashes| ==> next + NextLevel(hashes[i..]) == NextLevel(hashes)
      invariant i > |hashes| ==> next == NextLevel(hashes)
    {
      var right := if i + 1 < |hashes| then hashes[i + 1] else hashes[i];
      if i + 1 < |hashes| {
        assert hashes[i..][2..] == hashes[i + 2..];
      }
      next := next + [HashPair(hashes[i], right)];
      i := i + 2;
    }
    if i == |hashes| {
      assert hashes[i..] == [];
    }
  }

  /** Every byte string hashed while computing the root of `hs`. */
  ghost function PairsHashed(hs: seq<Hash256>): set<Bytes>
    decreases |hs|
  {
    if |hs| <= 1 then {}
    else LevelPairs(hs) + PairsHashed(NextLevel(hs))
  }

  /** Number of halvings of a list of `n` hashes. */
  function Depth(n: nat): nat {
    if n <= 1 then 0 else 1 + Depth((n + 1) / 2)
  }

  /** Leaf `i` of `b` is found in `a`, and at the same position if `a` is long enough. */
  ghost predicate Found(a: seq<Hash256>, b: seq<Hash256>, i: nat) {
    i < |b| && exists j :: 0 <= j < |a| && a[j] == b[i] && (i < |a| ==> j == i)
  }

  /** Equal parents have equal children. */
  lemma {:induction false} ChildrenEqual(a: seq<Hash256>, p: nat, b: seq<Hash256>, q: nat, s: set<Bytes>)
    requires 2 * p < |a| && 2 * q < |b|
    requires CollisionFree(s) && LevelPairs(a) <= s && LevelPairs(b) <= s
    requires p < |NextLevel(a)| && q < |NextLevel(b)| && NextLevel(a)[p] == NextLevel(b)[q]
    ensures a[2 * p] == b[2 * q] && Partner(a, p) == Partner(b, q)
  {
    LevelAt(a, p);
    LevelAt(b, q);
    JoinedInjective(a[2 * p], Partner(a, p), b[2 * q], Partner(b, q));
  }

  /** One step down: if the parent is found, so are its children. */
  lemma {:induction false} FoundBelow(a: seq<Hash256>, b: seq<Hash256>, s: set<Bytes>, q: nat, i: nat)
    requires i < |b| && (i == 2 * q || i == 2 * q + 1)
    requires CollisionFree(s) && LevelPairs(a) <= s && LevelPairs(b) <= s
    requires Found(NextLevel(a), NextLevel(b), q)
    ensures Found(a, b, i)
  {
    var up := NextLevel(a);
    var p :| 0 <= p < |up| && up[p] == NextLevel(b)[q] && (q < |up| ==> p == q);
    assert 2 * p < |a|;
    ChildrenEqual(a, p, b, q, s);
    var j := if i == 2 * q + 1 && 2 * p + 1 < |a| then 2 * p + 1 else 2 * p;
    assert a[j] == b[i];
  }

  /** Equal roots of equal depth: every leaf of one list occurs in the other. */
  lemma {:induction false} LeavesFound(a: seq<Hash256>, b: seq<Hash256>, s: set<Bytes>)
    requires a != [] && b != [] && Depth(|a|) == Depth(|b|) && MerkleRoot(a) == MerkleRoot(b)
    requires CollisionFree(s) && PairsHashed(a) <= s && PairsHashed(b) <= s
    ensures forall i: nat :: i < |b| ==> Found(a, b, i)
    decreases |a|
  {
    if |a| == 1 {
      assert a[0] == b[0];
    } else {
      LeavesFound(NextLevel(a), NextLevel(b), s);
      forall i: nat | i < |b| ensures Found(a, b, i) {
        var q := i / 2;
        assert Found(NextLevel(a), NextLevel(b), q);
        FoundBelow(a, b, s, q, i);
      }
    }
  }

  /** Lists of one length with one root are equal. */
  lemma {:induction false} RootCommitsToList(a: seq<Hash256>, b: seq<Hash256>, s: set<Bytes>)
    requires |a| == |b| && MerkleRoot(a) == MerkleRoot(b)
    requires CollisionFree(s) && PairsHashed(a) <= s && PairsHashed(b) <= s
    ensures a == b
  {
    if a != [] {
      LeavesFound(a, b, s);
      SamePositions(a, b);
    }
  }

  /** The length is needed: repeating the last hash of an odd list keeps the root. */
  lemma {:induction false} RootIgnoresRepeatedLast(hs: seq<Hash256>)
    requires |hs| % 2 == 1 && |hs| >= 3
    ensures MerkleRoot(hs + [hs[|hs| - 1]]) == MerkleRoot(hs)
  {
    SameNextLevel(hs);
  }

  lemma {:induction false} SameNextLevel(hs: seq<Hash256>)
    requires |hs| % 2 == 1
    ensures NextLevel(hs + [hs[|hs| - 1]]) == NextLevel(hs)
  {
    if |hs| > 1 {
      SameNextLevel(hs[2..]);
      assert (hs + [hs[|hs| - 1]])[2..] == hs[2..] + [hs[|hs| - 1]];
    }
  }

  /** `x` is the digest of a string in `s` that is not 64 bytes long. */
  ghost predicate LeafDigest(x: Hash256, s: set<Bytes>) {
    exists p :: p in s && |p| != 64 && Sha256(p) == x
  }

  ghost predicate IsParent(x: Hash256, l: Hash256, r: Hash256, s: set<Bytes>) {
    Joined(l, r) in s && HashPair(l, r) == x
  }

  /** Going left from `x`, a leaf is reached after exactly `level` steps. */
  ghost predicate NodeAt(x: Hash256, level: nat, s: set<Bytes>)
    decreases level
  {
    if level == 0 then LeafDigest(x, s)
    else exists l: Hash256, r: Hash256 :: IsParent(x, l, r, s) && NodeAt(l, level - 1, s)
  }

  lemma {:induction false} LevelUnique(x: Hash256, i: nat, j: nat, s: set<Bytes>)
    requires CollisionFree(s) && NodeAt(x, i, s) && NodeAt(x, j, s)
    ensures i == j
    decreases i
  {
    if i > 0 {
      var l: Hash256, r: Hash256 :| IsParent(x, l, r, s) && NodeAt(l, i - 1, s);
      if j > 0 {
        var l': Hash256, r': Hash256 :| IsParent(x, l', r', s) && NodeAt(l', j - 1, s);
        JoinedInjective(l, r, l', r');
        LevelUnique(l, i - 1, j - 1, s);
      }
    }
  }

  lemma {:induction false} RootLevel(hs: seq<Hash256>, level: nat, s: set<Bytes>)
    requires hs != [] && PairsHashed(hs) <= s
    requires forall h :: h in hs ==> NodeAt(h, level, s)
    ensures NodeAt(MerkleRoot(hs), level + Depth(|hs|), s)
    decreases |hs|
  {
    if |hs| > 1 {
      var up := NextLevel(hs);
      forall h | h in up ensures NodeAt(h, level + 1, s) {
        var i :| 0 <= i < |up| && h == up[i];
        assert 2 * i < |hs|;
        LevelAt(hs, i);
        assert IsParent(h, hs[2 * i], Partner(hs, i), s) && NodeAt(hs[2 * i], level, s);
      }
      RootLevel(up, level + 1, s);
    }
  }

  /** A stretch of `g` items that is followed by itself. */
  ghost predicate RepeatsAt<T(!new)>(xs: seq<T>, p: nat, g: nat) {
    g > 0 && p + 2 * g <= |xs| && forall k :: p <= k < p + g ==> xs[k] == xs[k + g]
  }

  ghost predicate Unrepeated<T(!new)>(xs: seq<T>) {
    forall p: nat, g: nat :: !RepeatsAt(xs, p, g)
  }

  /** Of two lists of equal depth with one root, the longer one repeats a stretch back to back: that is all the pairing
      of an odd last hash with itself can hide. */
  lemma {:induction false} LongerRepeats(a: seq<Hash256>, b: seq<Hash256>, s: set<Bytes>) returns (p: nat, g: nat)
    requires a != [] && |a| < |b| && Depth(|a|) == Depth(|b|) && MerkleRoot(a) == MerkleRoot(b)
    requires CollisionFree(s) && PairsHashed(a) <= s && PairsHashed(b) <= s
    ensures RepeatsAt(b, p, g)
    decreases |a|
  {
    hide CollisionFree, LevelPairs;
    var up, up' := NextLevel(a), NextLevel(b);
    if |up| == |up'| {
      RootCommitsToList(up, up', s);
      ChildrenEqual(a, |up| - 1, b, |up| - 1, s);
      p, g := |b| - 2, 1;
    } else {
      var q, h := LongerRepeats(up, up', s);
      p, g := RepeatBelow(b, q, h, s);
    }
  }

  /** One step down: a repeated stretch of parents comes from a repeated stretch of children. */
  lemma {:induction false} RepeatBelow(b: seq<Hash256>, q: nat, h: nat, s: set<Bytes>) returns (p: nat, g: nat)
    requires RepeatsAt(NextLevel(b), q, h) && CollisionFree(s) && LevelPairs(b) <= s
    ensures RepeatsAt(b, p, g)
  {
    hide CollisionFree, LevelPairs, NextLevel;
    if 2 * (q + 2 * h) <= |b| {
      p, g := 2 * q, 2 * h;
      forall k | p <= k < p + g ensures b[k] == b[k + g] {
        var parent := k / 2;
        ChildrenEqual(b, parent, b, parent + h, s);
      }
    } else {
      var last := q + 2 * h - 1;
      ChildrenEqual(b, last - h, b, last, s);
      p, g := 2 * (last - h), 1;
    }
  }

  /** Lists that repeat nothing back to back need no length: if no leaf digests a 64-byte string, the root fixes the
      depth, and then the list. */
  lemma {:induction false} RootCommitsToUnrepeatedList(a: seq<Hash256>, b: seq<Hash256>, s: set<Bytes>)
    requires a != [] && b != [] && MerkleRoot(a) == MerkleRoot(b)
    requires CollisionFree(s) && PairsHashed(a) <= s && PairsHashed(b) <= s
    requires forall h :: h in a || h in b ==> LeafDigest(h, s)
    requires Unrepeated(a) && Unrepeated(b)
    ensures a == b
  {
    hide CollisionFree, PairsHashed, MerkleRoot, LeafDigest, RepeatsAt;
    DepthsEqual(a, b, s);
    if |a| < |b| {
      var p, g := LongerRepeats(a, b, s);
      assert false;
    } else if |b| < |a| {
      var p, g := LongerRepeats(b, a, s);
      assert false;
    }
    RootCommitsToList(a, b, s);
  }

  lemma {:induction false} RootOfLeaves(hs: seq<Hash256>, s: set<Bytes>)
    requires hs != [] && PairsHashed(hs) <= s
    requires forall h :: h in hs ==> LeafDigest(h, s)
    ensures NodeAt(MerkleRoot(hs), Depth(|hs|), s)
  {
    forall h | h in hs ensures NodeAt(h, 0, s) {}
    RootLevel(hs, 0, s);
  }

  lemma {:induction false} DepthsEqual(a: seq<Hash256>, b: seq<Hash256>, s: set<Bytes>)
    requires a != [] && b != [] && MerkleRoot(a) == MerkleRoot(b)
    requires CollisionFree(s) && PairsHashed(a) <= s && PairsHashed(b) <= s
    requires forall h :: h in a || h in b ==> LeafDigest(h, s)
    ensures Depth(|a|) == Depth(|b|)
  {
    RootOfLeaves(a, s);
    RootOfLeaves(b, s);
    LevelUnique(MerkleRoot(a), Depth(|a|), Depth(|b|), s);
  }

  lemma {:induction false} SamePositions(a: seq<Hash256>, b: seq<Hash256>)
    requires |a| == |b|
    requires forall i: nat :: i < |b| ==> Found(a, b, i)
    ensures a == b
  {
    forall i: nat | i < |b| ensures a[i] == b[i] {
      assert Found(a, b, i);
    }
  }
}
