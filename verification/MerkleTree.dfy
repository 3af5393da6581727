/** The halving loop of merkle_root computes the root of a binary tree (crypto.hpp). */
module MerkleTree {
  import opened Types
  import opened Consensus
  import opened Merkle

  /** The root of a tree of depth `k`, from the top down: the first half of the places goes left, the rest right, and
      a tree whose right half is empty repeats its left half. */
  function Subtree(leaves: seq<Hash256>, k: nat): Hash256
    requires 0 < |leaves| <= Pow2(k)
  {
    if k == 0 then leaves[0]
    else
      var half := Pow2(k - 1);
      if |leaves| <= half then
        var left := Subtree(leaves, k - 1);
        Sha256(left + left)
      else Sha256(Subtree(leaves[..half], k - 1) + Subtree(leaves[half..], k - 1))
  }

  /** `k` rounds of the loop. */
  function Climb(hashes: seq<Hash256>, k: nat): seq<Hash256>
    decreases k
  {
    if k == 0 then hashes else Climb(NextLevel(hashes), k - 1)
  }

  lemma {:induction false} ClimbOneMore(hashes: seq<Hash256>, k: nat)
    ensures Climb(hashes, k + 1) == NextLevel(Climb(hashes, k))
    decreases k
  {
    if k > 0 {
      ClimbOneMore(NextLevel(hashes), k - 1);
    }
  }

  lemma {:induction false} PairAt(a: seq<Hash256>, b: seq<Hash256>, n: nat, p: nat)
    requires |a| == 2 * n && 2 * p < |a| + |b|
    ensures p < |NextLevel(a + b)| && |NextLevel(a)| == n && (p >= n ==> p - n < |NextLevel(b)|)
    ensures NextLevel(a + b)[p] == if p < n then NextLevel(a)[p] else NextLevel(b)[p - n]
  {
    hide NextLevel, LevelPairs, HashPair, Joined;
    LevelAt(a + b, p);
    if p < n {
      LevelAt(a, p);
    } else {
      LevelAt(b, p - n);
    }
  }

  /** Pairs do not cross an even boundary. */
  lemma {:induction false} LevelConcat(a: seq<Hash256>, b: seq<Hash256>, n: nat)
    requires |a| == 2 * n
    ensures NextLevel(a + b) == NextLevel(a) + NextLevel(b)
  {
    hide NextLevel;
    var left, right, both := NextLevel(a), NextLevel(b), NextLevel(a + b);
    forall p | 0 <= p < |both| ensures both[p] == (left + right)[p] {
      PairAt(a, b, n, p);
    }
  }

  lemma {:induction false} ClimbConcat(a: seq<Hash256>, b: seq<Hash256>, k: nat)
    requires |a| == Pow2(k)
    ensures Climb(a + b, k) == Climb(a, k) + Climb(b, k)
    decreases k
  {
    if k > 0 {
      LevelConcat(a, b, Pow2(k - 1));
      ClimbConcat(NextLevel(a), NextLevel(b), k - 1);
    }
  }

  /** A pair of hashes, and one hash alone. */
  lemma {:induction false} TopLevel(x: Hash256, y: Hash256)
    ensures NextLevel([x] + [y]) == [Sha256(x + y)] && NextLevel([x]) == [Sha256(x + x)]
  {
    assert [x] + [y] == [x, y] && [x, y][2..] == [];
  }

  lemma {:induction false} ClimbNothing(leaves: seq<Hash256>)
    requires |leaves| == 1
    ensures Climb(leaves, 0) == [Subtree(leaves, 0)]
  {
  }

  lemma {:induction false} SubtreeSplits(leaves: seq<Hash256>, k: nat)
    requires 0 < |leaves| <= Pow2(k) && k > 0
    ensures var half := Pow2(k - 1);
      if |leaves| <= half then Subtree(leaves, k) == Sha256(Subtree(leaves, k - 1) + Subtree(leaves, k - 1))
      else
        Subtree(leaves, k) == Sha256(Subtree(leaves[..half], k - 1) + Subtree(leaves[half..], k - 1))
  {
  }

  lemma {:induction false} ClimbIsSubtree(leaves: seq<Hash256>, k: nat)
    requires 0 < |leaves| <= Pow2(k)
    ensures Climb(leaves, k) == [Subtree(leaves, k)]
    decreases k
  {
    hide Climb, NextLevel, Subtree;
    if k == 0 {
      ClimbNothing(leaves);
    } else {
      var half := Pow2(k - 1);
      ClimbOneMore(leaves, k - 1);
      SubtreeSplits(leaves, k);
      if |leaves| <= half {
        ClimbIsSubtree(leaves, k - 1);
        TopLevel(Subtree(leaves, k - 1), Subtree(leaves, k - 1));
      } else {
        var a, b := leaves[..half], leaves[half..];
        assert leaves == a + b;
        ClimbConcat(a, b, k - 1);
        ClimbIsSubtree(a, k - 1);
        ClimbIsSubtree(b, k - 1);
        TopLevel(Subtree(a, k - 1), Subtree(b, k - 1));
      }
    }
  }

  lemma {:induction false} RootIsClimb(hashes: seq<Hash256>, k: nat)
    requires 0 < |hashes| <= Pow2(k) && (k > 0 ==> Pow2(k - 1) < |hashes|)
    ensures Climb(hashes, k) == [MerkleRoot(hashes)]
    decreases k
  {
    if k > 0 {
      RootIsClimb(NextLevel(hashes), k - 1);
    }
  }

  /** The root of a non-empty list is that of the tree of the least depth that holds it. */
  lemma {:induction false} RootIsSubtree(hashes: seq<Hash256>, k: nat)
    requires 0 < |hashes| <= Pow2(k) && (k > 0 ==> Pow2(k - 1) < |hashes|)
    ensures MerkleRoot(hashes) == Subtree(hashes, k)
  {
    hide Subtree, MerkleRoot, Climb;
    RootIsClimb(hashes, k);
    ClimbIsSubtree(hashes, k);
  }
}
