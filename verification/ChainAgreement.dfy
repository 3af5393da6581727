/** Two valid chains that share a block share everything before it. */
module ChainAgreement {
  import opened Types
  import opened TransactionCodec
  import opened BlockCodec
  import opened Merkle
  import opened Coinbase
  import opened Rules
  import opened ChainValidator
  import opened ChainFacts
  import opened Confirmed
  import opened Repetition
  import opened Commitment

  /** Every byte string hashed while validating a chain. */
  ghost function ChainPreimages(chain: seq<Block>): set<Bytes> {
    if chain == [] then {}
    else ChainPreimages(chain[..|chain| - 1]) + Preimages(chain[|chain| - 1])
  }

  /** A valid chain, with no collision among what it hashes. */
  ghost predicate ValidWithin(chain: seq<Block>, s: set<Bytes>) {
    && Valid(chain) && CollisionFree(s)
    && ChainPreimages(chain) <= s && IdPreimages(Flatten(chain)) <= s
  }

  lemma {:induction false} WithinIsValid(chain: seq<Block>, s: set<Bytes>)
    requires ValidWithin(chain, s)
    ensures Valid(chain) && CollisionFree(s)
  {
  }

  lemma {:induction false} PreimagesAt(chain: seq<Block>, i: nat)
    requires i < |chain|
    ensures Preimages(chain[i]) <= ChainPreimages(chain)
  {
    hide Preimages;
    if i < |chain| - 1 {
      PreimagesAt(chain[..|chain| - 1], i);
    }
  }

  lemma {:induction false} IdPreimagesPrefix(txs: seq<Transaction>, n: nat)
    requires n <= |txs|
    ensures IdPreimages(txs[..n]) <= IdPreimages(txs)
  {
    hide PutBase;
    if n == |txs| {
      assert txs[..n] == txs;
    } else {
      IdPreimagesPrefix(txs[..|txs| - 1], n);
      assert txs[..|txs| - 1][..n] == txs[..n];
    }
  }

  lemma {:induction false} FlattenPrefix(chain: seq<Block>, n: nat)
    requires n <= |chain|
    ensures Flatten(chain[..n]) <= Flatten(chain)
  {
    if n == |chain| {
      assert chain[..n] == chain;
    } else {
      FlattenPrefix(chain[..|chain| - 1], n);
      assert chain[..|chain| - 1][..n] == chain[..n];
    }
  }

  /** The transactions up to and including a block, and what their ids digest. */
  lemma {:induction false} UpToBlock(chain: seq<Block>, s: set<Bytes>, i: nat)
    requires ValidWithin(chain, s) && 0 < i < |chain|
    ensures var txs := Flatten(chain[..i]) + chain[i].transactions;
      ConfirmAll(txs).Some? && IdPreimages(txs) <= s
  {
    hide Rebuild, ConfirmAll, ChainPreimages, IdPreimages, CollisionFree;
    RebuildPrefix(chain, i + 1);
    LedgerIsConfirmAll(chain[..i + 1]);
    assert chain[..i + 1][..i] == chain[..i];
    var all, part := Flatten(chain), Flatten(chain[..i + 1]);
    FlattenPrefix(chain, i + 1);
    IdPreimagesPrefix(all, |part|);
    assert all[..|part|] == part;
  }

  lemma {:induction false} FundedInBlock(b: Block)
    requires BasicOk(b) && b.header.height != 0
    ensures RootsOk(b) && b.transactions != []
    ensures forall tx :: tx in b.transactions ==> HasFundedShape(tx)
  {
    hide RootsOk, HeaderPowOk;
  }

  lemma {:induction false} CoinbaseComesFirst(b: Block)
    requires BasicOk(b) && b.header.height != 0
    ensures b.transactions != [] && IsCoinbase(b.transactions[0])
    ensures forall k :: 0 < k < |b.transactions| ==> !IsCoinbase(b.transactions[k])
  {
    hide RootsOk, HeaderPowOk, TxValid;
  }

  /** No block of a valid chain repeats a stretch of transactions back to back: not with its coinbase, of which there is
      one, and not with others, which cannot be confirmed twice in a row. */
  lemma {:induction false} BlockUnrepeated(chain: seq<Block>, s: set<Bytes>, i: nat)
    requires ValidWithin(chain, s) && 0 < i < |chain| && BasicOk(chain[i]) && chain[i].header.height != 0
    ensures Unrepeated(chain[i].transactions)
  {
    hide Rebuild, BasicOk, ConfirmAll, ChainPreimages, IdPreimages, CollisionFree, IsCoinbase, Flatten;
    var before, txs := Flatten(chain[..i]), chain[i].transactions;
    CoinbaseComesFirst(chain[i]);
    UpToBlock(chain, s, i);
    forall p: nat, g: nat ensures !RepeatsAt(txs, p, g) {
      if RepeatsAt(txs, p, g) {
        assert p > 0 by {
          assert txs[p] == txs[p + g];
        }
        var all := before + txs;
        assert forall k :: 0 <= k < |txs| ==> all[|before| + k] == txs[k];
        NoStretchTwice(all, |before| + p, g, s);
        RepeatsShifted(before, txs, p, g);
        assert false;
      }
    }
  }

  lemma {:induction false} RepeatsShifted(before: seq<Transaction>, txs: seq<Transaction>, p: nat, g: nat)
    requires RepeatsAt(txs, p, g)
    ensures RepeatsAt(before + txs, |before| + p, g)
  {
    var all := before + txs;
    forall k | |before| + p <= k < |before| + p + g ensures all[k] == all[k + g] {
      assert all[k] == txs[k - |before|] && all[k + g] == txs[k - |before| + g];
    }
  }

  /** Mined blocks of a valid chain repeat no stretch of transactions, and all are funded. */
  lemma {:induction false} MinedBlockShape(chain: seq<Block>, s: set<Bytes>, i: nat)
    requires ValidWithin(chain, s) && 0 < i < |chain|
    ensures RootsOk(chain[i]) && chain[i].transactions != [] && Unrepeated(chain[i].transactions)
    ensures forall tx :: tx in chain[i].transactions ==> HasFundedShape(tx)
  {
    hide Rebuild, ConfirmAll, ChainPreimages, IdPreimages, CollisionFree, BasicOk, RootsOk, ApplyBlock, Issue, Follows,
      Flatten, HasFundedShape, Unrepeated;
    BlockAt(chain, i);
    HeightIsIndex(chain, i);
    FundedInBlock(chain[i]);
    BlockUnrepeated(chain, s, i);
  }

  lemma {:induction false} BlocksEqual(a: seq<Block>, b: seq<Block>, s: set<Bytes>, k: nat)
    requires ValidWithin(a, s) && ValidWithin(b, s) && 0 < k < |a| && k < |b|
    requires BlockHash(a[k]) == BlockHash(b[k])
    ensures a[k] == b[k]
    ensures BlockHash(a[k - 1]) == BlockHash(b[k - 1])
  {
    hide Rebuild, ChainPreimages, Preimages, IdPreimages, BasicOk, ApplyBlock, Issue, RootsOk,
      HeaderHash, Flatten, HasFundedShape;
    PreimagesAt(a, k);
    PreimagesAt(b, k);
    MinedBlockShape(a, s, k);
    MinedBlockShape(b, s, k);
    HashCommitsToUnrepeatedBlock(a[k], b[k], s);
    BlockAt(a, k);
    BlockAt(b, k);
  }

  /** One shared block hash at one index: the chains agree up to there. */
  lemma {:induction false} SharedPrefix(a: seq<Block>, b: seq<Block>, s: set<Bytes>, k: nat)
    requires ValidWithin(a, s) && ValidWithin(b, s) && k < |a| && k < |b|
    requires a[0] == b[0] && BlockHash(a[k]) == BlockHash(b[k])
    ensures a[..k + 1] == b[..k + 1]
  {
    hide ValidWithin, BlockHash;
    if k > 0 {
      BlocksEqual(a, b, s, k);
      SharedPrefix(a, b, s, k - 1);
      assert a[..k + 1] == a[..k] + [a[k]] && b[..k + 1] == b[..k] + [b[k]];
    }
  }

  /** A shared hash means the same height, hence the same index. */
  lemma {:induction false} SharedIndex(a: seq<Block>, b: seq<Block>, s: set<Bytes>, i: nat, j: nat)
    requires ValidWithin(a, s) && ValidWithin(b, s) && i < |a| && j < |b|
    requires BlockHash(a[i]) == BlockHash(b[j])
    ensures i == j && a[i].header == b[j].header
  {
    hide Rebuild, ChainPreimages, IdPreimages, PairsHashed, EncodeHeader, Encode;
    PreimagesAt(a, i);
    PreimagesAt(b, j);
    HeadersEqual(a[i].header, b[j].header, s);
    HeightIsIndex(a, i);
    HeightIsIndex(b, j);
  }
}
