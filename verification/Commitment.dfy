/** What a block hash commits to: header, transactions and witnesses. */
module Commitment {
  import opened Types
  import opened Serialization
  import opened TransactionCodec
  import opened BlockCodec
  import opened Merkle
  import opened Rules

  /** Every byte string hashed to check the header hash and the witness root of a block. */
  ghost function Preimages(b: Block): set<Bytes> {
    {EncodeHeader(b.header)} + (set tx | tx in b.transactions :: Encode(tx)) + PairsHashed(Wtxids(b.transactions))
  }

  lemma {:induction false} HeadersEqual(a: BlockHeader, b: BlockHeader, s: set<Bytes>)
    requires HeaderHash(a) == HeaderHash(b) && CollisionFree(s)
    requires EncodeHeader(a) in s && EncodeHeader(b) in s
    ensures a == b
  {
    HeaderInjective(a, b);
  }

  /** Transactions are determined by the list of their witness ids. */
  lemma {:induction false} WtxidsDetermine(a: seq<Transaction>, b: seq<Transaction>, s: set<Bytes>)
    requires Wtxids(a) == Wtxids(b) && CollisionFree(s)
    requires forall tx :: tx in a || tx in b ==> Encode(tx) in s
    ensures a == b
  {
    hide Encode;
    assert |a| == |Wtxids(a)| && |b| == |Wtxids(b)|;
    forall i | 0 <= i < |a| ensures a[i] == b[i] {
      assert Wtxids(a)[i] == Wtxid(a[i]) && Wtxids(b)[i] == Wtxid(b[i]);
      assert a[i] in a && b[i] in b;
      EncodeInjective(a[i], b[i]);
    }
  }

  /** Two blocks with one hash and as many transactions, whose witness roots check, are the same
      block, witnesses included. */
  lemma {:induction false} HashCommitsToBlock(a: Block, b: Block, s: set<Bytes>)
    requires BlockHash(a) == BlockHash(b) && |a.transactions| == |b.transactions|
    requires RootsOk(a) && RootsOk(b)
    requires CollisionFree(s) && Preimages(a) <= s && Preimages(b) <= s
    ensures a == b
  {
    hide EncodeHeader, Encode, PairsHashed, MerkleRoot;
    HeadersEqual(a.header, b.header, s);
    RootCommitsToList(Wtxids(a.transactions), Wtxids(b.transactions), s);
    WtxidsDetermine(a.transactions, b.transactions, s);
  }

  // ----- Without the transaction count -----

  lemma {:induction false} PutManyGrows<T(!new)>(xs: seq<T>, put: (T, Bytes) -> Bytes, rest: Bytes)
    requires forall x, r :: x in xs ==> |put(x, r)| >= |r|
    ensures |PutMany(xs, put, rest)| >= |rest|
    ensures xs != [] ==> PutMany(xs, put, rest) == put(xs[0], PutMany(xs[1..], put, rest))
  {
    if xs != [] {
      PutManyGrows(xs[1..], put, rest);
    }
  }

  lemma {:induction false} InputBytes(i: OutPoint, rest: Bytes)
    ensures |PutInput(i, rest)| == 36 + |rest|
  {
    PutIntLength(i.index, 4, rest);
  }

  lemma {:induction false} BlobBytes(b: Blob, rest: Bytes)
    ensures |PutBlob(b, rest)| == 4 + |b| + |rest|
  {
    PutIntLength(|b|, 4, b + rest);
  }

  lemma {:induction false} OutputBytes(o: TxOutput, rest: Bytes)
    ensures |PutOutput(o, rest)| == 12 + |o.recipient| + |rest|
  {
    BlobBytes(o.recipient, rest);
    PutIntLength(o.amount, 8, PutBlob(o.recipient, rest));
  }

  lemma {:induction false} InputsBytes(xs: Seq32<OutPoint>, rest: Bytes)
    requires xs != []
    ensures |PutList(xs, PutInput, rest)| >= 40 + |rest|
  {
    forall x, r ensures |PutInput(x, r)| >= |r| {
      InputBytes(x, r);
    }
    PutManyGrows(xs[1..], PutInput, rest);
    PutManyGrows(xs, PutInput, rest);
    InputBytes(xs[0], PutMany(xs[1..], PutInput, rest));
    PutIntLength(|xs|, 4, PutMany(xs, PutInput, rest));
  }

  lemma {:induction false} OutputsBytes(xs: Seq32<TxOutput>, rest: Bytes)
    requires xs != [] && xs[0].recipient != []
    ensures |PutList(xs, PutOutput, rest)| >= 17 + |rest|
  {
    forall x, r ensures |PutOutput(x, r)| >= |r| {
      OutputBytes(x, r);
    }
    PutManyGrows(xs[1..], PutOutput, rest);
    PutManyGrows(xs, PutOutput, rest);
    OutputBytes(xs[0], PutMany(xs[1..], PutOutput, rest));
    PutIntLength(|xs|, 4, PutMany(xs, PutOutput, rest));
  }

  lemma {:induction false} WitnessesBytes(xs: Seq32<Witness>, rest: Bytes)
    ensures |PutList(xs, PutWitness, rest)| >= 4 + |rest|
  {
    forall x, r ensures |PutWitness(x, r)| >= |r| {
      BlobBytes(x.signature, r);
      BlobBytes(x.publicKey, PutBlob(x.signature, r));
    }
    PutManyGrows(xs, PutWitness, rest);
    PutIntLength(|xs|, 4, PutMany(xs, PutWitness, rest));
  }

  predicate HasFundedShape(tx: Transaction) {
    tx.inputs != [] && tx.outputs != [] && tx.outputs[0].recipient != []
  }

  /** A transaction with an input and a paid output is longer than the 64 bytes of a Merkle pair,
      so no transaction can pose as an inner node of the tree. */
  lemma {:induction false} LongerThanPair(tx: Transaction)
    requires HasFundedShape(tx)
    ensures |Encode(tx)| > 64
  {
    hide PutInt, PutMany, PutList, PutBlob;
    var r4 := PutList(tx.witnesses, PutWitness, []);
    var r3 := PutList(tx.outputs, PutOutput, r4);
    var r2 := PutList(tx.inputs, PutInput, r3);
    WitnessesBytes(tx.witnesses, []);
    OutputsBytes(tx.outputs, r4);
    InputsBytes(tx.inputs, r3);
    BlobBytes(tx.coinbaseData, r2);
    PutIntLength(tx.version, 4, PutBlob(tx.coinbaseData, r2));
  }

  /** A stretch of witness ids that is repeated is a stretch of transactions that is. */
  lemma {:induction false} WtxidsRepeat(txs: seq<Transaction>, p: nat, g: nat, s: set<Bytes>)
    requires RepeatsAt(Wtxids(txs), p, g) && CollisionFree(s) && forall tx :: tx in txs ==> Encode(tx) in s
    ensures RepeatsAt(txs, p, g)
  {
    hide Encode;
    forall k | p <= k < p + g ensures txs[k] == txs[k + g] {
      assert Wtxids(txs)[k] == Wtxids(txs)[k + g];
      assert txs[k] in txs && txs[k + g] in txs;
      EncodeInjective(txs[k], txs[k + g]);
    }
  }

  lemma {:induction false} UnrepeatedWtxids(txs: seq<Transaction>, s: set<Bytes>)
    requires Unrepeated(txs) && CollisionFree(s) && forall tx :: tx in txs ==> Encode(tx) in s
    ensures Unrepeated(Wtxids(txs))
  {
    hide Encode, RepeatsAt, Wtxids, CollisionFree;
    forall p: nat, g: nat ensures !RepeatsAt(Wtxids(txs), p, g) {
      if RepeatsAt(Wtxids(txs), p, g) {
        WtxidsRepeat(txs, p, g, s);
        assert false;
      }
    }
  }

  lemma {:induction false} WtxidsAreLeaves(txs: seq<Transaction>, s: set<Bytes>)
    requires forall tx :: tx in txs ==> Encode(tx) in s && HasFundedShape(tx)
    ensures forall h :: h in Wtxids(txs) ==> LeafDigest(h, s)
  {
    hide Encode;
    forall h | h in Wtxids(txs) ensures LeafDigest(h, s) {
      var i :| 0 <= i < |Wtxids(txs)| && Wtxids(txs)[i] == h;
      assert txs[i] in txs;
      LongerThanPair(txs[i]);
    }
  }

  /** The hash of a block that repeats no stretch of transactions back to back commits to all of it, even to how many
      transactions there are. */
  lemma {:induction false} HashCommitsToUnrepeatedBlock(a: Block, b: Block, s: set<Bytes>)
    requires BlockHash(a) == BlockHash(b) && RootsOk(a) && RootsOk(b)
    requires a.transactions != [] && b.transactions != []
    requires Unrepeated(a.transactions) && Unrepeated(b.transactions)
    requires forall tx :: tx in a.transactions || tx in b.transactions ==> HasFundedShape(tx)
    requires CollisionFree(s) && Preimages(a) <= s && Preimages(b) <= s
    ensures a == b
  {
    hide EncodeHeader, Encode, PairsHashed, MerkleRoot, LeafDigest, HasFundedShape, CollisionFree, Unrepeated;
    var x, y := Wtxids(a.transactions), Wtxids(b.transactions);
    HeadersEqual(a.header, b.header, s);
    assert forall tx :: tx in a.transactions || tx in b.transactions ==> Encode(tx) in s;
    UnrepeatedWtxids(a.transactions, s);
    UnrepeatedWtxids(b.transactions, s);
    WtxidsAreLeaves(a.transactions, s);
    WtxidsAreLeaves(b.transactions, s);
    RootCommitsToUnrepeatedList(x, y, s);
    WtxidsDetermine(a.transactions, b.transactions, s);
  }
}
