/** Chains that can be saved and not loaded again: the decoder refuses transactions of more than a million bytes, and
    nothing before it does. */
module Limits {
  import opened Types
  import opened Serialization
  import opened TransactionCodec
  import opened BlockCodec
  import opened Merkle
  import opened Rules
  import opened Utxo
  import opened ChainValidator
  import opened Commitment
  import opened BlockBuilder
  import opened Genesis
  import opened Storage

  /** The size of a transaction with at most one input, one output and no witness. */
  lemma {:induction false} SmallTransactionBytes(tx: Transaction)
    requires |tx.inputs| <= 1 && |tx.outputs| == 1 && tx.witnesses == []
    ensures |Encode(tx)| == 32 + |tx.coinbaseData| + 36 * |tx.inputs| + |tx.outputs[0].recipient|
  {
    hide PutInt, PutBlob, PutInput, PutOutput;
    var r4 := PutList(tx.witnesses, PutWitness, []);
    var r3 := PutList(tx.outputs, PutOutput, r4);
    var r2 := PutList(tx.inputs, PutInput, r3);
    PutIntLength(0, 4, []);
    OneItem(tx.outputs, PutOutput, r4);
    OutputBytes(tx.outputs[0], r4);
    PutIntLength(1, 4, PutOutput(tx.outputs[0], r4));
    if tx.inputs == [] {
      PutIntLength(0, 4, r3);
    } else {
      OneItem(tx.inputs, PutInput, r3);
      InputBytes(tx.inputs[0], r3);
      PutIntLength(1, 4, PutInput(tx.inputs[0], r3));
    }
    BlobBytes(tx.coinbaseData, r2);
    PutIntLength(tx.version, 4, PutBlob(tx.coinbaseData, r2));
  }

  lemma {:induction false} OneItem<T(!new)>(xs: Seq32<T>, put: (T, Bytes) -> Bytes, rest: Bytes)
    requires |xs| == 1
    ensures PutList(xs, put, rest) == PutInt(1, 4, put(xs[0], rest))
  {
    hide PutInt;
    assert PutMany(xs[1..], put, rest) == rest;
  }

  /** A block with one such transaction, too large for the decoder but not for the file. */
  lemma {:induction false} StorableNotDecodable(b: Block)
    requires |b.transactions| == 1
    requires var tx := b.transactions[0];
      |tx.inputs| <= 1 && |tx.outputs| == 1 && tx.witnesses == [] && 1_000_000 < |tx.outputs[0].recipient| <= 2_000_000
    ensures Storable(b) && !BlockWithinCaps(b)
  {
    hide PutInt, Encode, PutHeader, WithinCaps;
    var tx := b.transactions[0];
    SmallTransactionBytes(tx);
    assert PutMany(b.transactions[1..], PutSizedTx, []) == [];
    var txs := PutMany(b.transactions, PutSizedTx, []);
    assert txs == PutSizedTx(tx, []);
    PutIntLength(|Encode(tx)|, 4, Encode(tx) + []);
    PutIntLength(1, 4, txs);
    HeaderRoundTrip(b.header, PutInt(1, 4, txs));
    assert tx in b.transactions;
  }

  /** A genesis with a burn address of that size is valid and can be saved, and then the file loads nothing. */
  lemma {:induction false} SavedButUnloadable(recipient: Blob)
    requires 1_000_000 < |recipient| <= 2_000_000
    ensures var chain := [CanonicalGenesis(recipient)];
      Savable(chain) && DecodeFile(EncodeFile(chain)) == None
  {
    hide Rebuild, MerkleRoot, Storable, BlockWithinCaps, EncodeFile, DecodeFile;
    var g := CanonicalGenesis(recipient);
    GenesisIsValid(recipient);
    StorableNotDecodable(g);
    assert g in [g];
    LoadAfterSave([g]);
  }

  /** So does mining: on every chain that can be saved, a miner address of that size gives a block that is accepted
      and stored, and then the file loads nothing. */
  lemma {:induction false} MinedButUnloadable(chain: seq<Block>, recipient: Blob, timestamp: u64, nonce: u64)
    requires Savable(chain) && chain != [] && |chain| <= MAX_U64 && 1_000_000 < |recipient| <= 2_000_000
    requires chain[|chain| - 1].header.timestamp <= timestamp
    requires var coinbase := CoinbaseFor(chain[|chain| - 1], recipient);
      coinbase.Some? ==>
        && Fresh(Rebuild(chain).value.utxo, Txid(coinbase.value), 1)
        && HeaderPowOk(EmptyBlock(chain, coinbase.value, timestamp, nonce).header)
    ensures CoinbaseFor(chain[|chain| - 1], recipient).Some?
    ensures var coinbase := CoinbaseFor(chain[|chain| - 1], recipient).value;
      var longer := chain + [EmptyBlock(chain, coinbase, timestamp, nonce)];
      Savable(longer) && DecodeFile(EncodeFile(longer)) == None
  {
    hide Rebuild, MerkleRoot, Storable, BlockWithinCaps, EncodeFile, DecodeFile, Fresh, HeaderPowOk, Txid,
      ExpectedDifficulty;
    ValidChainsGrow(chain, recipient, timestamp, nonce);
    var b := EmptyBlock(chain, CoinbaseFor(chain[|chain| - 1], recipient).value, timestamp, nonce);
    StorableNotDecodable(b);
    assert b in chain + [b];
    LoadAfterSave(chain + [b]);
  }
}
