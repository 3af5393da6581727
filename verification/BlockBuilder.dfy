/** Building and mining blocks (block_builder.hpp, and the mining path of node.hpp). */
module BlockBuilder {
  import opened Types
  import opened Serialization
  import opened TransactionCodec
  import opened BlockCodec
  import opened Merkle
  import opened Consensus
  import opened Coinbase
  import opened Rules
  import opened Sums
  import opened Utxo
  import opened ChainValidator
  import opened ChainFacts
  import opened Confirmed
  import opened Pool
  import opened Sweep
  import opened Mempool
  import opened Provenance

  /** The coinbase the builder puts into the block after `previous`. */
  function CoinbaseFor(previous: Block, recipient: Blob): Option<Transaction> {
    var height := NextHeight(previous.header.height);
    MakeCoinbase(height, recipient, height)
  }

  /** The builder writes the height into the coinbase, so coinbases it makes for different heights never share an id. */
  lemma {:induction false} BuiltCoinbasesDiffer(a: Block, b: Block, x: Blob, y: Blob, s: set<Bytes>)
    requires CoinbaseFor(a, x).Some? && CoinbaseFor(b, y).Some? && a.header.height != b.header.height
    requires CollisionFree(s) && PutBase(CoinbaseFor(a, x).value, []) in s && PutBase(CoinbaseFor(b, y).value, []) in s
    ensures Txid(CoinbaseFor(a, x).value) != Txid(CoinbaseFor(b, y).value)
  {
    hide PutBase, PutInt;
    var i, j := NextHeight(a.header.height), NextHeight(b.header.height);
    Pow256Values();
    TakePutInt(i, 8, []);
    TakePutInt(j, 8, []);
    var c, d := CoinbaseFor(a, x).value, CoinbaseFor(b, y).value;
    if Txid(c) == Txid(d) {
      BaseInjective(c, d);
      assert false;
    }
  }

  /** The unmined block over a coinbase and a list of ordinary transactions. */
  function Unmined(previous: Block, coinbase: Transaction, ordered: seq<Transaction>, timestamp: u64,
      difficulty: u32, nonce: u64): Block
  {
    var txs := [coinbase] + ordered;
    Block(BlockHeader(1, NextHeight(previous.header.height), BlockHash(previous),
            MerkleRoot(Txids(txs)), MerkleRoot(Wtxids(txs)), timestamp, nonce, difficulty), txs)
  }

  /** BlockBuilder::build with a set of unspent outputs; None where the source throws. */
  method Build(previous: Block, mempool: Mempool, recipient: Blob, timestamp: u64, difficulty: u32,
      nonce: u64, u: Utxo) returns (r: Option<Block>, ordered: seq<Transaction>)
    requires mempool.Valid()
    ensures r.Some? <==> CoinbaseFor(previous, recipient).Some?
    ensures r.Some? ==>
      r.value == Unmined(previous, CoinbaseFor(previous, recipient).value, ordered, timestamp, difficulty, nonce)
    ensures r.Some? ==> ordered == Swept(u, mempool.transactions, Ascending(mempool.transactions.Keys))
    ensures r.Some? && Orderly(u, mempool.transactions) ==> IsOrder(u, mempool.transactions, ordered)
    ensures r.Some? ==>
      var h, txs := r.value.header, [CoinbaseFor(previous, recipient).value] + ordered;
      && r.value.transactions == txs && h.version == 1 && h.height == NextHeight(previous.header.height)
      && h.previousHash == BlockHash(previous) && h.timestamp == timestamp && h.difficulty == difficulty
      && h.nonce == nonce && h.merkleRoot == MerkleRoot(Txids(txs)) && h.witnessRoot == MerkleRoot(Wtxids(txs))
  {
    hide Orderly, IsOrder, MerkleRoot, MakeCoinbase, Lists, Swept, Ascending;
    ordered := [];
    var coinbase := CoinbaseFor(previous, recipient);
    if coinbase.None? {
      return None, [];
    }
    ordered := mempool.OrderedTransactions(u);
    var txs := [coinbase.value] + ordered;
    var root := ComputeMerkleRoot(Txids(txs));
    var witnessRoot := ComputeMerkleRoot(Wtxids(txs));
    r := Some(Block(BlockHeader(1, NextHeight(previous.header.height), BlockHash(previous), root, witnessRoot,
      timestamp, nonce, difficulty), txs));
  }

  function WithNonce(b: Block, nonce: u64): Block {
    b.(header := b.header.(nonce := nonce))
  }

  /** BlockBuilder::mine: sets a nonce that satisfies the proof of work, and nothing else. The
      source re-checks the hash after setting it; the nonce is not part of the mined header, so
      that check cannot fail. */
  method Mine(b: Block, start: u64, maxAttempts: u64) returns (r: Option<Block>)
    ensures r.Some? ==>
      && r.value == b.(header := r.value.header) && r.value.header == b.header.(nonce := r.value.header.nonce)
      && b.header.difficulty <= 256
      && BigEndian(PowHash(EncodeHeader(b.header.(nonce := 0)), r.value.header.nonce)) <
        Pow2(256 - b.header.difficulty)
    ensures r.None? && b.header.difficulty <= 256 ==> forall n: u64 :: start <= n < start + maxAttempts ==>
      Pow2(256 - b.header.difficulty) <= BigEndian(PowHash(EncodeHeader(b.header.(nonce := 0)), n))
  {
    hide BigEndian, Pow2, EncodeHeader;
    var found := MinePow(PowHeader(b.header), b.header.difficulty, start, maxAttempts);
    r := match found case None => None case Some(n) => Some(WithNonce(b, n));
  }

  // ----- Built and mined blocks are accepted -----

  /** Outputs that the transactions neither spend nor create make no difference to them. */
  lemma {:induction false} ApplyTxsFrame(u: Utxo, extra: Utxo, txs: seq<Transaction>)
    requires ApplyTxs(u, txs).Some?
    requires extra.Keys !! u.Keys
    requires forall o, tx :: o in extra && tx in txs ==> o.txid != Txid(tx)
    ensures extra.Keys !! ApplyTxs(u, txs).value.Keys
    ensures ApplyTxs(u + extra, txs) == Some(ApplyTxs(u, txs).value + extra)
  {
    hide WitnessOk, Txid;
    if txs != [] {
      var front, tx := txs[..|txs| - 1], txs[|txs| - 1];
      ApplyTxsFrame(u, extra, front);
      CheckedApplyFrame(ApplyTxs(u, front).value, extra, tx);
    }
  }

  lemma {:induction false} CheckedApplyFrame(u: Utxo, extra: Utxo, tx: Transaction)
    requires CheckedApply(u, tx).Some? && extra.Keys !! u.Keys
    requires forall o :: o in extra ==> o.txid != Txid(tx)
    ensures extra.Keys !! CheckedApply(u, tx).value.Keys
    ensures CheckedApply(u + extra, tx) == Some(CheckedApply(u, tx).value + extra)
  {
    hide WitnessOk, Txid, Outputs;
    WitnessSpendable(tx, u);
    WitnessLocal(tx, u, u + extra);
    assert extra.Keys !! Spent(tx);
    RemoveFromUnion(u, extra, Spent(tx));
    SwapUnion(u - Spent(tx), extra, Created(tx));
  }

  lemma {:induction false} AppliedAreOrdinary(u: Utxo, txs: seq<Transaction>)
    requires ApplyTxs(u, txs).Some?
    ensures forall tx :: tx in txs ==> !IsCoinbase(tx) && TxValid(tx)
  {
    hide IsCoinbase, TxValid, ApplyTx;
    if txs != [] {
      AppliedAreOrdinary(u, txs[..|txs| - 1]);
      assert forall tx :: tx in txs ==> tx in txs[..|txs| - 1] || tx == txs[|txs| - 1];
    }
  }

  lemma {:induction false} BuiltBlockBasic(previous: Block, coinbase: Transaction, ordered: seq<Transaction>, u: Utxo,
      timestamp: u64, difficulty: u32, nonce: u64)
    requires CoinbaseOk(coinbase, NextHeight(previous.header.height))
    requires ApplyTxs(u, ordered).Some?
    ensures var b := Unmined(previous, coinbase, ordered, timestamp, difficulty, nonce);
      HeaderPowOk(b.header) ==> BasicOk(b)
  {
    hide TxValid, IsCoinbase, HeaderPowOk, MerkleRoot, Txids, Wtxids, ApplyTxs;
    var b := Unmined(previous, coinbase, ordered, timestamp, difficulty, nonce);
    AppliedAreOrdinary(u, ordered);
    forall i | 1 <= i < |b.transactions| ensures !IsCoinbase(b.transactions[i]) && TxValid(b.transactions[i]) {
      assert b.transactions[i] == ordered[i - 1] && ordered[i - 1] in ordered;
    }
    assert CoinbasePlacementOk(b.transactions, b.header.height);
  }

  lemma {:induction false} BuiltBlockApplies(u: Utxo, coinbase: Transaction, height: u64, b: Block,
      ordered: seq<Transaction>)
    requires CoinbaseOk(coinbase, height) && ApplyTxs(u, ordered).Some?
    requires forall tx :: tx in ordered ==> Txid(tx) != Txid(coinbase)
    requires b.transactions == [coinbase] + ordered && b.header.height == height
    ensures ApplyBlock(u, b).Some? <==> Fresh(u, Txid(coinbase), 1)
  {
    hide Txid, ApplyTxs;
    assert b.transactions[1..] == ordered;
    if Fresh(u, Txid(coinbase), 1) {
      FreshIsDisjoint(u, coinbase);
      ApplyTxsFrame(u, Created(coinbase), ordered);
    }
  }

  /** Over every valid chain, a block over any list that applies to it, built with the expected difficulty and a time
      not before the tip, once mined, passes the consensus check exactly if its coinbase is new. */
  lemma {:induction false} BuiltBlockAccepted(chain: seq<Block>, recipient: Blob, ordered: seq<Transaction>,
      timestamp: u64, nonce: u64)
    requires Valid(chain) && chain != [] && ApplyTxs(Rebuild(chain).value.utxo, ordered).Some?
    requires chain[|chain| - 1].header.timestamp <= timestamp
    requires CoinbaseFor(chain[|chain| - 1], recipient).Some?
    requires forall tx :: tx in ordered ==> Txid(tx) != Txid(CoinbaseFor(chain[|chain| - 1], recipient).value)
    requires var b := Unmined(chain[|chain| - 1], CoinbaseFor(chain[|chain| - 1], recipient).value, ordered,
        timestamp, ExpectedDifficulty(chain, |chain|), nonce);
      HeaderPowOk(b.header)
    ensures var coinbase := CoinbaseFor(chain[|chain| - 1], recipient).value;
      var b := Unmined(chain[|chain| - 1], coinbase, ordered, timestamp, ExpectedDifficulty(chain, |chain|), nonce);
      BlockConsensusOk(b, chain, Rebuild(chain).value.utxo) <==> Fresh(Rebuild(chain).value.utxo, Txid(coinbase), 1)
  {
    hide Rebuild, BasicOk, HeaderPowOk, MerkleRoot, ExpectedDifficulty, Txid, ApplyBlock, ApplyTxs, Reissue;
    var previous, u := chain[|chain| - 1], Rebuild(chain).value.utxo;
    var coinbase := CoinbaseFor(previous, recipient).value;
    var b := Unmined(previous, coinbase, ordered, timestamp, ExpectedDifficulty(chain, |chain|), nonce);
    BuiltBlockBasic(previous, coinbase, ordered, u, timestamp, ExpectedDifficulty(chain, |chain|), nonce);
    BuiltBlockApplies(u, coinbase, b.header.height, b, ordered);
    ReissueAgrees(chain);
    SupplyCapUnreachable(chain, b);
    assert Follows(chain, b);
  }

  /** No once-funded transaction shares the id of a coinbase: its inputs would be the null one. */
  lemma {:induction false} CoinbaseApart(coinbase: Transaction, tx: Transaction, s: set<Bytes>)
    requires CollisionFree(s) && IsCoinbase(coinbase) && PutBase(coinbase, []) in s && OnceFunded(tx, s)
    ensures Txid(tx) != Txid(coinbase)
  {
    hide PutBase, WitnessOk, Rooted;
    var v :| Rooted(v, s) && WitnessOk(tx, v);
    WitnessSpendable(tx, v);
    assert tx.inputs[0] in tx.inputs;
    FundedAgain(tx, v, s);
    if Txid(tx) == Txid(coinbase) {
      SameIdSameBody(tx, coinbase, s);
      assert false;
    }
  }

  /** Block production is sound and exact: over every valid chain and every pool of transactions that were admitted at
      some time, whether it fits the chain or not and in whatever order it is swept, the block built and mined passes
      the consensus check exactly if its coinbase is new. */
  lemma {:induction false} MinedBlockAccepted(chain: seq<Block>, p: Pool, order: seq<Hash256>, recipient: Blob,
      timestamp: u64, nonce: u64, s: set<Bytes>)
    requires Valid(chain) && chain != [] && CollisionFree(s) && IdPreimages(Flatten(chain)) <= s
    requires Vouched(p, s) && KeyedById(p)
    requires chain[|chain| - 1].header.timestamp <= timestamp
    requires CoinbaseFor(chain[|chain| - 1], recipient).Some?
    requires PutBase(CoinbaseFor(chain[|chain| - 1], recipient).value, []) in s
    requires var b := Unmined(chain[|chain| - 1], CoinbaseFor(chain[|chain| - 1], recipient).value,
        Swept(Rebuild(chain).value.utxo, p, order), timestamp, ExpectedDifficulty(chain, |chain|), nonce);
      HeaderPowOk(b.header)
    ensures var u := Rebuild(chain).value.utxo;
      var coinbase := CoinbaseFor(chain[|chain| - 1], recipient).value;
      var b := Unmined(chain[|chain| - 1], coinbase, Swept(u, p, order), timestamp,
        ExpectedDifficulty(chain, |chain|), nonce);
      BlockConsensusOk(b, chain, u) <==> Fresh(u, Txid(coinbase), 1)
  {
    hide Rebuild, HeaderPowOk, MerkleRoot, ExpectedDifficulty, Txid, ApplyTxs, Swept, Vouched, KeyedById, OnceFunded,
      CollisionFree, IdPreimages, Flatten, BlockConsensusOk, PutBase, Rooted, IsCoinbase;
    var u, coinbase := Rebuild(chain).value.utxo, CoinbaseFor(chain[|chain| - 1], recipient).value;
    var ordered := Swept(u, p, order);
    ChainRooted(chain, s);
    SweptApplies(u, p, order, s);
    forall tx | tx in ordered ensures Txid(tx) != Txid(coinbase) {
      CoinbaseApart(coinbase, tx, s);
    }
    BuiltBlockAccepted(chain, recipient, ordered, timestamp, nonce);
  }
}
