/** What holds of every valid chain: heights, issuance, difficulty, conservation of value, and
    the agreement of the one-block check with full validation. */
module ChainFacts {
  import opened Types
  import opened TransactionCodec
  import opened Consensus
  import opened Coinbase
  import opened Rules
  import opened Sums
  import opened Utxo
  import opened ChainValidator

  /** The ledger before block `i` of a valid chain, and that block extending it. */
  lemma {:induction false} BlockAt(chain: seq<Block>, i: nat)
    requires Valid(chain) && 0 < i < |chain|
    ensures Valid(chain[..i]) && Valid(chain[..i + 1])
    ensures BasicOk(chain[i]) && Follows(chain[..i], chain[i])
    ensures ApplyBlock(Rebuild(chain[..i]).value.utxo, chain[i]) == Some(Rebuild(chain[..i + 1]).value.utxo)
    ensures Issue(chain[i], Rebuild(chain[..i]).value.issued) == Some(Rebuild(chain[..i + 1]).value.issued)
  {
    RebuildPrefix(chain, i);
    RebuildPrefix(chain, i + 1);
    RebuildStep(chain, i);
  }

  lemma {:induction false} LastBlock(chain: seq<Block>)
    requires Valid(chain) && |chain| > 1
    ensures var n := |chain| - 1;
      && Valid(chain[..n]) && BasicOk(chain[n]) && Follows(chain[..n], chain[n])
      && ApplyBlock(Rebuild(chain[..n]).value.utxo, chain[n]) == Some(Rebuild(chain).value.utxo)
      && Issue(chain[n], Rebuild(chain[..n]).value.issued) == Some(Rebuild(chain).value.issued)
  {
    assert chain[..|chain| - 1 + 1] == chain;
    BlockAt(chain, |chain| - 1);
  }

  lemma {:induction false} GenesisOnly(chain: seq<Block>)
    requires Valid(chain) && |chain| == 1
    ensures Rebuild(chain) == Some(LedgerState(map[], 0))
    ensures chain[0].header.height == 0 && chain[0].header.difficulty == 0
  {
  }

  /** What the last block of a chain adds, in numbers. A wrapped height would need a coinbase at
      height zero, so heights do not wrap. */
  lemma {:induction false} TipFacts(chain: seq<Block>)
    requires Valid(chain) && |chain| > 1
    ensures var n := |chain| - 1;
      && Valid(chain[..n])
      && chain[n].header.height == chain[n - 1].header.height + 1
      && Rebuild(chain).value.issued == Rebuild(chain[..n]).value.issued + Subsidy(chain[n].header.height)
  {
    hide Rebuild;
    LastBlock(chain);
    OneOutput(chain[|chain| - 1].transactions[0].outputs);
  }

  lemma {:induction false} OneOutput(outputs: seq<TxOutput>)
    requires |outputs| == 1
    ensures SumAmounts(outputs) == outputs[0].amount
  {
    assert outputs[..0] == [];
  }

  lemma {:induction false} TipHeight(chain: seq<Block>)
    requires Valid(chain)
    ensures chain != [] && chain[|chain| - 1].header.height == |chain| - 1
  {
    assert chain != [];
    hide Rebuild;
    if |chain| == 1 {
      GenesisOnly(chain);
    } else {
      TipFacts(chain);
      TipHeight(chain[..|chain| - 1]);
    }
  }

  /** Heights are indices. */
  lemma {:induction false} HeightIsIndex(chain: seq<Block>, i: nat)
    requires Valid(chain) && i < |chain|
    ensures chain[i].header.height == i
  {
    hide Rebuild;
    RebuildPrefix(chain, i + 1);
    TipHeight(chain[..i + 1]);
  }

  /** Exactly the scheduled subsidies are issued. */
  lemma {:induction false} IssuedIsMinted(chain: seq<Block>)
    requires Valid(chain)
    ensures 0 < |chain| <= MAX_U64 + 1 && Rebuild(chain).value.issued == Minted(|chain| - 1)
  {
    hide Rebuild;
    TipHeight(chain);
    if |chain| == 1 {
      GenesisOnly(chain);
    } else {
      TipFacts(chain);
      IssuedIsMinted(chain[..|chain| - 1]);
    }
  }

  /** No valid chain, however long, reaches the supply cap; so a block with a proper coinbase is
      never refused for it. */
  lemma {:induction false} SupplyCapUnreachable(chain: seq<Block>, b: Block)
    requires Valid(chain)
    ensures Rebuild(chain).value.issued < MAX_SUPPLY
    ensures b.transactions != [] && CoinbaseOk(b.transactions[0], b.header.height) ==>
      Issue(b, Rebuild(chain).value.issued).Some?
  {
    hide Rebuild;
    IssuedIsMinted(chain);
    MintedBelowSupply(|chain| - 1);
    if b.transactions != [] && |b.transactions[0].outputs| == 1 {
      OneOutput(b.transactions[0].outputs);
    }
  }

  /** Recounting the coinbases of a valid chain gives the running total. */
  lemma {:induction false} ReissueAgrees(chain: seq<Block>)
    requires Valid(chain)
    ensures Reissue(chain) == Some(Rebuild(chain).value.issued)
  {
    TipHeight(chain);
    if |chain| > 1 {
      LastBlock(chain);
      ReissueAgrees(chain[..|chain| - 1]);
    } else {
      assert chain[..0] == [];
    }
  }

  /** The one-block check against the rebuilt set accepts exactly the blocks that keep the chain
      valid. */
  lemma {:induction false} ConsensusIffValid(chain: seq<Block>, b: Block)
    requires Valid(chain)
    ensures BlockConsensusOk(b, chain, Rebuild(chain).value.utxo) <==> Valid(chain + [b])
  {
    ReissueAgrees(chain);
    assert (chain + [b])[..|chain|] == chain;
  }

  lemma {:induction false} ExtendsValid(chain: seq<Block>, b: Block)
    requires Valid(chain)
    ensures Rebuild(chain + [b]) == Extend(chain, Rebuild(chain).value, b)
  {
    assert (chain + [b])[..|chain|] == chain;
  }

  // ----- Difficulty -----

  /** Upper bound of the difficulty at a position after genesis. */
  function Ceiling(pos: nat): nat {
    if pos <= 11 then 12
    else if pos < 19 then 12 + 2 * (pos - 11)
    else if pos < 30 then 13
    else if pos < 40 then 13 + 2 * (pos - 29)
    else 8
  }

  /** One step of the rule keeps the bounds. */
  lemma {:induction false} ExpectedBounded(chain: seq<Block>)
    requires |chain| > 1
    requires var previous := chain[|chain| - 1].header;
      previous.height != 0 && 8 <= previous.difficulty <= Ceiling(|chain| - 1)
    ensures 8 <= ExpectedDifficulty(chain, |chain|) <= Ceiling(|chain|)
  {
    var n, previous := |chain|, chain[|chain| - 1].header;
    if DIFFICULTY_WINDOW < n < FIXED_HEIGHT && TimesAscend(chain, n) {
      RetargetBounded(previous.difficulty, Intervals(chain, n));
    }
  }

  /** The difficulty of every mined block lies between 8 and 33. */
  lemma {:induction false} DifficultyBounded(chain: seq<Block>, i: nat)
    requires Valid(chain) && 0 < i < |chain|
    ensures 8 <= chain[i].header.difficulty <= Ceiling(i) <= 33
    ensures i >= FIXED_HEIGHT ==> chain[i].header.difficulty == FIXED_DIFFICULTY
  {
    hide Rebuild, BasicOk, Issue, ApplyBlock;
    BlockAt(chain, i);
    HeightIsIndex(chain, i - 1);
    if i == 1 {
      RebuildPrefix(chain, 1);
      GenesisOnly(chain[..1]);
    } else {
      DifficultyBounded(chain, i - 1);
      ExpectedBounded(chain[..i]);
    }
  }

  // ----- Conservation of value -----

  /** Fees burned by transactions applied in order. */
  function Fees(u: Utxo, txs: seq<Transaction>): nat
    requires ApplyTxs(u, txs).Some?
  {
    if txs == [] then 0
    else
      var front, tx := txs[..|txs| - 1], txs[|txs| - 1];
      Fees(u, front) + InputSum(ApplyTxs(u, front).value, tx.inputs) - SumAmounts(tx.outputs)
  }

  function BlockFees(u: Utxo, b: Block): nat
    requires ApplyBlock(u, b).Some?
  {
    Fees(u + Created(b.transactions[0]), b.transactions[1..])
  }

  /** Fees burned over a whole chain. */
  ghost function ChainFees(chain: seq<Block>): nat
    requires Valid(chain)
  {
    if |chain| == 1 then 0
    else
      LastBlock(chain);
      ChainFees(chain[..|chain| - 1]) + BlockFees(Rebuild(chain[..|chain| - 1]).value.utxo, chain[|chain| - 1])
  }

  lemma {:induction false} TxsConserve(u: Utxo, txs: seq<Transaction>)
    requires ApplyTxs(u, txs).Some?
    ensures Total(ApplyTxs(u, txs).value) + Fees(u, txs) == Total(u)
  {
    if txs != [] {
      var front := txs[..|txs| - 1];
      TxsConserve(u, front);
      ApplyTxTotal(ApplyTxs(u, front).value, txs[|txs| - 1]);
    }
  }

  lemma {:induction false} CoinbaseMints(u: Utxo, coinbase: Transaction)
    requires |coinbase.outputs| == 1 && Fresh(u, Txid(coinbase), 1)
    ensures Total(u + Created(coinbase)) == Total(u) + coinbase.outputs[0].amount
  {
    FreshIsDisjoint(u, coinbase);
    SumUnion(u, Created(coinbase), Amount);
    TotalOfOutputs(Txid(coinbase), coinbase.outputs);
    OneOutput(coinbase.outputs);
  }

  lemma {:induction false} BlockConserves(u: Utxo, b: Block)
    requires ApplyBlock(u, b).Some?
    ensures Total(ApplyBlock(u, b).value) + BlockFees(u, b) == Total(u) + b.transactions[0].outputs[0].amount
  {
    CoinbaseMints(u, b.transactions[0]);
    TxsConserve(u + Created(b.transactions[0]), b.transactions[1..]);
  }

  /** Value is conserved: what is unspent and what was burned as fees add up to what was issued. */
  lemma {:induction false} Conservation(chain: seq<Block>)
    requires Valid(chain)
    ensures Total(Rebuild(chain).value.utxo) + ChainFees(chain) == Rebuild(chain).value.issued
  {
    if |chain| > 1 {
      var front, b := chain[..|chain| - 1], chain[|chain| - 1];
      LastBlock(chain);
      Conservation(front);
      BlockConserves(Rebuild(front).value.utxo, b);
      OneOutput(b.transactions[0].outputs);
    }
  }

  lemma {:induction false} UnspentBelowSupply(chain: seq<Block>)
    requires Valid(chain)
    ensures Total(Rebuild(chain).value.utxo) + INITIAL_SUBSIDY <= MAX_SUPPLY
  {
    hide Rebuild;
    Conservation(chain);
    IssuedIsMinted(chain);
    MintedBelowSupply(|chain| - 1);
  }

  /** The 64-bit guard on input sums never fires: at every turn of a block built on a valid chain,
      the inputs of any transaction are worth no more than the supply cap. */
  lemma {:induction false} InputOverflowUnreachable(chain: seq<Block>, coinbase: Transaction, height: u64,
      txs: seq<Transaction>, v: Utxo, inputs: seq<OutPoint>)
    requires Valid(chain) && CoinbaseOk(coinbase, height)
    requires Fresh(Rebuild(chain).value.utxo, Txid(coinbase), 1)
    requires ApplyTxs(Rebuild(chain).value.utxo + Created(coinbase), txs) == Some(v) && Spendable(v, inputs)
    ensures InputSum(v, inputs) <= MAX_SUPPLY < MAX_U64
  {
    hide Rebuild;
    var u := Rebuild(chain).value.utxo;
    UnspentBelowSupply(chain);
    CoinbaseMints(u, coinbase);
    TxsConserve(u + Created(coinbase), txs);
    InputsWithinTotal(v, inputs);
  }
}
