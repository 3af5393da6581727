/** Chain validation: the ledger as a fold over blocks (chain_validator.hpp). */
module ChainValidator {
  import opened Types
  import opened TransactionCodec
  import opened BlockCodec
  import opened Coinbase
  import opened Rules
  import opened Utxo

  type Issued = n: nat | n <= MAX_SUPPLY

  /** ChainValidationResult */
  datatype LedgerState = LedgerState(utxo: Utxo, issued: Issued)

  /** Check an ordinary transaction against what is unspent, and apply it. */
  function CheckedApply(u: Utxo, tx: Transaction): Option<Utxo> {
    if !IsCoinbase(tx) && WitnessOk(tx, u) then ApplyTx(u, tx) else None
  }

  /** Ordinary transactions, each at its turn. */
  function ApplyTxs(u: Utxo, txs: seq<Transaction>): Option<Utxo> {
    if txs == [] then Some(u)
    else
      var v :- ApplyTxs(u, txs[..|txs| - 1]);
      CheckedApply(v, txs[|txs| - 1])
  }

  function ApplyBlock(u: Utxo, b: Block): Option<Utxo> {
    if b.transactions == [] || !CoinbaseOk(b.transactions[0], b.header.height) then None
    else
      var coinbase := b.transactions[0];
      if Fresh(u, Txid(coinbase), 1) then ApplyTxs(u + Created(coinbase), b.transactions[1..]) else None
  }

  /** What a block adds to the amount issued; None past the supply cap. */
  function Issue(b: Block, issued: Issued): Option<Issued> {
    if b.transactions == [] || !IsCoinbase(b.transactions[0]) then Some(issued)
    else
      var total := issued + SumAmounts(b.transactions[0].outputs);
      if total <= MAX_SUPPLY then Some(total) else None
  }

  /** The header of `b` follows the tip of `chain` and carries the expected difficulty. */
  predicate Follows(chain: seq<Block>, b: Block)
    requires chain != []
  {
    var previous := chain[|chain| - 1];
    && b.header.height == NextHeight(previous.header.height)
    && b.header.previousHash == BlockHash(previous)
    && previous.header.timestamp <= b.header.timestamp
    && b.header.difficulty == ExpectedDifficulty(chain, |chain|)
  }

  function Extend(chain: seq<Block>, st: LedgerState, b: Block): Option<LedgerState>
    requires chain != []
  {
    if !BasicOk(b) || !Follows(chain, b) then None
    else
      var issued :- Issue(b, st.issued);
      var utxo :- ApplyBlock(st.utxo, b);
      Some(LedgerState(utxo, issued))
  }

  /** The ledger of a chain, defined one block at a time; None if the chain is invalid. */
  function Rebuild(chain: seq<Block>): Option<LedgerState> {
    if chain == [] then None
    else if |chain| == 1 then
      if GenesisOk(chain[0]) then Some(LedgerState(map[], 0)) else None
    else
      var front := chain[..|chain| - 1];
      var st :- Rebuild(front);
      Extend(front, st, chain[|chain| - 1])
  }

  predicate Valid(chain: seq<Block>) { Rebuild(chain).Some? }

  // ----- The methods of the source -----

  method AddOutputs(txid: Hash256, outputs: Seq32<TxOutput>, utxos: UTXOSet) returns (ok: bool)
    modifies utxos
    ensures ok <==> Fresh(old(utxos.entries), txid, |outputs|)
    ensures ok ==> utxos.entries == old(utxos.entries) + Outputs(txid, outputs)
  {
    ghost var u := utxos.entries;
    assert u + Outputs(txid, outputs[..0]) == u;
    for i := 0 to |outputs|
      invariant Fresh(u, txid, i)
      invariant utxos.entries == u + Outputs(txid, outputs[..i])
    {
      AddOneOutput(u, txid, outputs, i);
      FreshOneMore(u, txid, outputs, i);
      var added := utxos.Add(OutPoint(txid, i), outputs[i]);
      if !added {
        assert !Fresh(u, txid, |outputs|);
        return false;
      }
    }
    assert outputs[..|outputs|] == outputs;
    ok := true;
  }

  method SpendInputs(tx: Transaction, utxos: UTXOSet) returns (ok: bool)
    modifies utxos
    ensures ok <==> Spendable(old(utxos.entries), tx.inputs)
    ensures ok ==> utxos.entries == old(utxos.entries) - Spent(tx)
  {
    ghost var u := utxos.entries;
    for i := 0 to |tx.inputs|
      invariant Spendable(u, tx.inputs[..i])
      invariant utxos.entries == u - (set o | o in tx.inputs[..i])
    {
      var spent := utxos.Spend(tx.inputs[i]);
      if !spent {
        assert tx.inputs[i] in u ==> tx.inputs[i] in tx.inputs[..i];
        return false;
      }
      assert tx.inputs[..i + 1] == tx.inputs[..i] + [tx.inputs[i]];
    }
    assert tx.inputs[..|tx.inputs|] == tx.inputs;
    ok := true;
  }

  /** Spend the inputs, then add the outputs, without any check of signatures. */
  method MoveInPlace(tx: Transaction, utxos: UTXOSet) returns (ok: bool)
    modifies utxos
    ensures ok <==> ApplyTx(old(utxos.entries), tx).Some?
    ensures ok ==> utxos.entries == ApplyTx(old(utxos.entries), tx).value
  {
    ok := SpendInputs(tx, utxos);
    if ok {
      ok := AddOutputs(Txid(tx), tx.outputs, utxos);
    }
  }

  method ApplyTransactionInPlace(tx: Transaction, utxos: UTXOSet) returns (ok: bool)
    modifies utxos
    ensures ok <==> CheckedApply(old(utxos.entries), tx).Some?
    ensures ok ==> utxos.entries == CheckedApply(old(utxos.entries), tx).value
  {
    if IsCoinbase(tx) {
      return false;
    }
    ok := ValidateTransactionWitness(tx, utxos.entries);
    if !ok {
      return false;
    }
    ok := MoveInPlace(tx, utxos);
  }

  /** apply_block_transactions_in_place_after_basic_validation. A refused block leaves the set
      partly updated, so nothing is promised of it then. */
  method ApplyBlockInPlace(b: Block, utxos: UTXOSet) returns (ok: bool)
    modifies utxos
    ensures ok <==> ApplyBlock(old(utxos.entries), b).Some?
    ensures ok ==> utxos.entries == ApplyBlock(old(utxos.entries), b).value
  {
    if b.transactions == [] || !CoinbaseOk(b.transactions[0], b.header.height) {
      return false;
    }
    var coinbase := b.transactions[0];
    ok := AddOutputs(Txid(coinbase), coinbase.outputs, utxos);
    if !ok {
      return false;
    }
    ghost var start, txs := utxos.entries, b.transactions[1..];
    for i := 1 to |b.transactions|
      invariant ok && ApplyTxs(start, txs[..i - 1]) == Some(utxos.entries)
    {
      assert txs[..i][..i - 1] == txs[..i - 1] && txs[..i][i - 1] == b.transactions[i];
      ok := ApplyTransactionInPlace(b.transactions[i], utxos);
      if !ok {
        ApplyTxsPrefix(start, txs, i);
        return false;
      }
    }
    assert txs[..|b.transactions| - 1] == txs;
  }

  /** If a prefix cannot be applied, neither can the whole. */
  lemma {:induction false} ApplyTxsPrefix(u: Utxo, txs: seq<Transaction>, n: nat)
    requires n <= |txs|
    ensures ApplyTxs(u, txs).Some? ==> ApplyTxs(u, txs[..n]).Some?
  {
    if n == |txs| {
      assert txs[..n] == txs;
    } else {
      var front := txs[..|txs| - 1];
      ApplyTxsPrefix(u, front, n);
      assert front[..n] == txs[..n];
    }
  }

  /** add_coinbase_issuance, output by output, with the subtraction that cannot wrap. */
  method AddCoinbaseIssuance(b: Block, issued: Issued) returns (r: Option<Issued>)
    ensures r == Issue(b, issued)
  {
    if b.transactions == [] || !IsCoinbase(b.transactions[0]) {
      return Some(issued);
    }
    var outputs := b.transactions[0].outputs;
    var total: Issued := issued;
    for i := 0 to |outputs|
      invariant total == issued + SumAmounts(outputs[..i])
    {
      SumPrefix(outputs, i);
      if outputs[i].amount > MAX_SUPPLY - total {
        return None;
      }
      assert outputs[..i + 1][..i] == outputs[..i];
      total := total + outputs[i].amount;
    }
    assert outputs[..|outputs|] == outputs;
    r := Some(total);
  }

  /** validate_block_position_with_chain */
  predicate PositionOk(chain: seq<Block>, i: nat) {
    && 0 < i < |chain|
    && var previous, b := chain[i - 1], chain[i];
       && b.header.height == NextHeight(previous.header.height)
       && b.header.previousHash == BlockHash(previous)
       && previous.header.timestamp <= b.header.timestamp
       && b.header.difficulty == ExpectedDifficulty(chain, i)
  }

  /** Looking at a position inside the whole chain is the same as extending the chain before it. */
  lemma {:induction false} PositionIsFollows(chain: seq<Block>, i: nat)
    requires 0 < i < |chain|
    ensures PositionOk(chain, i) <==> Follows(chain[..i], chain[i])
  {
    DifficultyPrefixStable(chain, i);
  }

  /** One round of the validation loop, in the order of the source. */
  method ExtendInPlace(chain: seq<Block>, i: nat, utxos: UTXOSet, issued: Issued) returns (r: Option<Issued>)
    requires 0 < i < |chain|
    modifies utxos
    ensures var next := Extend(chain[..i], LedgerState(old(utxos.entries), issued), chain[i]);
      && (r.Some? <==> next.Some?)
      && (r.Some? ==> next.value == LedgerState(utxos.entries, r.value))
  {
    PositionIsFollows(chain, i);
    if !BasicOk(chain[i]) || !PositionOk(chain, i) {
      return None;
    }
    r := AddCoinbaseIssuance(chain[i], issued);
    if r.Some? {
      var ok := ApplyBlockInPlace(chain[i], utxos);
      if !ok {
        return None;
      }
    }
  }

  /** validate_and_rebuild_chain: one pass over the whole chain with a running set and total. */
  method ValidateAndRebuildChain(chain: seq<Block>) returns (r: Option<LedgerState>)
    ensures r == Rebuild(chain)
  {
    RebuildPrefix(chain, 1);
    if chain == [] || !GenesisOk(chain[0]) {
      return None;
    }
    var utxos := new UTXOSet(map[]);
    var issued: Issued := 0;
    for i := 1 to |chain|
      invariant Rebuild(chain[..i]) == Some(LedgerState(utxos.entries, issued))
      invariant fresh(utxos)
    {
      RebuildStep(chain, i);
      RebuildPrefix(chain, i + 1);
      var next := ExtendInPlace(chain, i, utxos, issued);
      if next.None? {
        return None;
      }
      issued := next.value;
    }
    assert chain[..|chain|] == chain;
    r := Some(LedgerState(utxos.entries, issued));
  }

  lemma {:induction false} RebuildStep(chain: seq<Block>, i: nat)
    requires 0 < i < |chain| && Rebuild(chain[..i]).Some?
    ensures Rebuild(chain[..i + 1]) == Extend(chain[..i], Rebuild(chain[..i]).value, chain[i])
  {
    assert chain[..i + 1][..i] == chain[..i];
  }

  /** A chain that starts badly is invalid. */
  lemma {:induction false} RebuildPrefix(chain: seq<Block>, n: nat)
    requires 0 < n
    ensures n <= |chain| && Rebuild(chain).Some? ==> Rebuild(chain[..n]).Some?
  {
    if n == |chain| {
      assert chain[..n] == chain;
    } else if n < |chain| {
      var front := chain[..|chain| - 1];
      RebuildPrefix(front, n);
      assert front[..n] == chain[..n];
    }
  }

  /** validate_total_coinbase_issuance recomputes the total, skipping height zero. */
  function Reissue(chain: seq<Block>): Option<Issued> {
    if chain == [] then Some(0)
    else
      var issued :- Reissue(chain[..|chain| - 1]);
      var b := chain[|chain| - 1];
      if b.header.height == 0 then Some(issued) else Issue(b, issued)
  }

  /** The loop that counts what the stored chain has issued. */
  method RecountIssuance(chain: seq<Block>) returns (total: Option<Issued>)
    ensures total == Reissue(chain)
  {
    hide Issue;
    var sum: Issued := 0;
    for i := 0 to |chain|
      invariant Reissue(chain[..i]) == Some(sum)
    {
      assert chain[..i + 1][..i] == chain[..i];
      if chain[i].header.height != 0 {
        var next := AddCoinbaseIssuance(chain[i], sum);
        if next.None? {
          ReissuePrefix(chain, i + 1);
          return None;
        }
        sum := next.value;
      }
    }
    assert chain[..|chain|] == chain;
    total := Some(sum);
  }

  /** validate_block_consensus */
  predicate BlockConsensusOk(b: Block, chain: seq<Block>, u: Utxo) {
    && chain != []
    && BasicOk(b) && Follows(chain, b)
    && ApplyBlock(u, b).Some?
    && Reissue(chain).Some? && Issue(b, Reissue(chain).value).Some?
  }

  method ValidateBlockConsensus(b: Block, chain: seq<Block>, u: Utxo) returns (ok: bool)
    ensures ok == BlockConsensusOk(b, chain, u)
  {
    if chain == [] || !BasicOk(b) || !Follows(chain, b) {
      return false;
    }
    var utxos := new UTXOSet(u);
    ok := ApplyBlockInPlace(b, utxos);
    if !ok {
      return false;
    }
    var total := RecountIssuance(chain);
    if total.None? {
      return false;
    }
    var next := AddCoinbaseIssuance(b, total.value);
    ok := next.Some?;
  }

  lemma {:induction false} ReissuePrefix(chain: seq<Block>, n: nat)
    requires n <= |chain|
    ensures Reissue(chain).Some? ==> Reissue(chain[..n]).Some?
  {
    if n == |chain| {
      assert chain[..n] == chain;
    } else {
      var front := chain[..|chain| - 1];
      ReissuePrefix(front, n);
      assert front[..n] == chain[..n];
    }
  }
}
