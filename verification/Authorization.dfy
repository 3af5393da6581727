/** Nothing leaves the ledger without its owner's signature (ownership.hpp, transaction_signature.hpp). */
module Authorization {
  import opened Types
  import opened Serialization
  import opened TransactionCodec
  import opened Coinbase
  import opened Rules
  import opened Utxo
  import opened ChainValidator
  import opened ChainFacts

  /** What is signed fixes the transaction, apart from its witnesses, and the input. */
  lemma {:induction false} MessageFixes(a: Transaction, i: u32, b: Transaction, j: u32)
    requires SigningMessage(a, i) == SigningMessage(b, j)
    ensures a.(witnesses := []) == b.(witnesses := []) && i == j
  {
    hide PutBase, TakeBase, PutInt, TakeInt;
    var restA, restB := PutInt(i, 4, []), PutInt(j, 4, []);
    TakePutBlob(SIGNATURE_DOMAIN, PutBase(a, restA), MAX_U32);
    TakePutBlob(SIGNATURE_DOMAIN, PutBase(b, restB), MAX_U32);
    BaseRoundTrip(a, restA, MAX_U32);
    BaseRoundTrip(b, restB, MAX_U32);
    Pow256Values();
    TakePutInt(i, 4, []);
    TakePutInt(j, 4, []);
  }

  /** The key that input `k` shows has the address of the spent output, and signed this transaction for that input. */
  ghost predicate SignedByOwner(tx: Transaction, k: nat, spent: TxOutput) {
    && k < |tx.inputs| == |tx.witnesses|
    && var w := tx.witnesses[k];
       && spent.recipient == AddressOf(w.publicKey) && KeyParses(w.publicKey)
       && SignatureOk(SigningMessage(tx, k), w.publicKey, w.signature)
  }

  /** Exactly when an ordinary transaction may spend: well-formed, with different existing inputs that are worth its
      outputs, each signed by the owner of what it spends. */
  lemma {:induction false} MaySpendIff(tx: Transaction, u: Utxo)
    ensures WitnessOk(tx, u) <==>
      && tx.version != 0 && tx.inputs != [] && tx.outputs != []
      && (forall o :: o in tx.outputs ==> o.amount > 0 && o.recipient != [])
      && (forall j, k :: 0 <= j < k < |tx.inputs| ==> tx.inputs[j] != tx.inputs[k])
      && (forall o :: o in tx.inputs ==> o in u)
      && SumAmounts(tx.outputs) <= InputSum(u, tx.inputs) <= MAX_U64
      && |tx.witnesses| == |tx.inputs|
      && forall k :: 0 <= k < |tx.inputs| ==>
           && SignedByOwner(tx, k, u[tx.inputs[k]]) && u[tx.inputs[k]].recipient != []
           && tx.witnesses[k].publicKey != [] && tx.witnesses[k].signature != []
  {
    hide SigningMessage, SumAmounts, InputSum;
    if WitnessOk(tx, u) {
      forall k | 0 <= k < |tx.inputs| ensures SignedByOwner(tx, k, u[tx.inputs[k]]) {
        assert tx.witnesses[k] in tx.witnesses && OwnsInput(tx, k, u[tx.inputs[k]]);
      }
    }
  }

  /** An output that a list of ordinary transactions removes, or replaces, was spent with its owner's signature. */
  lemma {:induction false} TxsSpendOwned(u: Utxo, txs: seq<Transaction>, o: OutPoint) returns (j: nat, k: nat)
    requires ApplyTxs(u, txs).Some? && o in u
    requires var v := ApplyTxs(u, txs).value; o !in v || v[o] != u[o]
    ensures j < |txs| && !IsCoinbase(txs[j]) && k < |txs[j].inputs| && txs[j].inputs[k] == o
    ensures SignedByOwner(txs[j], k, u[o])
  {
    hide SigningMessage, Txid, IsCoinbase, Outputs, WitnessOk, SignedByOwner;
    var front, tx := txs[..|txs| - 1], txs[|txs| - 1];
    var v := ApplyTxs(u, front).value;
    if o !in v || v[o] != u[o] {
      j, k := TxsSpendOwned(u, front, o);
    } else {
      assert o in Spent(tx);
      j := |txs| - 1;
      k :| 0 <= k < |tx.inputs| && tx.inputs[k] == o;
      MaySpendIff(tx, v);
    }
  }

  /** Nothing leaves the ledger of a valid chain, or changes in it, without its owner: the block has an ordinary
      transaction that names the output, with the key of its address and that key's signature. */
  lemma {:induction false} SpentWasSigned(chain: seq<Block>, i: nat, o: OutPoint) returns (j: nat, k: nat)
    requires Valid(chain) && 0 < i < |chain|
    requires Valid(chain[..i]) && Valid(chain[..i + 1])
    requires o in Rebuild(chain[..i]).value.utxo
    requires var after := Rebuild(chain[..i + 1]).value.utxo;
      o !in after || after[o] != Rebuild(chain[..i]).value.utxo[o]
    ensures 0 < j < |chain[i].transactions|
    ensures var tx := chain[i].transactions[j];
      && !IsCoinbase(tx) && k < |tx.inputs| && tx.inputs[k] == o
      && SignedByOwner(tx, k, Rebuild(chain[..i]).value.utxo[o])
  {
    hide Rebuild, BasicOk, Follows, Issue, ApplyTxs, CoinbaseOk, IsCoinbase, SignedByOwner, Txid;
    BlockAt(chain, i);
    var u, txs := Rebuild(chain[..i]).value.utxo, chain[i].transactions;
    var start := u + Created(txs[0]);
    OneOutputFresh(u, txs[0], chain[i].header.height, o);
    j, k := TxsSpendOwned(start, txs[1..], o);
    j := j + 1;
  }

  lemma {:induction false} OneOutputFresh(u: Utxo, coinbase: Transaction, height: u64, o: OutPoint)
    requires CoinbaseOk(coinbase, height) && Fresh(u, Txid(coinbase), 1) && o in u
    ensures o in u + Created(coinbase) && (u + Created(coinbase))[o] == u[o]
  {
    hide Txid;
  }

  /** The same over any stretch of a chain: an output there after `n` blocks and not after `m` was signed away in one of
      the blocks between. */
  lemma {:induction false} LeftWasSigned(chain: seq<Block>, n: nat, m: nat, o: OutPoint)
    returns (i: nat, j: nat, k: nat)
    requires Valid(chain) && 0 < n <= m <= |chain| && Valid(chain[..n]) && Valid(chain[..m])
    requires o in Rebuild(chain[..n]).value.utxo
    requires var after := Rebuild(chain[..m]).value.utxo;
      o !in after || after[o] != Rebuild(chain[..n]).value.utxo[o]
    ensures n <= i < m && 0 < j < |chain[i].transactions|
    ensures var tx := chain[i].transactions[j];
      && !IsCoinbase(tx) && k < |tx.inputs| && tx.inputs[k] == o
      && SignedByOwner(tx, k, Rebuild(chain[..n]).value.utxo[o])
    decreases m
  {
    hide Rebuild, IsCoinbase, SignedByOwner;
    assert n < m;
    RebuildPrefix(chain, m - 1);
    var u, before := Rebuild(chain[..n]).value.utxo, Rebuild(chain[..m - 1]).value.utxo;
    if o in before && before[o] == u[o] {
      i := m - 1;
      j, k := SpentWasSigned(chain, i, o);
    } else {
      i, j, k := LeftWasSigned(chain, n, m - 1, o);
    }
  }

  /** What a block creates and spends itself is signed for as well: at its turn, every input of every ordinary
      transaction of a valid chain names an unspent output and is signed by its owner. */
  lemma {:induction false} EverySpendSigned(chain: seq<Block>, i: nat, j: nat, k: nat)
    requires Valid(chain) && 0 < i < |chain| && Valid(chain[..i]) && 0 < j < |chain[i].transactions|
    requires k < |chain[i].transactions[j].inputs|
    ensures var txs := chain[i].transactions;
      var v := ApplyTxs(Rebuild(chain[..i]).value.utxo + Created(txs[0]), txs[1..j]);
      v.Some? && txs[j].inputs[k] in v.value && SignedByOwner(txs[j], k, v.value[txs[j].inputs[k]])
  {
    hide Rebuild, BasicOk, Follows, Issue, CoinbaseOk, IsCoinbase, SignedByOwner, Txid, WitnessOk;
    BlockAt(chain, i);
    var txs := chain[i].transactions;
    var start, rest := Rebuild(chain[..i]).value.utxo + Created(txs[0]), txs[1..];
    ApplyTxsPrefix(start, rest, j);
    assert rest[..j][..j - 1] == txs[1..j] && rest[..j][j - 1] == txs[j];
    MaySpendIff(txs[j], ApplyTxs(start, txs[1..j]).value);
  }
}
