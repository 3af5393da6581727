/** An outpoint fixes its output: whatever chain or pool an unspent output comes from, it is the one its transaction
    creates. So a transaction that was once funded is funded again wherever its inputs are. */
module Provenance {
  import opened Types
  import opened TransactionCodec
  import opened Coinbase
  import opened Sums
  import opened Utxo
  import opened ChainValidator
  import opened Confirmed
  import opened Pool
  import opened Sweep
  import opened Mempool

  /** `tx` is digested in `s` and creates the output. */
  ghost predicate IsCreator(tx: Transaction, o: OutPoint, output: TxOutput, s: set<Bytes>) {
    PutBase(tx, []) in s && Txid(tx) == o.txid && o.index < |tx.outputs| && tx.outputs[o.index] == output
  }

  /** Every unspent output is one that a transaction digested in `s` creates. */
  ghost predicate Rooted(u: Utxo, s: set<Bytes>) {
    forall o :: o in u ==> exists tx :: IsCreator(tx, o, u[o], s)
  }

  lemma {:induction false} RootedAgree(u: Utxo, v: Utxo, s: set<Bytes>, o: OutPoint)
    requires CollisionFree(s) && Rooted(u, s) && Rooted(v, s) && o in u && o in v
    ensures u[o] == v[o] && o.index < MAX_U32
  {
    hide PutBase, Txid;
    var a :| IsCreator(a, o, u[o], s);
    var b :| IsCreator(b, o, v[o], s);
    SameIdSameBody(a, b, s);
  }

  lemma {:induction false} RootedApply(u: Utxo, tx: Transaction, s: set<Bytes>)
    requires Rooted(u, s) && PutBase(tx, []) in s && ApplyTx(u, tx).Some?
    ensures Rooted(ApplyTx(u, tx).value, s)
  {
    hide PutBase, Txid, IsCreator, Outputs;
    var v := ApplyTx(u, tx).value;
    forall o | o in v ensures exists t :: IsCreator(t, o, v[o], s) {
      if o in Created(tx) {
        CreatorIs(tx, o, s);
      } else {
        assert o in u && v[o] == u[o];
      }
    }
  }

  lemma {:induction false} CreatorIs(tx: Transaction, o: OutPoint, s: set<Bytes>)
    requires PutBase(tx, []) in s && o in Created(tx)
    ensures IsCreator(tx, o, Created(tx)[o], s)
  {
    hide PutBase, Txid;
  }

  lemma {:induction false} RootedMove(u: Utxo, txs: seq<Transaction>, s: set<Bytes>)
    requires Rooted(u, s) && MoveTxs(u, txs).Some? && forall tx :: tx in txs ==> PutBase(tx, []) in s
    ensures Rooted(MoveTxs(u, txs).value, s)
  {
    hide PutBase, Rooted, ApplyTx;
    if txs != [] {
      RootedMove(u, txs[..|txs| - 1], s);
      RootedApply(MoveTxs(u, txs[..|txs| - 1]).value, txs[|txs| - 1], s);
    }
  }

  /** The ledger of every chain is rooted in what its ids digest. */
  lemma {:induction false} LedgerRooted(txs: seq<Transaction>, s: set<Bytes>)
    requires ConfirmAll(txs).Some? && IdPreimages(txs) <= s
    ensures Rooted(ConfirmAll(txs).value, s)
  {
    ConfirmFront(txs);
    hide Confirm, ConfirmAll, PutBase, Txid, IsCreator, Outputs;
    if txs != [] {
      var front, tx := txs[..|txs| - 1], txs[|txs| - 1];
      var u, v := ConfirmAll(front).value, ConfirmAll(txs).value;
      LedgerRooted(front, s);
      ConfirmEffect(u, tx);
      forall o | o in v ensures exists t :: IsCreator(t, o, v[o], s) {
        if o in Created(tx) {
          CreatorIs(tx, o, s);
        } else {
          assert o in u && v[o] == u[o];
        }
      }
    }
  }

  lemma {:induction false} ChainRooted(chain: seq<Block>, s: set<Bytes>)
    requires Valid(chain) && IdPreimages(Flatten(chain)) <= s
    ensures Rooted(Rebuild(chain).value.utxo, s)
  {
    hide Rebuild, ConfirmAll, IdPreimages, Flatten, Rooted;
    LedgerIsConfirmAll(chain);
    LedgerRooted(Flatten(chain), s);
  }

  // ----- Funded once, funded again -----

  ghost predicate OnceFunded(tx: Transaction, s: set<Bytes>) {
    PutBase(tx, []) in s && exists v :: Rooted(v, s) && WitnessOk(tx, v)
  }

  /** Every pool entry was funded when it was admitted, by whatever chain and pool there were then. */
  ghost predicate Vouched(p: Pool, s: set<Bytes>) {
    forall id :: id in p ==> OnceFunded(p[id], s)
  }

  lemma {:induction false} FundedAgain(tx: Transaction, u: Utxo, s: set<Bytes>)
    requires CollisionFree(s) && OnceFunded(tx, s) && Rooted(u, s) && Ready(u, tx)
    ensures WitnessOk(tx, u) && !IsCoinbase(tx)
  {
    hide PutBase, WitnessOk, Rooted;
    var v :| Rooted(v, s) && WitnessOk(tx, v);
    WitnessSpendable(tx, v);
    forall o | o in tx.inputs ensures u[o] == v[o] && o.index < MAX_U32 {
      RootedAgree(u, v, s, o);
    }
    assert tx.inputs[0] in tx.inputs;
    WitnessLocal(tx, v, u);
  }

  /** Moving once-funded transactions one by one is applying them with every check. */
  lemma {:induction false} MovedIsApplied(u: Utxo, txs: seq<Transaction>, s: set<Bytes>)
    requires CollisionFree(s) && Rooted(u, s) && MoveTxs(u, txs).Some?
    requires forall tx :: tx in txs ==> OnceFunded(tx, s)
    ensures ApplyTxs(u, txs) == MoveTxs(u, txs)
  {
    hide WitnessOk, Rooted, CollisionFree, PutBase, IsCoinbase;
    if txs != [] {
      var front, tx := txs[..|txs| - 1], txs[|txs| - 1];
      MovedIsApplied(u, front, s);
      RootedMove(u, front, s);
      FundedAgain(tx, MoveTxs(u, front).value, s);
    }
  }

  lemma {:induction false} ListedVouched(p: Pool, txs: seq<Transaction>, s: set<Bytes>)
    requires Vouched(p, s) && Lists(p, txs)
    ensures forall tx :: tx in txs ==> OnceFunded(tx, s)
  {
    hide OnceFunded, Txid;
    if txs != [] {
      ListedVouched(p - {Txid(txs[|txs| - 1])}, txs[..|txs| - 1], s);
    }
  }

  /** What the sweeps return from a vouched pool passes every check, whether the pool fits the chain or not. */
  lemma {:induction false} SweptApplies(u: Utxo, p: Pool, order: seq<Hash256>, s: set<Bytes>)
    requires CollisionFree(s) && Rooted(u, s) && Vouched(p, s) && KeyedById(p)
    ensures ApplyTxs(u, Swept(u, p, order)).Some?
    ensures forall tx :: tx in Swept(u, p, order) ==> OnceFunded(tx, s)
  {
    hide Swept, Rooted, CollisionFree, Vouched, OnceFunded, MoveTxs, ApplyTxs, Lists, KeyedById;
    SweptMoves(u, p, order);
    var txs := Swept(u, p, order);
    if txs != [] {
      ListedVouched(p, txs, s);
    }
    MovedIsApplied(u, txs, s);
  }

  /** Admission keeps a pool vouched for, whatever the chain. */
  lemma {:induction false} AcceptVouches(u: Utxo, p: Pool, tx: Transaction, s: set<Bytes>)
    requires Rooted(u, s) && Vouched(p, s) && KeyedById(p) && PutBase(tx, []) in s
    requires AdmissionReason(u, p, tx).Accepted?
    ensures Vouched(p[Txid(tx) := tx], s)
  {
    hide Swept, Rooted, MoveTxs, Lists, KeyedById, WitnessOk, PutBase, Txid, Sum, Encode, Reserved, FundingReason;
    var txs := Swept(u, p, Ascending(p.Keys));
    SweptMoves(u, p, Ascending(p.Keys));
    if txs != [] {
      ListedVouched(p, txs, s);
    }
    RootedMove(u, txs, s);
    var v := MoveTxs(u, txs).value;
    assert Rooted(v, s) && WitnessOk(tx, v);
  }
}
