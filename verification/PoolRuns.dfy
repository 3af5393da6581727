/** Runs of the mempool against a fixed chain, and exactly when an accepted transaction can be
    ordered. */
module PoolRuns {
  import opened Types
  import opened TransactionCodec
  import opened Coinbase
  import opened Rules
  import opened Sums
  import opened Utxo
  import opened ChainValidator
  import opened ChainFacts
  import opened Confirmed
  import opened Pool
  import opened Sweep
  import opened Mempool

  /** One call of accept, remove or clear, as their contracts describe it on an orderly pool. */
  ghost predicate PoolStep(u: Utxo, p: Pool, q: Pool) {
    || q == p
    || q == map[]
    || (exists tx :: Admissible(u, p, tx) && q == p[Txid(tx) := tx])
    || (exists root, gone :: IsDescendants(p, root, gone) && q == p - gone)
  }

  /** A run starts with an empty pool. */
  ghost predicate PoolRun(u: Utxo, run: seq<Pool>) {
    && run != [] && run[0] == map[]
    && forall i :: 0 < i < |run| ==> PoolStep(u, run[i - 1], run[i])
  }

  /** Every string digested into the id of a pool transaction is in `s`. */
  ghost predicate IdsWithin(p: Pool, s: set<Bytes>) {
    forall id :: id in p ==> PutBase(p[id], []) in s
  }

  /** The chain as the pool sees it: its unspent outputs, and the ids of its transactions. */
  ghost predicate Snapshot(txs: seq<Transaction>, u: Utxo, s: set<Bytes>) {
    && ConfirmAll(txs) == Some(u) && DistinctIds(txs)
    && CollisionFree(s) && IdPreimages(txs) <= s
  }

  lemma {:induction false} SnapshotFacts(txs: seq<Transaction>, u: Utxo, s: set<Bytes>)
    requires Snapshot(txs, u, s)
    ensures forall o :: o in u ==> o.txid in Ids(txs) && o.index < MAX_U32
    ensures forall o :: o in AllSpent(txs) ==> o !in u && o.txid in Ids(txs)
  {
    hide ConfirmAll, DistinctIds, Ids, AllSpent, IdPreimages;
    UnspentClosedForm(txs);
    CreatedIds(txs);
    CreatedIndexes(txs);
  }

  lemma {:induction false} CreatedIndexes(txs: seq<Transaction>)
    ensures forall o :: o in AllCreated(txs) ==> o.index < MAX_U32
  {
    if txs != [] {
      CreatedIndexes(txs[..|txs| - 1]);
    }
  }

  /** A confirmed transaction is never admitted again: its inputs are gone, and no unconfirmed
      parent can bring them back. */
  lemma {:induction false} AdmittedIsUnconfirmed(txs: seq<Transaction>, u: Utxo, s: set<Bytes>, p: Pool,
      tx: Transaction)
    requires Snapshot(txs, u, s) && PutBase(tx, []) in s
    requires p.Keys !! Ids(txs) && WitnessOk(tx, Effective(u, p))
    ensures Txid(tx) !in Ids(txs)
  {
    hide ConfirmAll, DistinctIds, Ids, WitnessOk, View, Reserved, PutBase, AllSpent;
    SnapshotFacts(txs, u, s);
    WitnessSpendable(tx, Effective(u, p));
    assert tx.inputs[0] in tx.inputs && tx.inputs[0] in Effective(u, p);
    if Txid(tx) in Ids(txs) {
      var owner := OwnerOf(txs, Txid(tx));
      SameIdSameBody(owner, tx, s);
      assert false;
    }
  }

  /** The invariant of every run. */
  ghost predicate FitsChain(txs: seq<Transaction>, u: Utxo, p: Pool) {
    Orderly(u, p) && p.Keys !! Ids(txs)
  }

  lemma {:induction false} StepFits(txs: seq<Transaction>, u: Utxo, s: set<Bytes>, p: Pool, q: Pool)
    requires Snapshot(txs, u, s) && FitsChain(txs, u, p) && PoolStep(u, p, q) && IdsWithin(q, s)
    ensures FitsChain(txs, u, q)
  {
    hide Orderly, Ids, Snapshot, WitnessOk, Effective, Txid, PutBase, Reserved, Sum, Encode, Necessary, ChildClosed;
    SnapshotFacts(txs, u, s);
    if q == p {
    } else if q == map[] {
      EmptyIsOrderly(u);
    } else if tx :| Admissible(u, p, tx) && q == p[Txid(tx) := tx] {
      assert PutBase(tx, []) in s by {
        assert Txid(tx) in q;
      }
      AdmittedIsUnconfirmed(txs, u, s, p, tx);
      AcceptKeepsOrderly(u, p, tx);
    } else {
      var root, gone :| IsDescendants(p, root, gone) && q == p - gone;
      RemoveKeepsOrderly(u, p, gone);
    }
  }

  /** Every pool of every run fits the chain; so, by the contract of OrderedTransactions, it is
      always put in a complete valid order, and BuildEffectiveUtxo never fails. */
  lemma {:induction false} EveryPoolOrderly(chain: seq<Block>, run: seq<Pool>, s: set<Bytes>, i: nat)
    requires Valid(chain) && DistinctCoinbases(Flatten(chain))
    requires CollisionFree(s) && IdPreimages(Flatten(chain)) <= s
    requires PoolRun(Rebuild(chain).value.utxo, run) && i < |run|
    requires forall k :: 0 <= k < |run| ==> IdsWithin(run[k], s)
    ensures FitsChain(Flatten(chain), Rebuild(chain).value.utxo, run[i])
  {
    hide Rebuild, Orderly, PoolStep, DistinctCoinbases, IdPreimages, Flatten, IdsWithin, ConfirmAll, DistinctIds;
    var txs, u := Flatten(chain), Rebuild(chain).value.utxo;
    assert Snapshot(txs, u, s) by {
      LedgerIsConfirmAll(chain);
      IdsAreUnique(txs, s);
    }
    if i == 0 {
      SnapshotFacts(txs, u, s);
      EmptyIsOrderly(u);
    } else {
      EveryPoolOrderly(chain, run, s, i - 1);
      StepFits(txs, u, s, run[i - 1], run[i]);
    }
  }

  // ----- Exactly when an accepted transaction can be ordered -----

  /** An orderly pool has a complete order. */
  lemma {:induction false} OrderExists(u: Utxo, p: Pool) returns (txs: seq<Transaction>)
    requires Orderly(u, p)
    ensures IsOrder(u, p, txs)
  {
    hide Orderly, InStep, Lists, Ready, Txid;
    var waiting, working := p.Keys, u;
    txs := [];
    StartInStep(u, p);
    StartLists(p);
    while waiting != {}
      invariant waiting <= p.Keys && Lists(p - waiting, txs) && InStep(u, p, waiting, working, txs)
      decreases |waiting|
    {
      var id := NextReady(u, p, waiting, working, txs);
      TakeReady(u, p, waiting, working, txs, id);
      ListsAdd(p, waiting, id, txs);
      txs := txs + [p[id]];
      working := ApplyTx(working, p[id]).value;
      waiting := waiting - {id};
    }
    assert p - waiting == p;
    EndInStep(u, p, working, txs);
  }

  lemma {:induction false} NextReady(u: Utxo, p: Pool, waiting: set<Hash256>, working: Utxo,
      txs: seq<Transaction>) returns (id: Hash256)
    requires Orderly(u, p) && InStep(u, p, waiting, working, txs) && waiting <= p.Keys && waiting != {}
    ensures id in waiting && Ready(working, p[id])
  {
    hide Ranked, Effective, Ready, ApplyTxs, Grounded;
    var rank :| Ranked(u, p, rank);
    id := SomethingReady(u, p, rank, waiting);
  }

  /** An output nobody spends stays, and bars any transaction that would create it again. */
  lemma {:induction false} UnspentBars(u: Utxo, txs: seq<Transaction>, o: OutPoint)
    requires o in u && ApplyTxs(u, txs).Some?
    requires forall tx :: tx in txs ==> o !in tx.inputs
    ensures o in ApplyTxs(u, txs).value
    ensures forall tx :: tx in txs ==> o !in Created(tx)
  {
    hide WitnessOk, Txid;
    if txs != [] {
      var front, last := txs[..|txs| - 1], txs[|txs| - 1];
      UnspentBars(u, front, o);
      assert last in txs;
    }
  }

  lemma {:induction false} ListsMembers(p: Pool, txs: seq<Transaction>)
    requires Lists(p, txs)
    ensures forall tx :: tx in txs ==> Txid(tx) in p && p[Txid(tx)] == tx
    ensures forall id :: id in p ==> p[id] in txs
  {
    hide Txid;
    if txs != [] {
      var front, last := txs[..|txs| - 1], txs[|txs| - 1];
      var q := p - {Txid(last)};
      ListsMembers(q, front);
      forall id | id in p ensures p[id] in txs {
        if id != Txid(last) {
          assert q[id] in front;
        } else {
          assert last in txs;
        }
      }
    }
  }

  ghost predicate CanBeOrdered(u: Utxo, p: Pool) {
    exists txs :: Lists(p, txs) && ApplyTxs(u, txs).Some?
  }

  /** Admission alone does not make the pool orderable. It stays orderable exactly if no output that the newcomer
      creates is unspent on the chain and left unspent by the pool: a condition on the chain, the pool and the
      transaction that could be checked before accepting it. */
  lemma {:induction false} OrderableIffFresh(u: Utxo, p: Pool, tx: Transaction)
    requires Orderly(u, p) && Admissible(u, p, tx)
    ensures CanBeOrdered(u, p[Txid(tx) := tx]) <==> Fresh(u - (Reserved(p) + Spent(tx)), Txid(tx), |tx.outputs|)
  {
    hide Orderly, WitnessOk, Effective, ApplyTxs, Lists, Txid, Sum, Encode, Reserved, View;
    var q := p[Txid(tx) := tx];
    if Fresh(u - (Reserved(p) + Spent(tx)), Txid(tx), |tx.outputs|) {
      var txs := OrderExists(u, p);
      NewcomerLast(u, p, tx, txs);
    } else {
      var o :| o in u - (Reserved(p) + Spent(tx)) && o.txid == Txid(tx) && o.index < |tx.outputs|;
      forall txs | Lists(q, txs) ensures ApplyTxs(u, txs).None? {
        ClashBars(u, p, tx, txs, o);
      }
    }
  }

  /** The newcomer comes after any order of the others. */
  lemma {:induction false} NewcomerLast(u: Utxo, p: Pool, tx: Transaction, txs: seq<Transaction>)
    requires Orderly(u, p) && Admissible(u, p, tx) && IsOrder(u, p, txs)
    requires Fresh(u - (Reserved(p) + Spent(tx)), Txid(tx), |tx.outputs|)
    ensures CanBeOrdered(u, p[Txid(tx) := tx])
  {
    hide WitnessOk, ApplyTxs, Lists, Txid, Sum, Encode, Ranked, View;
    var q, v := p[Txid(tx) := tx], Effective(u, p);
    var rank :| Ranked(u, p, rank);
    RankedIndexes(u, p, rank);
    WitnessSpendable(tx, v);
    assert tx.inputs[0] in tx.inputs;
    assert !IsCoinbase(tx);
    assert Fresh(v - Spent(tx), Txid(tx), |tx.outputs|);
    var longer := txs + [tx];
    assert longer[..|txs|] == txs && q - {Txid(tx)} == p;
    ApplyLast(u, txs, tx);
    ListsLast(p, tx, txs);
    assert Lists(q, longer) && ApplyTxs(u, longer).Some?;
  }

  lemma {:induction false} RankedIndexes(u: Utxo, p: Pool, rank: map<Hash256, nat>)
    requires Ranked(u, p, rank)
    ensures forall o :: o in View(u, p) ==> o.index < MAX_U32
  {
    hide View, Sound;
  }

  lemma {:induction false} ApplyLast(u: Utxo, txs: seq<Transaction>, tx: Transaction)
    requires ApplyTxs(u, txs).Some?
    ensures ApplyTxs(u, txs + [tx]) == CheckedApply(ApplyTxs(u, txs).value, tx)
  {
    hide CheckedApply;
    assert (txs + [tx])[..|txs|] == txs;
  }

  lemma {:induction false} ListsLast(p: Pool, tx: Transaction, txs: seq<Transaction>)
    requires Lists(p, txs) && Txid(tx) !in p
    ensures Lists(p[Txid(tx) := tx], txs + [tx])
  {
    hide Txid;
    assert (txs + [tx])[..|txs|] == txs;
    assert p[Txid(tx) := tx] - {Txid(tx)} == p;
  }

  lemma {:induction false} ClashBars(u: Utxo, p: Pool, tx: Transaction, txs: seq<Transaction>, o: OutPoint)
    requires Txid(tx) !in p && Lists(p[Txid(tx) := tx], txs)
    requires o in u && o !in Reserved(p) + Spent(tx) && o.txid == Txid(tx) && o.index < |tx.outputs|
    ensures ApplyTxs(u, txs).None?
  {
    hide ApplyTxs, Lists, Txid;
    var q := p[Txid(tx) := tx];
    ListsMembers(q, txs);
    assert q[Txid(tx)] in txs;
    forall t | t in txs ensures o !in t.inputs {
      assert o in t.inputs ==> o in Reserved(p) + Spent(tx);
    }
    if ApplyTxs(u, txs).Some? {
      UnspentBars(u, txs, o);
      assert false;
    }
  }

  /** The condition fails on real chains: a block confirms a transaction that spends a coinbase output, and the next
      block repeats that coinbase, which validation allows. Then the ledger funds the transaction again, the pool
      admits it, and no order of the pool exists any more. */
  lemma {:induction false} AdmittedButStuck(chain: seq<Block>, b1: Block, b2: Block, tx: Transaction)
    requires Valid(chain) && Valid(chain + [b1]) && Valid(chain + [b1] + [b2])
    requires |b1.transactions| == 2 && b1.transactions[1] == tx && |b2.transactions| == 1
    requires var repeated := OutPoint(Txid(b2.transactions[0]), 0);
      && tx.inputs == [repeated] && Size(tx) <= MAX_TRANSACTION_BYTES
      && var u := Rebuild(chain).value.utxo;
         repeated in u && b2.transactions[0].outputs == [u[repeated]]
    ensures var u := Rebuild(chain + [b1] + [b2]).value.utxo;
      Admissible(u, map[], tx) && !CanBeOrdered(u, map[Txid(tx) := tx])
  {
    hide Rebuild, ApplyBlock, WitnessOk, Txid, Encode, CanBeOrdered, Admissible, Orderly, BasicOk, Follows;
    var u, v, w := Rebuild(chain).value.utxo, Rebuild(chain + [b1]).value.utxo, Rebuild(chain + [b1] + [b2]).value.utxo;
    LedgerApplies(chain, b1);
    LedgerApplies(chain + [b1], b2);
    ConfirmedThenRepeated(u, v, w, b1, b2, tx);
    LedgerIndexes(chain + [b1] + [b2]);
    AdmittedAlone(w, tx);
    EmptyIsOrderly(w);
    OrderableIffFresh(w, map[], tx);
    var point := OutPoint(Txid(tx), 0);
    assert Reserved(map[]) == {};
    assert point in w - (Reserved(map[]) + Spent(tx));
    assert map[][Txid(tx) := tx] == map[Txid(tx) := tx];
  }

  lemma {:induction false} LedgerApplies(chain: seq<Block>, b: Block)
    requires Valid(chain) && Valid(chain + [b])
    ensures ApplyBlock(Rebuild(chain).value.utxo, b) == Some(Rebuild(chain + [b]).value.utxo)
  {
    hide Rebuild, ApplyBlock, BasicOk, Follows, Issue;
    TipHeight(chain);
    ExtendsValid(chain, b);
  }

  lemma {:induction false} LedgerIndexes(chain: seq<Block>)
    requires Valid(chain)
    ensures forall o :: o in Rebuild(chain).value.utxo ==> o.index < MAX_U32
  {
    hide Rebuild, ConfirmAll;
    LedgerIsConfirmAll(chain);
    ConfirmedIndexes(Flatten(chain));
  }

  lemma {:induction false} ConfirmedIndexes(txs: seq<Transaction>)
    requires ConfirmAll(txs).Some?
    ensures forall o :: o in ConfirmAll(txs).value ==> o.index < MAX_U32
  {
    ConfirmFront(txs);
    hide Confirm, ConfirmAll, Txid;
    if txs != [] {
      ConfirmedIndexes(txs[..|txs| - 1]);
      ConfirmEffect(ConfirmAll(txs[..|txs| - 1]).value, txs[|txs| - 1]);
    }
  }

  /** After the two blocks the input is back, and the output is still there. */
  lemma {:induction false} ConfirmedThenRepeated(u: Utxo, v: Utxo, w: Utxo, b1: Block, b2: Block, tx: Transaction)
    requires ApplyBlock(u, b1) == Some(v) && ApplyBlock(v, b2) == Some(w)
    requires |b1.transactions| == 2 && b1.transactions[1] == tx && |b2.transactions| == 1
    requires var repeated := OutPoint(Txid(b2.transactions[0]), 0);
      tx.inputs == [repeated] && repeated in u && b2.transactions[0].outputs == [u[repeated]]
    ensures WitnessOk(tx, w) && tx.outputs != []
    ensures var point := OutPoint(Txid(tx), 0); point in w && point !in tx.inputs
  {
    hide WitnessOk, Txid, CoinbaseOk, CheckedApply, ApplyTxs;
    var before := u + Created(b1.transactions[0]);
    assert b1.transactions[1..] == [tx] && b2.transactions[1..] == [];
    OneStep(before, tx);
    OneStep(v + Created(b2.transactions[0]), tx);
    AppliedOnce(before, tx, v);
    assert Fresh(v, Txid(b2.transactions[0]), 1);
    assert OutPoint(Txid(tx), 0) in v;
    assert w == v + Created(b2.transactions[0]);
    WitnessLocal(tx, before, w);
  }

  lemma {:induction false} AppliedOnce(u: Utxo, tx: Transaction, v: Utxo)
    requires CheckedApply(u, tx) == Some(v)
    ensures WitnessOk(tx, u) && tx.outputs != [] && OutPoint(Txid(tx), 0) in v
  {
    hide Txid;
  }

  lemma {:induction false} OneStep(u: Utxo, tx: Transaction)
    ensures ApplyTxs(u, [tx]) == CheckedApply(u, tx) && ApplyTxs(u, []) == Some(u)
  {
    hide CheckedApply;
    assert [tx][..0] == [];
  }

  /** A funded transaction of admissible size enters the empty pool. */
  lemma {:induction false} AdmittedAlone(u: Utxo, tx: Transaction)
    requires WitnessOk(tx, u) && Size(tx) <= MAX_TRANSACTION_BYTES
    ensures Admissible(u, map[], tx)
  {
    hide WitnessOk, Txid, Encode, View, Sum;
    EmptyPool(u);
    EmptySum();
  }

  lemma {:induction false} EmptyPool(u: Utxo)
    ensures Reserved(map[]) == {} && Effective(u, map[]) == u
  {
    hide View;
  }

  lemma {:induction false} EmptySum()
    ensures var empty: Pool := map[]; Sum(empty, Size) == 0
  {
  }
}
