/** Revalidation of the mempool after the chain was replaced (mempool_reorg.hpp). */
module Reorg {
  import opened Types
  import opened TransactionCodec
  import opened Coinbase
  import opened Sums
  import opened Utxo
  import opened ChainValidator
  import opened Confirmed
  import opened Pool
  import opened Sweep
  import opened Mempool
  import opened PoolRuns

  /** Parents have lower rank than their children. */
  ghost predicate Acyclic(p: Pool, rank: map<Hash256, nat>) {
    && p.Keys <= rank.Keys
    && forall id, o :: id in p && o in p[id].inputs && o.txid in p ==> rank[o.txid] < rank[id]
  }

  /** What the old pool must be: well kept, and without cycles. Every pool that fits its chain is. */
  ghost predicate OldPool(p: Pool, rank: map<Hash256, nat>) {
    Acyclic(p, rank) && Bookkept(p, Reserved(p), Sum(p, Size))
  }

  /** The new chain has no unspent output of an old pool transaction that it could fund again, alone or with others of
      the pool that fit it. Chains with distinct ids meet it, for any pool. */
  ghost predicate FundedAreFresh(u: Utxo, p: Pool) {
    && (forall o :: o in u ==> o.index < MAX_U32)
    && forall r, id :: Submap(r, p) && Orderly(u, r) && id in p && id !in r && WitnessOk(p[id], View(u, r)) ==>
         Fresh(u, id, |p[id].outputs|)
  }

  ghost predicate Submap(r: Pool, p: Pool) {
    forall id :: id in r ==> id in p && r[id] == p[id]
  }

  /** A transaction of the old pool is kept exactly if the new chain and the kept transactions
      together fund it. */
  ghost predicate Retained(u: Utxo, p: Pool, r: Pool) {
    Submap(r, p) && forall id :: id in p ==> (id in r <==> WitnessOk(p[id], View(u, r)))
  }

  lemma {:induction false} WitnessSame(tx: Transaction, u: Utxo, v: Utxo)
    requires forall o :: o in tx.inputs ==> (o in u <==> o in v) && (o in u ==> u[o] == v[o])
    ensures WitnessOk(tx, u) <==> WitnessOk(tx, v)
  {
    if WitnessOk(tx, u) {
      WitnessLocal(tx, u, v);
    }
    if WitnessOk(tx, v) {
      WitnessLocal(tx, v, u);
    }
  }

  /** Pools that agree on the parents of a transaction agree on whether it is funded. */
  lemma {:induction false} SameParents(u: Utxo, tx: Transaction, r: Pool, q: Pool)
    requires forall o :: o in tx.inputs ==> (o.txid in r <==> o.txid in q) && (o.txid in r ==> r[o.txid] == q[o.txid])
    ensures WitnessOk(tx, View(u, r)) <==> WitnessOk(tx, View(u, q))
  {
    hide WitnessOk, View;
    WitnessSame(tx, View(u, r), View(u, q));
  }

  /** At most one set of transactions is retained: the outcome does not depend on the order in
      which the pool is revisited. */
  lemma {:induction false} RetainedUnique(u: Utxo, p: Pool, rank: map<Hash256, nat>, r: Pool, q: Pool, id: Hash256)
    requires Acyclic(p, rank) && Retained(u, p, r) && Retained(u, p, q) && id in p
    ensures id in r <==> id in q
    decreases rank[id]
  {
    hide WitnessOk, View;
    forall o | o in p[id].inputs && o.txid in p ensures o.txid in r <==> o.txid in q {
      RetainedUnique(u, p, rank, r, q, o.txid);
    }
    SameParents(u, p[id], r, q);
  }

  /** Whatever part of the old pool can be applied to the new chain, in any order, is retained. */
  lemma {:induction false} RetainedGreatest(u: Utxo, p: Pool, r: Pool, part: Pool, txs: seq<Transaction>)
    requires Retained(u, p, r) && NoClash(u, r) && Submap(part, p) && Lists(part, txs) && ApplyTxs(u, txs).Some?
    ensures forall id :: id in part ==> id in r
  {
    hide WitnessOk, View, Txid;
    if txs != [] {
      var front, tx := txs[..|txs| - 1], txs[|txs| - 1];
      var less := part - {Txid(tx)};
      RetainedGreatest(u, p, r, less, front);
      FundedByPart(u, r, less, front, tx);
    }
  }

  /** The retained pool can be applied to the new chain, and contains every part of the old pool
      that can. */
  lemma {:induction false} RetainedIsGreatest(u: Utxo, p: Pool, r: Pool, part: Pool)
    requires Orderly(u, r) && Retained(u, p, r)
    ensures Submap(r, p) && CanBeOrdered(u, r)
    ensures Submap(part, p) && CanBeOrdered(u, part) ==> Submap(part, r)
  {
    hide Retained, Lists, ApplyTxs;
    RetainedSubmap(u, p, r);
    var order := OrderExists(u, r);
    assert NoClash(u, r);
    if Submap(part, p) && CanBeOrdered(u, part) {
      var order :| Lists(part, order) && ApplyTxs(u, order).Some?;
      RetainedGreatest(u, p, r, part, order);
    }
  }

  lemma {:induction false} RetainedSubmap(u: Utxo, p: Pool, r: Pool)
    requires Retained(u, p, r)
    ensures Submap(r, p)
  {
  }

  /** A pool that fits its chain has no cycles. */
  lemma {:induction false} FittingPoolAcyclic(txs: seq<Transaction>, u: Utxo, s: set<Bytes>,
      p: Pool) returns (rank: map<Hash256, nat>)
    requires Snapshot(txs, u, s) && FitsChain(txs, u, p)
    ensures Acyclic(p, rank)
  {
    hide Snapshot, Ids, View, WitnessOk, Txid;
    SnapshotFacts(txs, u, s);
    rank :| Ranked(u, p, rank);
    forall id | id in p ensures id in rank {
      assert Sound(u, p, rank, id);
    }
    forall id, o | id in p && o in p[id].inputs && o.txid in p ensures rank[o.txid] < rank[id] {
      assert Sound(u, p, rank, id);
      SoundInputs(u, p, rank, id);
      assert Creates(p, o);
    }
  }

  /** What is unspent after applying transactions was on the chain or was created by them. */
  lemma {:induction false} AppliedOrigin(u: Utxo, part: Pool, txs: seq<Transaction>)
    requires Lists(part, txs) && ApplyTxs(u, txs).Some?
    ensures forall o :: o in ApplyTxs(u, txs).value ==>
      o in View(u, part) && ApplyTxs(u, txs).value[o] == View(u, part)[o]
  {
    hide WitnessOk, View, Txid;
    if txs != [] {
      var front, tx := txs[..|txs| - 1], txs[|txs| - 1];
      var less := part - {Txid(tx)};
      AppliedOrigin(u, less, front);
      OriginStep(u, less, part, ApplyTxs(u, front).value, tx);
    }
  }

  lemma {:induction false} OriginStep(u: Utxo, less: Pool, part: Pool, v: Utxo, tx: Transaction)
    requires Txid(tx) in part && part[Txid(tx)] == tx && less == part - {Txid(tx)}
    requires forall o :: o in v ==> o in View(u, less) && v[o] == View(u, less)[o]
    requires ApplyTx(v, tx).Some?
    ensures var w := ApplyTx(v, tx).value;
      forall o :: o in w ==> o in View(u, part) && w[o] == View(u, part)[o]
  {
    hide View, Txid, Outputs, Spendable;
    var w := ApplyTx(v, tx).value;
    forall o | o in w ensures o in View(u, part) && w[o] == View(u, part)[o] {
      if o !in Created(tx) {
        assert o in v && (Creates(part, o) <==> Creates(less, o));
      }
    }
  }

  lemma {:induction false} FundedByPart(u: Utxo, r: Pool, part: Pool, front: seq<Transaction>, tx: Transaction)
    requires Lists(part, front) && ApplyTxs(u, front).Some? && CheckedApply(ApplyTxs(u, front).value, tx).Some?
    requires Submap(part, r) && NoClash(u, r)
    ensures WitnessOk(tx, View(u, r))
  {
    hide View, Txid, ApplyTxs;
    AppliedOrigin(u, part, front);
    WitnessLocal(tx, ApplyTxs(u, front).value, View(u, r));
  }

  // ----- The loop -----

  predicate DepsReady(tx: Transaction, pending: set<Hash256>) {
    forall o :: o in tx.inputs ==> o.txid !in pending
  }

  /** No capacity check and no reservation stands in the way of an old pool transaction: it is
      admitted exactly if it is funded. */
  lemma {:induction false} AdmissibleIffFunded(u: Utxo, p: Pool, r: Pool, id: Hash256)
    requires Bookkept(p, Reserved(p), Sum(p, Size)) && Submap(r, p) && id in p && id !in r
    ensures Admissible(u, r, p[id]) <==> WitnessOk(p[id], View(u, r))
  {
    hide Sum, Txid, Encode, View, WitnessOk, Reserved;
    var tx := p[id];
    SumInsert(r, Size, id, tx);
    SumSubmap(r[id := tx], p, Size);
    forall o | o in tx.inputs ensures o !in Reserved(r) {
      NotReservedTwice(p, r, id, o);
    }
    WitnessSame(tx, Effective(u, r), View(u, r));
  }

  /** Where the loop stands: `pending` is still to be visited, `r` has been kept. */
  ghost predicate Midway(u: Utxo, p: Pool, pending: set<Hash256>, r: Pool) {
    && pending <= p.Keys && Submap(r, p) && pending !! r.Keys
    && Orderly(u, r)
    && forall id :: id in p && id !in pending ==> Settled(u, p, pending, r, id)
  }

  /** A visited transaction has visited parents, and its fate is decided. */
  ghost predicate Settled(u: Utxo, p: Pool, pending: set<Hash256>, r: Pool, id: Hash256)
    requires id in p
  {
    DepsReady(p[id], pending) && (id in r <==> WitnessOk(p[id], View(u, r)))
  }

  lemma {:induction false} StaysSettled(u: Utxo, p: Pool, pending: set<Hash256>, r: Pool, id: Hash256, visited: Hash256)
    requires id in p && visited in p && visited in pending && visited !in r && id != visited
    requires Settled(u, p, pending, r, id)
    ensures Settled(u, p, pending - {visited}, r[visited := p[visited]], id)
    ensures Settled(u, p, pending - {visited}, r, id)
  {
    hide WitnessOk, View;
    SameParents(u, p[id], r, r[visited := p[visited]]);
  }

  lemma {:induction false} Visit(u: Utxo, p: Pool, rank: map<Hash256, nat>, pending: set<Hash256>, r: Pool, id: Hash256)
    requires OldPool(p, rank) && FundedAreFresh(u, p) && Midway(u, p, pending, r)
    requires id in pending && DepsReady(p[id], pending)
    ensures Midway(u, p, pending - {id}, if Admissible(u, r, p[id]) then r[id := p[id]] else r)
  {
    hide Sum, Txid, Encode, View, WitnessOk, Reserved, Admissible, Settled, Orderly, FundedAreFresh;
    var tx := p[id];
    var r' := if Admissible(u, r, tx) then r[id := tx] else r;
    AdmissibleIffFunded(u, p, r, id);
    if Admissible(u, r, tx) {
      FundedIsFresh(u, p, r, id);
      KeptOrderly(u, r, tx);
    }
    forall a | a in p && a !in pending - {id} ensures Settled(u, p, pending - {id}, r', a) {
      if a == id {
        VisitedSettled(u, p, rank, pending, r, id);
      } else {
        StaysSettled(u, p, pending, r, a, id);
      }
    }
  }

  lemma {:induction false} FundedIsFresh(u: Utxo, p: Pool, r: Pool, id: Hash256)
    requires FundedAreFresh(u, p) && Submap(r, p) && Orderly(u, r) && id in p && id !in r
    requires WitnessOk(p[id], View(u, r))
    ensures Fresh(u, id, |p[id].outputs|)
  {
    hide Orderly, WitnessOk, View, Submap, Fresh;
  }

  lemma {:induction false} KeptOrderly(u: Utxo, r: Pool, tx: Transaction)
    requires Orderly(u, r) && Admissible(u, r, tx) && Fresh(u, Txid(tx), |tx.outputs|)
    ensures Orderly(u, r[Txid(tx) := tx])
  {
    hide Orderly, WitnessOk, Effective, Txid, Sum, Encode, Reserved;
    AcceptKeepsOrderly(u, r, tx);
  }

  lemma {:induction false} VisitedSettled(u: Utxo, p: Pool, rank: map<Hash256, nat>, pending: set<Hash256>, r: Pool,
      id: Hash256)
    requires Acyclic(p, rank) && id in pending && id in p && id !in r && DepsReady(p[id], pending)
    ensures WitnessOk(p[id], View(u, r)) ==> Settled(u, p, pending - {id}, r[id := p[id]], id)
    ensures !WitnessOk(p[id], View(u, r)) ==> Settled(u, p, pending - {id}, r, id)
  {
    hide WitnessOk, View;
    SameParents(u, p[id], r, r[id := p[id]]);
  }

  /** Without cycles something is always ready to be visited. */
  lemma {:induction false} NeverStuck(p: Pool, rank: map<Hash256, nat>, pending: set<Hash256>)
    requires Acyclic(p, rank) && pending <= p.Keys && pending != {}
    ensures exists id :: id in pending && DepsReady(p[id], pending)
  {
    var id := LeastRank(rank, pending);
    assert DepsReady(p[id], pending);
  }

  /** One old pool transaction is offered to the new pool. */
  method OfferAgain(mempool: Mempool, u: Utxo, p: Pool, ghost pending: set<Hash256>, id: Hash256, ghost given: bool,
      ghost rank: map<Hash256, nat>)
    requires mempool.Valid() && KeyedById(p) && Submap(mempool.transactions, p) && id in p
    requires given ==> OldPool(p, rank) && FundedAreFresh(u, p) && Midway(u, p, pending, mempool.transactions)
    requires given ==> id in pending && DepsReady(p[id], pending)
    modifies mempool
    ensures mempool.Valid() && Submap(mempool.transactions, p)
    ensures given ==> Midway(u, p, pending - {id}, mempool.transactions)
  {
    hide Bookkept, Txid, Admissible, OldPool, Midway, Orderly, FundedAreFresh, AdmissionReason;
    if given {
      MidwayOrderly(u, p, pending, mempool.transactions);
      Visit(u, p, rank, pending, mempool.transactions, id);
    }
    assert Txid(p[id]) == id;
    var _ := mempool.Accept(p[id], u);
  }

  /** revalidate_mempool_after_reorg. Nothing is added to the pool; and if the old pool had no cycles and the new chain
      has no unspent output of what it funds again, the pool fits it and keeps exactly what is funded. The ghost
      parameter is an order of descent in the old pool; the code does not see it. */
  method RevalidateAfterReorg(mempool: Mempool, newChain: seq<Block>, ghost rank: map<Hash256, nat>)
    requires mempool.Valid()
    modifies mempool
    ensures mempool.Valid() && Submap(mempool.transactions, old(mempool.transactions))
    ensures !ChainValidator.Valid(newChain) ==> mempool.transactions == map[]
    ensures ChainValidator.Valid(newChain) ==>
      var u := Rebuild(newChain).value.utxo;
      (OldPool(old(mempool.transactions), rank) && FundedAreFresh(u, old(mempool.transactions)) ==>
        Orderly(u, mempool.transactions) && Retained(u, old(mempool.transactions), mempool.transactions))
  {
    hide Rebuild, Bookkept, OldPool, Midway, Orderly, FundedAreFresh, Retained, Submap, KeyedById;
    var snapshot := mempool.transactions;
    SnapshotKeys(snapshot, mempool.reserved, mempool.bytes);
    mempool.Clear();
    EmptyPart(snapshot);
    var rebuilt := ValidateAndRebuildChain(newChain);
    if rebuilt.None? {
      return;
    }
    var u := rebuilt.value.utxo;
    ghost var given := OldPool(snapshot, rank) && FundedAreFresh(u, snapshot);
    var pending := snapshot.Keys;
    var order := Enumerate(pending);
    var progress := true;
    if given {
      StartMidway(u, snapshot);
    }
    while progress && pending != {}
      invariant pending <= snapshot.Keys && mempool.Valid() && Submap(mempool.transactions, snapshot)
      invariant given ==> Midway(u, snapshot, pending, mempool.transactions)
      invariant !progress ==> forall id :: id in pending ==> !DepsReady(snapshot[id], pending)
      decreases |pending|, progress
    {
      progress := false;
      ghost var before := pending;
      for k := 0 to |order|
        invariant pending <= before && mempool.Valid() && Submap(mempool.transactions, snapshot)
        invariant given ==> Midway(u, snapshot, pending, mempool.transactions)
        invariant progress ==> |pending| < |before|
        invariant !progress ==> pending == before
        invariant !progress ==>
          forall j :: 0 <= j < k && order[j] in pending ==> !DepsReady(snapshot[order[j]], pending)
      {
        var id := order[k];
        if id in pending && DepsReady(snapshot[id], pending) {
          OfferAgain(mempool, u, snapshot, pending, id, given, rank);
          pending := pending - {id};
          progress := true;
        }
      }
    }
    if given {
      if pending != {} {
        OldPoolAcyclic(snapshot, rank);
        NeverStuck(snapshot, rank, pending);
      }
      EndMidway(u, snapshot, mempool.transactions);
    }
  }

  lemma {:induction false} EmptyPart(p: Pool)
    ensures Submap(map[], p)
  {
  }

  lemma {:induction false} SnapshotKeys(p: Pool, reserved: set<OutPoint>, bytes: nat)
    requires Bookkept(p, reserved, bytes)
    ensures KeyedById(p)
  {
    hide Sum, Txid, Encode;
  }

  lemma {:induction false} StartMidway(u: Utxo, p: Pool)
    requires FundedAreFresh(u, p)
    ensures Midway(u, p, p.Keys, map[])
  {
    EmptyIsOrderly(u);
  }

  lemma {:induction false} MidwayOrderly(u: Utxo, p: Pool, pending: set<Hash256>, r: Pool)
    requires Midway(u, p, pending, r)
    ensures Orderly(u, r)
  {
  }

  lemma {:induction false} EndMidway(u: Utxo, p: Pool, r: Pool)
    requires Midway(u, p, {}, r)
    ensures Orderly(u, r) && Retained(u, p, r)
  {
    hide Orderly, WitnessOk;
    forall id | id in p ensures id in r <==> WitnessOk(p[id], View(u, r)) {
      assert Settled(u, p, {}, r, id);
    }
  }

  lemma {:induction false} OldPoolAcyclic(p: Pool, rank: map<Hash256, nat>)
    requires OldPool(p, rank)
    ensures Acyclic(p, rank)
  {
  }

  // ----- Chains with distinct ids -----

  /** An orderly pool over a chain with distinct ids holds nothing that is confirmed. */
  lemma {:induction false} OrderlyIsUnconfirmed(txs: seq<Transaction>, u: Utxo, s: set<Bytes>, r: Pool,
      rank: map<Hash256, nat>, id: Hash256)
    requires Snapshot(txs, u, s) && IdsWithin(r, s) && Ranked(u, r, rank) && id in r && id in rank
    ensures id !in Ids(txs)
    decreases rank[id]
  {
    hide Snapshot, Ids, View, WitnessOk, Txid, PutBase, ConfirmAll, DistinctIds, AllSpent;
    if id in Ids(txs) {
      SnapshotFacts(txs, u, s);
      assert Sound(u, r, rank, id);
      SoundInputs(u, r, rank, id);
      ConfirmedBody(txs, u, s, r[id]);
      var o := r[id].inputs[0];
      assert o in r[id].inputs && o in View(u, r) && o !in u;
      OrderlyIsUnconfirmed(txs, u, s, r, rank, o.txid);
      assert false;
    }
  }

  /** The inputs of a confirmed transaction are spent on the chain, if it is no coinbase. */
  lemma {:induction false} ConfirmedBody(txs: seq<Transaction>, u: Utxo, s: set<Bytes>, tx: Transaction)
    requires Snapshot(txs, u, s) && Txid(tx) in Ids(txs) && PutBase(tx, []) in s && !IsCoinbase(tx)
    ensures Spent(tx) <= AllSpent(txs)
  {
    hide Ids, Txid, PutBase, ConfirmAll, DistinctIds, AllSpent, IdPreimages, CollisionFree;
    var owner := OwnerOf(txs, Txid(tx));
    SameIdSameBody(owner, tx, s);
    assert Spent(owner) == Spent(tx);
  }

  /** Chains with distinct ids meet the condition, for any pool. */
  lemma {:induction false} DistinctIdsMeetIt(txs: seq<Transaction>, u: Utxo, s: set<Bytes>, p: Pool)
    requires Snapshot(txs, u, s) && IdsWithin(p, s) && KeyedById(p)
    ensures FundedAreFresh(u, p)
  {
    hide Snapshot, Ids, View, WitnessOk, Txid, PutBase, Orderly, IdsWithin;
    SnapshotFacts(txs, u, s);
    forall r, id | Submap(r, p) && Orderly(u, r) && id in p && id !in r && WitnessOk(p[id], View(u, r))
      ensures Fresh(u, id, |p[id].outputs|)
    {
      FundedIsUnconfirmed(txs, u, s, p, r, id);
    }
  }

  lemma {:induction false} FundedIsUnconfirmed(txs: seq<Transaction>, u: Utxo, s: set<Bytes>, p: Pool, r: Pool,
      id: Hash256)
    requires Snapshot(txs, u, s) && IdsWithin(p, s) && KeyedById(p)
    requires Submap(r, p) && Orderly(u, r) && id in p && id !in r && WitnessOk(p[id], View(u, r))
    ensures id !in Ids(txs)
  {
    hide Snapshot, Ids, View, WitnessOk, Txid, PutBase, AllSpent;
    SnapshotFacts(txs, u, s);
    var rank :| Ranked(u, r, rank);
    RankedIndexes(u, r, rank);
    WitnessSpendable(p[id], View(u, r));
    var o := p[id].inputs[0];
    assert o in p[id].inputs;
    if id in Ids(txs) {
      ConfirmedBody(txs, u, s, p[id]);
      assert o !in u && Creates(r, o) && o.txid in Ids(txs);
      assert Sound(u, r, rank, o.txid);
      OrderlyIsUnconfirmed(txs, u, s, r, rank, o.txid);
      assert false;
    }
  }
}
