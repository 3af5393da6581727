/** Exactly when the sweeps of the mempool still succeed after an admission. */
module SweepRuns {
  import opened Types
  import opened TransactionCodec
  import opened Consensus
  import opened Coinbase
  import opened Sums
  import opened Utxo
  import opened ChainValidator
  import opened Confirmed
  import opened Repetition
  import opened Pool
  import opened Sweep
  import opened Mempool
  import opened PoolRuns

  /** Every order of the sweep lists the whole pool. */
  ghost predicate AlwaysSwept(u: Utxo, p: Pool) {
    forall order :: Enumerates(p, order) ==> Lists(p, Swept(u, p, order))
  }

  // ----- Heirs of a transaction -----

  ghost predicate InEveryClosed(p: Pool, root: Hash256, id: Hash256) {
    forall other: set<Hash256> :: root in other && ChildClosed(p, other) ==> id in other
  }

  /** The transaction and whatever spends from it, directly or not. */
  ghost function Heirs(p: Pool, root: Hash256): set<Hash256> {
    set id | id in p && InEveryClosed(p, root, id)
  }

  lemma {:induction false} HeirsClosed(p: Pool, root: Hash256)
    requires root in p
    ensures root in Heirs(p, root) && ChildClosed(p, Heirs(p, root))
  {
    forall id, o | id in p && o in p[id].inputs && o.txid in Heirs(p, root) ensures id in Heirs(p, root) {
      assert InEveryClosed(p, root, o.txid);
      forall other: set<Hash256> | root in other && ChildClosed(p, other) ensures id in other {
        assert o.txid in other;
      }
    }
  }

  /** Every heir but the root spends from an heir. */
  lemma {:induction false} HeirHasParent(p: Pool, root: Hash256, id: Hash256)
    requires root in p && id in Heirs(p, root) && id != root
    ensures exists o :: o in p[id].inputs && o.txid in Heirs(p, root)
  {
    hide Heirs;
    HeirsClosed(p, root);
    assert InEveryClosed(p, root, id) by { HeirInside(p, root, id); }
    var heirs := Heirs(p, root);
    if forall o :: o in p[id].inputs ==> o.txid !in heirs {
      ClosedWithout(p, heirs, id);
      assert false;
    }
  }

  lemma {:induction false} ClosedWithout(p: Pool, ids: set<Hash256>, id: Hash256)
    requires ChildClosed(p, ids) && id in p && forall o :: o in p[id].inputs ==> o.txid !in ids
    ensures ChildClosed(p, ids - {id})
  {
  }

  lemma {:induction false} HeirInside(p: Pool, root: Hash256, id: Hash256)
    requires id in Heirs(p, root)
    ensures id in p && InEveryClosed(p, root, id)
  {
  }

  // ----- Not fresh: some order gives up -----

  function IdsOf(txs: seq<Transaction>): seq<Hash256> {
    if txs == [] then [] else IdsOf(txs[..|txs| - 1]) + [Txid(txs[|txs| - 1])]
  }

  /** A sweep in the order of a list that applies takes exactly that list. */
  lemma {:induction false} PassFollows(u: Utxo, q: Pool, part: Pool, txs: seq<Transaction>)
    requires Lists(part, txs) && ApplyTxs(u, txs).Some?
    requires forall id :: id in part ==> id in q && q[id] == part[id]
    ensures Pass(q, At(u, q.Keys, []), IdsOf(txs)) == At(ApplyTxs(u, txs).value, q.Keys - part.Keys, txs)
    ensures forall id :: id in IdsOf(txs) <==> id in part
  {
    hide CheckedApply, ApplyTx, Txid, Ready, Pass;
    if txs == [] {
      assert q.Keys - part.Keys == q.Keys;
      NoPass(q, At(u, q.Keys, []));
    } else {
      var front, tx := txs[..|txs| - 1], txs[|txs| - 1];
      var id := Txid(tx);
      PassFollows(u, q, part - {id}, front);
      CheckedIsReady(ApplyTxs(u, front).value, tx);
      PassOneMore(q, At(u, q.Keys, []), IdsOf(front), id);
      assert q.Keys - (part - {id}).Keys - {id} == q.Keys - part.Keys;
      assert txs == front + [tx];
    }
  }

  lemma {:induction false} NoPass(p: Pool, st: Stage)
    ensures Pass(p, st, []) == st
  {
  }

  lemma {:induction false} CheckedIsReady(u: Utxo, tx: Transaction)
    requires CheckedApply(u, tx).Some?
    ensures Ready(u, tx) && ApplyTx(u, tx) == CheckedApply(u, tx)
  {
    hide WitnessOk, Txid;
  }

  /** If an output of the newcomer is unspent on the chain, an order of the others without its heirs, and then the
      newcomer, makes the sweep give up. */
  lemma {:induction false} SomeSweepGivesUp(u: Utxo, p: Pool, tx: Transaction)
    requires Orderly(u, p) && Admissible(u, p, tx) && !Fresh(u, Txid(tx), |tx.outputs|)
    requires forall o :: o in tx.inputs ==> o.txid !in Heirs(p[Txid(tx) := tx], Txid(tx))
    ensures !AlwaysSwept(u, p[Txid(tx) := tx])
  {
    hide Orderly, Effective, ApplyTxs, Lists, Txid, Heirs, Admissible, ApplyTx, Fresh, IdsOf, AlwaysSwept, ChildClosed,
      Ready, IsOrder, Pass;
    var id := Txid(tx);
    var q := p[id := tx];
    var heirs := Heirs(q, id);
    NewcomerIsNew(u, p, tx);
    HeirsClosed(q, id);
    ClosedBelow(p, q, heirs);
    var rest := p - heirs;
    RemoveKeepsOrderly(u, p, heirs);
    var txs := OrderExists(u, rest);
    NewcomerBlocked(u, p, tx, heirs);
    OrderReaches(u, rest, txs);
    BlockedAfter(u, q, rest, txs, tx);
    PrefixGivesUp(u, q, IdsOf(txs) + [id]);
  }

  lemma {:induction false} OrderReaches(u: Utxo, p: Pool, txs: seq<Transaction>)
    requires IsOrder(u, p, txs)
    ensures Lists(p, txs) && ApplyTxs(u, txs) == Some(Effective(u, p))
  {
  }

  lemma {:induction false} BlockedAfter(u: Utxo, q: Pool, part: Pool, txs: seq<Transaction>, tx: Transaction)
    requires Txid(tx) in q && q[Txid(tx)] == tx && Txid(tx) !in part && Lists(part, txs) && ApplyTxs(u, txs).Some?
    requires forall id :: id in part ==> id in q && q[id] == part[id]
    requires Ready(ApplyTxs(u, txs).value, tx) && ApplyTx(ApplyTxs(u, txs).value, tx).None?
    ensures Pass(q, At(u, q.Keys, []), IdsOf(txs) + [Txid(tx)]).GaveUp?
    ensures forall id :: id in IdsOf(txs) + [Txid(tx)] ==> id in q
  {
    hide Lists, ApplyTxs, Txid, Ready, ApplyTx, IdsOf;
    PassFollows(u, q, part, txs);
    var first := IdsOf(txs) + [Txid(tx)];
    assert first[..|first| - 1] == IdsOf(txs) && first[|first| - 1] == Txid(tx);
  }

  /** A sweep that gives up early gives up, however it would have gone on. */
  lemma {:induction false} PrefixGivesUp(u: Utxo, q: Pool, first: seq<Hash256>)
    requires q != map[] && Pass(q, At(u, q.Keys, []), first).GaveUp? && forall id :: id in first ==> id in q
    ensures !AlwaysSwept(u, q)
  {
    hide Pass, Swept, Lists, Ascending;
    var order := first + Ascending(q.Keys);
    assert order[..|first|] == first;
    GaveUpStays(q, At(u, q.Keys, []), order, |first|);
    GivenUpIsNothing(u, q, order);
    assert Enumerates(q, order);
    NothingListsNothing(q);
  }

  lemma {:induction false} NewcomerIsNew(u: Utxo, p: Pool, tx: Transaction)
    requires Admissible(u, p, tx)
    ensures Txid(tx) !in p
  {
  }

  lemma {:induction false} ClosedBelow(p: Pool, q: Pool, ids: set<Hash256>)
    requires ChildClosed(q, ids) && forall id :: id in p ==> id in q && q[id] == p[id]
    ensures ChildClosed(p, ids)
  {
  }

  lemma {:induction false} GivenUpIsNothing(u: Utxo, p: Pool, order: seq<Hash256>)
    requires p != map[] && Pass(p, At(u, p.Keys, []), order).GaveUp?
    ensures Swept(u, p, order) == []
  {
    hide Pass;
    assert p.Keys != {};
  }

  lemma {:induction false} NothingListsNothing(p: Pool)
    requires p != map[]
    ensures !Lists(p, [])
  {
  }

  /** Once the others are applied, the newcomer has its inputs and cannot be applied. */
  lemma {:induction false} NewcomerBlocked(u: Utxo, p: Pool, tx: Transaction, heirs: set<Hash256>)
    requires Admissible(u, p, tx) && !Fresh(u, Txid(tx), |tx.outputs|)
    requires ChildClosed(p, heirs) && Txid(tx) in heirs && forall o :: o in tx.inputs ==> o.txid !in heirs
    ensures var v := Effective(u, p - heirs); Ready(v, tx) && ApplyTx(v, tx).None?
  {
    hide WitnessOk, View, Txid, Sum, Encode, Effective, Reserved, ChildClosed;
    WitnessSpendable(tx, Effective(u, p));
    forall o | o in tx.inputs ensures o in Effective(u, p - heirs) {
      InputStays(u, p, heirs, o);
    }
    var o :| o in u && o.txid == Txid(tx) && o.index < |tx.outputs|;
    UnspentStays(u, p, heirs, o);
    assert o in Effective(u, p - heirs) - Spent(tx);
  }

  lemma {:induction false} InputStays(u: Utxo, p: Pool, heirs: set<Hash256>, o: OutPoint)
    requires o in Effective(u, p) && o.txid !in heirs
    ensures o in Effective(u, p - heirs)
  {
    hide View;
    assert o !in Reserved(p - heirs);
  }

  lemma {:induction false} UnspentStays(u: Utxo, p: Pool, heirs: set<Hash256>, o: OutPoint)
    requires o in u && o.txid in heirs && ChildClosed(p, heirs)
    ensures o in Effective(u, p - heirs)
  {
    hide View;
    assert o !in Reserved(p - heirs);
  }

  // ----- On a chain, nothing spends its own heirs -----

  /** If the newcomer was confirmed before, it spends none of its heirs: they were all confirmed with it, and nothing
      among them could have been first. */
  lemma {:induction false} SpendsNoHeir(txs: seq<Transaction>, u: Utxo, q: Pool, id: Hash256, s: set<Bytes>)
    requires ConfirmAll(txs) == Some(u) && CollisionFree(s) && IdPreimages(txs) <= s && IdsWithin(q, s)
    requires KeyedById(q) && (forall a :: a in q ==> !IsCoinbase(q[a])) && id in q && id in Ids(txs)
    ensures forall o :: o in q[id].inputs ==> o.txid !in Heirs(q, id)
  {
    hide ConfirmAll, Txid, CollisionFree, IdPreimages, Heirs, IsCoinbase, Ids, PutBase, FedBy;
    HeirsClosed(q, id);
    var ids := Heirs(q, id) * Ids(txs);
    if o :| o in q[id].inputs && o.txid in Heirs(q, id) {
      forall k | 0 <= k < |txs| && Txid(txs[k]) in ids ensures FedBy(txs[k], ids) {
        HeirIsFed(txs, q, id, s, k, o);
      }
      var k := PositionOf(txs, id);
      NothingFeedsItself(txs, ids, |txs|);
      assert false;
    }
  }

  lemma {:induction false} PositionOf(txs: seq<Transaction>, id: Hash256) returns (k: nat)
    requires id in Ids(txs)
    ensures k < |txs| && Txid(txs[k]) == id
  {
    hide Txid;
    if Txid(txs[|txs| - 1]) == id {
      k := |txs| - 1;
    } else {
      k := PositionOf(txs[..|txs| - 1], id);
    }
  }

  lemma {:induction false} IdAt(txs: seq<Transaction>, k: nat)
    requires k < |txs|
    ensures Txid(txs[k]) in Ids(txs)
  {
    hide Txid;
    if k < |txs| - 1 {
      IdAt(txs[..|txs| - 1], k);
    }
  }

  lemma {:induction false} HeirIsFed(txs: seq<Transaction>, q: Pool, id: Hash256, s: set<Bytes>, k: nat, loop: OutPoint)
    requires ConfirmAll(txs).Some? && CollisionFree(s) && IdPreimages(txs) <= s && IdsWithin(q, s)
    requires KeyedById(q) && (forall a :: a in q ==> !IsCoinbase(q[a])) && id in q
    requires loop in q[id].inputs && loop.txid in Heirs(q, id)
    requires k < |txs| && Txid(txs[k]) in Heirs(q, id)
    ensures FedBy(txs[k], Heirs(q, id) * Ids(txs))
  {
    hide ConfirmAll, Txid, CollisionFree, IdPreimages, Heirs, Ids, PutBase;
    var heir := Txid(txs[k]);
    HeirInside(q, id, heir);
    PreimageAt(txs, k);
    SameIdSameBody(q[heir], txs[k], s);
    if heir != id {
      HeirHasParent(q, id, heir);
    }
    var o :| o in q[heir].inputs && o.txid in Heirs(q, id);
    LedgerStep(txs, k);
    var j := CreatorOf(txs, k, o);
    IdAt(txs, j);
    assert o in txs[k].inputs && o.txid in Heirs(q, id) * Ids(txs);
  }

  // ----- The exact condition -----

  lemma {:induction false} PoolIsOrdinary(u: Utxo, p: Pool, tx: Transaction)
    requires Orderly(u, p) && Admissible(u, p, tx)
    ensures var q := p[Txid(tx) := tx]; KeyedById(q) && forall id :: id in q ==> !IsCoinbase(q[id])
  {
    hide WitnessOk, View, Txid, Sum, Encode, Reserved;
    var rank :| Ranked(u, p, rank);
    RankedIndexes(u, p, rank);
    WitnessSpendable(tx, Effective(u, p));
    assert tx.inputs[0] in tx.inputs;
    forall id | id in p ensures Txid(p[id]) == id && !IsCoinbase(p[id]) {
      assert Sound(u, p, rank, id);
      SoundInputs(u, p, rank, id);
      assert p[id].inputs[0] in p[id].inputs;
    }
  }

  /** Over every valid chain and orderly pool: after an admission, every order of the sweep still succeeds exactly if
      the chain has no unspent output with the id of the newcomer. */
  lemma {:induction false} AlwaysSweptIffFresh(chain: seq<Block>, p: Pool, tx: Transaction, s: set<Bytes>)
    requires Valid(chain) && CollisionFree(s) && IdPreimages(Flatten(chain)) <= s
    requires var u := Rebuild(chain).value.utxo; Orderly(u, p) && Admissible(u, p, tx)
    requires IdsWithin(p[Txid(tx) := tx], s)
    ensures AlwaysSwept(Rebuild(chain).value.utxo, p[Txid(tx) := tx]) <==>
      Fresh(Rebuild(chain).value.utxo, Txid(tx), |tx.outputs|)
  {
    hide Rebuild, Orderly, Admissible, IdPreimages, Flatten, IdsWithin, CollisionFree, ConfirmAll, Txid, Heirs, Lists,
      Swept, IsCoinbase, KeyedById, IsOrder;
    var u, q := Rebuild(chain).value.utxo, p[Txid(tx) := tx];
    if Fresh(u, Txid(tx), |tx.outputs|) {
      AdmissionKeepsOrderly(u, p, tx);
      forall order | Enumerates(q, order) ensures Lists(q, Swept(u, q, order)) {
        OrderlyIsSwept(u, q, order);
        OrderLists(u, q, Swept(u, q, order));
      }
    } else {
      var o :| o in u && o.txid == Txid(tx) && o.index < |tx.outputs|;
      LedgerIsConfirmAll(chain);
      PoolIsOrdinary(u, p, tx);
      IdInLedger(Flatten(chain), o);
      SpendsNoHeir(Flatten(chain), u, q, Txid(tx), s);
      SomeSweepGivesUp(u, p, tx);
    }
  }

  lemma {:induction false} IdInLedger(txs: seq<Transaction>, o: OutPoint)
    requires ConfirmAll(txs).Some? && o in ConfirmAll(txs).value
    ensures o.txid in Ids(txs)
  {
    hide ConfirmAll, Txid, Ids;
    assert txs[..|txs|] == txs;
    var k := CreatorOf(txs, |txs|, o);
    IdAt(txs, k);
  }

  lemma {:induction false} AdmissionKeepsOrderly(u: Utxo, p: Pool, tx: Transaction)
    requires Orderly(u, p) && Admissible(u, p, tx) && Fresh(u, Txid(tx), |tx.outputs|)
    ensures Orderly(u, p[Txid(tx) := tx])
  {
    hide Orderly, WitnessOk, Effective, Txid, Sum, Encode, Reserved;
    AcceptKeepsOrderly(u, p, tx);
  }

  lemma {:induction false} OrderLists(u: Utxo, p: Pool, txs: seq<Transaction>)
    requires IsOrder(u, p, txs)
    ensures Lists(p, txs)
  {
  }

  // ----- The order of the source can miss an order that exists -----

  lemma {:induction false} TwoAscending(a: Hash256, b: Hash256)
    requires BigEndian(a) < BigEndian(b)
    ensures Ascending({a, b}) == [a, b]
  {
    hide BigEndian;
    assert IsLeast({a, b}, a);
    AscendingStep({a, b}, a);
    assert {a, b} - {a} == {b};
    assert IsLeast({b}, b);
    AscendingStep({b}, b);
    assert {b} - {b} == {};
    assert Ascending({}) == [];
  }

  /** The pool holds a child that spends the chain's output with the newcomer's id, and the newcomer is admitted. */
  ghost predicate ChildBefore(u: Utxo, child: Transaction, tx: Transaction) {
    var p, shared := map[Txid(child) := child], OutPoint(Txid(tx), 0);
    && Orderly(u, p) && Admissible(u, p, tx)
    && shared in u && shared in child.inputs && shared !in tx.inputs
    && |tx.outputs| == 1 && Ready(u, tx)
  }

  ghost function Pair(child: Transaction, tx: Transaction): Pool {
    map[Txid(child) := child][Txid(tx) := tx]
  }

  /** Then an order exists, the child first. The source sweeps by id: it finds the order exactly if the child's id is
      the lesser one. */
  lemma {:induction false} SweepByIdMisses(u: Utxo, child: Transaction, tx: Transaction)
    requires ChildBefore(u, child, tx)
    ensures var q := Pair(child, tx);
      && CanBeOrdered(u, q)
      && (Swept(u, q, Ascending(q.Keys)) == [] <==> BigEndian(Txid(tx)) < BigEndian(Txid(child)))
  {
    hide ChildBefore, Txid, CanBeOrdered, BigEndian, Swept, Ascending, ApplyTx, Ready;
    var a, b, q := Txid(child), Txid(tx), Pair(child, tx);
    ChildIsOther(u, child, tx);
    PairOrdered(u, child, tx);
    PairApplies(u, child, tx);
    assert q.Keys == {a, b};
    if BigEndian(b) < BigEndian(a) {
      TwoAscending(b, a);
      assert {b, a} == {a, b};
      NewcomerFirst(u, q, child, tx);
    } else {
      if BigEndian(a) == BigEndian(b) {
        KeysDiffer(a, b);
        assert false;
      }
      TwoAscending(a, b);
      TakesBoth(u, q, child, tx);
    }
  }

  lemma {:induction false} ChildIsOther(u: Utxo, child: Transaction, tx: Transaction)
    requires ChildBefore(u, child, tx)
    ensures Txid(child) != Txid(tx)
  {
    hide Orderly, Txid, WitnessOk, Sum, Encode, Effective, Reserved;
  }

  lemma {:induction false} PairOrdered(u: Utxo, child: Transaction, tx: Transaction)
    requires ChildBefore(u, child, tx)
    ensures CanBeOrdered(u, Pair(child, tx))
  {
    hide Orderly, Txid, Admissible, Reserved, CanBeOrdered, Ready;
    OneReserved(child);
    OrderableIffFresh(u, map[Txid(child) := child], tx);
  }

  /** Child first, both apply; the newcomer cannot be first. */
  lemma {:induction false} PairApplies(u: Utxo, child: Transaction, tx: Transaction)
    requires ChildBefore(u, child, tx)
    ensures Ready(u, child) && ApplyTx(u, child).Some?
    ensures Ready(ApplyTx(u, child).value, tx) && ApplyTx(ApplyTx(u, child).value, tx).Some?
    ensures Ready(u, tx) && ApplyTx(u, tx).None?
  {
    hide Orderly, Txid, WitnessOk, Sum, Encode, Effective, Reserved, Lists, ApplyTxs, IsOrder, CheckedApply, Outputs;
    var p, shared := map[Txid(child) := child], OutPoint(Txid(tx), 0);
    ChildIsOther(u, child, tx);
    OneReserved(child);
    WitnessSpendable(tx, Effective(u, p));
    var txs := OrderExists(u, p);
    OrderReaches(u, p, txs);
    OneListed(child, txs);
    OneStep(u, child);
    CheckedIsReady(u, child);
    OnlyOutputGone(u, child, tx);
    assert shared in u - Spent(tx);
  }

  /** With the shared output spent, the newcomer's one output is new. */
  lemma {:induction false} OnlyOutputGone(u: Utxo, child: Transaction, tx: Transaction)
    requires ApplyTx(u, child).Some? && OutPoint(Txid(tx), 0) in child.inputs && Txid(child) != Txid(tx)
    requires |tx.outputs| == 1 && Ready(u, tx) && Spent(tx) !! Spent(child) && Distinct(tx.inputs)
    ensures Ready(ApplyTx(u, child).value, tx) && ApplyTx(ApplyTx(u, child).value, tx).Some?
  {
    hide Txid, Outputs;
    var v := ApplyTx(u, child).value;
    assert forall o :: o in v && o.txid == Txid(tx) && o.index < 1 ==> o == OutPoint(Txid(tx), 0);
  }

  lemma {:induction false} OneReserved(tx: Transaction)
    ensures Reserved(map[Txid(tx) := tx]) == Spent(tx)
  {
    hide Txid;
    var p := map[Txid(tx) := tx];
    assert forall o :: o in Spent(tx) ==> Txid(tx) in p && o in p[Txid(tx)].inputs;
  }

  lemma {:induction false} OneListed(tx: Transaction, txs: seq<Transaction>)
    requires Lists(map[Txid(tx) := tx], txs)
    ensures txs == [tx]
  {
    hide Txid;
    ListsLength(map[Txid(tx) := tx], txs);
  }

  lemma {:induction false} NewcomerFirst(u: Utxo, q: Pool, child: Transaction, tx: Transaction)
    requires q == Pair(child, tx) && Ready(u, tx) && ApplyTx(u, tx).None?
    ensures Swept(u, q, [Txid(tx), Txid(child)]) == []
  {
    hide Txid, Ready, ApplyTx;
    var order, st := [Txid(tx), Txid(child)], At(u, q.Keys, []);
    assert order[..1] == [Txid(tx)] && [Txid(tx)][..0] == [];
    assert Pass(q, st, []) == st && Pass(q, st, [Txid(tx)]).GaveUp?;
    GaveUpStays(q, st, order, 1);
    GivenUpIsNothing(u, q, order);
  }

  lemma {:induction false} TakesBoth(u: Utxo, q: Pool, child: Transaction, tx: Transaction)
    requires Txid(child) != Txid(tx) && q == Pair(child, tx)
    requires Ready(u, child) && ApplyTx(u, child).Some?
    requires Ready(ApplyTx(u, child).value, tx) && ApplyTx(ApplyTx(u, child).value, tx).Some?
    ensures Swept(u, q, [Txid(child), Txid(tx)]) != []
  {
    hide Txid, Ready, ApplyTx;
    var a, b, st := Txid(child), Txid(tx), At(u, q.Keys, []);
    var v := ApplyTx(u, child).value;
    assert [a, b][..1] == [a] && [a][..0] == [] && q.Keys == {a, b};
    assert Pass(q, st, []) == st;
    assert Pass(q, st, [a]) == At(v, q.Keys - {a}, [child]);
    var end := Pass(q, st, [a, b]);
    assert end.At? && end.remaining == {} && end.taken == [child, tx];
    assert Sweeps(q, end.working, {}, end.taken, [a, b]) == end.taken;
  }
}
