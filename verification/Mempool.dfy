/** The mempool: admission, ordering and removal (mempool.hpp). */
module Mempool {
  import opened Types
  import opened TransactionCodec
  import opened Rules
  import opened Sums
  import opened Utxo
  import opened ChainValidator
  import opened Pool
  import opened Sweep
  import opened Consensus

  const MAX_TRANSACTIONS := 5000
  const MAX_TRANSACTION_BYTES := 1_000_000
  const MAX_MEMPOOL_BYTES := 16 * 1024 * 1024

  function Size(tx: Transaction): nat { |Encode(tx)| }

  /** The books are right: keys are ids, inputs are reserved once each, bytes are counted. */
  ghost predicate Bookkept(p: Pool, reserved: set<OutPoint>, bytes: nat) {
    && (forall id :: id in p ==> Txid(p[id]) == id && Size(p[id]) <= MAX_TRANSACTION_BYTES)
    && DisjointInputs(p)
    && reserved == Reserved(p)
    && bytes == Sum(p, Size)
    && bytes <= MAX_MEMPOOL_BYTES && |p| <= MAX_TRANSACTIONS
  }

  /** What admission demands of a transaction, given an orderly pool. */
  ghost predicate Admissible(u: Utxo, p: Pool, tx: Transaction) {
    && Txid(tx) !in p
    && |p| < MAX_TRANSACTIONS
    && Size(tx) <= MAX_TRANSACTION_BYTES
    && Sum(p, Size) + Size(tx) <= MAX_MEMPOOL_BYTES
    && Spent(tx) !! Reserved(p)
    && WitnessOk(tx, Effective(u, p))
  }

  /** The unspent set that admission validates against: the whole pool moved in the order the sweeps find, or nothing
      if they do not find one. */
  ghost function Built(u: Utxo, p: Pool): Option<Utxo> {
    var ordered := Swept(u, p, Ascending(p.Keys));
    if |ordered| == |p| then MoveTxs(u, ordered) else None
  }

  /** What admission answers, for any pool: the first fault in the order of the checks. */
  ghost function AdmissionReason(u: Utxo, p: Pool, tx: Transaction): Reason {
    if Txid(tx) in p then Duplicate
    else if |p| >= MAX_TRANSACTIONS then Reason.MempoolFull
    else if Size(tx) > MAX_TRANSACTION_BYTES then TransactionTooLarge
    else if Sum(p, Size) + Size(tx) > MAX_MEMPOOL_BYTES then Reason.MempoolFull
    else if !(Spent(tx) !! Reserved(p)) then DoubleSpend
    else
      match Built(u, p)
      case None => InvalidTransaction
      case Some(v) =>
        var reason := FundingReason(tx, v);
        if !reason.Accepted? then reason
        else if WitnessOk(tx, v) then Accepted
        else InvalidTransaction
  }

  /** The pool has no room: too many transactions, or one of a permitted size would be too much. */
  ghost predicate NoRoom(p: Pool, bytes: nat) {
    |p| >= 5000 || (bytes <= 1_000_000 && Sum(p, Size) + bytes > 16_777_216)
  }

  ghost predicate SpentByPool(p: Pool, tx: Transaction) {
    exists id, o :: id in p && o in p[id].inputs && o in tx.inputs
  }

  /** Nothing speaks against admission but the funding. */
  ghost predicate Considered(p: Pool, tx: Transaction) {
    var bytes := |PutFull(tx, [])|;
    Sha256(PutBase(tx, [])) !in p && !NoRoom(p, bytes) && bytes <= 1_000_000 && !SpentByPool(p, tx)
  }

  /** The answers in terms of the source's limits: a known transaction, no room, an oversized transaction and an input
      that the pool spends already come before any question of funding. */
  lemma {:induction false} AnswerIs(u: Utxo, p: Pool, tx: Transaction)
    ensures var answer, bytes := AdmissionReason(u, p, tx), |PutFull(tx, [])|;
      var known, v := Sha256(PutBase(tx, [])) in p, Built(u, p);
      && (answer.Duplicate? <==> known)
      && (answer.MempoolFull? <==> !known && NoRoom(p, bytes))
      && (answer.TransactionTooLarge? <==> !known && |p| < 5000 && bytes > 1_000_000)
      && (answer.DoubleSpend? <==> !known && !NoRoom(p, bytes) && bytes <= 1_000_000 && SpentByPool(p, tx))
      && (answer.Accepted? <==> Considered(p, tx) && v.Some? && WitnessOk(tx, v.value))
      && (Considered(p, tx) && v.Some? && !WitnessOk(tx, v.value) ==>
            answer == if FundingReason(tx, v.value).Accepted? then InvalidTransaction else FundingReason(tx, v.value))
      && (Considered(p, tx) && v.None? ==> answer.InvalidTransaction?)
  {
    hide Built, WitnessOk, Sum, PutFull, PutBase, TxValid, SumAmounts, InputSum, Spendable;
    if SpentByPool(p, tx) {
      var id, o :| id in p && o in p[id].inputs && o in tx.inputs;
      assert o in Spent(tx) && o in Reserved(p);
    } else {
      assert Spent(tx) !! Reserved(p);
    }
    if Built(u, p).Some? {
      WitnessIsFunded(tx, Built(u, p).value);
      FaultIsInputs(Built(u, p).value, tx.inputs);
    }
  }

  /** A pool whose sweeps find no order admits nothing. */
  lemma {:induction false} StuckAdmitsNothing(u: Utxo, p: Pool, tx: Transaction)
    requires p != map[] && Swept(u, p, Ascending(p.Keys)) == []
    ensures !AdmissionReason(u, p, tx).Accepted?
  {
    hide Swept, Ascending, Sum, Encode, WitnessOk, FundingReason, Reserved;
    assert |p| > 0;
  }

  /** On an orderly pool the built set is the closed form, whatever the order of the ids. */
  lemma {:induction false} OrderlyIsBuilt(u: Utxo, p: Pool)
    requires Orderly(u, p)
    ensures Built(u, p) == Some(Effective(u, p))
  {
    hide Swept, Orderly, Lists, Effective, MoveTxs, ApplyTxs;
    var order := Ascending(p.Keys);
    OrderlyIsSwept(u, p, order);
    ListsLength(p, Swept(u, p, order));
    AppliedIsMoved(u, Swept(u, p, order));
  }

  lemma {:induction false} AppliedIsMoved(u: Utxo, txs: seq<Transaction>)
    requires ApplyTxs(u, txs).Some?
    ensures MoveTxs(u, txs) == ApplyTxs(u, txs)
  {
    hide WitnessOk, ApplyTx;
    if txs != [] {
      AppliedIsMoved(u, txs[..|txs| - 1]);
    }
  }

  /** On an orderly pool a transaction is admitted exactly if it is admissible. */
  lemma {:induction false} OrderlyAdmits(u: Utxo, p: Pool, tx: Transaction)
    requires Orderly(u, p)
    ensures AdmissionReason(u, p, tx).Accepted? <==> Admissible(u, p, tx)
  {
    hide Built, Orderly, Effective, WitnessOk, Txid, Sum, Encode, Reserved, AgainstUtxo;
    OrderlyIsBuilt(u, p);
    WitnessIsFunded(tx, Effective(u, p));
  }

  lemma {:induction false} WitnessIsFunded(tx: Transaction, u: Utxo)
    ensures WitnessOk(tx, u) ==> FundingReason(tx, u).Accepted?
  {
  }

  method Enumerate(ids: set<Hash256>) returns (order: seq<Hash256>)
    ensures forall id :: id in order <==> id in ids
  {
    order := [];
    var rest := ids;
    while rest != {}
      invariant rest <= ids && forall id :: id in order <==> id in ids - rest
      decreases |rest|
    {
      var id :| id in rest;
      rest := rest - {id};
      order := order + [id];
    }
  }

  /** The sort of the source, by selection. */
  method SortIds(ids: set<Hash256>) returns (order: seq<Hash256>)
    ensures order == Ascending(ids)
    ensures forall id :: id in order <==> id in ids
  {
    hide BigEndian;
    order := [];
    var rest := ids;
    while rest != {}
      invariant order + Ascending(rest) == Ascending(ids)
      decreases rest
    {
      LeastThere(rest);
      var id: Hash256 :| id in rest && forall other :: other in rest ==> BigEndian(id) <= BigEndian(other);
      AscendingStep(rest, id);
      rest := rest - {id};
      order := order + [id];
    }
  }

  lemma {:induction false} AscendingStep(ids: set<Hash256>, id: Hash256)
    requires IsLeast(ids, id)
    ensures Ascending(ids) == [id] + Ascending(ids - {id})
  {
    hide BigEndian, Ascending;
    LeastUnique(ids, id, Ascending(ids)[0]);
  }

  lemma {:induction false} MovePrefix(u: Utxo, txs: seq<Transaction>, n: nat)
    requires n <= |txs| && MoveTxs(u, txs).Some?
    ensures MoveTxs(u, txs[..n]).Some?
  {
    hide ApplyTx;
    if n == |txs| {
      assert txs[..n] == txs;
    } else {
      MovePrefix(u, txs[..|txs| - 1], n);
      assert txs[..|txs| - 1][..n] == txs[..n];
    }
  }

  /** Moving a list one by one. */
  method MoveAll(u: Utxo, txs: seq<Transaction>) returns (r: Option<Utxo>)
    ensures r == MoveTxs(u, txs)
  {
    hide ApplyTx;
    var result := new UTXOSet(u);
    for i := 0 to |txs|
      invariant MoveTxs(u, txs[..i]) == Some(result.entries) && fresh(result)
    {
      assert txs[..i + 1][..i] == txs[..i];
      var ok := MoveInPlace(txs[i], result);
      if !ok {
        if MoveTxs(u, txs).Some? {
          MovePrefix(u, txs, i + 1);
        }
        return None;
      }
    }
    assert txs[..|txs|] == txs;
    r := Some(result.entries);
  }

  /** One sweep; not ok if it gave up. */
  method SweepOnce(p: Pool, order: seq<Hash256>, working: UTXOSet, waiting: set<Hash256>, before: seq<Transaction>)
    returns (ok: bool, remaining: set<Hash256>, taken: seq<Transaction>)
    requires waiting <= p.Keys
    modifies working
    ensures var end := Pass(p, At(old(working.entries), waiting, before), order);
      if ok then end == At(working.entries, remaining, taken) && remaining <= waiting else end.GaveUp?
  {
    hide ApplyTx, Ready;
    ghost var start := At(working.entries, waiting, before);
    remaining, taken := waiting, before;
    for k := 0 to |order|
      invariant Pass(p, start, order[..k]) == At(working.entries, remaining, taken) && remaining <= waiting
    {
      var id := order[k];
      assert order[..k + 1][..k] == order[..k] && order[..k + 1][k] == id;
      if id in remaining && Ready(working.entries, p[id]) {
        var moved := MoveInPlace(p[id], working);
        if !moved {
          GaveUpStays(p, start, order, k + 1);
          return false, remaining, taken;
        }
        taken := taken + [p[id]];
        remaining := remaining - {id};
      }
    }
    assert order[..|order|] == order;
    ok := true;
  }

  class Mempool {
    var transactions: Pool
    var reserved: set<OutPoint>
    var bytes: nat

    ghost predicate Valid()
      reads this
    {
      Bookkept(transactions, reserved, bytes)
    }

    constructor ()
      ensures Valid() && transactions == map[]
    {
      transactions, reserved, bytes := map[], {}, 0;
    }

    /** ordered_transactions: sweeps over the pool in the order of ids, taking whatever has all its inputs, until
        nothing is left, a sweep takes nothing, or an output is there already. Whatever the pool, the result is nothing
        or the whole pool, moved one by one; on an orderly pool it is a complete valid order. */
    method OrderedTransactions(u: Utxo) returns (ordered: seq<Transaction>)
      requires Valid()
      ensures ordered == Swept(u, transactions, Ascending(transactions.Keys))
      ensures ordered == [] || Lists(transactions, ordered)
      ensures MoveTxs(u, ordered).Some?
      ensures Orderly(u, transactions) ==> IsOrder(u, transactions, ordered)
    {
      hide Effective, WitnessOk, ApplyTx, Txid, ApplyTxs, Orderly, Lists, Sum, Reserved, DisjointInputs, Encode, Ready,
        MoveTxs, IsOrder, Pass;
      var p := transactions;
      var pending := SortIds(p.Keys);
      SweptMoves(u, p, pending);
      if Orderly(u, p) {
        OrderlyIsSwept(u, p, pending);
      }
      var working := new UTXOSet(u);
      var remaining := p.Keys;
      ordered := [];
      while remaining != {}
        invariant remaining <= p.Keys && fresh(working)
        invariant Sweeps(p, working.entries, remaining, ordered, pending) == Swept(u, p, pending)
        decreases remaining
      {
        var ok, left, taken := SweepOnce(p, pending, working, remaining, ordered);
        if !ok || left == remaining {
          return [];
        }
        remaining, ordered := left, taken;
      }
    }

    /** build_effective_utxo: never fails on an orderly pool, and gives the closed form there. */
    method BuildEffectiveUtxo(u: Utxo) returns (r: Option<Utxo>)
      requires Valid()
      ensures r == Built(u, transactions)
      ensures Orderly(u, transactions) ==> r == Some(Effective(u, transactions))
    {
      hide Effective, ApplyTx, Txid, Orderly, Lists, Sum, Reserved, DisjointInputs, Encode, Swept, IsOrder, MoveTxs,
        Ascending;
      if Orderly(u, transactions) {
        OrderlyIsBuilt(u, transactions);
      }
      var ordered := OrderedTransactions(u);
      if |ordered| != |transactions| {
        return None;
      }
      r := MoveAll(u, ordered);
    }

    /** accept. The answer is exact for any pool; on an orderly one it is admissibility. */
    method Accept(tx: Transaction, u: Utxo) returns (reason: Reason)
      requires Valid()
      modifies this
      ensures Valid()
      ensures reason == AdmissionReason(u, old(transactions), tx)
      ensures Orderly(u, old(transactions)) ==> (reason.Accepted? <==> Admissible(u, old(transactions), tx))
      ensures reason.Accepted? ==> Txid(tx) !in old(transactions) && transactions == old(transactions)[Txid(tx) := tx]
      ensures !reason.Accepted? ==> transactions == old(transactions)
    {
      hide Effective, WitnessOk, Txid, Orderly, Sum, Encode, AgainstUtxo, FundingReason, Built, Admissible;
      if Orderly(u, transactions) {
        OrderlyAdmits(u, transactions, tx);
      }
      var id := Txid(tx);
      if id in transactions {
        return Duplicate;
      }
      if |transactions| >= MAX_TRANSACTIONS {
        return Reason.MempoolFull;
      }
      var size := Size(tx);
      if size > MAX_TRANSACTION_BYTES {
        return TransactionTooLarge;
      }
      if bytes > MAX_MEMPOOL_BYTES - size {
        return Reason.MempoolFull;
      }
      if exists o :: o in tx.inputs && o in reserved {
        assert !(Spent(tx) !! reserved);
        return DoubleSpend;
      }
      var effective := BuildEffectiveUtxo(u);
      if effective.None? {
        return InvalidTransaction;
      }
      reason := ValidateForMempool(tx, effective.value);
      if !reason.Accepted? {
        return;
      }
      var ok := ValidateTransactionWitness(tx, effective.value);
      if !ok {
        return InvalidTransaction;
      }
      BookkeptAdd(transactions, reserved, bytes, tx);
      transactions := transactions[id := tx];
      reserved := reserved + Spent(tx);
      bytes := bytes + size;
    }

    /** remove: takes out the transaction with exactly its descendants. */
    method Remove(txid: Hash256) returns (removed: bool, ghost gone: set<Hash256>)
      requires Valid()
      modifies this
      ensures Valid()
      ensures removed <==> txid in old(transactions)
      ensures removed ==> IsDescendants(old(transactions), txid, gone)
      ensures transactions == old(transactions) - gone
      ensures !removed ==> gone == {}
    {
      hide Bookkept, ChildClosed;
      gone := {};
      if txid !in transactions {
        return false, {};
      }
      var p := transactions;
      var removal := Descendants(p, txid);
      gone := removal;
      var rest := removal;
      while rest != {}
        invariant rest <= removal && Valid() && transactions == p - (removal - rest)
        decreases |rest|
      {
        var id :| id in rest;
        BookkeptRemove(transactions, reserved, bytes, id);
        reserved := reserved - Spent(transactions[id]);
        bytes := bytes - Size(transactions[id]);
        transactions := transactions - {id};
        rest := rest - {id};
        assert transactions == p - (removal - rest);
      }
      removed := true;
    }

    method Clear()
      modifies this
      ensures Valid() && transactions == map[]
    {
      transactions, reserved, bytes := map[], {}, 0;
    }
  }

  /** The least set that contains the root and every transaction spending from the set. */
  ghost predicate IsDescendants(p: Pool, root: Hash256, ids: set<Hash256>) {
    root in ids && ids <= p.Keys && ChildClosed(p, ids) && Necessary(p, root, ids)
  }

  /** Every closed set with the root contains these. */
  ghost predicate Necessary(p: Pool, root: Hash256, ids: set<Hash256>) {
    forall other :: root in other && ChildClosed(p, other) ==> ids <= other
  }

  lemma {:induction false} NecessaryAdd(p: Pool, root: Hash256, ids: set<Hash256>, id: Hash256)
    requires Necessary(p, root, ids) && id in p && SpendsFrom(p[id], ids)
    ensures Necessary(p, root, ids + {id})
  {
    var o :| o in p[id].inputs && o.txid in ids;
  }

  lemma {:induction false} NothingSpendsIsClosed(p: Pool, ids: set<Hash256>)
    requires forall id :: id in p ==> id in ids || !SpendsFrom(p[id], ids)
    ensures ChildClosed(p, ids)
  {
  }

  predicate SpendsFrom(tx: Transaction, ids: set<Hash256>) {
    exists o :: o in tx.inputs && o.txid in ids
  }

  /** The growing loop of remove: sweeps until a sweep adds nothing. */
  method Descendants(p: Pool, root: Hash256) returns (ids: set<Hash256>)
    requires root in p
    ensures IsDescendants(p, root, ids)
  {
    hide Necessary, ChildClosed, SpendsFrom;
    ids := {root};
    RootNecessary(p, root);
    var pending := Enumerate(p.Keys);
    var changed := true;
    while changed
      invariant root in ids && ids <= p.Keys && Necessary(p, root, ids)
      invariant !changed ==> ChildClosed(p, ids)
      decreases |p.Keys - ids|, changed
    {
      ghost var before := ids;
      changed := false;
      for k := 0 to |pending|
        invariant root in ids && before <= ids <= p.Keys && Necessary(p, root, ids)
        invariant changed ==> |p.Keys - ids| < |p.Keys - before|
        invariant !changed ==> ids == before
        invariant !changed ==> forall j :: 0 <= j < k ==> pending[j] in ids || !SpendsFrom(p[pending[j]], ids)
      {
        var id := pending[k];
        if id !in ids && SpendsFrom(p[id], ids) {
          Grows(p.Keys, ids, id);
          NecessaryAdd(p, root, ids, id);
          ids := ids + {id};
          changed := true;
        }
      }
      if !changed {
        NothingSpendsIsClosed(p, ids);
      }
    }
  }

  lemma {:induction false} RootNecessary(p: Pool, root: Hash256)
    ensures Necessary(p, root, {root})
  {
  }

  lemma {:induction false} Grows(all: set<Hash256>, ids: set<Hash256>, id: Hash256)
    requires id in all && id !in ids
    ensures |all - (ids + {id})| < |all - ids|
  {
    assert all - (ids + {id}) == (all - ids) - {id};
  }

  lemma {:induction false} BookkeptRemove(p: Pool, reserved: set<OutPoint>, bytes: nat, id: Hash256)
    requires Bookkept(p, reserved, bytes) && id in p
    ensures bytes >= Size(p[id])
    ensures Bookkept(p - {id}, reserved - Spent(p[id]), bytes - Size(p[id]))
  {
    hide Sum, Txid, Encode;
    SumRemove(p, Size, id);
    Smaller(p, id);
    ReservedRemove(p, id);
  }

  lemma {:induction false} ReservedRemove(p: Pool, id: Hash256)
    requires DisjointInputs(p) && id in p
    ensures Reserved(p - {id}) == Reserved(p) - Spent(p[id])
  {
    var q := p - {id};
    forall o | o in Reserved(p) - Spent(p[id]) ensures o in Reserved(q) {
      var a :| a in p && o in p[a].inputs;
      assert a in q && o in q[a].inputs;
    }
  }

  lemma {:induction false} BookkeptAdd(p: Pool, reserved: set<OutPoint>, bytes: nat, tx: Transaction)
    requires Bookkept(p, reserved, bytes) && Txid(tx) !in p && |p| < MAX_TRANSACTIONS
    requires Size(tx) <= MAX_TRANSACTION_BYTES && bytes + Size(tx) <= MAX_MEMPOOL_BYTES
    requires Spent(tx) !! reserved
    ensures Bookkept(p[Txid(tx) := tx], reserved + Spent(tx), bytes + Size(tx))
  {
    hide Sum, Reserved, Txid, DisjointInputs, Encode, Spent;
    DisjointAdd(p, Txid(tx), tx);
    ReservedAdd(p, Txid(tx), tx);
    SumInsert(p, Size, Txid(tx), tx);
  }
}
