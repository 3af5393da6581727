/** Transactions can be confirmed again after a repeated coinbase, but never a stretch of them back to back: each input
    of the second copy would have to be created inside the stretch, so nothing could have started it. */
module Repetition {
  import opened Types
  import opened TransactionCodec
  import opened Coinbase
  import opened Merkle
  import opened Utxo
  import opened Confirmed

  /** The ledger after the first `n` transactions. */
  ghost function LedgerAt(txs: seq<Transaction>, n: nat): Utxo
    requires ConfirmAll(txs).Some? && n <= |txs|
  {
    ConfirmPrefix(txs, n);
    ConfirmAll(txs[..n]).value
  }

  lemma {:induction false} ConfirmPrefix(txs: seq<Transaction>, n: nat)
    requires ConfirmAll(txs).Some? && n <= |txs|
    ensures ConfirmAll(txs[..n]).Some?
  {
    hide Confirm;
    if n == |txs| {
      assert txs[..n] == txs;
    } else {
      ConfirmPrefix(txs[..|txs| - 1], n);
      assert txs[..|txs| - 1][..n] == txs[..n];
    }
  }

  /** One step of the ledger: an ordinary transaction finds its inputs, and takes them away. */
  lemma {:induction false} LedgerStep(txs: seq<Transaction>, n: nat)
    requires ConfirmAll(txs).Some? && n < |txs|
    ensures var u, tx, v := LedgerAt(txs, n), txs[n], LedgerAt(txs, n + 1);
      && (forall o :: o in v ==> o in u || o.txid == Txid(tx))
      && (!IsCoinbase(tx) ==> tx.inputs != [] && forall o :: o in tx.inputs ==>
           o in u && (o in v ==> o.txid == Txid(tx)))
  {
    hide Confirm, Txid, IsCoinbase;
    ConfirmPrefix(txs, n + 1);
    var longer := txs[..n + 1];
    assert longer[..n] == txs[..n];
    ConfirmFront(longer);
    ConfirmEffect(LedgerAt(txs, n), txs[n]);
  }

  /** What is in the ledger was created by one of the transactions. */
  lemma {:induction false} CreatorOf(txs: seq<Transaction>, n: nat, o: OutPoint) returns (k: nat)
    requires ConfirmAll(txs).Some? && n <= |txs| && o in LedgerAt(txs, n)
    ensures k < n && Txid(txs[k]) == o.txid
  {
    hide ConfirmAll, Txid;
    EmptyLedger(txs);
    LedgerStep(txs, n - 1);
    if o in LedgerAt(txs, n - 1) {
      k := CreatorOf(txs, n - 1, o);
    } else {
      k := n - 1;
    }
  }

  lemma {:induction false} EmptyLedger(txs: seq<Transaction>)
    requires ConfirmAll(txs).Some?
    ensures LedgerAt(txs, 0) == map[]
  {
  }

  /** What was gone and is back was created in between. */
  lemma {:induction false} CreatedBetween(txs: seq<Transaction>, i: nat, j: nat, o: OutPoint) returns (k: nat)
    requires ConfirmAll(txs).Some? && i <= j <= |txs|
    requires o !in LedgerAt(txs, i) && o in LedgerAt(txs, j)
    ensures i <= k < j && Txid(txs[k]) == o.txid
    decreases j
  {
    hide ConfirmAll, Txid;
    LedgerStep(txs, j - 1);
    if o in LedgerAt(txs, j - 1) {
      k := CreatedBetween(txs, i, j - 1, o);
    } else {
      k := j - 1;
    }
  }

  /** The id of one of the transactions at `p` to `p + g - 1`. */
  ghost predicate InStretch(txs: seq<Transaction>, p: nat, g: nat, id: Hash256)
    requires p + g <= |txs|
  {
    exists k :: p <= k < p + g && Txid(txs[k]) == id
  }

  /** Every input of a repeated stretch is created by the stretch itself. */
  lemma {:induction false} StretchFeedsItself(txs: seq<Transaction>, p: nat, g: nat, i: nat, o: OutPoint)
    requires ConfirmAll(txs).Some? && RepeatsAt(txs, p, g) && p <= i < p + g
    requires !IsCoinbase(txs[i]) && o in txs[i].inputs
    ensures InStretch(txs, p, g, o.txid)
  {
    hide ConfirmAll, Txid, IsCoinbase;
    LedgerStep(txs, i);
    LedgerStep(txs, i + g);
    var k := i;
    if o.txid != Txid(txs[i]) {
      k := CreatedBetween(txs, i + 1, i + g, o);
    }
    var home := if k < p + g then k else k - g;
    assert p <= home < p + g && Txid(txs[home]) == o.txid;
  }

  /** Ids each of which, wherever confirmed, has an input from among them, are never confirmed: none could be first. */
  lemma {:induction false} NothingFeedsItself(txs: seq<Transaction>, ids: set<Hash256>, n: nat)
    requires ConfirmAll(txs).Some? && n <= |txs|
    requires forall k :: 0 <= k < |txs| && Txid(txs[k]) in ids ==> FedBy(txs[k], ids)
    ensures forall k :: 0 <= k < n ==> Txid(txs[k]) !in ids
    decreases n
  {
    hide ConfirmAll, Txid, IsCoinbase;
    if n > 0 {
      NothingFeedsItself(txs, ids, n - 1);
      if Txid(txs[n - 1]) in ids {
        LedgerStep(txs, n - 1);
        var o :| o in txs[n - 1].inputs && o.txid in ids;
        var k := CreatorOf(txs, n - 1, o);
        assert false;
      }
    }
  }

  /** An ordinary transaction with an input from among the ids. */
  ghost predicate FedBy(tx: Transaction, ids: set<Hash256>) {
    !IsCoinbase(tx) && exists o :: o in tx.inputs && o.txid in ids
  }

  lemma {:induction false} PreimageAt(txs: seq<Transaction>, i: nat)
    requires i < |txs|
    ensures PutBase(txs[i], []) in IdPreimages(txs)
  {
    hide PutBase;
    if i < |txs| - 1 {
      PreimageAt(txs[..|txs| - 1], i);
    }
  }

  /** No stretch of ordinary transactions is ever confirmed twice in a row. */
  lemma {:induction false} NoStretchTwice(txs: seq<Transaction>, p: nat, g: nat, s: set<Bytes>)
    requires ConfirmAll(txs).Some? && CollisionFree(s) && IdPreimages(txs) <= s
    requires p + g <= |txs| && forall k :: p <= k < p + g ==> !IsCoinbase(txs[k])
    ensures !RepeatsAt(txs, p, g)
  {
    hide ConfirmAll, Txid, CollisionFree, IdPreimages, FedBy;
    if RepeatsAt(txs, p, g) {
      var ids := set k | p <= k < p + g :: Txid(txs[k]);
      forall k | 0 <= k < |txs| && Txid(txs[k]) in ids ensures FedBy(txs[k], ids) {
        CopyIsFed(txs, p, g, s, k);
      }
      assert Txid(txs[p]) in ids;
      NothingFeedsItself(txs, ids, p + 1);
      assert false;
    }
  }

  /** Whatever has an id of a repeated stretch is fed by the stretch. */
  lemma {:induction false} CopyIsFed(txs: seq<Transaction>, p: nat, g: nat, s: set<Bytes>, n: nat)
    requires ConfirmAll(txs).Some? && RepeatsAt(txs, p, g) && n < |txs|
    requires CollisionFree(s) && IdPreimages(txs) <= s
    requires forall k :: p <= k < p + g ==> !IsCoinbase(txs[k])
    requires InStretch(txs, p, g, Txid(txs[n]))
    ensures FedBy(txs[n], set k | p <= k < p + g :: Txid(txs[k]))
  {
    hide ConfirmAll, Txid, CollisionFree, IdPreimages;
    var m :| p <= m < p + g && Txid(txs[m]) == Txid(txs[n]);
    PreimageAt(txs, m);
    PreimageAt(txs, n);
    SameIdSameBody(txs[m], txs[n], s);
    LedgerStep(txs, m);
    var o := txs[n].inputs[0];
    assert o in txs[n].inputs;
    StretchFeedsItself(txs, p, g, m, o);
  }
}
