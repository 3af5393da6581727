/** The transactions of a chain as one sequence. With distinct transaction ids the unspent set is
    simply what was created less what was spent, whatever the order. */
module Confirmed {
  import opened Types
  import opened TransactionCodec
  import opened Coinbase
  import opened Rules
  import opened Sums
  import opened Utxo
  import opened ChainValidator
  import opened ChainFacts

  /** Effect of one confirmed transaction: a coinbase only creates. */
  function Confirm(u: Utxo, tx: Transaction): Option<Utxo> {
    if IsCoinbase(tx) then
      if Fresh(u, Txid(tx), |tx.outputs|) then Some(u + Created(tx)) else None
    else CheckedApply(u, tx)
  }

  function ConfirmAll(txs: seq<Transaction>): Option<Utxo> {
    if txs == [] then Some(map[])
    else
      var u :- ConfirmAll(txs[..|txs| - 1]);
      Confirm(u, txs[|txs| - 1])
  }

  /** All transactions after genesis, in chain order. The genesis outputs are never spendable. */
  function Flatten(chain: seq<Block>): seq<Transaction> {
    if |chain| <= 1 then []
    else Flatten(chain[..|chain| - 1]) + chain[|chain| - 1].transactions
  }

  lemma {:induction false} ConfirmLast(before: seq<Transaction>, tx: Transaction)
    requires ConfirmAll(before).Some?
    ensures ConfirmAll(before + [tx]) == Confirm(ConfirmAll(before).value, tx)
  {
    hide Confirm;
    assert (before + [tx])[..|before|] == before;
  }

  lemma {:induction false} ConfirmFront(txs: seq<Transaction>)
    requires ConfirmAll(txs).Some?
    ensures txs == [] ==> ConfirmAll(txs).value == map[]
    ensures txs != [] ==>
      var front := txs[..|txs| - 1];
      && ConfirmAll(front).Some?
      && Confirm(ConfirmAll(front).value, txs[|txs| - 1]) == ConfirmAll(txs)
  {
    hide Confirm;
  }

  lemma {:induction false} ConfirmOrdinary(before: seq<Transaction>, txs: seq<Transaction>)
    requires ConfirmAll(before).Some? && ApplyTxs(ConfirmAll(before).value, txs).Some?
    ensures ConfirmAll(before + txs) == ApplyTxs(ConfirmAll(before).value, txs)
  {
    hide WitnessOk, ApplyTx, ConfirmAll;
    if txs == [] {
      assert before + txs == before;
    } else {
      var front, tx := txs[..|txs| - 1], txs[|txs| - 1];
      ConfirmOrdinary(before, front);
      ConfirmLast(before + front, tx);
      assert before + front + [tx] == before + txs;
    }
  }

  lemma {:induction false} ConfirmBlock(before: seq<Transaction>, b: Block)
    requires ConfirmAll(before).Some? && ApplyBlock(ConfirmAll(before).value, b).Some?
    ensures ConfirmAll(before + b.transactions) == ApplyBlock(ConfirmAll(before).value, b)
  {
    hide ConfirmAll, ApplyTxs;
    var coinbase, rest := b.transactions[0], b.transactions[1..];
    ConfirmLast(before, coinbase);
    ConfirmOrdinary(before + [coinbase], rest);
    assert before + b.transactions == before + [coinbase] + rest;
  }

  /** The ledger of a valid chain is the effect of its transactions in order. */
  lemma {:induction false} LedgerIsConfirmAll(chain: seq<Block>)
    requires Valid(chain)
    ensures ConfirmAll(Flatten(chain)) == Some(Rebuild(chain).value.utxo)
  {
    assert chain != [];
    hide Rebuild, BasicOk, ApplyBlock, Follows;
    if |chain| == 1 {
      GenesisOnly(chain);
    } else {
      LastBlock(chain);
      LedgerIsConfirmAll(chain[..|chain| - 1]);
      ConfirmBlock(Flatten(chain[..|chain| - 1]), chain[|chain| - 1]);
    }
  }

  // ----- Created less spent -----

  function Ids(txs: seq<Transaction>): set<Hash256> {
    if txs == [] then {} else Ids(txs[..|txs| - 1]) + {Txid(txs[|txs| - 1])}
  }

  /** Everything the transactions create. */
  function AllCreated(txs: seq<Transaction>): Utxo {
    if txs == [] then map[] else AllCreated(txs[..|txs| - 1]) + Created(txs[|txs| - 1])
  }

  /** Everything the transactions name as inputs; a coinbase spends nothing. */
  function AllSpent(txs: seq<Transaction>): set<OutPoint> {
    if txs == [] then {} else AllSpent(txs[..|txs| - 1]) + Spends(txs[|txs| - 1])
  }

  function Spends(tx: Transaction): set<OutPoint> { if IsCoinbase(tx) then {} else Spent(tx) }

  /** No id occurs twice. */
  predicate DistinctIds(txs: seq<Transaction>) {
    txs == [] || (DistinctIds(txs[..|txs| - 1]) && Txid(txs[|txs| - 1]) !in Ids(txs[..|txs| - 1]))
  }

  function CoinbaseIds(txs: seq<Transaction>): set<Hash256> {
    if txs == [] then {}
    else CoinbaseIds(txs[..|txs| - 1]) + if IsCoinbase(txs[|txs| - 1]) then {Txid(txs[|txs| - 1])} else {}
  }

  /** No two coinbases share an id. The builder makes sure of it by writing the height into the
      coinbase; validation does not. */
  predicate DistinctCoinbases(txs: seq<Transaction>) {
    txs == [] ||
    var front, tx := txs[..|txs| - 1], txs[|txs| - 1];
    DistinctCoinbases(front) && (IsCoinbase(tx) ==> Txid(tx) !in CoinbaseIds(front))
  }

  lemma {:induction false} CreatedIds(txs: seq<Transaction>)
    ensures forall o :: o in AllCreated(txs) ==> o.txid in Ids(txs)
  {
    if txs != [] {
      CreatedIds(txs[..|txs| - 1]);
    }
  }

  lemma {:induction false} ConfirmEffect(u: Utxo, tx: Transaction)
    requires Confirm(u, tx).Some?
    ensures IsCoinbase(tx) ==> Confirm(u, tx).value == u + Created(tx)
    ensures !IsCoinbase(tx) ==>
      tx.inputs != [] && Spendable(u, tx.inputs) && Confirm(u, tx).value == (u - Spent(tx)) + Created(tx)
  {
  }

  /** One more transaction with a new id keeps the closed form. */
  lemma {:induction false} ClosedFormStep(created: Utxo, spent: set<OutPoint>, tx: Transaction)
    requires spent <= created.Keys
    requires forall o :: o in created ==> o.txid != Txid(tx)
    requires Confirm(created - spent, tx).Some?
    ensures Confirm(created - spent, tx).value == (created + Created(tx)) - (spent + Spends(tx))
    ensures spent + Spends(tx) <= (created + Created(tx)).Keys
  {
    hide Confirm, IsCoinbase, Txid;
    ConfirmEffect(created - spent, tx);
    assert Spends(tx) <= created.Keys;
    RemoveFromUnion(created, Created(tx), spent + Spends(tx));
    assert created - spent - Spends(tx) == created - (spent + Spends(tx));
  }

  /** With distinct ids nothing is created twice, so nothing spent ever returns: the unspent set
      is all that was created less all that was spent. */
  lemma {:induction false} UnspentClosedForm(txs: seq<Transaction>)
    requires ConfirmAll(txs).Some? && DistinctIds(txs)
    ensures ConfirmAll(txs).value == AllCreated(txs) - AllSpent(txs)
    ensures AllSpent(txs) <= AllCreated(txs).Keys
  {
    ConfirmFront(txs);
    hide Confirm, ConfirmAll, Spends, Ids;
    if txs != [] {
      var front := txs[..|txs| - 1];
      CreatedIds(front);
      UnspentClosedForm(front);
      ClosedFormStep(AllCreated(front), AllSpent(front), txs[|txs| - 1]);
    }
  }

  /** The strings digested into the ids of the given transactions. */
  function IdPreimages(txs: seq<Transaction>): set<Bytes> {
    if txs == [] then {} else IdPreimages(txs[..|txs| - 1]) + {PutBase(txs[|txs| - 1], [])}
  }

  lemma {:induction false} SameIdSameBody(a: Transaction, b: Transaction, s: set<Bytes>)
    requires Txid(a) == Txid(b) && CollisionFree(s) && PutBase(a, []) in s && PutBase(b, []) in s
    ensures a.inputs == b.inputs && a.outputs == b.outputs
  {
    BaseInjective(a, b);
    assert a.(witnesses := []).inputs == a.inputs && b.(witnesses := []).inputs == b.inputs;
  }

  /** An id in the list belongs to one of its transactions, whose inputs are spent unless it is a
      coinbase. */
  lemma {:induction false} OwnerOf(txs: seq<Transaction>, id: Hash256) returns (tx: Transaction)
    requires id in Ids(txs)
    ensures tx in txs && Txid(tx) == id && PutBase(tx, []) in IdPreimages(txs)
    ensures IsCoinbase(tx) ==> id in CoinbaseIds(txs)
    ensures !IsCoinbase(tx) ==> Spent(tx) <= AllSpent(txs)
  {
    hide IsCoinbase, PutBase;
    var last := txs[|txs| - 1];
    if Txid(last) == id {
      tx := last;
    } else {
      tx := OwnerOf(txs[..|txs| - 1], id);
    }
  }

  /** An ordinary transaction cannot be confirmed again: its inputs are gone for good. */
  lemma {:induction false} SharedIdIsCoinbase(txs: seq<Transaction>, tx: Transaction, s: set<Bytes>)
    requires ConfirmAll(txs).Some? && DistinctIds(txs) && Confirm(ConfirmAll(txs).value, tx).Some?
    requires Txid(tx) in Ids(txs)
    requires CollisionFree(s) && PutBase(tx, []) in s && IdPreimages(txs) <= s
    ensures IsCoinbase(tx) && Txid(tx) in CoinbaseIds(txs)
  {
    hide Confirm, ConfirmAll, Ids, IdPreimages, CoinbaseIds;
    var owner := OwnerOf(txs, Txid(tx));
    SameIdSameBody(owner, tx, s);
    UnspentClosedForm(txs);
    ConfirmEffect(ConfirmAll(txs).value, tx);
    if !IsCoinbase(tx) {
      assert false;
    }
  }

  /** Only coinbases can repeat an id: if they do not, no two confirmed transactions share one. */
  lemma {:induction false} IdsAreUnique(txs: seq<Transaction>, s: set<Bytes>)
    requires ConfirmAll(txs).Some? && DistinctCoinbases(txs)
    requires CollisionFree(s) && IdPreimages(txs) <= s
    ensures DistinctIds(txs)
  {
    ConfirmFront(txs);
    hide Confirm, ConfirmAll, CollisionFree, IsCoinbase, PutBase;
    if txs != [] {
      var front, tx := txs[..|txs| - 1], txs[|txs| - 1];
      IdsAreUnique(front, s);
      if Txid(tx) in Ids(front) {
        SharedIdIsCoinbase(front, tx, s);
        assert false;
      }
    }
  }
}
