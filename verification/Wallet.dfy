/** The wallet's view of its own money (collect_my_utxos in http_rpc.hpp). */
module Wallet {
  import opened Types
  import opened TransactionCodec
  import opened Sums
  import opened Utxo
  import opened ChainValidator
  import opened Confirmed
  import opened Pool
  import opened Sweep
  import opened PoolRuns
  import opened Genesis

  /** The outputs paid to an address. */
  function PaidTo(u: Utxo, address: Blob): Utxo {
    map o | o in u && u[o].recipient == address :: u[o]
  }

  /** What the scan collects: outputs paid to the address, later ones over earlier ones. */
  function Received(txs: seq<Transaction>, address: Blob): Utxo {
    if txs == [] then map[] else Received(txs[..|txs| - 1], address) + PaidTo(Created(txs[|txs| - 1]), address)
  }

  /** What the scan strikes out: everything named as an input, even the null input of a coinbase. */
  function Named(txs: seq<Transaction>): set<OutPoint> {
    if txs == [] then {} else Named(txs[..|txs| - 1]) + Spent(txs[|txs| - 1])
  }

  /** Genesis included, unlike in the ledger. */
  function AllTransactions(chain: seq<Block>): seq<Transaction> {
    if chain == [] then [] else AllTransactions(chain[..|chain| - 1]) + chain[|chain| - 1].transactions
  }

  /** The two accumulators of the scan. */
  class Scan {
    var spent: set<OutPoint>
    var unspent: Utxo

    constructor ()
      ensures spent == {} && unspent == map[]
    {
      spent, unspent := {}, map[];
    }

    method AddOutputs(tx: Transaction, address: Blob)
      modifies this
      ensures spent == old(spent)
      ensures unspent == old(unspent) + PaidTo(Created(tx), address)
    {
      hide Txid;
      var id := Txid(tx);
      for i := 0 to |tx.outputs|
        invariant spent == old(spent)
        invariant unspent == old(unspent) + PaidTo(Outputs(id, tx.outputs[..i]), address)
      {
        PaidToStep(old(unspent), id, tx.outputs, i, address);
        if tx.outputs[i].recipient == address {
          unspent := unspent[OutPoint(id, i) := tx.outputs[i]];
        }
      }
      assert tx.outputs[..|tx.outputs|] == tx.outputs;
    }

    method Process(txs: seq<Transaction>, address: Blob)
      modifies this
      ensures spent == old(spent) + Named(txs)
      ensures unspent == old(unspent) + Received(txs, address)
    {
      hide PaidTo, Created;
      for k := 0 to |txs|
        invariant spent == old(spent) + Named(txs[..k])
        invariant unspent == old(unspent) + Received(txs[..k], address)
      {
        assert txs[..k + 1][..k] == txs[..k];
        spent := spent + Spent(txs[k]);
        MergeAssociative(old(unspent), Received(txs[..k], address), PaidTo(Created(txs[k]), address));
        AddOutputs(txs[k], address);
      }
      assert txs[..|txs|] == txs;
    }
  }

  lemma {:induction false} PaidToStep(u: Utxo, id: Hash256, outputs: Seq32<TxOutput>, i: nat, address: Blob)
    requires i < |outputs|
    ensures var done := u + PaidTo(Outputs(id, outputs[..i]), address);
      u + PaidTo(Outputs(id, outputs[..i + 1]), address) ==
        if outputs[i].recipient == address then done[OutPoint(id, i) := outputs[i]] else done
  {
    hide PaidTo;
    var before, o := Outputs(id, outputs[..i]), OutPoint(id, i);
    assert outputs[..i + 1][..i] == outputs[..i];
    PaidToInsert(before, o, outputs[i], address);
    InsertIntoUnion(u, PaidTo(before, address), o, outputs[i]);
  }

  lemma {:induction false} PaidToInsert(u: Utxo, o: OutPoint, output: TxOutput, address: Blob)
    requires o !in u
    ensures PaidTo(u[o := output], address) ==
      if output.recipient == address then PaidTo(u, address)[o := output] else PaidTo(u, address)
  {
  }

  lemma {:induction false} ReceivedConcat(a: seq<Transaction>, b: seq<Transaction>, address: Blob)
    ensures Received(a + b, address) == Received(a, address) + Received(b, address)
    ensures Named(a + b) == Named(a) + Named(b)
  {
    hide PaidTo, Created;
    if b == [] {
      assert a + b == a;
    } else {
      ReceivedConcat(a, b[..|b| - 1], address);
      assert (a + b)[..|a + b| - 1] == a + b[..|b| - 1];
      MergeAssociative(Received(a, address), Received(b[..|b| - 1], address), PaidTo(Created(b[|b| - 1]), address));
    }
  }

  /** collect_my_utxos, which has nothing to return while the wallet has no address; the source returns the entries in
      no particular order. */
  method CollectMyUtxos(chain: seq<Block>, pool: seq<Transaction>, address: Blob) returns (mine: Utxo)
    ensures mine ==
      if address == [] then map[]
      else Received(AllTransactions(chain) + pool, address) - Named(AllTransactions(chain) + pool)
  {
    if address == [] {
      return map[];
    }
    var scan := new Scan();
    for i := 0 to |chain|
      invariant scan.spent == Named(AllTransactions(chain[..i]))
      invariant scan.unspent == Received(AllTransactions(chain[..i]), address)
      invariant fresh(scan)
    {
      assert chain[..i + 1][..i] == chain[..i];
      ReceivedConcat(AllTransactions(chain[..i]), chain[i].transactions, address);
      scan.Process(chain[i].transactions, address);
    }
    assert chain[..|chain|] == chain;
    ReceivedConcat(AllTransactions(chain), pool, address);
    scan.Process(pool, address);
    mine := scan.unspent - scan.spent;
  }

  // ----- The scan and the ledger -----

  lemma {:induction false} GenesisFirst(chain: seq<Block>)
    requires chain != []
    ensures AllTransactions(chain) == chain[0].transactions + Flatten(chain)
  {
    if |chain| > 1 {
      GenesisFirst(chain[..|chain| - 1]);
    } else {
      assert AllTransactions(chain[..0]) == [];
    }
  }

  /** With distinct ids nothing collected is overwritten. */
  lemma {:induction false} ReceivedIsPaid(txs: seq<Transaction>, address: Blob)
    requires DistinctIds(txs)
    ensures Received(txs, address) == PaidTo(AllCreated(txs), address)
  {
    hide Txid, Ids;
    if txs != [] {
      var front, tx := txs[..|txs| - 1], txs[|txs| - 1];
      ReceivedIsPaid(front, address);
      CreatedIds(front);
      PaidToUnion(AllCreated(front), Created(tx), address);
    }
  }

  lemma {:induction false} PaidToUnion(u: Utxo, v: Utxo, address: Blob)
    requires u.Keys !! v.Keys
    ensures PaidTo(u + v, address) == PaidTo(u, address) + PaidTo(v, address)
  {
  }

  /** Apart from the null input, the scan strikes out what the ledger spends. */
  lemma {:induction false} NamedIsSpent(txs: seq<Transaction>, o: OutPoint)
    requires o.index < MAX_U32
    ensures o in Named(txs) <==> o in AllSpent(txs)
  {
    if txs != [] {
      NamedIsSpent(txs[..|txs| - 1], o);
    }
  }

  /** The pool, listed in any order. */
  lemma {:induction false} ListedPool(p: Pool, txs: seq<Transaction>)
    requires Lists(p, txs)
    ensures DistinctIds(txs) && Ids(txs) == p.Keys && Named(txs) == Reserved(p)
    ensures forall o :: o in AllCreated(txs) <==> Creates(p, o)
    ensures forall o :: o in AllCreated(txs) && Creates(p, o) ==> AllCreated(txs)[o] == p[o.txid].outputs[o.index]
  {
    hide Txid;
    if txs != [] {
      var tx := txs[|txs| - 1];
      var q := p - {Txid(tx)};
      ListedPool(q, txs[..|txs| - 1]);
      assert p == q[Txid(tx) := tx];
      assert Reserved(p) == Reserved(q) + Spent(tx);
    }
  }

  /** No genesis transaction shares an id with another, with one after it, or with one in the pool. */
  ghost predicate IdsApart(genesis: seq<Transaction>, txs: seq<Transaction>, p: Pool) {
    DistinctIds(genesis) && Ids(genesis) !! Ids(txs) + p.Keys
  }

  /** What the scan returns, for every valid chain with distinct ids and every pool that fits it: the ledger's unspent
      outputs with the pool applied, and besides them the genesis outputs, all less what genesis names as inputs. */
  lemma {:induction false} ScanIsLedger(chain: seq<Block>, p: Pool, pool: seq<Transaction>, address: Blob)
    requires Valid(chain) && chain != [] && DistinctIds(Flatten(chain)) && Lists(p, pool)
    requires FitsChain(Flatten(chain), Rebuild(chain).value.utxo, p)
    requires IdsApart(chain[0].transactions, Flatten(chain), p)
    ensures var all, genesis := AllTransactions(chain) + pool, chain[0].transactions;
      var ledger := Effective(Rebuild(chain).value.utxo, p);
      Received(all, address) - Named(all) == PaidTo((AllCreated(genesis) + ledger) - Named(genesis), address)
  {
    hide Rebuild, FitsChain, Lists, DistinctIds, Ids, AllCreated, AllSpent, Received, Named, Effective, IdsApart;
    var genesis, txs := chain[0].transactions, Flatten(chain);
    var u := Rebuild(chain).value.utxo;
    GenesisFirst(chain);
    ReceivedConcat(genesis + txs, pool, address);
    ReceivedConcat(genesis, txs, address);
    LedgerIsConfirmAll(chain);
    Collected(genesis, txs, u, p, pool, address);
    CreatedLessNamed(genesis, txs, u, p, pool);
    var created := AllCreated(genesis) + AllCreated(txs) + AllCreated(pool);
    var named := Named(genesis) + Named(txs) + Named(pool);
    PaidToMinus(created, named, address);
  }

  lemma {:induction false} PaidToMinus(u: Utxo, gone: set<OutPoint>, address: Blob)
    ensures PaidTo(u, address) - gone == PaidTo(u - gone, address)
  {
  }

  lemma {:induction false} Collected(genesis: seq<Transaction>, txs: seq<Transaction>, u: Utxo, p: Pool,
      pool: seq<Transaction>, address: Blob)
    requires IdsApart(genesis, txs, p) && DistinctIds(txs) && Lists(p, pool) && FitsChain(txs, u, p)
    ensures Received(genesis, address) + Received(txs, address) + Received(pool, address)
      == PaidTo(AllCreated(genesis) + AllCreated(txs) + AllCreated(pool), address)
  {
    hide Orderly, Lists, DistinctIds, Ids, AllCreated, Received, Named, PaidTo;
    ListedPool(p, pool);
    ReceivedIsPaid(genesis, address);
    ReceivedIsPaid(txs, address);
    ReceivedIsPaid(pool, address);
    CreatedIds(genesis);
    CreatedIds(txs);
    CreatedIds(pool);
    PaidToUnion(AllCreated(genesis), AllCreated(txs), address);
    PaidToUnion(AllCreated(genesis) + AllCreated(txs), AllCreated(pool), address);
  }

  /** Striking out, in three separate parts. */
  lemma {:induction false} StrikeOut(g: Utxo, t: Utxo, p: Utxo, all: set<OutPoint>, spent: set<OutPoint>,
      reserved: set<OutPoint>)
    requires g.Keys !! t.Keys !! p.Keys
    requires forall o :: o in g ==> o !in all
    requires forall o :: o in t ==> (o in all <==> o in spent || o in reserved)
    requires forall o :: o in p ==> (o in all <==> o in reserved)
    requires forall o :: o in g ==> o !in reserved
    ensures (g + t + p) - all == g + (((t - spent) + p) - reserved)
  {
    var l, r := (g + t + p) - all, g + (((t - spent) + p) - reserved);
    assert l.Keys == r.Keys;
    assert forall o :: o in l && o in r ==> l[o] == r[o];
  }

  /** The pool's outputs are simply added to the ledger's. */
  lemma {:induction false} ViewIsUnion(u: Utxo, p: Pool, pool: seq<Transaction>)
    requires Lists(p, pool)
    ensures View(u, p) == u + AllCreated(pool)
  {
    hide Lists, AllCreated, View;
    ListedPool(p, pool);
  }

  lemma {:induction false} NamedAmongCreated(txs: seq<Transaction>, created: Utxo)
    requires forall o :: o in created ==> o.index < MAX_U32
    ensures forall o :: o in created ==> (o in Named(txs) <==> o in AllSpent(txs))
  {
    hide Named, AllSpent;
    forall o | o in created ensures o in Named(txs) <==> o in AllSpent(txs) {
      NamedIsSpent(txs, o);
    }
  }

  /** Created less named is the genesis outputs and the ledger with the pool applied, less what genesis names. */
  lemma {:induction false} CreatedLessNamed(genesis: seq<Transaction>, txs: seq<Transaction>, u: Utxo, p: Pool,
      pool: seq<Transaction>)
    requires IdsApart(genesis, txs, p) && DistinctIds(txs) && Lists(p, pool) && FitsChain(txs, u, p)
    requires ConfirmAll(txs) == Some(u)
    ensures (AllCreated(genesis) + AllCreated(txs) + AllCreated(pool)) - (Named(genesis) + Named(txs) + Named(pool))
      == (AllCreated(genesis) + Effective(u, p)) - Named(genesis)
  {
    hide Orderly, Lists, DistinctIds, Ids, AllCreated, AllSpent, Named, ConfirmAll, View, Creates, Reserved;
    var g, t, q := AllCreated(genesis), AllCreated(txs), AllCreated(pool);
    ListedPool(p, pool);
    CreatedIds(genesis);
    CreatedIds(txs);
    CreatedIds(pool);
    CreatedIndexes(genesis);
    CreatedIndexes(txs);
    CreatedIndexes(pool);
    NamedAmongCreated(txs, g);
    NamedAmongCreated(txs, t);
    NamedAmongCreated(txs, q);
    UnspentClosedForm(txs);
    PoolSpendsKnown(txs, u, p);
    StrikeOut(g, t, q, Named(txs) + Named(pool), AllSpent(txs), Reserved(p));
    ViewIsUnion(u, p, pool);
    RemoveTwice(g + t + q, Named(txs) + Named(pool), Named(genesis));
    assert Named(txs) + Named(pool) + Named(genesis) == Named(genesis) + Named(txs) + Named(pool);
  }

  /** The pool spends outputs of the chain or of itself, never a genesis output. */
  lemma {:induction false} PoolSpendsKnown(txs: seq<Transaction>, u: Utxo, p: Pool)
    requires FitsChain(txs, u, p) && ConfirmAll(txs) == Some(u) && DistinctIds(txs)
    ensures forall o :: o in Reserved(p) ==> o.txid in Ids(txs) + p.Keys
  {
    hide Ids, ConfirmAll, DistinctIds, View, WitnessOk, AllCreated, AllSpent;
    UnspentClosedForm(txs);
    CreatedIds(txs);
    var rank :| Ranked(u, p, rank);
    forall o | o in Reserved(p) ensures o.txid in Ids(txs) + p.Keys {
      var id :| id in p && o in p[id].inputs;
      assert Sound(u, p, rank, id);
      SoundInputs(u, p, rank, id);
    }
  }

  /** The wallet is right about an address exactly if genesis leaves nothing paid to it and names none of its outputs:
      a condition on the genesis block and the address. */
  lemma {:induction false} WalletExactIff(chain: seq<Block>, p: Pool, pool: seq<Transaction>, address: Blob)
    requires Valid(chain) && chain != [] && DistinctIds(Flatten(chain)) && Lists(p, pool)
    requires FitsChain(Flatten(chain), Rebuild(chain).value.utxo, p)
    requires IdsApart(chain[0].transactions, Flatten(chain), p)
    ensures var all, genesis := AllTransactions(chain) + pool, chain[0].transactions;
      var mine := PaidTo(Effective(Rebuild(chain).value.utxo, p), address);
      (Received(all, address) - Named(all) == mine) <==>
      (PaidTo(AllCreated(genesis) - Named(genesis), address) == map[] && Named(genesis) !! mine.Keys)
  {
    hide Rebuild, FitsChain, Lists, DistinctIds, Ids, AllCreated, Received, Named, Effective, IdsApart;
    var genesis, ledger := chain[0].transactions, Effective(Rebuild(chain).value.utxo, p);
    ScanIsLedger(chain, p, pool, address);
    GenesisNotInLedger(chain, p);
    ExactIff(AllCreated(genesis), ledger, Named(genesis), address);
  }

  lemma {:induction false} ExactIff(created: Utxo, ledger: Utxo, named: set<OutPoint>, address: Blob)
    requires created.Keys !! ledger.Keys
    ensures var mine := PaidTo(ledger, address);
      (PaidTo((created + ledger) - named, address) == mine) <==>
      (PaidTo(created - named, address) == map[] && named !! mine.Keys)
  {
    var scan, mine := PaidTo((created + ledger) - named, address), PaidTo(ledger, address);
    var extra := PaidTo(created - named, address);
    assert forall o :: o in scan <==> o in extra || (o in mine && o !in named);
    if scan == mine {
      assert forall o :: o !in extra;
      assert forall o :: o in mine ==> o !in named;
    }
    if extra == map[] && named !! mine.Keys {
      assert scan.Keys == mine.Keys;
    }
  }

  lemma {:induction false} GenesisNotInLedger(chain: seq<Block>, p: Pool)
    requires Valid(chain) && chain != [] && DistinctIds(Flatten(chain))
    requires IdsApart(chain[0].transactions, Flatten(chain), p)
    ensures AllCreated(chain[0].transactions).Keys !! Effective(Rebuild(chain).value.utxo, p).Keys
  {
    hide Rebuild, DistinctIds, Ids, AllCreated, AllSpent, Named, ConfirmAll, Flatten, View;
    LedgerIsConfirmAll(chain);
    UnspentClosedForm(Flatten(chain));
    CreatedIds(Flatten(chain));
    CreatedIds(chain[0].transactions);
  }

  // ----- The canonical genesis -----

  /** The burn transaction has no inputs, every other one has, so without a collision none shares its id. */
  lemma {:induction false} CanonicalApart(txs: seq<Transaction>, u: Utxo, p: Pool, recipient: Blob, s: set<Bytes>)
    requires Snapshot(txs, u, s) && FitsChain(txs, u, p) && IdsWithin(p, s)
    requires PutBase(BurnTransaction(recipient), []) in s
    ensures IdsApart([BurnTransaction(recipient)], txs, p)
  {
    hide PutBase, Txid, Ids, ConfirmAll, DistinctIds, IdPreimages, CollisionFree, View, WitnessOk, Ranked;
    var burn := BurnTransaction(recipient);
    OneId(burn);
    if Txid(burn) in Ids(txs) {
      var owner := OwnerOf(txs, Txid(burn));
      SameIdSameBody(owner, burn, s);
      ConfirmedHasInputs(txs, owner);
      assert false;
    } else if Txid(burn) in p {
      var rank :| Ranked(u, p, rank);
      RankedSound(u, p, rank, Txid(burn));
      SameIdSameBody(p[Txid(burn)], burn, s);
      SoundInputs(u, p, rank, Txid(burn));
      assert false;
    }
  }

  lemma {:induction false} OneId(tx: Transaction)
    ensures Ids([tx]) == {Txid(tx)} && DistinctIds([tx]) && Named([tx]) == Spent(tx) && AllCreated([tx]) == Created(tx)
  {
    hide Txid;
    assert [tx][..0] == [];
  }

  lemma {:induction false} RankedSound(u: Utxo, p: Pool, rank: map<Hash256, nat>, id: Hash256)
    requires Ranked(u, p, rank) && id in p
    ensures Sound(u, p, rank, id) && Txid(p[id]) == id
  {
    hide Txid, WitnessOk, View;
  }

  lemma {:induction false} ConfirmedHasInputs(txs: seq<Transaction>, tx: Transaction)
    requires ConfirmAll(txs).Some? && tx in txs
    ensures tx.inputs != []
  {
    ConfirmFront(txs);
    hide Confirm, ConfirmAll;
    var front, last := txs[..|txs| - 1], txs[|txs| - 1];
    ConfirmEffect(ConfirmAll(front).value, last);
    if tx != last {
      assert tx in front;
      ConfirmedHasInputs(front, tx);
    }
  }

  /** On every chain from the canonical genesis the wallet is right about every address but the burn address. */
  lemma {:induction false} WalletExactFromCanonical(chain: seq<Block>, p: Pool, pool: seq<Transaction>, address: Blob,
      recipient: Blob, s: set<Bytes>)
    requires Valid(chain) && chain != [] && chain[0] == CanonicalGenesis(recipient) && Lists(p, pool)
    requires Snapshot(Flatten(chain), Rebuild(chain).value.utxo, s) && IdsWithin(p, s)
    requires FitsChain(Flatten(chain), Rebuild(chain).value.utxo, p) && PutBase(BurnTransaction(recipient), []) in s
    ensures var all := AllTransactions(chain) + pool;
      (Received(all, address) - Named(all) == PaidTo(Effective(Rebuild(chain).value.utxo, p), address)) <==>
      address != recipient
  {
    hide Rebuild, FitsChain, Lists, DistinctIds, Ids, AllCreated, Received, Named, Effective, IdsApart, PutBase, Txid,
      ConfirmAll, IdPreimages, IdsWithin, CollisionFree;
    var burn := BurnTransaction(recipient);
    CanonicalApart(Flatten(chain), Rebuild(chain).value.utxo, p, recipient, s);
    WalletExactIff(chain, p, pool, address);
    OneId(burn);
    assert chain[0].transactions == [burn];
    assert Created(burn) - {} == Created(burn);
    var point := OutPoint(Txid(burn), 0);
    assert point in Created(burn) && forall o :: o in Created(burn) ==> Created(burn)[o].recipient == recipient;
    if address == recipient {
      assert point in PaidTo(Created(burn), address);
    }
  }
}
