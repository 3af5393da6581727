/** What the contents of the mempool mean: the set of unspent outputs it leads to, and why its
    transactions can always be put in order. */
module Pool {
  import opened Types
  import opened TransactionCodec
  import opened Coinbase
  import opened Sums
  import opened Utxo
  import opened ChainValidator

  /** Transactions by id. */
  type Pool = map<Hash256, Transaction>

  predicate Creates(p: Pool, o: OutPoint) {
    o.txid in p && o.index < |p[o.txid].outputs|
  }

  function CreatedPoints(p: Pool): (points: set<OutPoint>)
    ensures forall o :: o in points <==> Creates(p, o)
  {
    var points := set id, i | id in p && 0 <= i < |p[id].outputs| :: OutPoint(id, i);
    assert forall o :: Creates(p, o) ==> o == OutPoint(o.txid, o.index);
    points
  }

  /** All outputs that exist on the chain or in the pool, spent by the pool or not. */
  function View(u: Utxo, p: Pool): (v: Utxo)
    ensures forall o :: o in v <==> o in u || Creates(p, o)
    ensures forall o :: o in v ==> v[o] == if Creates(p, o) then p[o.txid].outputs[o.index] else u[o]
  {
    map o | o in u.Keys + CreatedPoints(p) :: if Creates(p, o) then p[o.txid].outputs[o.index] else u[o]
  }

  /** All outputs the pool spends. */
  function Reserved(p: Pool): set<OutPoint> {
    set id, o | id in p && o in p[id].inputs :: o
  }

  /** The unspent outputs once the whole pool is applied, in whatever order. */
  function Effective(u: Utxo, p: Pool): Utxo { View(u, p) - Reserved(p) }

  /** No output is spent by two pool transactions. */
  ghost predicate DisjointInputs(p: Pool) {
    forall a, b, o :: a in p && b in p && o in p[a].inputs && o in p[b].inputs ==> a == b
  }

  /** The chain has no output that a pool transaction creates. */
  ghost predicate NoClash(u: Utxo, p: Pool) {
    forall o :: o in u ==> !Creates(p, o)
  }

  /** Transaction `id` is sound in the pool, and its parents come before it. */
  ghost predicate Sound(u: Utxo, p: Pool, rank: map<Hash256, nat>, id: Hash256)
    requires id in p
  {
    && Txid(p[id]) == id
    && WitnessOk(p[id], View(u, p))
    && id in rank
    && forall o :: o in p[id].inputs && Creates(p, o) ==> o.txid in rank && rank[o.txid] < rank[id]
  }

  ghost predicate Ranked(u: Utxo, p: Pool, rank: map<Hash256, nat>) {
    && NoClash(u, p) && DisjointInputs(p)
    && (forall o :: o in u ==> o.index < MAX_U32)
    && forall id :: id in p ==> Sound(u, p, rank, id)
  }

  /** The pool fits the chain: it can be applied in some order. */
  ghost predicate Orderly(u: Utxo, p: Pool) {
    exists rank :: Ranked(u, p, rank)
  }

  /** Every input of the part `d` of the pool comes from the chain or from `d` itself. */
  ghost predicate Grounded(u: Utxo, d: Pool) {
    forall id, o :: id in d && o in d[id].inputs ==> o in View(u, d)
  }

  predicate Ready(working: Utxo, tx: Transaction) {
    forall o :: o in tx.inputs ==> o in working
  }

  // ----- Applying one more transaction -----

  lemma {:induction false} ReservedAdd(p: Pool, id: Hash256, tx: Transaction)
    requires id !in p
    ensures Reserved(p[id := tx]) == Reserved(p) + Spent(tx)
  {
    var q := p[id := tx];
    forall o | o in Reserved(p) + Spent(tx) ensures o in Reserved(q) {
      if o in Spent(tx) {
        assert id in q && o in q[id].inputs;
      } else {
        var a :| a in p && o in p[a].inputs;
        assert a in q && o in q[a].inputs;
      }
    }
  }

  lemma {:induction false} ViewAdd(u: Utxo, p: Pool, id: Hash256, tx: Transaction)
    requires id !in p && Txid(tx) == id && Fresh(u, id, |tx.outputs|)
    ensures View(u, p[id := tx]) == View(u, p) + Created(tx)
  {
    hide View, Outputs, Txid;
    var l, r := View(u, p[id := tx]), View(u, p) + Created(tx);
    assert forall o :: o in l <==> o in r;
    assert forall o :: o in l ==> l[o] == r[o];
  }

  /** The inputs of a grounded part exist, so a newcomer creates none of them. */
  lemma {:induction false} NewcomerCreatesNothingSpent(u: Utxo, d: Pool, id: Hash256, tx: Transaction)
    requires id !in d && Txid(tx) == id && Fresh(u, id, |tx.outputs|)
    requires Grounded(u, d) && Ready(View(u, d), tx)
    ensures Created(tx).Keys !! Reserved(d) + Spent(tx)
    ensures Fresh(View(u, d), id, |tx.outputs|)
  {
    forall o | o in Reserved(d) ensures o !in Created(tx) {
      var a :| a in d && o in d[a].inputs;
      assert o in View(u, d);
    }
  }

  lemma {:induction false} EffectiveAdd(u: Utxo, d: Pool, id: Hash256, tx: Transaction)
    requires id !in d && Txid(tx) == id && Fresh(u, id, |tx.outputs|)
    requires Grounded(u, d) && Ready(View(u, d), tx)
    ensures Effective(u, d[id := tx]) == (Effective(u, d) - Spent(tx)) + Created(tx)
  {
    hide View, Reserved, Created, Txid, Grounded, Ready;
    ViewAdd(u, d, id, tx);
    ReservedAdd(d, id, tx);
    NewcomerCreatesNothingSpent(u, d, id, tx);
    RemoveFromUnion(View(u, d), Created(tx), Reserved(d) + Spent(tx));
    RemoveTwice(View(u, d), Reserved(d), Spent(tx));
  }

  lemma {:induction false} GroundedAdd(u: Utxo, d: Pool, id: Hash256, tx: Transaction)
    requires id !in d && Grounded(u, d) && Ready(View(u, d), tx)
    ensures Grounded(u, d[id := tx])
  {
  }

  /** A ready pool transaction passes the consensus check at its turn and leads to the closed
      form of the larger part: the order of earlier transactions has left no trace. */
  lemma {:induction false} ReadyStep(u: Utxo, p: Pool, rank: map<Hash256, nat>, d: Pool, id: Hash256)
    requires Ranked(u, p, rank) && id in p && id !in d
    requires forall a :: a in d ==> a in p && d[a] == p[a]
    requires Grounded(u, d) && Ready(Effective(u, d), p[id])
    ensures CheckedApply(Effective(u, d), p[id]) == Some(Effective(u, d[id := p[id]]))
    ensures Grounded(u, d[id := p[id]])
  {
    hide View, Reserved, Txid, WitnessOk, Outputs;
    var tx := p[id];
    assert Sound(u, p, rank, id);
    SoundInputs(u, p, rank, id);
    assert !IsCoinbase(tx) by {
      assert tx.inputs[0] in View(u, p);
    }
    assert WitnessOk(tx, Effective(u, d)) by {
      WitnessLocal(tx, View(u, p), Effective(u, d));
    }
    assert ApplyTx(Effective(u, d), tx) == Some(Effective(u, d[id := tx])) by {
      WitnessSpendable(tx, Effective(u, d));
      NewcomerCreatesNothingSpent(u, d, id, tx);
      EffectiveAdd(u, d, id, tx);
    }
    GroundedAdd(u, d, id, tx);
  }

  lemma {:induction false} WitnessSpendable(tx: Transaction, u: Utxo)
    requires WitnessOk(tx, u)
    ensures Spendable(u, tx.inputs) && tx.inputs != []
  {
  }

  lemma {:induction false} SoundInputs(u: Utxo, p: Pool, rank: map<Hash256, nat>, id: Hash256)
    requires id in p && Sound(u, p, rank, id)
    ensures p[id].inputs != [] && Ready(View(u, p), p[id])
  {
    hide View;
  }

  // ----- Something is always ready -----

  lemma {:induction false} LeastRank(rank: map<Hash256, nat>, ids: set<Hash256>) returns (id: Hash256)
    requires ids != {} && ids <= rank.Keys
    ensures id in ids && forall a :: a in ids ==> rank[id] <= rank[a]
  {
    id :| id in ids;
    if ids != {id} {
      var other := LeastRank(rank, ids - {id});
      if rank[other] < rank[id] {
        id := other;
      }
    }
  }

  /** Of the transactions still waiting, the one of least rank has all its inputs. */
  lemma {:induction false} SomethingReady(u: Utxo, p: Pool, rank: map<Hash256, nat>,
      waiting: set<Hash256>) returns (id: Hash256)
    requires Ranked(u, p, rank) && waiting != {} && waiting <= p.Keys
    ensures id in waiting && Ready(Effective(u, p - waiting), p[id])
  {
    hide View, Reserved, WitnessOk, Txid;
    assert forall a :: a in waiting ==> Sound(u, p, rank, a);
    id := LeastRank(rank, waiting);
    var d := p - waiting;
    assert Sound(u, p, rank, id);
    SoundInputs(u, p, rank, id);
    forall o | o in p[id].inputs ensures o in Effective(u, d) {
      assert o in View(u, d);
      NotReservedTwice(p, d, id, o);
    }
  }

  lemma {:induction false} NotReservedTwice(p: Pool, d: Pool, id: Hash256, o: OutPoint)
    requires DisjointInputs(p) && id in p && id !in d && o in p[id].inputs
    requires forall a :: a in d ==> a in p && d[a] == p[a]
    ensures o !in Reserved(d)
  {
  }

  // ----- The three operations keep the pool orderly -----

  ghost function MaxRank(rank: map<Hash256, nat>): (m: nat)
    ensures forall id :: id in rank ==> rank[id] <= m
    decreases |rank|
  {
    if rank == map[] then 0
    else
      var id :| id in rank;
      Smaller(rank, id);
      var rest := MaxRank(rank - {id});
      assert forall a :: a in rank && a != id ==> a in rank - {id};
      if rank[id] > rest then rank[id] else rest
  }

  lemma {:induction false} DisjointAdd(p: Pool, id: Hash256, tx: Transaction)
    requires DisjointInputs(p) && id !in p && Spent(tx) !! Reserved(p)
    ensures DisjointInputs(p[id := tx])
  {
    assert forall a, o :: a in p && o in p[a].inputs ==> o in Reserved(p);
    assert forall o :: o in tx.inputs ==> o in Spent(tx);
  }

  /** A pool transaction stays sound when the outputs it spends stay what they are. */
  lemma {:induction false} StaysSound(u: Utxo, p: Pool, rank: map<Hash256, nat>, q: Pool, rank': map<Hash256, nat>,
      id: Hash256)
    requires id in p && id in q && p[id] == q[id] && Sound(u, p, rank, id)
    requires id in rank' && rank'[id] == rank[id]
    requires forall o :: o in p[id].inputs ==>
      && o in View(u, q) && View(u, q)[o] == View(u, p)[o]
      && (Creates(q, o) ==> Creates(p, o) && o.txid in rank' && rank'[o.txid] == rank[o.txid])
    ensures Sound(u, q, rank', id)
  {
    hide View, WitnessOk;
    WitnessLocal(p[id], View(u, p), View(u, q));
  }

  lemma {:induction false} OldStaysSound(u: Utxo, p: Pool, rank: map<Hash256, nat>, tx: Transaction, m: nat,
      id: Hash256)
    requires Ranked(u, p, rank) && id in p && Txid(tx) !in p
    requires Fresh(u, Txid(tx), |tx.outputs|)
    ensures Sound(u, p[Txid(tx) := tx], rank[Txid(tx) := m], id)
  {
    hide View, WitnessOk, Txid;
    assert Sound(u, p, rank, id);
    SoundInputs(u, p, rank, id);
    assert forall o :: o in p[id].inputs && Creates(p, o) ==> o.txid in rank && o.txid != Txid(tx);
    StaysSound(u, p, rank, p[Txid(tx) := tx], rank[Txid(tx) := m], id);
  }

  lemma {:induction false} NewcomerSound(u: Utxo, p: Pool, rank: map<Hash256, nat>, tx: Transaction, m: nat)
    requires Ranked(u, p, rank) && Txid(tx) !in p
    requires Fresh(u, Txid(tx), |tx.outputs|)
    requires WitnessOk(tx, Effective(u, p))
    requires forall a :: a in rank ==> rank[a] < m
    ensures Sound(u, p[Txid(tx) := tx], rank[Txid(tx) := m], Txid(tx))
  {
    hide View, WitnessOk, Txid, Reserved;
    var id := Txid(tx);
    WitnessSpendable(tx, Effective(u, p));
    WitnessLocal(tx, Effective(u, p), View(u, p[id := tx]));
    forall o | o in tx.inputs && Creates(p[id := tx], o) ensures o.txid in rank && o.txid != id {
      assert o in View(u, p);
      assert Creates(p, o) && Sound(u, p, rank, o.txid);
    }
  }

  lemma {:induction false} AcceptKeepsRanked(u: Utxo, p: Pool, rank: map<Hash256, nat>, tx: Transaction)
    requires Ranked(u, p, rank) && Txid(tx) !in p
    requires Fresh(u, Txid(tx), |tx.outputs|)
    requires Spent(tx) !! Reserved(p) && WitnessOk(tx, Effective(u, p))
    ensures Ranked(u, p[Txid(tx) := tx], rank[Txid(tx) := MaxRank(rank) + 1])
  {
    hide View, WitnessOk, Reserved, Txid, Sound, DisjointInputs, Effective, Spent;
    var id, m := Txid(tx), MaxRank(rank) + 1;
    DisjointAdd(p, id, tx);
    var q, rank' := p[id := tx], rank[id := m];
    forall a | a in q ensures Sound(u, q, rank', a) {
      if a == id {
        NewcomerSound(u, p, rank, tx, m);
      } else {
        OldStaysSound(u, p, rank, tx, m, a);
      }
    }
  }

  /** Accepting keeps the pool orderly, provided the chain has no output of the newcomer. */
  lemma {:induction false} AcceptKeepsOrderly(u: Utxo, p: Pool, tx: Transaction)
    requires Orderly(u, p) && Txid(tx) !in p
    requires Fresh(u, Txid(tx), |tx.outputs|)
    requires Spent(tx) !! Reserved(p) && WitnessOk(tx, Effective(u, p))
    ensures Orderly(u, p[Txid(tx) := tx])
  {
    hide Ranked, WitnessOk, Effective, Reserved, Spent, Txid;
    var rank :| Ranked(u, p, rank);
    AcceptKeepsRanked(u, p, rank, tx);
  }

  /** The removed set contains every pool transaction that spends from it. */
  ghost predicate ChildClosed(p: Pool, removed: set<Hash256>) {
    forall id, o :: id in p && o in p[id].inputs && o.txid in removed ==> id in removed
  }

  lemma {:induction false} RemoveKeepsRanked(u: Utxo, p: Pool, rank: map<Hash256, nat>, removed: set<Hash256>)
    requires Ranked(u, p, rank) && ChildClosed(p, removed)
    ensures Ranked(u, p - removed, rank)
  {
    hide View, WitnessOk, Reserved, Txid;
    var q := p - removed;
    forall id | id in q ensures Sound(u, q, rank, id) {
      assert Sound(u, p, rank, id);
      SoundInputs(u, p, rank, id);
      StaysSound(u, p, rank, q, rank, id);
    }
  }

  /** Removing with all descendants keeps the pool orderly. */
  lemma {:induction false} RemoveKeepsOrderly(u: Utxo, p: Pool, removed: set<Hash256>)
    requires Orderly(u, p) && ChildClosed(p, removed)
    ensures Orderly(u, p - removed)
  {
    hide Ranked;
    var rank :| Ranked(u, p, rank);
    RemoveKeepsRanked(u, p, rank, removed);
  }

  lemma {:induction false} EmptyIsOrderly(u: Utxo)
    requires forall o :: o in u ==> o.index < MAX_U32
    ensures Orderly(u, map[])
  {
    assert Ranked(u, map[], map[]);
  }
}
