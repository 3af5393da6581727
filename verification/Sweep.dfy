/** The ordering of the mempool as a function of the order of its sweeps (ordered_transactions in mempool.hpp). */
module Sweep {
  import opened Types
  import opened TransactionCodec
  import opened Consensus
  import opened Sums
  import opened Utxo
  import opened ChainValidator
  import opened Pool

  /** The list holds each pool transaction once and nothing else. */
  ghost predicate Lists(p: Pool, txs: seq<Transaction>) {
    if txs == [] then p == map[]
    else
      var tx := txs[|txs| - 1];
      Txid(tx) in p && p[Txid(tx)] == tx && Lists(p - {Txid(tx)}, txs[..|txs| - 1])
  }

  /** A complete order of the pool in which every transaction passes the consensus check at its
      turn. */
  ghost predicate IsOrder(u: Utxo, p: Pool, txs: seq<Transaction>) {
    Lists(p, txs) && ApplyTxs(u, txs) == Some(Effective(u, p))
  }

  lemma {:induction false} ListsAdd(p: Pool, waiting: set<Hash256>, id: Hash256, txs: seq<Transaction>)
    requires waiting <= p.Keys && id in waiting && Txid(p[id]) == id && Lists(p - waiting, txs)
    ensures Lists(p - (waiting - {id}), txs + [p[id]])
  {
    hide Txid;
    assert p - (waiting - {id}) - {id} == p - waiting;
    assert (txs + [p[id]])[..|txs|] == txs;
  }

  lemma {:induction false} ListsLength(p: Pool, txs: seq<Transaction>)
    requires Lists(p, txs)
    ensures |txs| == |p|
  {
    hide Txid;
    if txs != [] {
      var id := Txid(txs[|txs| - 1]);
      ListsLength(p - {id}, txs[..|txs| - 1]);
      Smaller(p, id);
    }
  }

  /** Where the ordering loop stands: the transactions taken so far have been applied, and what
      they leave depends only on which they are. */
  ghost predicate InStep(u: Utxo, p: Pool, waiting: set<Hash256>, working: Utxo, txs: seq<Transaction>) {
    && working == Effective(u, p - waiting)
    && Grounded(u, p - waiting)
    && ApplyTxs(u, txs) == Some(working)
  }

  lemma {:induction false} StartInStep(u: Utxo, p: Pool)
    ensures InStep(u, p, p.Keys, u, [])
  {
    hide View;
    assert p - p.Keys == map[];
    assert View(u, map[]) == u && Reserved(map[]) == {};
  }

  lemma {:induction false} TakeReady(u: Utxo, p: Pool, waiting: set<Hash256>, working: Utxo, txs: seq<Transaction>,
      id: Hash256)
    requires Orderly(u, p) && waiting <= p.Keys && id in waiting
    requires InStep(u, p, waiting, working, txs) && Ready(working, p[id])
    ensures Txid(p[id]) == id && ApplyTx(working, p[id]).Some?
    ensures InStep(u, p, waiting - {id}, ApplyTx(working, p[id]).value, txs + [p[id]])
  {
    hide Effective, WitnessOk, ApplyTx, Txid, Grounded, Ready;
    var rank :| Ranked(u, p, rank);
    assert Sound(u, p, rank, id);
    var d := p - waiting;
    ReadyStep(u, p, rank, d, id);
    assert d[id := p[id]] == p - (waiting - {id});
    assert (txs + [p[id]])[..|txs|] == txs;
  }

  /** If nothing that waits is ready, the pool does not fit the chain. */
  lemma {:induction false} StuckIsDisorderly(u: Utxo, p: Pool, waiting: set<Hash256>, working: Utxo,
      txs: seq<Transaction>)
    requires waiting != {} && waiting <= p.Keys
    requires Orderly(u, p) ==> InStep(u, p, waiting, working, txs)
    requires forall id :: id in waiting ==> !Ready(working, p[id])
    ensures !Orderly(u, p)
  {
    hide Ranked, Effective, Ready, ApplyTxs, Grounded;
    if Orderly(u, p) {
      var rank :| Ranked(u, p, rank);
      var id := SomethingReady(u, p, rank, waiting);
      assert false;
    }
  }

  lemma {:induction false} StartLists(p: Pool)
    ensures Lists(p - p.Keys, [])
  {
    assert p - p.Keys == map[];
  }

  lemma {:induction false} EndInStep(u: Utxo, p: Pool, working: Utxo, txs: seq<Transaction>)
    requires InStep(u, p, {}, working, txs) && Lists(p, txs)
    ensures IsOrder(u, p, txs)
  {
    hide Effective, ApplyTxs, Lists;
    assert p - {} == p;
  }

  // ----- The sweeps -----

  /** Spending and creating, without any check of signatures. */
  function MoveTxs(u: Utxo, txs: seq<Transaction>): Option<Utxo> {
    if txs == [] then Some(u)
    else
      var v :- MoveTxs(u, txs[..|txs| - 1]);
      ApplyTx(v, txs[|txs| - 1])
  }

  /** Where a sweep stands: it gives up for good as soon as an output it adds is there already. */
  datatype Stage = GaveUp | At(working: Utxo, remaining: set<Hash256>, taken: seq<Transaction>)

  /** One pool transaction in a sweep: taken if it waits and all its inputs are there. */
  function Visited(p: Pool, st: Stage, id: Hash256): Stage {
    if st.GaveUp? || id !in p || id !in st.remaining || !Ready(st.working, p[id]) then st
    else
      match ApplyTx(st.working, p[id])
      case None => GaveUp
      case Some(next) => At(next, st.remaining - {id}, st.taken + [p[id]])
  }

  /** One sweep over the pool. */
  function Pass(p: Pool, st: Stage, order: seq<Hash256>): (r: Stage)
    ensures st.At? && r.At? ==> r.remaining <= st.remaining
  {
    if order == [] then st else Visited(p, Pass(p, st, order[..|order| - 1]), order[|order| - 1])
  }

  /** Sweeps until nothing is left; nothing at all if a sweep gives up or takes nothing. */
  function Sweeps(p: Pool, working: Utxo, remaining: set<Hash256>, taken: seq<Transaction>,
      order: seq<Hash256>): seq<Transaction>
    decreases remaining
  {
    if remaining == {} then taken
    else
      var next := Pass(p, At(working, remaining, taken), order);
      if next.GaveUp? || next.remaining == remaining then []
      else Sweeps(p, next.working, next.remaining, next.taken, order)
  }

  function Swept(u: Utxo, p: Pool, order: seq<Hash256>): seq<Transaction> {
    Sweeps(p, u, p.Keys, [], order)
  }

  ghost predicate Enumerates(p: Pool, order: seq<Hash256>) {
    forall id :: id in order <==> id in p
  }

  ghost predicate KeyedById(p: Pool) {
    forall id :: id in p ==> Txid(p[id]) == id
  }

  lemma {:induction false} GaveUpStays(p: Pool, st: Stage, order: seq<Hash256>, k: nat)
    requires k <= |order| && Pass(p, st, order[..k]).GaveUp?
    ensures Pass(p, st, order).GaveUp?
  {
    hide Ready, ApplyTx;
    if k == |order| {
      assert order[..k] == order;
    } else {
      assert order[..|order| - 1][..k] == order[..k];
      GaveUpStays(p, st, order[..|order| - 1], k);
    }
  }

  /** A sweep that takes nothing found nothing ready. */
  lemma {:induction false} IdlePass(p: Pool, st: Stage, order: seq<Hash256>)
    requires st.At? && Pass(p, st, order).At? && Pass(p, st, order).remaining == st.remaining
    ensures Pass(p, st, order) == st
    ensures forall id :: id in order && id in p && id in st.remaining ==> !Ready(st.working, p[id])
  {
    hide Visited, Ready;
    if order != [] {
      var front, last := order[..|order| - 1], order[|order| - 1];
      IdleVisit(p, Pass(p, st, front), last);
      IdlePass(p, st, front);
      assert order == front + [last];
    }
  }

  lemma {:induction false} IdleVisit(p: Pool, st: Stage, id: Hash256)
    requires Visited(p, st, id).At?
    ensures st.At? && Visited(p, st, id).remaining <= st.remaining
    ensures Visited(p, st, id).remaining == st.remaining ==>
      Visited(p, st, id) == st && (id in p && id in st.remaining ==> !Ready(st.working, p[id]))
  {
    hide Ready, ApplyTx;
    if st.At? && id in st.remaining {
      assert st.remaining - {id} != st.remaining;
    }
  }

  lemma {:induction false} PassOneMore(p: Pool, st: Stage, order: seq<Hash256>, id: Hash256)
    ensures Pass(p, st, order + [id]) == Visited(p, Pass(p, st, order), id)
  {
    hide Visited;
    assert (order + [id])[..|order|] == order;
  }

  // ----- Any pool: what is returned was moved one by one -----

  /** What a sweep has taken so far is a list of the pool less what remains, moved one by one. */
  ghost predicate Moving(u: Utxo, p: Pool, st: Stage) {
    st.At? ==> st.remaining <= p.Keys && Lists(p - st.remaining, st.taken) && MoveTxs(u, st.taken) == Some(st.working)
  }

  lemma {:induction false} VisitMoves(u: Utxo, p: Pool, st: Stage, id: Hash256)
    requires KeyedById(p) && Moving(u, p, st)
    ensures Moving(u, p, Visited(p, st, id))
  {
    hide Ready, ApplyTx, Lists, Txid;
    if st.At? && id in p && id in st.remaining && Ready(st.working, p[id]) && ApplyTx(st.working, p[id]).Some? {
      ListsAdd(p, st.remaining, id, st.taken);
      assert (st.taken + [p[id]])[..|st.taken|] == st.taken;
    }
  }

  lemma {:induction false} PassMoves(u: Utxo, p: Pool, st: Stage, order: seq<Hash256>)
    requires KeyedById(p) && Moving(u, p, st)
    ensures Moving(u, p, Pass(p, st, order))
  {
    hide Moving, Visited, Txid, KeyedById;
    if order != [] {
      PassMoves(u, p, st, order[..|order| - 1]);
      VisitMoves(u, p, Pass(p, st, order[..|order| - 1]), order[|order| - 1]);
    }
  }

  lemma {:induction false} SweepsMove(u: Utxo, p: Pool, working: Utxo, remaining: set<Hash256>, taken: seq<Transaction>,
      order: seq<Hash256>)
    requires KeyedById(p) && Moving(u, p, At(working, remaining, taken))
    ensures var r := Sweeps(p, working, remaining, taken, order);
      (r == [] || Lists(p, r)) && MoveTxs(u, r).Some?
    decreases remaining
  {
    hide Pass, Txid, KeyedById, Lists, ApplyTx;
    if remaining == {} {
      assert p - {} == p;
    } else {
      PassMoves(u, p, At(working, remaining, taken), order);
      var next := Pass(p, At(working, remaining, taken), order);
      if next.At? && next.remaining != remaining {
        SweepsMove(u, p, next.working, next.remaining, next.taken, order);
      }
    }
  }

  /** Whatever the pool and the order, the result is nothing or the whole pool, and it can be moved one by one. */
  lemma {:induction false} SweptMoves(u: Utxo, p: Pool, order: seq<Hash256>)
    requires KeyedById(p)
    ensures Swept(u, p, order) == [] || Lists(p, Swept(u, p, order))
    ensures MoveTxs(u, Swept(u, p, order)).Some?
  {
    hide Sweeps, Txid, KeyedById, Lists;
    StartLists(p);
    SweepsMove(u, p, u, p.Keys, [], order);
  }

  // ----- Orderly pools: every order of the sweep succeeds -----

  ghost predicate OnTrack(u: Utxo, p: Pool, st: Stage) {
    st.At? && st.remaining <= p.Keys && Lists(p - st.remaining, st.taken)
    && InStep(u, p, st.remaining, st.working, st.taken)
  }

  lemma {:induction false} VisitOnTrack(u: Utxo, p: Pool, st: Stage, id: Hash256)
    requires Orderly(u, p) && OnTrack(u, p, st)
    ensures OnTrack(u, p, Visited(p, st, id))
  {
    hide Ready, ApplyTx, Lists, Txid, Orderly, InStep;
    if id in p && id in st.remaining && Ready(st.working, p[id]) {
      TakeReady(u, p, st.remaining, st.working, st.taken, id);
      ListsAdd(p, st.remaining, id, st.taken);
    }
  }

  lemma {:induction false} PassOnTrack(u: Utxo, p: Pool, st: Stage, order: seq<Hash256>)
    requires Orderly(u, p) && OnTrack(u, p, st)
    ensures OnTrack(u, p, Pass(p, st, order))
  {
    hide OnTrack, Visited, Orderly;
    if order != [] {
      PassOnTrack(u, p, st, order[..|order| - 1]);
      VisitOnTrack(u, p, Pass(p, st, order[..|order| - 1]), order[|order| - 1]);
    }
  }

  lemma {:induction false} SweepsOnTrack(u: Utxo, p: Pool, working: Utxo, remaining: set<Hash256>,
      taken: seq<Transaction>, order: seq<Hash256>)
    requires Orderly(u, p) && OnTrack(u, p, At(working, remaining, taken)) && Enumerates(p, order)
    ensures IsOrder(u, p, Sweeps(p, working, remaining, taken, order))
    decreases remaining
  {
    hide Pass, Orderly, Lists, InStep, IsOrder, Ready;
    if remaining == {} {
      assert p - {} == p;
      EndInStep(u, p, working, taken);
    } else {
      var st := At(working, remaining, taken);
      PassOnTrack(u, p, st, order);
      var next := Pass(p, st, order);
      if next.remaining == remaining {
        IdlePass(p, st, order);
        StuckIsDisorderly(u, p, remaining, working, taken);
        assert false;
      } else {
        SweepsOnTrack(u, p, next.working, next.remaining, next.taken, order);
      }
    }
  }

  /** On an orderly pool every order of the sweep finds a complete valid order. */
  lemma {:induction false} OrderlyIsSwept(u: Utxo, p: Pool, order: seq<Hash256>)
    requires Orderly(u, p) && Enumerates(p, order)
    ensures IsOrder(u, p, Swept(u, p, order))
  {
    hide Sweeps, Orderly, Lists, InStep, IsOrder;
    StartInStep(u, p);
    StartLists(p);
    SweepsOnTrack(u, p, u, p.Keys, [], order);
  }

  // ----- The order of the source -----

  lemma {:induction false} KeysDiffer(a: Bytes, b: Bytes)
    requires |a| == |b| && BigEndian(a) == BigEndian(b)
    ensures a == b
  {
    if a != [] {
      var n := 8 * (|a| - 1);
      BigEndianBound(a[1..]);
      BigEndianBound(b[1..]);
      LeadDigit(a[0], b[0], BigEndian(a[1..]), BigEndian(b[1..]), Pow2(n));
      KeysDiffer(a[1..], b[1..]);
      assert a == [a[0]] + a[1..] && b == [b[0]] + b[1..];
    }
  }

  lemma {:induction false} LeadDigit(x: nat, y: nat, v: nat, w: nat, p: nat)
    requires v < p && w < p && x * p + v == y * p + w
    ensures x == y && v == w
  {
    if x < y {
      MulBetween(x, x, y, p);
    } else if y < x {
      MulBetween(y, y, x, p);
    }
  }

  ghost predicate IsLeast(ids: set<Hash256>, id: Hash256) {
    id in ids && forall other :: other in ids ==> BigEndian(id) <= BigEndian(other)
  }

  lemma {:induction false} LeastExists(ids: set<Hash256>) returns (id: Hash256)
    requires ids != {}
    ensures IsLeast(ids, id)
  {
    id :| id in ids;
    if ids != {id} {
      var other := LeastExists(ids - {id});
      if BigEndian(other) < BigEndian(id) {
        id := other;
      }
    }
  }

  lemma {:induction false} LeastThere(ids: set<Hash256>)
    requires ids != {}
    ensures exists id :: IsLeast(ids, id)
  {
    var id := LeastExists(ids);
  }

  lemma {:induction false} LeastUnique(ids: set<Hash256>, a: Hash256, b: Hash256)
    requires IsLeast(ids, a) && IsLeast(ids, b)
    ensures a == b
  {
    KeysDiffer(a, b);
  }

  /** The ids from the least to the greatest: byte arrays compare as the numbers they spell. */
  ghost function Ascending(ids: set<Hash256>): (order: seq<Hash256>)
    ensures forall id :: id in order <==> id in ids
    ensures ids != {} ==> IsLeast(ids, order[0]) && order == [order[0]] + Ascending(ids - {order[0]})
  {
    if ids == {} then []
    else
      LeastThere(ids);
      var least: Hash256 :| IsLeast(ids, least);
      [least] + Ascending(ids - {least})
  }
}
