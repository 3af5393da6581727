/** Mining-pool shares and their payout (pool_execute_payout and the submit route in http_rpc.hpp). */
module Payout {
  import opened Types
  import opened Coinbase
  import opened Rules
  import opened Sums
  import opened Utxo

  const BONUS_EVERY := 4
  const MIN_BALANCE := 10_000
  const RESERVE := 1_000
  const MARGIN := 5_000
  const BASE := 0x1_0000_0000_0000_0000

  datatype Worker = Worker(shares: nat, pending: nat)

  type Workers = map<Blob, Worker>

  /** A share that was credited: job, address, nonce. */
  type Share = (nat, Blob, u64)

  datatype Credit = Stale | Repeated | Credited

  function Credits(w: Worker): nat { w.shares }

  function Entry(workers: Workers, address: Blob): Worker {
    if address in workers then workers[address] else Worker(0, 0)
  }

  /** One more share for an address. */
  function OneMore(workers: Workers, address: Blob): Workers {
    var w := Entry(workers, address);
    workers[address := Worker(w.shares + 1, w.pending + 1)]
  }

  function Settled(settled: map<Blob, nat>, address: Blob): nat {
    if address in settled then settled[address] else 0
  }

  /** Every worker's credited shares are settled or pending. */
  ghost predicate Accounted(workers: Workers, settled: map<Blob, nat>) {
    && (forall a :: a in workers ==> workers[a].shares == Settled(settled, a) + workers[a].pending)
    && (forall a :: a in settled ==> a in workers)
  }

  /** A payout in flight never claims more than is pending. */
  ghost predicate Covered(workers: Workers, claims: map<Blob, nat>) {
    forall a :: a in claims ==> a in workers && 0 < claims[a] <= workers[a].pending
  }

  /** The table of seen shares has exactly the credited shares of its job, and no later job was credited. */
  ghost predicate Tracked(credited: set<Share>, seen: set<(Blob, u64)>, seenJob: nat, total: nat) {
    && total == |credited|
    && (forall s :: s in credited ==> s.0 <= seenJob && (s.0 == seenJob ==> (s.1, s.2) in seen))
    && forall x :: x in seen ==> (seenJob, x.0, x.1) in credited
  }

  lemma {:induction false} NewJobTracked(credited: set<Share>, seen: set<(Blob, u64)>, seenJob: nat, total: nat,
      id: nat)
    requires Tracked(credited, seen, seenJob, total) && seenJob < id
    ensures Tracked(credited, {}, id, total)
  {
  }

  lemma {:induction false} NewShareTracked(credited: set<Share>, seen: set<(Blob, u64)>, id: nat, total: nat,
      address: Blob, nonce: u64)
    requires Tracked(credited, seen, id, total) && (address, nonce) !in seen
    ensures (id, address, nonce) !in credited
    ensures Tracked(credited + {(id, address, nonce)}, seen + {(address, nonce)}, id, total + 1)
  {
    assert |credited + {(id, address, nonce)}| == |credited| + 1;
  }

  lemma {:induction false} OldShareTracked(credited: set<Share>, seen: set<(Blob, u64)>, id: nat, total: nat,
      address: Blob, nonce: u64)
    requires Tracked(credited, seen, id, total) && (address, nonce) in seen
    ensures (id, address, nonce) in credited && credited + {(id, address, nonce)} == credited
  {
  }

  lemma {:induction false} OneMoreKeeps(workers: Workers, settled: map<Blob, nat>, claims: map<Blob, nat>,
      address: Blob)
    requires Accounted(workers, settled) && Covered(workers, claims)
    ensures var w := OneMore(workers, address);
      Accounted(w, settled) && Covered(w, claims) && Sum(w, Credits) == Sum(workers, Credits) + 1
  {
    var w := OneMore(workers, address);
    if address in workers {
      SumRemove(workers, Credits, address);
      SumRemove(w, Credits, address);
      assert w - {address} == workers - {address};
    } else {
      SumInsert(workers, Credits, address, Worker(1, 1));
    }
  }

  lemma {:induction false} RegisterKeeps(workers: Workers, settled: map<Blob, nat>, claims: map<Blob, nat>,
      address: Blob)
    requires Accounted(workers, settled) && Covered(workers, claims) && address !in workers
    ensures var w := workers[address := Worker(0, 0)];
      Accounted(w, settled) && Covered(w, claims) && Sum(w, Credits) == Sum(workers, Credits)
  {
    SumInsert(workers, Credits, address, Worker(0, 0));
  }

  /** The pool's books. Each method is one critical section under the pool lock; a payout takes two, TakeSnapshot and
      Settle (or Abandon), and anything may happen between them except another payout. */
  class ShareBook {
    var workers: Workers
    var totalShares: nat
    var bonusCount: nat
    var job: nat
    var jobActive: bool
    var seenJob: nat
    var seen: set<(Blob, u64)>

    /** Shares paid out so far, by address. */
    ghost var settled: map<Blob, nat>
    /** What the payout in flight has claimed. */
    ghost var claims: map<Blob, nat>
    ghost var credited: set<Share>
    ghost var others: nat
    ghost var bonuses: nat

    ghost predicate Balanced()
      reads this
    {
      && Accounted(workers, settled) && Covered(workers, claims)
      && Sum(workers, Credits) == totalShares + bonuses
      && others == 4 * bonuses + bonusCount && bonusCount < 4 && others <= totalShares
    }

    ghost predicate Valid()
      reads this
    {
      Balanced() && Tracked(credited, seen, seenJob, totalShares) && seenJob <= job
    }

    constructor ()
      ensures Valid() && workers == map[] && claims == map[]
    {
      workers, totalShares, bonusCount := map[], 0, 0;
      job, jobActive, seenJob, seen := 0, false, 0, {};
      settled, claims, credited, others, bonuses := map[], map[], {}, 0, 0;
    }

    method PublishJob()
      requires Valid()
      modifies this`job, this`jobActive
      ensures Valid() && jobActive && job == old(job) + 1
    {
      hide Sum, Accounted, Covered, Tracked;
      job, jobActive := job + 1, true;
    }

    method EndJob(id: nat)
      requires Valid()
      modifies this`jobActive
      ensures Valid() && jobActive == (old(jobActive) && job != id)
    {
      hide Sum, Accounted, Covered, Tracked;
      if job == id {
        jobActive := false;
      }
    }

    /** The registration route adds a worker with nothing to its name. */
    method Register(address: Blob)
      requires Valid()
      modifies this
      ensures Valid() && claims == old(claims)
      ensures workers == if address in old(workers) then old(workers) else old(workers)[address := Worker(0, 0)]
    {
      hide Sum, Accounted, Covered, Tracked;
      if address !in workers {
        RegisterKeeps(workers, settled, claims, address);
        workers := workers[address := Worker(0, 0)];
      }
    }

    /** One share for the worker; every fourth share of others earns the owner one. */
    method CreditShare(address: Blob, owner: Blob)
      requires Balanced()
      modifies this`workers, this`totalShares, this`bonusCount, this`others, this`bonuses
      ensures Balanced() && totalShares == old(totalShares) + 1
      ensures var paid := OneMore(old(workers), address);
        var bonus := owner != [] && address != owner && old(bonusCount) == 3;
        workers == if bonus then OneMore(paid, owner) else paid
    {
      hide Sum, Accounted, Covered, OneMore;
      OneMoreKeeps(workers, settled, claims, address);
      workers, totalShares := OneMore(workers, address), totalShares + 1;
      if owner != [] && address != owner {
        bonusCount, others := bonusCount + 1, others + 1;
        if bonusCount >= BONUS_EVERY {
          OneMoreKeeps(workers, settled, claims, owner);
          workers, bonusCount, bonuses := OneMore(workers, owner), 0, bonuses + 1;
        }
      }
    }

    /** The table of seen shares, emptied for a new job; tells whether the share is new. */
    method Mark(id: nat, address: Blob, nonce: u64) returns (isNew: bool)
      requires Tracked(credited, seen, seenJob, totalShares) && seenJob <= id
      modifies this`seen, this`seenJob, this`credited
      ensures seenJob == id
      ensures isNew <==> (id, address, nonce) !in old(credited)
      ensures credited == old(credited) + {(id, address, nonce)}
      ensures Tracked(credited, seen, seenJob, if isNew then totalShares + 1 else totalShares)
    {
      hide Tracked;
      if seenJob != id {
        NewJobTracked(credited, seen, seenJob, totalShares, id);
        seen, seenJob := {}, id;
      }
      if (address, nonce) in seen {
        OldShareTracked(credited, seen, id, totalShares, address, nonce);
        return false;
      }
      NewShareTracked(credited, seen, id, totalShares, address, nonce);
      seen := seen + {(address, nonce)};
      credited := credited + {(id, address, nonce)};
      isNew := true;
    }

    /** A share of the current job is credited exactly once. */
    method Submit(id: nat, address: Blob, nonce: u64, owner: Blob) returns (r: Credit)
      requires Valid()
      modifies this`workers, this`totalShares, this`bonusCount, this`others, this`bonuses, this`seen, this`seenJob,
        this`credited
      ensures Valid()
      ensures r.Stale? <==> !jobActive || id != job
      ensures r.Repeated? <==> jobActive && id == job && (id, address, nonce) in old(credited)
      ensures credited == if r.Credited? then old(credited) + {(id, address, nonce)} else old(credited)
      ensures !r.Credited? ==> workers == old(workers) && totalShares == old(totalShares)
      ensures r.Credited? ==>
        var paid := OneMore(old(workers), address);
        var bonus := owner != [] && address != owner && old(bonusCount) == 3;
        workers == if bonus then OneMore(paid, owner) else paid
    {
      hide Sum, Accounted, Covered, OneMore, Tracked;
      if !jobActive || job != id {
        return Stale;
      }
      var isNew := Mark(id, address, nonce);
      if !isNew {
        return Repeated;
      }
      CreditShare(address, owner);
      r := Credited;
    }

    /** The first critical section of a payout: who is owed shares, and how many in all. */
    method TakeSnapshot() returns (snap: seq<(Blob, nat)>, total: nat)
      requires Valid() && claims == map[]
      modifies this`claims
      ensures Valid() && IsSnapshot(claims, snap) && OneEach(snap) && total == TotalShares(snap)
      ensures forall a :: a in claims <==> a in workers && workers[a].pending > 0
      ensures forall a :: a in claims && a in workers ==> claims[a] == workers[a].pending
    {
      hide Sum, Accounted, Tracked, IsSnapshot, TotalShares;
      EmptySnapshot();
      snap, total, claims := [], 0, map[];
      var left := workers.Keys;
      while left != {}
        invariant left <= workers.Keys && Covered(workers, claims)
        invariant IsSnapshot(claims, snap) && total == TotalShares(snap)
        invariant forall a :: a in claims <==> a in workers && a !in left && workers[a].pending > 0
        invariant forall a :: a in claims && a in workers ==> claims[a] == workers[a].pending
        invariant unchanged(this`workers)
        decreases |left|
      {
        var a :| a in left;
        left := left - {a};
        if workers[a].pending > 0 {
          SnapshotAdd(claims, snap, a, workers[a].pending);
          snap := snap + [(a, workers[a].pending)];
          total := total + workers[a].pending;
          claims := claims[a := workers[a].pending];
        }
      }
      SnapshotOneEach(claims, snap);
    }

    /** A payout that failed leaves the books alone. */
    method Abandon()
      requires Valid()
      modifies this`claims
      ensures Valid() && claims == map[]
    {
      hide Sum, Accounted, Tracked;
      claims := map[];
    }

    /** The second critical section of a successful payout: the snapshot is taken off what is pending. Shares credited
        meanwhile stay pending, and the branch that reports an accounting violation is never taken. */
    method Settle(snap: seq<(Blob, nat)>) returns (violated: bool)
      requires Valid() && IsSnapshot(claims, snap)
      modifies this
      ensures Valid() && !violated && claims == map[]
      ensures Moved(old(workers), workers, old(settled), settled, old(claims), map[])
    {
      hide Sum, Accounted, Covered, Tracked, Moved, IsSnapshot;
      violated := false;
      NothingMoved(workers, settled, claims);
      for k := 0 to |snap|
        invariant !violated && Valid()
        invariant IsSnapshot(claims, snap[k..])
        invariant Moved(old(workers), workers, old(settled), settled, old(claims), claims)
      {
        var (a, n) := snap[k];
        SnapshotFirst(claims, snap[k..]);
        assert snap[k..][1..] == snap[k + 1..];
        ClaimCovered(workers, claims, a);
        if a in workers {
          if workers[a].pending >= n {
            SettleKeeps(workers, settled, claims, a);
            MoveOne(old(workers), workers, old(settled), settled, old(claims), claims, a);
            workers := workers[a := workers[a].(pending := workers[a].pending - n)];
            settled := settled[a := Settled(settled, a) + n];
            claims := claims - {a};
          } else {
            violated := true;
          }
        }
      }
      SnapshotEmpty(claims, snap[|snap|..]);
    }
  }

  /** What left `claims` moved from pending to settled, for every worker; the shares stay what they were. */
  ghost predicate Moved(workers: Workers, workers': Workers, settled: map<Blob, nat>, settled': map<Blob, nat>,
      claims: map<Blob, nat>, claims': map<Blob, nat>)
  {
    && workers'.Keys == workers.Keys
    && (forall a :: a in claims' ==> a in claims && claims'[a] == claims[a])
    && forall a :: a in workers && a in workers' ==>
      && workers'[a].shares == workers[a].shares
      && workers'[a].pending + Settled(claims, a) == workers[a].pending + Settled(claims', a)
      && Settled(settled', a) + Settled(claims', a) == Settled(settled, a) + Settled(claims, a)
  }

  lemma {:induction false} NothingMoved(workers: Workers, settled: map<Blob, nat>, claims: map<Blob, nat>)
    ensures Moved(workers, workers, settled, settled, claims, claims)
  {
  }

  lemma {:induction false} MoveOne(workers: Workers, workers': Workers, settled: map<Blob, nat>, settled': map<Blob,
      nat>,
      claims: map<Blob, nat>, claims': map<Blob, nat>, a: Blob)
    requires Moved(workers, workers', settled, settled', claims, claims')
    requires a in workers' && a in claims' && claims'[a] <= workers'[a].pending
    ensures Moved(workers, workers'[a := workers'[a].(pending := workers'[a].pending - claims'[a])],
      settled, settled'[a := Settled(settled', a) + claims'[a]], claims, claims' - {a})
  {
  }

  lemma {:induction false} SnapshotEmpty(claims: map<Blob, nat>, snap: seq<(Blob, nat)>)
    requires IsSnapshot(claims, snap) && snap == []
    ensures claims == map[]
  {
  }

  /** The list names each claim exactly once. */
  ghost predicate IsSnapshot(claims: map<Blob, nat>, snap: seq<(Blob, nat)>) {
    if snap == [] then claims == map[]
    else snap[0].0 in claims && claims[snap[0].0] == snap[0].1 && IsSnapshot(claims - {snap[0].0}, snap[1..])
  }

  lemma {:induction false} SnapshotFirst(claims: map<Blob, nat>, snap: seq<(Blob, nat)>)
    requires snap != [] && IsSnapshot(claims, snap)
    ensures var (a, n) := snap[0]; a in claims && claims[a] == n && IsSnapshot(claims - {a}, snap[1..])
  {
  }

  lemma {:induction false} EmptySnapshot()
    ensures IsSnapshot(map[], []) && TotalShares([]) == 0
  {
  }

  lemma {:induction false} SnapshotAdd(claims: map<Blob, nat>, snap: seq<(Blob, nat)>, a: Blob, n: nat)
    requires IsSnapshot(claims, snap) && a !in claims
    ensures IsSnapshot(claims[a := n], snap + [(a, n)]) && TotalShares(snap + [(a, n)]) == TotalShares(snap) + n
  {
    if snap == [] {
      assert claims[a := n] - {a} == map[];
    } else {
      var b := snap[0].0;
      SnapshotAdd(claims - {b}, snap[1..], a, n);
      assert (snap + [(a, n)])[1..] == snap[1..] + [(a, n)];
      assert claims[a := n] - {b} == (claims - {b})[a := n];
    }
  }

  lemma {:induction false} ClaimCovered(workers: Workers, claims: map<Blob, nat>, a: Blob)
    requires Covered(workers, claims) && a in claims
    ensures a in workers && 0 < claims[a] <= workers[a].pending
  {
  }

  lemma {:induction false} SettleKeeps(workers: Workers, settled: map<Blob, nat>, claims: map<Blob, nat>, a: Blob)
    requires Accounted(workers, settled) && Covered(workers, claims) && a in claims && a in workers
    requires claims[a] <= workers[a].pending
    ensures var w := workers[a := workers[a].(pending := workers[a].pending - claims[a])];
      && Accounted(w, settled[a := Settled(settled, a) + claims[a]]) && Covered(w, claims - {a})
      && Sum(w, Credits) == Sum(workers, Credits)
  {
    var w := workers[a := workers[a].(pending := workers[a].pending - claims[a])];
    SumRemove(workers, Credits, a);
    SumRemove(w, Credits, a);
    assert w - {a} == workers - {a};
  }

  // ----- Apportionment -----

  function TotalShares(snap: seq<(Blob, nat)>): nat {
    if snap == [] then 0 else snap[0].1 + TotalShares(snap[1..])
  }

  /** A worker's part, in 64-bit arithmetic: the product wraps, the division rounds down. */
  function Part(pot: u64, shares: nat, total: nat): (r: u64)
    requires total > 0
  {
    DivideBounded(pot * shares % BASE, total);
    pot * shares % BASE / total
  }

  lemma {:induction false} DivideBounded(x: nat, d: nat)
    requires d > 0
    ensures 0 <= x / d <= x && x / d * d <= x < x / d * d + d
  {
    assert x == x / d * d + x % d;
    MulGrows(x / d, d);
  }

  lemma {:induction false} MulGrows(a: nat, b: nat)
    requires b > 0
    ensures a <= a * b
  {
    if b > 1 {
      MulGrows(a, b - 1);
    }
  }

  /** One output for each worker whose part is not zero. */
  function Payments(snap: seq<(Blob, nat)>, pot: u64, total: nat): seq<TxOutput>
    requires total > 0
  {
    if snap == [] then []
    else
      var front := Payments(snap[..|snap| - 1], pot, total);
      var (address, shares) := snap[|snap| - 1];
      var amount := Part(pot, shares, total);
      if amount == 0 then front else front + [TxOutput(amount, address)]
  }

  lemma {:induction false} TotalLast(snap: seq<(Blob, nat)>)
    requires snap != []
    ensures TotalShares(snap) == TotalShares(snap[..|snap| - 1]) + snap[|snap| - 1].1
  {
    if |snap| > 1 {
      TotalLast(snap[1..]);
      assert snap[1..][..|snap| - 2] == snap[..|snap| - 1][1..];
    }
  }

  lemma {:induction false} PaymentsLast(snap: seq<(Blob, nat)>, pot: u64, total: nat)
    requires total > 0 && snap != []
    ensures SumAmounts(Payments(snap, pot, total)) ==
      SumAmounts(Payments(snap[..|snap| - 1], pot, total)) + Part(pot, snap[|snap| - 1].1, total)
  {
    var front := Payments(snap[..|snap| - 1], pot, total);
    var last := TxOutput(Part(pot, snap[|snap| - 1].1, total), snap[|snap| - 1].0);
    assert (front + [last])[..|front|] == front;
  }

  /** Nobody is paid exactly if every product is below the total. */
  lemma {:induction false} PaymentsEmptyIff(snap: seq<(Blob, nat)>, pot: u64, total: nat)
    requires total > 0
    ensures Payments(snap, pot, total) == [] <==> forall s :: s in snap ==> pot * s.1 % BASE < total
  {
    if snap != [] {
      var front, last := snap[..|snap| - 1], snap[|snap| - 1];
      PaymentsEmptyIff(front, pot, total);
      DivideBounded(pot * last.1 % BASE, total);
      assert snap == front + [last];
      ZeroPart(pot * last.1 % BASE, total);
    }
  }

  lemma {:induction false} ZeroPart(x: nat, d: nat)
    requires d > 0
    ensures x / d == 0 <==> x < d
  {
    DivideBounded(x, d);
    if x >= d {
      assert x / d * d > 0;
    }
  }

  lemma {:induction false} PartUpper(pot: u64, shares: nat, total: nat)
    requires total > 0
    ensures Part(pot, shares, total) * total <= pot * shares
    ensures pot * shares < BASE ==> pot * shares < Part(pot, shares, total) * total + total
  {
    var product := pot * shares;
    assert product % BASE <= product;
    assert product < BASE ==> product % BASE == product;
    DivideBounded(product % BASE, total);
  }

  /** Rounded parts of a fraction of the pot, scaled by the total. */
  lemma {:induction false} PaidBounds(snap: seq<(Blob, nat)>, pot: u64, total: nat)
    requires total > 0
    ensures SumAmounts(Payments(snap, pot, total)) * total <= pot * TotalShares(snap)
    ensures (forall s :: s in snap ==> pot * s.1 < BASE) && snap != [] ==>
      pot * TotalShares(snap) < SumAmounts(Payments(snap, pot, total)) * total + |snap| * total
  {
    hide Payments, Part;
    if snap == [] {
      NothingPaid(pot, total);
    } else {
      var front, shares := snap[..|snap| - 1], snap[|snap| - 1].1;
      PaidBounds(front, pot, total);
      if front == [] {
        NothingPaid(pot, total);
      }
      TotalLast(snap);
      PaymentsLast(snap, pot, total);
      PartUpper(pot, shares, total);
      var paid, part := SumAmounts(Payments(front, pot, total)), Part(pot, shares, total);
      Distribute(paid, part, total);
      Distribute(TotalShares(front), shares, pot);
      Distribute(|front|, 1, total);
      assert snap[|snap| - 1] in snap;
    }
  }

  lemma {:induction false} NothingPaid(pot: u64, total: nat)
    requires total > 0
    ensures SumAmounts(Payments([], pot, total)) == 0
  {
  }

  lemma {:induction false} Distribute(a: nat, b: nat, c: nat)
    ensures (a + b) * c == a * c + b * c && c * (a + b) == c * a + c * b
  {
  }

  lemma {:induction false} CancelFactor(a: nat, b: nat, c: nat)
    requires c > 0
    ensures a * c <= b * c ==> a <= b
    ensures a * c < b * c ==> a < b
  {
    if a > b {
      Distribute(b, a - b, c);
      MulGrows(c, a - b);
    }
  }

  /** The parts never exceed the pot, even if a product wraps; and if none does, fewer units than there are workers
      are left over. */
  lemma {:induction false} ApportionmentBounds(snap: seq<(Blob, nat)>, pot: u64)
    requires TotalShares(snap) > 0
    ensures var paid := SumAmounts(Payments(snap, pot, TotalShares(snap)));
      paid <= pot && ((forall s :: s in snap ==> pot * s.1 < BASE) ==> pot < paid + |snap|)
  {
    hide Payments;
    var total := TotalShares(snap);
    var paid := SumAmounts(Payments(snap, pot, total));
    PaidBounds(snap, pot, total);
    CancelFactor(paid, pot, total);
    Distribute(paid, |snap|, total);
    CancelFactor(pot, paid + |snap|, total);
  }

  // ----- Who is paid what -----

  /** What a list of outputs pays to an address. */
  function PaidTo(outputs: seq<TxOutput>, address: Blob): nat {
    if outputs == [] then 0
    else
      var front, last := outputs[..|outputs| - 1], outputs[|outputs| - 1];
      PaidTo(front, address) + if last.recipient == address then last.amount else 0
  }

  /** Nobody else is paid; and an address of the list gets its shares of the pot, rounded down, with the product taken
      in 64 bits. */
  ghost predicate PaysShares(outputs: seq<TxOutput>, snap: seq<(Blob, nat)>, pot: nat) {
    && (forall o :: o in outputs ==> exists i :: 0 <= i < |snap| && snap[i].0 == o.recipient)
    && forall i :: 0 <= i < |snap| ==>
         var q, total := PaidTo(outputs, snap[i].0), TotalShares(snap);
         q * total <= pot * snap[i].1 % 0x1_0000_0000_0000_0000 < (q + 1) * total
  }

  /** The addresses of a list are all different, as the keys of the worker table are. */
  ghost predicate OneEach(snap: seq<(Blob, nat)>) {
    forall i, j :: 0 <= i < j < |snap| ==> snap[i].0 != snap[j].0
  }

  lemma {:induction false} SnapshotOneEach(claims: map<Blob, nat>, snap: seq<(Blob, nat)>)
    requires IsSnapshot(claims, snap)
    ensures OneEach(snap) && forall i :: 0 <= i < |snap| ==> snap[i].0 in claims
  {
    if snap != [] {
      SnapshotOneEach(claims - {snap[0].0}, snap[1..]);
      assert forall i :: 0 < i < |snap| ==> snap[i] == snap[1..][i - 1];
    }
  }

  lemma {:induction false} PaidToLast(outputs: seq<TxOutput>, last: TxOutput, address: Blob)
    ensures PaidTo(outputs + [last], address) ==
      PaidTo(outputs, address) + if last.recipient == address then last.amount else 0
  {
    assert (outputs + [last])[..|outputs|] == outputs;
  }

  lemma {:induction false} PaymentsWithin(snap: seq<(Blob, nat)>, pot: u64, total: nat, o: TxOutput)
    requires total > 0 && o in Payments(snap, pot, total)
    ensures exists i :: 0 <= i < |snap| && snap[i].0 == o.recipient
  {
    hide Part;
    var front, last := snap[..|snap| - 1], snap[|snap| - 1];
    if o in Payments(front, pot, total) {
      PaymentsWithin(front, pot, total, o);
      var i :| 0 <= i < |front| && front[i].0 == o.recipient;
      assert snap[i].0 == o.recipient;
    } else {
      assert snap[|snap| - 1].0 == o.recipient;
    }
  }

  /** An address that is not on the list gets nothing. */
  lemma {:induction false} StrangerUnpaid(snap: seq<(Blob, nat)>, pot: u64, total: nat, address: Blob)
    requires total > 0 && forall i :: 0 <= i < |snap| ==> snap[i].0 != address
    ensures PaidTo(Payments(snap, pot, total), address) == 0
  {
    hide Part;
    if snap != [] {
      var front, last := snap[..|snap| - 1], snap[|snap| - 1];
      StrangerUnpaid(front, pot, total, address);
      PaidToLast(Payments(front, pot, total), TxOutput(Part(pot, last.1, total), last.0), address);
    }
  }

  /** One that is on it gets its part. */
  lemma {:induction false} WorkerPaid(snap: seq<(Blob, nat)>, pot: u64, total: nat, i: nat)
    requires total > 0 && OneEach(snap) && i < |snap|
    ensures PaidTo(Payments(snap, pot, total), snap[i].0) == Part(pot, snap[i].1, total)
  {
    hide Part;
    var front, last := snap[..|snap| - 1], snap[|snap| - 1];
    PaidToLast(Payments(front, pot, total), TxOutput(Part(pot, last.1, total), last.0), snap[i].0);
    if i < |snap| - 1 {
      WorkerPaid(front, pot, total, i);
    } else {
      StrangerUnpaid(front, pot, total, snap[i].0);
    }
  }

  lemma {:induction false} PaymentsPayShares(snap: seq<(Blob, nat)>, pot: u64)
    requires TotalShares(snap) > 0 && OneEach(snap)
    ensures PaysShares(Payments(snap, pot, TotalShares(snap)), snap, pot)
  {
    hide Payments, TotalShares, PaidTo;
    var total := TotalShares(snap);
    var outputs := Payments(snap, pot, total);
    forall o | o in outputs ensures exists i :: 0 <= i < |snap| && snap[i].0 == o.recipient {
      PaymentsWithin(snap, pot, total, o);
    }
    forall i | 0 <= i < |snap|
      ensures var q := PaidTo(outputs, snap[i].0); q * total <= pot * snap[i].1 % BASE < (q + 1) * total
    {
      WorkerPaid(snap, pot, total, i);
      DivideBounded(pot * snap[i].1 % BASE, total);
    }
  }

  /** The loop that fills in the outputs. */
  method Apportion(snap: seq<(Blob, nat)>, pot: u64) returns (outputs: seq<TxOutput>, paidOut: nat)
    requires TotalShares(snap) > 0
    ensures outputs == Payments(snap, pot, TotalShares(snap)) && paidOut == SumAmounts(outputs) <= pot
    ensures forall o :: o in outputs ==> o.amount > 0
    ensures OneEach(snap) ==> PaysShares(outputs, snap, pot)
  {
    hide Part, PaysShares, OneEach;
    var total := TotalShares(snap);
    outputs, paidOut := [], 0;
    for i := 0 to |snap|
      invariant outputs == Payments(snap[..i], pot, total) && paidOut == SumAmounts(outputs)
      invariant forall o :: o in outputs ==> o.amount > 0
    {
      assert snap[..i + 1][..i] == snap[..i];
      var amount := Part(pot, snap[i].1, total);
      if amount != 0 {
        assert (outputs + [TxOutput(amount, snap[i].0)])[..|outputs|] == outputs;
        outputs := outputs + [TxOutput(amount, snap[i].0)];
        paidOut := paidOut + amount;
      }
    }
    assert snap[..|snap|] == snap;
    ApportionmentBounds(snap, pot);
    if OneEach(snap) {
      PaymentsPayShares(snap, pot);
    }
  }

  // ----- The transaction -----

  /** Inputs are taken in order until they cover the target; all of them if they never do. */
  method Gather(u: Utxo, points: seq<OutPoint>, target: nat) returns (inputs: seq<OutPoint>, gathered: nat)
    requires forall o :: o in points ==> o in u
    ensures inputs <= points && gathered == InputSum(u, inputs)
    ensures gathered >= target || inputs == points
    ensures forall n :: 0 < n < |inputs| ==> InputSum(u, points[..n]) < target
  {
    inputs, gathered := [], 0;
    for i := 0 to |points|
      invariant inputs == points[..i] && gathered == InputSum(u, inputs)
      invariant forall n :: 0 < n <= i ==> InputSum(u, points[..n]) < target
    {
      assert points[..i + 1][..i] == points[..i];
      inputs := inputs + [points[i]];
      gathered := gathered + u[points[i]].amount;
      if gathered >= target {
        return;
      }
    }
  }

  datatype Plan =
    | NoShares
    | TooSmall
    | NoOutputs
    | Insufficient
    | Payout(inputs: seq<OutPoint>, outputs: seq<TxOutput>, paidOut: nat)

  /** What is left for the workers, in 64-bit arithmetic. */
  function Pot(balance: nat, fee: u64): u64 {
    (balance - RESERVE - fee) % BASE
  }

  /** What the workers get in all. */
  function Owed(snap: seq<(Blob, nat)>, balance: nat, fee: u64): nat
    requires TotalShares(snap) > 0
  {
    SumAmounts(Payments(snap, Pot(balance, fee), TotalShares(snap)))
  }

  /** With a fee of at most what there is to distribute, the outputs always suffice. */
  lemma {:induction false} FeeWithinSuffices(snap: seq<(Blob, nat)>, balance: nat, fee: u64)
    requires TotalShares(snap) > 0 && RESERVE <= balance <= MAX_SUPPLY && fee <= balance - RESERVE
    ensures Owed(snap, balance, fee) <= balance - RESERVE - fee
  {
    hide Payments;
    ApportionmentBounds(snap, Pot(balance, fee));
  }

  /** With a larger fee the subtraction wraps, and every part that was to be small is huge. */
  lemma {:induction false} WrappedPart(balance: nat, fee: u64, shares: nat, total: nat)
    requires RESERVE <= balance <= MAX_SUPPLY && balance - RESERVE < fee
    requires 0 < shares <= total && total * (fee + RESERVE + 1) <= BASE
    ensures Part(Pot(balance, fee), shares, total) > balance
  {
    var excess := fee - (balance - RESERVE);
    assert Pot(balance, fee) == BASE - excess;
    MulUpTo(excess, excess, shares, total);
    Distribute(excess, balance + 1, total);
    assert fee + RESERVE + 1 == excess + (balance + 1);
    MulGrows(excess, shares);
    WrappedProduct(excess, shares);
    var x := Pot(balance, fee) * shares % BASE;
    QuotientAtLeast(x, total, balance + 1);
  }

  lemma {:induction false} QuotientAtLeast(x: nat, d: nat, q: nat)
    requires d > 0
    ensures x / d >= q <==> x >= q * d
  {
    DivideBounded(x, d);
    if x / d >= q {
      MulUpTo(q, x / d, d, d);
    } else {
      MulUpTo(x / d + 1, q, d, d);
      Distribute(x / d, 1, d);
    }
  }

  lemma {:induction false} MulUpTo(a: nat, b: nat, c: nat, d: nat)
    requires a <= b && c <= d
    ensures a * c <= b * d
  {
    Distribute(a, b - a, c);
    Distribute(c, d - c, b);
  }

  lemma {:induction false} WrappedProduct(excess: nat, shares: nat)
    requires 0 < excess <= BASE && 0 < shares && excess * shares <= BASE && 0 < excess * shares
    ensures (BASE - excess) * shares % BASE == (BASE - excess * shares) % BASE
  {
    var x := BASE - excess * shares;
    assert (BASE - excess) * shares == x + BASE * (shares - 1);
    ModShift(x, shares - 1);
  }

  lemma {:induction false} ModShift(x: nat, k: nat)
    ensures (x + BASE * k) % BASE == x % BASE
  {
    if k > 0 {
      ModShift(x, k - 1);
      assert x + BASE * k == x + BASE * (k - 1) + BASE;
    }
  }

  /** Any part is paid in full. */
  lemma {:induction false} PartWithinOwed(snap: seq<(Blob, nat)>, pot: u64, total: nat, i: nat)
    requires total > 0 && i < |snap|
    ensures Part(pot, snap[i].1, total) <= SumAmounts(Payments(snap, pot, total))
  {
    hide Payments, Part;
    PaymentsLast(snap, pot, total);
    if i < |snap| - 1 {
      PartWithinOwed(snap[..|snap| - 1], pot, total, i);
    }
  }

  lemma {:induction false} SomeShare(snap: seq<(Blob, nat)>) returns (i: nat)
    requires TotalShares(snap) > 0
    ensures i < |snap| && 0 < snap[i].1 <= TotalShares(snap)
  {
    if snap[0].1 > 0 {
      i := 0;
    } else {
      i := SomeShare(snap[1..]);
      i := i + 1;
    }
  }

  /** When the outputs fall short, for every snapshot whose shares times the fee fit in 64 bits: exactly if the fee is
      more than there is to distribute. */
  lemma {:induction false} ShortIff(snap: seq<(Blob, nat)>, balance: nat, fee: u64)
    requires TotalShares(snap) > 0 && RESERVE <= balance <= MAX_SUPPLY
    requires TotalShares(snap) * (fee + RESERVE + 1) <= BASE
    ensures balance < Owed(snap, balance, fee) <==> balance - RESERVE < fee
  {
    hide Payments, Part, Pot;
    if fee <= balance - RESERVE {
      FeeWithinSuffices(snap, balance, fee);
    } else {
      var i := SomeShare(snap);
      WrappedPart(balance, fee, snap[i].1, TotalShares(snap));
      PartWithinOwed(snap, Pot(balance, fee), TotalShares(snap), i);
    }
  }

  /** The fit matters: with a single worker, and a fee that overshoots by little, the outputs fall short exactly if the
      fee is too large and the shares times the fee fit. */
  lemma {:induction false} OneWorkerShortIff(address: Blob, shares: nat, balance: nat, fee: u64)
    requires shares > 0 && RESERVE <= balance <= MAX_SUPPLY
    requires (fee - (balance - RESERVE)) * shares <= BASE
    ensures TotalShares([(address, shares)]) == shares
    ensures balance < Owed([(address, shares)], balance, fee) <==>
      balance - RESERVE < fee && shares * (fee + RESERVE + 1) <= BASE
  {
    hide Payments, Part, Pot;
    var snap, pot := [(address, shares)], Pot(balance, fee);
    assert TotalShares(snap) == shares + TotalShares(snap[1..]);
    if fee <= balance - RESERVE {
      FeeWithinSuffices(snap, balance, fee);
    } else {
      PaymentsLast(snap, pot, shares);
      assert snap[..0] == [];
      NothingPaid(pot, shares);
      OneWorkerPart(shares, balance, fee);
    }
  }

  /** The single part, when the subtraction wraps. */
  lemma {:induction false} OneWorkerPart(shares: nat, balance: nat, fee: u64)
    requires shares > 0 && RESERVE <= balance <= MAX_SUPPLY && balance - RESERVE < fee
    requires (fee - (balance - RESERVE)) * shares <= BASE
    ensures Part(Pot(balance, fee), shares, shares) > balance <==> shares * (fee + RESERVE + 1) <= BASE
  {
    hide Pot;
    var excess := fee - (balance - RESERVE);
    var over, need := excess * shares, (balance + 1) * shares;
    MulGrows(excess, shares);
    MulGrows(balance + 1, shares);
    WrappedProduct(excess, shares);
    SplitFee(shares, excess, balance + 1);
    var x := (BASE - excess) * shares % BASE;
    assert x == if over == BASE then 0 else BASE - over;
    QuotientAtLeast(x, shares, balance + 1);
    PotWraps(balance, fee);
  }

  lemma {:induction false} SplitFee(shares: nat, excess: nat, rest: nat)
    ensures shares * (excess + rest) == excess * shares + rest * shares
  {
    Distribute(excess, rest, shares);
  }

  lemma {:induction false} PotWraps(balance: nat, fee: u64)
    requires RESERVE <= balance <= MAX_SUPPLY && balance - RESERVE < fee
    ensures Pot(balance, fee) == BASE - (fee - (balance - RESERVE))
  {
  }

  /** A balanced transaction: it spends the first outputs of the wallet that cover the payments and 5000 more, or all
      of them, makes the payments, and returns the rest to the pool's own address. */
  ghost predicate Balances(plan: Plan, payments: seq<TxOutput>, u: Utxo, points: seq<OutPoint>, own: Blob)
    requires plan.Payout? && forall o :: o in points ==> o in u
  {
    && plan.inputs <= points
    && (InputSum(u, plan.inputs) >= plan.paidOut + 5000 || plan.inputs == points)
    && (forall n :: 0 < n < |plan.inputs| ==> InputSum(u, points[..n]) < plan.paidOut + 5000)
    && InputSum(u, plan.inputs) == SumAmounts(plan.outputs)
    && plan.paidOut == SumAmounts(payments)
    && (plan.outputs == payments || exists rest: u64 :: plan.outputs == payments + [TxOutput(rest, own)])
    && forall o :: o in plan.outputs ==> o.amount > 0
  }

  /** Balanced, with the parts of the workers as payments, which the pot covers. */
  ghost predicate Settles(plan: Plan, snap: seq<(Blob, nat)>, u: Utxo, points: seq<OutPoint>, pot: u64, own: Blob)
    requires plan.Payout? && TotalShares(snap) > 0 && forall o :: o in points ==> o in u
  {
    Balances(plan, Payments(snap, pot, TotalShares(snap)), u, points, own) && plan.paidOut <= pot
  }

  /** Apart from a last output to the pool's own address, each worker is paid its shares and nobody else anything. */
  ghost predicate PaysWorkers(outputs: seq<TxOutput>, snap: seq<(Blob, nat)>, pot: nat, own: Blob) {
    exists n :: 0 <= n <= |outputs| <= n + 1 && PaysShares(outputs[..n], snap, pot) &&
      (n < |outputs| ==> outputs[n].recipient == own)
  }

  lemma {:induction false} SettledPays(plan: Plan, snap: seq<(Blob, nat)>, u: Utxo, points: seq<OutPoint>, pot: u64,
      own: Blob)
    requires plan.Payout? && TotalShares(snap) > 0 && forall o :: o in points ==> o in u
    requires Settles(plan, snap, u, points, pot, own) && OneEach(snap)
    ensures PaysWorkers(plan.outputs, snap, pot, own)
  {
    hide Payments, TotalShares, InputSum, SumAmounts, PaysShares, OneEach;
    var payments := Payments(snap, pot, TotalShares(snap));
    PaymentsPayShares(snap, pot);
    assert plan.outputs[..|payments|] == payments;
  }

  /** The middle of pool_execute_payout: from a snapshot and the wallet's outputs to a transaction. The fee is any
      amount (the source computes it in floating point). */
  method PlanPayout(snap: seq<(Blob, nat)>, u: Utxo, points: seq<OutPoint>, fee: u64, own: Blob) returns (plan: Plan)
    requires forall o :: o in points ==> o in u
    requires InputSum(u, points) <= MAX_SUPPLY
    ensures plan.NoShares? <==> TotalShares(snap) == 0
    ensures plan.TooSmall? <==> TotalShares(snap) > 0 && InputSum(u, points) < 10_000
    ensures plan.NoOutputs? <==>
      && TotalShares(snap) > 0 && InputSum(u, points) >= MIN_BALANCE
      && forall s :: s in snap ==> Pot(InputSum(u, points), fee) * s.1 % BASE < TotalShares(snap)
    ensures plan.Payout? ==> TotalShares(snap) > 0 && Settles(plan, snap, u, points, Pot(InputSum(u, points), fee), own)
    ensures plan.Insufficient? <==>
      TotalShares(snap) > 0 && MIN_BALANCE <= InputSum(u, points) < Owed(snap, InputSum(u, points), fee)
    ensures plan.Payout? && OneEach(snap) ==>
      PaysWorkers(plan.outputs, snap, (InputSum(u, points) - 1000 - fee) % 0x1_0000_0000_0000_0000, own)
  {
    hide Payments, Balances, TotalShares, InputSum, PaysShares, PaysWorkers, OneEach, SumAmounts;
    if TotalShares(snap) == 0 {
      return NoShares;
    }
    var balance := InputSum(u, points);
    if balance < MIN_BALANCE {
      return TooSmall;
    }
    var pot := Pot(balance, fee);
    var payments, paidOut := Apportion(snap, pot);
    PaymentsEmptyIff(snap, pot, TotalShares(snap));
    if payments == [] {
      NothingOwed();
      return NoOutputs;
    }
    plan := Fund(u, points, payments, paidOut, own);
    if plan.Payout? && OneEach(snap) {
      SettledPays(plan, snap, u, points, pot, own);
    }
  }

  /** Inputs for the payments, and the change. With no more value than the supply, the margin makes no difference to
      whether they suffice. */
  method Fund(u: Utxo, points: seq<OutPoint>, payments: seq<TxOutput>, paidOut: u64, own: Blob) returns (plan: Plan)
    requires (forall o :: o in points ==> o in u) && InputSum(u, points) <= MAX_SUPPLY
    requires paidOut == SumAmounts(payments) && forall o :: o in payments ==> o.amount > 0
    ensures plan.Insufficient? <==> InputSum(u, points) < paidOut
    ensures !plan.Insufficient? ==>
      plan.Payout? && plan.paidOut == paidOut && Balances(plan, payments, u, points, own)
  {
    hide InputSum, SumAmounts;
    var inputs, gathered := Gather(u, points, (paidOut + MARGIN) % BASE);
    InputsAtMost(u, points, |inputs|);
    assert inputs == points[..|inputs|];
    if gathered < paidOut {
      return Insufficient;
    }
    var outputs := payments;
    if gathered > paidOut {
      outputs := outputs + [TxOutput(gathered - paidOut, own)];
      SumLast(payments, TxOutput(gathered - paidOut, own));
    }
    plan := Payout(inputs, outputs, paidOut);
  }

  lemma {:induction false} NothingOwed()
    ensures SumAmounts([]) == 0
  {
  }

  lemma {:induction false} SumLast(outputs: seq<TxOutput>, last: TxOutput)
    ensures SumAmounts(outputs + [last]) == SumAmounts(outputs) + last.amount
  {
    assert (outputs + [last])[..|outputs|] == outputs;
  }

  lemma {:induction false} InputsAtMost(u: Utxo, points: seq<OutPoint>, n: nat)
    requires n <= |points| && forall o :: o in points ==> o in u
    ensures InputSum(u, points[..n]) <= InputSum(u, points)
  {
    if n == |points| {
      assert points[..n] == points;
    } else {
      InputsAtMost(u, points[..|points| - 1], n);
      assert points[..|points| - 1][..n] == points[..n];
    }
  }
}
