/** Block subsidy, coinbase transactions and the supply limit (coinbase.hpp). */
module Coinbase {
  import opened Types
  import opened Consensus
  import opened Serialization

  const ATOMIC_UNITS := 100_000_000
  const MAX_SUPPLY := 21_000_000 * ATOMIC_UNITS
  const INITIAL_SUBSIDY := 50 * ATOMIC_UNITS
  const HALVING_INTERVAL := 210_000

  /** block_subsidy: the initial subsidy shifted right once per halving interval. */
  function Subsidy(height: u64): (s: u64)
    ensures s <= INITIAL_SUBSIDY
  {
    if height == 0 || height / HALVING_INTERVAL >= 64 then 0
    else Shifted(height / HALVING_INTERVAL)
  }

  function Shifted(halvings: nat): (s: nat)
    ensures s <= INITIAL_SUBSIDY
  {
    if halvings == 0 then INITIAL_SUBSIDY else Shifted(halvings - 1) / 2
  }

  /** Everything minted by heights 1 to `height`. */
  function Minted(height: nat): nat
    requires height <= MAX_U64
  {
    if height == 0 then 0 else Minted(height - 1) + Subsidy(height)
  }

  /** Bound on what is minted, counting height 0 as if it paid a full subsidy. */
  function MintBound(height: nat): int {
    var k := height / HALVING_INTERVAL;
    HALVING_INTERVAL * (2 * INITIAL_SUBSIDY - 2 * Shifted(k)) + (height % HALVING_INTERVAL + 1) * Shifted(k)
  }

  lemma {:induction false} MintBoundStep(height: nat)
    requires 0 < height <= MAX_U64
    ensures MintBound(height - 1) + Subsidy(height) <= MintBound(height)
  {
    var k, r := height / HALVING_INTERVAL, height % HALVING_INTERVAL;
    var s := Shifted(k);
    assert Subsidy(height) <= s;
    if r == 0 {
      assert (height - 1) / HALVING_INTERVAL == k - 1 && (height - 1) % HALVING_INTERVAL == HALVING_INTERVAL - 1;
      assert Shifted(k - 1) >= 2 * s;
    } else {
      assert (height - 1) / HALVING_INTERVAL == k && (height - 1) % HALVING_INTERVAL == r - 1;
      assert (r + 1) * s == r * s + s;
    }
  }

  lemma {:induction false} MintedWithinBound(height: nat)
    requires height <= MAX_U64
    ensures Minted(height) + INITIAL_SUBSIDY <= MintBound(height)
  {
    if height > 0 {
      MintedWithinBound(height - 1);
      MintBoundStep(height);
    }
  }

  lemma {:induction false} WithinEra(r: nat, s: nat)
    requires r < HALVING_INTERVAL
    ensures (r + 1) * s <= HALVING_INTERVAL * s
  {
    MulBetween(0, r, HALVING_INTERVAL, s);
  }

  /** The supply cap is never reached, at any height. */
  lemma {:induction false} MintedBelowSupply(height: nat)
    requires height <= MAX_U64
    ensures Minted(height) + INITIAL_SUBSIDY <= MAX_SUPPLY
  {
    hide Minted, Shifted;
    MintedWithinBound(height);
    var k, r := height / HALVING_INTERVAL, height % HALVING_INTERVAL;
    WithinEra(r, Shifted(k));
  }

  // ----- The schedule in numbers -----

  lemma {:induction false} DivideTwice(x: nat, d: nat)
    requires d > 0
    ensures x / d / 2 == x / (2 * d)
  {
    var y, r := x / d, x % d;
    var q, bit := y / 2, y % 2;
    assert x == y * d + r && y == 2 * q + bit;
    HalfOf(y, q, bit, d);
    QuotientIs(x, 2 * d, q, bit * d + r);
  }

  lemma {:induction false} HalfOf(y: nat, q: nat, bit: nat, d: nat)
    requires y == 2 * q + bit && bit < 2
    ensures y * d == 2 * d * q + bit * d && bit * d <= d
  {
  }

  lemma {:induction false} QuotientIs(x: nat, d: nat, q: nat, r: nat)
    requires x == d * q + r && r < d
    ensures x / d == q
  {
    if x / d < q {
      MulBetween(0, x / d, q, d);
    } else if x / d > q {
      MulBetween(0, q, x / d, d);
    }
  }

  /** Shifting right `k` times divides by 2^k. */
  lemma {:induction false} ShiftedIsQuotient(k: nat)
    ensures Shifted(k) == 5_000_000_000 / Pow2(k)
  {
    if k > 0 {
      ShiftedIsQuotient(k - 1);
      DivideTwice(5_000_000_000, Pow2(k - 1));
    }
  }

  /** The subsidy of every height: 50 coins, halved with each 210000 blocks; nothing at genesis. */
  lemma {:induction false} SubsidyIs(height: u64)
    ensures height == 0 || height >= 64 * 210_000 ==> Subsidy(height) == 0
    ensures 0 < height < 64 * 210_000 ==> Subsidy(height) == 5_000_000_000 / Pow2(height / 210_000)
  {
    ShiftedIsQuotient(height / 210_000);
  }

  lemma {:induction false} SpentSchedule(k: nat)
    requires k >= 33
    ensures 5_000_000_000 / Pow2(k) == 0
  {
    assert Pow2(33) == 8_589_934_592 by {
      Pow2Values();
      assert Pow2(33) == 2 * Pow2(32);
    }
    Pow2Monotone(33, k);
  }

  /** A height in era `k`. */
  lemma {:induction false} SubsidyInEra(k: nat, r: nat)
    requires r < 210_000 && 0 < 210_000 * k + r <= MAX_U64
    ensures Subsidy(210_000 * k + r) == 5_000_000_000 / Pow2(k)
  {
    QuotientIs(210_000 * k + r, 210_000, k, r);
    SubsidyIs(210_000 * k + r);
    if k >= 64 {
      SpentSchedule(k);
    }
  }

  /** The first blocks of an era mint the subsidy of that era each. */
  lemma {:induction false} EraMints(k: nat, n: nat)
    requires k > 0 && n <= 210_000 && 210_000 * k + n <= MAX_U64 + 1
    ensures Minted(210_000 * k + n - 1) == Minted(210_000 * k - 1) + n * (5_000_000_000 / Pow2(k))
  {
    hide Subsidy, Pow2;
    if n > 0 {
      EraMints(k, n - 1);
      SubsidyInEra(k, n - 1);
      OneFactorMore(n - 1, 5_000_000_000 / Pow2(k));
    }
  }

  lemma {:induction false} OneFactorMore(n: nat, s: nat)
    ensures (n + 1) * s == n * s + s
  {
  }

  lemma {:induction false} FirstEraMints(n: nat)
    requires n < 210_000
    ensures Minted(n) == n * 5_000_000_000
  {
    if n > 0 {
      FirstEraMints(n - 1);
      SubsidyInEra(0, n);
      assert Pow2(0) == 1;
    }
  }

  /** What the first `k` eras mint in all, with a full subsidy for height 0. */
  function Eras(k: nat): nat {
    if k == 0 then 0 else Eras(k - 1) + 210_000 * Shifted(k - 1)
  }

  lemma {:induction false} ShiftedStart()
    ensures Shifted(0) == 5_000_000_000
  {
  }

  lemma {:induction false} ErasMint(k: nat)
    requires 0 < k && 210_000 * k <= MAX_U64 + 1
    ensures Minted(210_000 * k - 1) + 5_000_000_000 == Eras(k)
  {
    hide Minted, Shifted, Pow2;
    ShiftedIsQuotient(k - 1);
    if k == 1 {
      FirstEraMints(209_999);
      ShiftedStart();
    } else {
      ErasMint(k - 1);
      EraMints(k - 1, 210_000);
    }
  }

  /** is_coinbase_transaction */
  predicate IsCoinbase(tx: Transaction) {
    |tx.inputs| == 1 && tx.inputs[0] == OutPoint(ZERO_HASH, MAX_U32)
  }

  /** validate_coinbase_transaction */
  predicate CoinbaseOk(tx: Transaction, height: u64) {
    && IsCoinbase(tx) && height != 0
    && |tx.outputs| == 1
    && tx.outputs[0].amount == Subsidy(height) && tx.outputs[0].recipient != []
  }

  /** validate_coinbase_position_and_reward */
  predicate CoinbasePlacementOk(txs: seq<Transaction>, height: u64) {
    && txs != [] && CoinbaseOk(txs[0], height)
    && forall i :: 1 <= i < |txs| ==> !IsCoinbase(txs[i])
  }

  /** Eight little-endian bytes that tell coinbases apart. */
  function ExtraNonce(n: u64): (data: CoinbaseData)
    ensures |data| == 8
  {
    PutIntLength(n, 8, []);
    PutInt(n, 8, [])
  }

  /** make_coinbase_transaction; None where the source throws. */
  function MakeCoinbase(height: u64, recipient: Blob, extraNonce: u64): (r: Option<Transaction>)
    ensures r.Some? <==> height != 0 && recipient != []
    ensures r.Some? ==>
      && CoinbaseOk(r.value, height)
      && r.value.outputs[0].recipient == recipient && r.value.coinbaseData == PutInt(extraNonce, 8, [])
      && r.value.version == 1 && r.value.witnesses == []
  {
    if height == 0 || recipient == [] then None
    else
      Some(Transaction(1, ExtraNonce(extraNonce), [OutPoint(ZERO_HASH, MAX_U32)],
        [TxOutput(Subsidy(height), recipient)], []))
  }
}
