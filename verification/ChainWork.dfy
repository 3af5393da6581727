/** Exact 512-bit chain work in eight limbs, and the comparison of chains (chain_work.hpp). */
module ChainWork {
  import opened Types
  import opened Consensus
  import opened ChainValidator
  import opened ChainFacts

  const BASE: nat := 0x1_0000_0000_0000_0000

  /** The number held by limbs, least significant first. */
  function Value(limbs: seq<u64>): nat {
    if limbs == [] then 0
    else
      var n := |limbs| - 1;
      Value(limbs[..n]) + Scaled(limbs[n], n)
  }

  /** A limb at position `n`. */
  function Scaled(limb: nat, n: nat): nat { limb * Pow2(64 * n) }

  lemma {:induction false} BaseIsPow2(n: nat)
    ensures Pow2(64 * (n + 1)) == BASE * Pow2(64 * n)
  {
    Pow2Values();
    Pow2Add(64, 64 * n);
  }

  /** One limb: two 64-bit additions with two carries, of which at most one is set. */
  lemma {:induction false} LimbAdd(a: u64, b: u64, carry: nat)
    requires carry <= 1
    ensures var sum := (a + b) % BASE;
      var carry1 := if sum < a then 1 else 0;
      var sum2 := (sum + carry) % BASE;
      var carry2 := if sum2 < sum then 1 else 0;
      carry1 + carry2 <= 1 && a + b + carry == sum2 + (carry1 + carry2) * BASE
  {
    assert a + b >= BASE ==> (a + b) % BASE == a + b - BASE;
  }

  lemma {:induction false} ValueStep(limbs: seq<u64>, n: nat)
    requires n < |limbs|
    ensures Value(limbs[..n + 1]) == Value(limbs[..n]) + Scaled(limbs[n], n)
  {
    assert limbs[..n + 1][..n] == limbs[..n];
  }

  lemma {:induction false} ValueBound(limbs: seq<u64>)
    ensures Value(limbs) < Pow2(64 * |limbs|)
  {
    if limbs != [] {
      var n := |limbs| - 1;
      ValueBound(limbs[..n]);
      BaseIsPow2(n);
      MulBetween(0, limbs[n], BASE, Pow2(64 * n));
    }
  }

  class ChainWork {
    const limbs: array<u64>

    ghost predicate Valid() {
      limbs.Length == 8
    }

    ghost function Number(): nat
      requires Valid()
      reads limbs
    {
      Value(limbs[..])
    }

    constructor ()
      ensures Valid() && fresh(limbs) && Number() == 0
      ensures forall i :: 0 <= i < limbs.Length ==> limbs[i] == 0
    {
      limbs := new u64[8](_ => 0);
      new;
      ZeroValue(limbs[..]);
    }

    /** ChainWork::power_of_two */
    static method PowerOfTwo(exponent: u32) returns (work: ChainWork, ok: bool)
      ensures fresh(work) && fresh(work.limbs) && work.Valid()
      ensures ok <==> exponent < 512
      ensures ok ==> work.Number() == Pow2(exponent)
    {
      work := new ChainWork();
      if exponent >= 512 {
        return work, false;
      }
      Pow2Small(exponent % 64);
      work.limbs[exponent / 64] := Pow2(exponent % 64);
      OneLimb(work.limbs[..], exponent / 64);
      Pow2Add(exponent % 64, 64 * (exponent / 64));
      ok := true;
    }

    /** operator+=: the limbs become the sum modulo 2^512; false (where the source throws) exactly
        if the sum needs more. The two objects may be one. */
    method Add(other: ChainWork) returns (ok: bool)
      requires Valid() && other.Valid()
      modifies limbs
      ensures ok <==> old(Number()) + old(other.Number()) < Pow2(512)
      ensures Number() + (if ok then 0 else Pow2(512)) == old(Number()) + old(other.Number())
    {
      hide Pow2, Scaled, Value;
      ghost var a, b := limbs[..], other.limbs[..];
      var carry: nat := 0;
      StartSum(limbs[..], a, b);
      for i := 0 to 8
        invariant carry <= 1
        invariant limbs[i..] == a[i..] && other.limbs[i..] == b[i..]
        invariant Value(limbs[..i]) + Scaled(carry, i) == Value(a[..i]) + Value(b[..i])
      {
        var x, y := limbs[i], other.limbs[i];
        assert x == a[i..][0] && y == b[i..][0];
        LimbAdd(x, y, carry);
        var sum := (x + y) % BASE;
        var carry1 := if sum < x then 1 else 0;
        var sum2 := (sum + carry) % BASE;
        var carry2 := if sum2 < sum then 1 else 0;
        ghost var low := limbs[..i];
        limbs[i] := sum2;
        assert limbs[..i] == low;
        LoopStep(limbs[..], a, b, i, carry, carry1 + carry2);
        carry := if carry1 == 1 || carry2 == 1 then 1 else 0;
      }
      assert limbs[..8] == limbs[..] && a[..8] == a && b[..8] == b;
      EndSum(limbs[..], carry);
      ok := carry == 0;
    }

    /** operator<: compares from the most significant limb down. */
    method Less(other: ChainWork) returns (less: bool)
      requires Valid() && other.Valid()
      ensures less <==> Number() < other.Number()
    {
      var a, b := limbs[..], other.limbs[..];
      var i := 8;
      while i > 0
        invariant 0 <= i <= 8 && a[i..] == b[i..]
      {
        i := i - 1;
        if a[i] != b[i] {
          if a[i] < b[i] {
            TopLimbDecides(a, b, i);
          } else {
            TopLimbDecides(b, a, i);
          }
          return a[i] < b[i];
        }
        assert a[i..] == [a[i]] + a[i + 1..] && b[i..] == [b[i]] + b[i + 1..];
      }
      assert a[0..] == a && b[0..] == b;
      less := false;
    }
  }

  lemma {:induction false} ZeroValue(limbs: seq<u64>)
    requires forall i :: 0 <= i < |limbs| ==> limbs[i] == 0
    ensures Value(limbs) == 0
  {
    if limbs != [] {
      ZeroValue(limbs[..|limbs| - 1]);
    }
  }

  lemma {:induction false} Pow2Small(n: nat)
    requires n < 64
    ensures Pow2(n) <= MAX_U64
  {
    Pow2Monotone(n + 1, 64);
    Pow2Values();
  }

  lemma {:induction false} OneLimb(limbs: seq<u64>, k: nat)
    requires k < |limbs| && forall i :: 0 <= i < |limbs| && i != k ==> limbs[i] == 0
    ensures Value(limbs) == limbs[k] * Pow2(64 * k)
  {
    var n := |limbs| - 1;
    if k == n {
      ZeroValue(limbs[..n]);
    } else {
      OneLimb(limbs[..n], k);
    }
  }

  lemma {:induction false} StartSum(limbs: seq<u64>, a: seq<u64>, b: seq<u64>)
    ensures Value(limbs[..0]) + Scaled(0, 0) == Value(a[..0]) + Value(b[..0])
  {
  }

  lemma {:induction false} EndSum(limbs: seq<u64>, carry: nat)
    requires |limbs| == 8 && carry <= 1
    ensures Value(limbs) < Pow2(512)
    ensures Scaled(carry, 8) == if carry == 0 then 0 else Pow2(512)
  {
    hide Pow2, Value;
    ValueBound(limbs);
  }

  lemma {:induction false} LoopStep(limbs: seq<u64>, a: seq<u64>, b: seq<u64>, i: nat, carry: nat, carry': nat)
    requires i < |limbs| && i < |a| && i < |b|
    requires Value(limbs[..i]) + Scaled(carry, i) == Value(a[..i]) + Value(b[..i])
    requires a[i] + b[i] + carry == limbs[i] + carry' * BASE
    ensures Value(limbs[..i + 1]) + Scaled(carry', i + 1) == Value(a[..i + 1]) + Value(b[..i + 1])
  {
    hide Pow2, Value;
    ValueStep(limbs, i);
    ValueStep(a, i);
    ValueStep(b, i);
    BaseIsPow2(i);
    CarryAlgebra(a[i], b[i], carry, limbs[i], carry', Pow2(64 * i));
  }

  lemma {:induction false} CarryAlgebra(x: nat, y: nat, c: nat, s: nat, c': nat, p: nat)
    requires x + y + c == s + c' * BASE
    ensures x * p + y * p + c * p == s * p + c' * (BASE * p)
  {
    assert (x + y + c) * p == (s + c' * BASE) * p;
    assert c' * (BASE * p) == (c' * BASE) * p;
  }

  /** Above equal limbs, a smaller limb makes a smaller number. */
  lemma {:induction false} TopLimbDecides(a: seq<u64>, b: seq<u64>, i: nat)
    requires i < |a| == |b| && a[i + 1..] == b[i + 1..] && a[i] < b[i]
    ensures Value(a) < Value(b)
  {
    var n := |a| - 1;
    if i == n {
      ValueBound(a[..n]);
      MulBetween(0, a[n], b[n], Pow2(64 * n));
    } else {
      assert a[i + 1..][n - i - 1] == b[i + 1..][n - i - 1];
      assert a[..n][i + 1..] == a[i + 1..][..n - i - 1] && b[..n][i + 1..] == b[i + 1..][..n - i - 1];
      TopLimbDecides(a[..n], b[..n], i);
    }
  }

  // ----- Work of chains -----

  /** Sum of two to the difficulty over the blocks. */
  function Work(chain: seq<Block>): nat {
    if chain == [] then 0
    else Work(chain[..|chain| - 1]) + Pow2(chain[|chain| - 1].header.difficulty)
  }

  /** has_more_work, on the numbers the limbs stand for. */
  predicate HasMoreWork(candidate: seq<Block>, current: seq<Block>) {
    candidate != [] && (current == [] || Work(candidate) > Work(current))
  }

  /** What cumulative_chain_work can count: it throws on any other chain. */
  predicate WorkFits(chain: seq<Block>) {
    && chain != [] && (forall b :: b in chain ==> b.header.difficulty <= MAX_DIFFICULTY)
    && Work(chain) < Pow2(512)
  }

  /** cumulative_chain_work; None where the source throws. */
  method CumulativeChainWork(chain: seq<Block>) returns (total: ChainWork, ok: bool)
    ensures fresh(total.limbs) && total.Valid()
    ensures ok ==> total.Number() == Work(chain)
    ensures ok <==> WorkFits(chain)
  {
    hide Pow2, Value;
    total := new ChainWork();
    if chain == [] {
      return total, false;
    }
    Pow2Monotone(0, 512);
    assert chain[..0] == [];
    for i := 0 to |chain|
      invariant total.Valid() && fresh(total.limbs) && total.Number() == Work(chain[..i]) < Pow2(512)
      invariant forall k :: 0 <= k < i ==> chain[k].header.difficulty <= MAX_DIFFICULTY
    {
      assert chain[..i + 1][..i] == chain[..i];
      var d := chain[i].header.difficulty;
      if d > MAX_DIFFICULTY {
        assert chain[i] in chain;
        return total, false;
      }
      var work, inRange := ChainWork.PowerOfTwo(d);
      var fits := total.Add(work);
      if !inRange || !fits {
        WorkPrefix(chain, i + 1);
        return total, false;
      }
    }
    assert chain[..|chain|] == chain;
    ok := true;
  }

  lemma {:induction false} WorkPrefix(chain: seq<Block>, n: nat)
    requires n <= |chain|
    ensures Work(chain[..n]) <= Work(chain)
  {
    if n == |chain| {
      assert chain[..n] == chain;
    } else {
      var front := chain[..|chain| - 1];
      WorkPrefix(front, n);
      assert front[..n] == chain[..n];
    }
  }

  lemma {:induction false} WorkExtend(chain: seq<Block>, b: Block)
    ensures Work(chain + [b]) == Work(chain) + Pow2(b.header.difficulty) > Work(chain)
  {
    assert (chain + [b])[..|chain|] == chain;
  }

  /** A chain grown from another has the other's work and that of each further block. */
  lemma {:induction false} WorkBeyondFixed(chain: seq<Block>, n: nat)
    requires Valid(chain) && FIXED_HEIGHT <= n <= |chain|
    ensures Work(chain) == Work(chain[..n]) + 256 * (|chain| - n)
    decreases |chain|
  {
    hide Rebuild, Pow2;
    if n == |chain| {
      assert chain[..n] == chain;
    } else {
      var front := chain[..|chain| - 1];
      RebuildPrefix(chain, |chain| - 1);
      DifficultyBounded(chain, |chain| - 1);
      Pow2Values();
      WorkBeyondFixed(front, n);
      assert front[..n] == chain[..n];
    }
  }

  /** Past the bootstrap all blocks weigh the same: between valid chains with the same first 40
      blocks, more work means more blocks. */
  lemma {:induction false} MoreWorkIffLonger(candidate: seq<Block>, current: seq<Block>)
    requires Valid(candidate) && Valid(current)
    requires |candidate| >= FIXED_HEIGHT && |current| >= FIXED_HEIGHT
    requires candidate[..FIXED_HEIGHT] == current[..FIXED_HEIGHT]
    ensures HasMoreWork(candidate, current) <==> |candidate| > |current|
  {
    hide Rebuild, Work;
    WorkBeyondFixed(candidate, FIXED_HEIGHT);
    WorkBeyondFixed(current, FIXED_HEIGHT);
  }

  lemma {:induction false} WorkBound(chain: seq<Block>, n: nat)
    requires Valid(chain) && n <= |chain|
    ensures Work(chain[..n]) <= n * Pow2(33)
    ensures forall i :: 0 <= i < n ==> chain[i].header.difficulty <= MAX_DIFFICULTY
  {
    hide Rebuild, Pow2;
    if n > 0 {
      WorkBound(chain, n - 1);
      assert chain[..n][..n - 1] == chain[..n - 1];
      if n == 1 {
        RebuildPrefix(chain, 1);
        GenesisOnly(chain[..1]);
      } else {
        DifficultyBounded(chain, n - 1);
      }
      Pow2Monotone(chain[n - 1].header.difficulty, 33);
      assert n * Pow2(33) == (n - 1) * Pow2(33) + Pow2(33);
    }
  }

  /** The work of a valid chain always fits: neither the difficulty check nor the overflow check
      of the computation can fire. */
  lemma {:induction false} ValidWorkFits(chain: seq<Block>)
    requires Valid(chain)
    ensures WorkFits(chain)
  {
    hide Rebuild, Pow2, Work;
    WorkBound(chain, |chain|);
    assert chain[..|chain|] == chain;
    IssuedIsMinted(chain);
    Pow2Values();
    ManyBlocksFit(|chain|, Work(chain));
  }

  lemma {:induction false} ManyBlocksFit(n: nat, w: nat)
    requires n <= Pow2(64) && w <= n * Pow2(33)
    ensures w < Pow2(512)
  {
    hide Pow2;
    if n > 0 {
      MulBetween(0, n - 1, Pow2(64), Pow2(33));
    }
    assert w <= Pow2(64) * Pow2(33);
    Pow2Add(64, 33);
    Doubles(97);
    Pow2Monotone(98, 512);
  }

  lemma {:induction false} Doubles(n: nat)
    ensures Pow2(n + 1) == 2 * Pow2(n) > Pow2(n)
  {
  }
}
