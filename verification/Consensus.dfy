/** Proof of work and the difficulty rule (consensus.hpp). */
module Consensus {
  import opened Types

  const DIFFICULTY_WINDOW := 11
  const TARGET_BLOCK_TIME := 120
  const MIN_DIFFICULTY := 8
  const INITIAL_DIFFICULTY := 12
  const MAX_DIFFICULTY := 256
  const EASY_FORK_HEIGHT := 19
  const EASY_FORK_DIFFICULTY := 13
  const FIXED_HEIGHT := 40
  const FIXED_DIFFICULTY := 8

  function Pow2(n: nat): (r: nat)
    ensures r > 0
  {
    if n == 0 then 1 else 2 * Pow2(n - 1)
  }

  lemma {:induction false} Pow2Add(a: nat, b: nat)
    ensures Pow2(a + b) == Pow2(a) * Pow2(b)
  {
    if a > 0 {
      Pow2Add(a - 1, b);
      assert Pow2(a + b) == 2 * (Pow2(a - 1) * Pow2(b));
    }
  }

  lemma {:induction false} Pow2Monotone(a: nat, b: nat)
    requires a <= b
    ensures Pow2(a) <= Pow2(b)
    decreases b - a
  {
    if a < b {
      Pow2Monotone(a + 1, b);
    }
  }

  lemma {:induction false} Pow2Values()
    ensures Pow2(8) == 256 && Pow2(16) == 65536 && Pow2(32) == MAX_U32 + 1 && Pow2(64) == MAX_U64 + 1
  {
    assert Pow2(4) == 16;
    Pow2Add(4, 4);
    Pow2Add(8, 8);
    Pow2Add(16, 16);
    Pow2Add(32, 32);
  }

  // ----- Proof of work -----

  /** Leading zero bits of a non-zero byte. */
  function ByteZeros(b: byte): nat {
    if b >= 128 then 0 else if b >= 64 then 1 else if b >= 32 then 2 else if b >= 16 then 3
    else if b >= 8 then 4 else if b >= 4 then 5 else if b >= 2 then 6 else 7
  }

  function LeadingZeroBits(hash: Bytes): nat {
    if hash == [] then 0
    else if hash[0] == 0 then 8 + LeadingZeroBits(hash[1..])
    else ByteZeros(hash[0])
  }

  /** count_leading_zero_bits: whole zero bytes, then the bits of the first other byte. */
  method CountLeadingZeroBits(hash: Bytes) returns (count: nat)
    ensures count == LeadingZeroBits(hash)
  {
    count := 0;
    for k := 0 to |hash|
      invariant count + LeadingZeroBits(hash[k..]) == LeadingZeroBits(hash)
    {
      var b := hash[k];
      assert hash[k..][0] == b && hash[k..][1..] == hash[k + 1..];
      if b == 0 {
        count := count + 8;
      } else {
        var limit: nat := 128;
        ghost var start := count;
        while b < limit
          invariant limit in {128, 64, 32, 16, 8, 4, 2, 1}
          invariant b < 2 * limit
          invariant limit == 128 ==> count == start
          invariant limit == 64 ==> count == start + 1
          invariant limit == 32 ==> count == start + 2
          invariant limit == 16 ==> count == start + 3
          invariant limit == 8 ==> count == start + 4
          invariant limit == 4 ==> count == start + 5
          invariant limit == 2 ==> count == start + 6
          invariant limit == 1 ==> count == start + 7
          decreases limit
        {
          count := count + 1;
          limit := limit / 2;
        }
        return;
      }
    }
  }

  /** A digest read as a big-endian number. */
  function BigEndian(hash: Bytes): nat {
    if hash == [] then 0 else hash[0] * Pow2(8 * (|hash| - 1)) + BigEndian(hash[1..])
  }

  predicate PowMeetsDifficulty(hash: Hash256, difficulty: u32) {
    difficulty <= 256 && LeadingZeroBits(hash) >= difficulty
  }

  predicate ValidatePow(header: Bytes, nonce: u64, difficulty: u32) {
    PowMeetsDifficulty(PowHash(header, nonce), difficulty)
  }

  lemma {:induction false} BigEndianBound(hash: Bytes)
    ensures BigEndian(hash) < Pow2(8 * |hash|)
  {
    if hash != [] {
      var n := 8 * (|hash| - 1);
      BigEndianBound(hash[1..]);
      Pow2Add(8, n);
      assert Pow2(8) == 256;
      MulBetween(0, hash[0], 256, Pow2(n));
    }
  }

  /** A byte with `z` leading zeros lies between two powers of two. */
  lemma {:induction false} ByteZerosBound(b: byte)
    requires b != 0
    ensures ByteZeros(b) < 8
    ensures Pow2(7 - ByteZeros(b)) <= b < Pow2(8 - ByteZeros(b))
  {
    assert Pow2(1) == 2 && Pow2(2) == 4 && Pow2(3) == 8 && Pow2(4) == 16;
    assert Pow2(5) == 32 && Pow2(6) == 64 && Pow2(7) == 128 && Pow2(8) == 256;
  }

  lemma {:induction false} NonzeroFirstByte(b: byte, n: nat, v: nat)
    requires b != 0 && v < Pow2(n)
    ensures var z := ByteZeros(b);
      z < 8 && Pow2(7 - z + n) <= b * Pow2(n) + v < Pow2(8 - z + n)
  {
    var z := ByteZeros(b);
    ByteZerosBound(b);
    Pow2Add(7 - z, n);
    Pow2Add(8 - z, n);
    MulBetween(Pow2(7 - z), b, Pow2(8 - z), Pow2(n));
  }

  lemma {:induction false} MulBetween(lo: nat, b: nat, hi: nat, p: nat)
    requires lo <= b < hi
    ensures lo * p <= b * p && b * p + p <= hi * p
  {
    if p > 0 {
      MulBetween(lo, b, hi, p - 1);
    }
  }

  /** Counting zero bits is comparing with a target: at least `d` of them exactly when the digest
      is below 2^(bits - d). */
  lemma {:induction false} LeadingZerosIsTarget(hash: Bytes, d: nat)
    requires d <= 8 * |hash|
    ensures LeadingZeroBits(hash) >= d <==> BigEndian(hash) < Pow2(8 * |hash| - d)
  {
    if hash != [] {
      var rest := hash[1..];
      var n := 8 * |rest|;
      BigEndianBound(rest);
      if hash[0] == 0 {
        if d >= 8 {
          LeadingZerosIsTarget(rest, d - 8);
        } else {
          Pow2Monotone(n, n + 8 - d);
        }
      } else {
        var z := ByteZeros(hash[0]);
        NonzeroFirstByte(hash[0], n, BigEndian(rest));
        if d <= z {
          Pow2Monotone(8 - z + n, 8 + n - d);
        } else {
          Pow2Monotone(8 + n - d, 7 - z + n);
        }
      }
    }
  }

  /** The check of the source is a comparison with a 256-bit target. */
  lemma {:induction false} PowIsTarget(hash: Hash256, difficulty: u32)
    ensures PowMeetsDifficulty(hash, difficulty) <==> difficulty <= 256 && BigEndian(hash) < Pow2(256 - difficulty)
  {
    if difficulty <= 256 {
      LeadingZerosIsTarget(hash, difficulty);
    }
  }

  /** mine_pow: tries consecutive nonces; finds the first one whose hash is below the target, if it is in reach. */
  method MinePow(header: Bytes, difficulty: u32, start: u64, maxAttempts: u64)
    returns (found: Option<u64>)
    ensures found.Some? ==>
      && difficulty <= 256 && start <= found.value < start + maxAttempts
      && BigEndian(PowHash(header, found.value)) < Pow2(256 - difficulty)
      && forall n: u64 :: start <= n < found.value ==> Pow2(256 - difficulty) <= BigEndian(PowHash(header, n))
    ensures found.None? && difficulty <= 256 ==>
      forall n: u64 :: start <= n < start + maxAttempts ==> Pow2(256 - difficulty) <= BigEndian(PowHash(header, n))
  {
    hide Pow2, BigEndian, LeadingZeroBits;
    if difficulty > 256 {
      return None;
    }
    for i := 0 to maxAttempts
      invariant forall n: u64 :: start <= n < start + i ==> Pow2(256 - difficulty) <= BigEndian(PowHash(header, n))
    {
      if start > MAX_U64 - i {
        return None;
      }
      PowIsTarget(PowHash(header, start + i), difficulty);
      if PowMeetsDifficulty(PowHash(header, start + i), difficulty) {
        return Some(start + i);
      }
    }
    found := None;
  }

  // ----- Retargeting -----

  function Insert(x: u64, s: seq<u64>): (r: seq<u64>)
    ensures |r| == |s| + 1
  {
    if s == [] then [x] else if x <= s[0] then [x] + s else [s[0]] + Insert(x, s[1..])
  }

  function Sort(s: seq<u64>): (r: seq<u64>)
    ensures |r| == |s|
  {
    if s == [] then [] else Insert(s[0], Sort(s[1..]))
  }

  predicate Sorted(s: seq<u64>) {
    forall i, j :: 0 <= i < j < |s| ==> s[i] <= s[j]
  }

  lemma {:induction false} InsertElements(x: u64, s: seq<u64>)
    ensures multiset(Insert(x, s)) == multiset(s) + multiset{x}
  {
    if s != [] {
      assert s == [s[0]] + s[1..];
      if x > s[0] {
        InsertElements(x, s[1..]);
      }
    }
  }

  lemma {:induction false} InsertSorted(x: u64, s: seq<u64>)
    requires Sorted(s)
    ensures Sorted(Insert(x, s))
  {
    if s != [] && x > s[0] {
      var t := Insert(x, s[1..]);
      InsertSorted(x, s[1..]);
      InsertElements(x, s[1..]);
      forall i | 0 <= i < |t| ensures s[0] <= t[i] {
        assert t[i] in multiset(t);
      }
      SortedCons(s[0], t);
    } else if s != [] {
      SortedCons(x, s);
    }
  }

  lemma {:induction false} SortedCons(x: u64, s: seq<u64>)
    requires Sorted(s) && forall i :: 0 <= i < |s| ==> x <= s[i]
    ensures Sorted([x] + s)
  {
  }

  lemma {:induction false} SortSorts(s: seq<u64>)
    ensures Sorted(Sort(s)) && multiset(Sort(s)) == multiset(s)
  {
    if s != [] {
      SortSorts(s[1..]);
      InsertElements(s[0], Sort(s[1..]));
      InsertSorted(s[0], Sort(s[1..]));
      assert s == [s[0]] + s[1..];
    }
  }

  lemma {:induction false} SameLeast(a: seq<u64>, b: seq<u64>)
    requires a != [] && b != [] && Sorted(a) && Sorted(b) && multiset(a) == multiset(b)
    ensures a[0] == b[0]
  {
    assert a[0] in multiset(b) && b[0] in multiset(a);
    assert a[0] in b && b[0] in a;
  }

  lemma {:induction false} DropOne(a: seq<u64>)
    requires a != []
    ensures multiset(a[1..]) == multiset(a) - multiset{a[0]}
  {
    assert a == [a[0]] + a[1..];
  }

  /** A sorted sequence is determined by its elements. */
  lemma {:induction false} SortedUnique(a: seq<u64>, b: seq<u64>)
    requires Sorted(a) && Sorted(b) && multiset(a) == multiset(b)
    ensures a == b
  {
    assert |a| == |multiset(a)| == |multiset(b)| == |b|;
    if a != [] {
      SameLeast(a, b);
      DropOne(a);
      DropOne(b);
      SortedUnique(a[1..], b[1..]);
    }
  }

  /** difficulty_median_interval */
  function MedianInterval(intervals: seq<u64>): u64 {
    if |intervals| != DIFFICULTY_WINDOW then 0 else Sort(intervals)[DIFFICULTY_WINDOW / 2]
  }

  /** The median, with zero read as one, clamped to a quarter and four times the target. */
  function Observed(intervals: seq<u64>): (o: nat)
    ensures 30 <= o <= 480
  {
    var m := MedianInterval(intervals);
    if m < 30 then 30 else if m > 480 then 480 else m
  }

  function Lower(observed: nat, next: u32): u32 {
    if observed >= 2 * TARGET_BLOCK_TIME && next > MIN_DIFFICULTY then Lower(observed / 2, next - 1) else next
  }

  function Raise(observed: nat, next: u32): u32
    requires observed > 0
    decreases TARGET_BLOCK_TIME - observed
  {
    if observed * 2 <= TARGET_BLOCK_TIME && next < MAX_DIFFICULTY then Raise(observed * 2, next + 1) else next
  }

  function AdjustDifficulty(current: u32, intervals: seq<u64>): u32 {
    if current > MAX_DIFFICULTY || |intervals| != DIFFICULTY_WINDOW then current
    else
      var o := Observed(intervals);
      if o > TARGET_BLOCK_TIME then Lower(o, current)
      else if o < TARGET_BLOCK_TIME then Raise(o, current)
      else current
  }

  /** adjust_difficulty_window, with its two halving and doubling loops. */
  method AdjustDifficultyWindow(current: u32, intervals: seq<u64>) returns (next: u32)
    ensures next == AdjustDifficulty(current, intervals)
  {
    next := current;
    if current > MAX_DIFFICULTY || |intervals| != DIFFICULTY_WINDOW {
      return;
    }
    var observed: nat := MedianInterval(intervals);
    if observed == 0 {
      observed := 1;
    }
    var capped := if observed < 4 * TARGET_BLOCK_TIME then observed else 4 * TARGET_BLOCK_TIME;
    observed := if TARGET_BLOCK_TIME / 4 < capped then capped else TARGET_BLOCK_TIME / 4;
    if observed > TARGET_BLOCK_TIME {
      while observed >= 2 * TARGET_BLOCK_TIME && next > MIN_DIFFICULTY
        invariant Lower(observed, next) == AdjustDifficulty(current, intervals)
      {
        observed := observed / 2;
        next := next - 1;
      }
    } else if observed < TARGET_BLOCK_TIME {
      while observed * 2 <= TARGET_BLOCK_TIME && next < MAX_DIFFICULTY
        invariant observed > 0 && Raise(observed, next) == AdjustDifficulty(current, intervals)
        decreases MAX_DIFFICULTY - next
      {
        observed := observed * 2;
        next := next + 1;
      }
    }
  }

  /** The rule in closed form: two steps of one, by the bands the median falls in. */
  function Retarget(current: nat, median: nat): nat {
    if median <= 30 then if current + 2 <= MAX_DIFFICULTY then current + 2 else MAX_DIFFICULTY
    else if median <= 60 then if current + 1 <= MAX_DIFFICULTY then current + 1 else MAX_DIFFICULTY
    else if median < 240 || current <= MIN_DIFFICULTY then current
    else if median < 480 then current - 1
    else if current - 2 >= MIN_DIFFICULTY then current - 2 else MIN_DIFFICULTY
  }

  /** The loops compute the closed form. */
  lemma {:induction false} AdjustIsRetarget(current: u32, intervals: seq<u64>)
    requires current <= MAX_DIFFICULTY && |intervals| == DIFFICULTY_WINDOW
    ensures AdjustDifficulty(current, intervals) == Retarget(current, MedianInterval(intervals))
  {
    var o := Observed(intervals);
    if o >= 480 {
      assert current > 8 ==> Lower(480, current) == Lower(240, current - 1);
      assert current > 9 ==> Lower(240, current - 1) == Lower(120, current - 2);
    } else if o > 120 {
      assert o >= 240 && current > 8 ==> Lower(o, current) == Lower(o / 2, current - 1);
    } else if o == 30 {
      assert current < 256 ==> Raise(30, current) == Raise(60, current + 1);
      assert current < 255 ==> Raise(60, current + 1) == Raise(120, current + 2);
    } else if o < 120 {
      assert o <= 60 && current < 256 ==> Raise(o, current) == Raise(o * 2, current + 1);
    }
  }

  /** The next difficulty does not depend on the order of the intervals. */
  lemma {:induction false} RetargetIgnoresOrder(current: u32, a: seq<u64>, b: seq<u64>)
    requires multiset(a) == multiset(b)
    ensures AdjustDifficulty(current, a) == AdjustDifficulty(current, b)
  {
    assert |a| == |multiset(a)| == |multiset(b)| == |b|;
    SortSorts(a);
    SortSorts(b);
    SortedUnique(Sort(a), Sort(b));
  }

  /** It moves by at most two and stays in the legal range. */
  lemma {:induction false} RetargetBounded(current: u32, intervals: seq<u64>)
    requires MIN_DIFFICULTY <= current <= MAX_DIFFICULTY
    ensures MIN_DIFFICULTY <= AdjustDifficulty(current, intervals) <= MAX_DIFFICULTY
    ensures current - 2 <= AdjustDifficulty(current, intervals) <= current + 2
  {
    if |intervals| == DIFFICULTY_WINDOW {
      AdjustIsRetarget(current, intervals);
    }
  }

  function Count(s: seq<u64>, p: u64 -> bool): (n: nat)
    ensures n <= |s|
  {
    if s == [] then 0 else (if p(s[0]) then 1 else 0) + Count(s[1..], p)
  }

  lemma {:induction false} CountInsert(x: u64, s: seq<u64>, p: u64 -> bool)
    ensures Count(Insert(x, s), p) == (if p(x) then 1 else 0) + Count(s, p)
  {
    if s != [] && x > s[0] {
      CountInsert(x, s[1..], p);
    }
  }

  lemma {:induction false} CountSort(s: seq<u64>, p: u64 -> bool)
    ensures Count(Sort(s), p) == Count(s, p)
  {
    if s != [] {
      CountSort(s[1..], p);
      CountInsert(s[0], Sort(s[1..]), p);
    }
  }

  lemma {:induction false} CountConcat(a: seq<u64>, b: seq<u64>, p: u64 -> bool)
    ensures Count(a + b, p) == Count(a, p) + Count(b, p)
  {
    if a == [] {
      assert a + b == b;
    } else {
      CountConcat(a[1..], b, p);
      assert (a + b)[1..] == a[1..] + b;
    }
  }

  lemma {:induction false} CountNone(s: seq<u64>, p: u64 -> bool)
    requires forall x :: x in s ==> !p(x)
    ensures Count(s, p) == 0
  {
    if s != [] {
      CountNone(s[1..], p);
    }
  }

  /** A run of elements without the property leaves only the others to count. */
  lemma {:induction false} CountAround(a: seq<u64>, b: seq<u64>, c: seq<u64>, p: u64 -> bool)
    requires forall x :: x in b ==> !p(x)
    ensures Count(a + b + c, p) <= |a| + |c|
  {
    CountConcat(a + b, c, p);
    CountConcat(a, b, p);
    CountNone(b, p);
  }

  lemma {:induction false} MiddleOutside(t: seq<u64>, lo: nat, hi: nat)
    requires |t| == DIFFICULTY_WINDOW && Sorted(t) && !(lo < t[5] < hi)
    ensures Count(t, x => lo < x < hi) <= 5
  {
    var p: u64 -> bool := x => lo < x < hi;
    if t[5] <= lo {
      assert t == [] + t[..6] + t[6..];
      CountAround([], t[..6], t[6..], p);
    } else {
      assert t == t[..5] + t[5..] + [];
      CountAround(t[..5], t[5..], [], p);
    }
  }

  /** A majority of intervals inside an open band puts the median inside it. */
  lemma {:induction false} MedianInMajorityBand(intervals: seq<u64>, lo: nat, hi: nat)
    requires |intervals| == DIFFICULTY_WINDOW
    requires Count(intervals, x => lo < x < hi) >= 6
    ensures lo < MedianInterval(intervals) < hi
  {
    var t := Sort(intervals);
    SortSorts(intervals);
    CountSort(intervals, x => lo < x < hi);
    if !(lo < t[5] < hi) {
      MiddleOutside(t, lo, hi);
    }
  }

  /** Six intervals strictly between 60 and 240 seconds pin the difficulty, however extreme the
      other five are. */
  lemma {:induction false} MajorityPinsDifficulty(current: u32, intervals: seq<u64>)
    requires |intervals| == DIFFICULTY_WINDOW
    requires Count(intervals, x => 60 < x < 240) >= 6
    ensures AdjustDifficulty(current, intervals) == current
  {
    if current <= MAX_DIFFICULTY {
      MedianInMajorityBand(intervals, 60, 240);
      AdjustIsRetarget(current, intervals);
    }
  }
}
