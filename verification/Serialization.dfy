/** Little-endian binary encoding and decoding (serialization.hpp).

Every encoder takes the bytes that follow, so that an encoding and the decoder that undoes it
have the same shape: `Put(x, rest)` is the encoding of `x` followed by `rest`.
 */
module Serialization {
  import opened Types

  /** Result of reading a value off the front of a byte string. */
  datatype Parsed<+T> = Truncated | Parsed(value: T, rest: Bytes) {
    predicate IsFailure() { Truncated? }
    function PropagateFailure<U>(): Parsed<U> requires Truncated? { Truncated }
    function Extract(): (T, Bytes) requires Parsed? { (value, rest) }
  }

  function Pow256(n: nat): (r: nat)
    ensures r > 0
  {
    if n == 0 then 1 else 256 * Pow256(n - 1)
  }

  lemma {:induction false} Pow256Values()
    ensures Pow256(4) == MAX_U32 + 1
    ensures Pow256(8) == MAX_U64 + 1
  {
    assert Pow256(2) == 65536;
    assert Pow256(4) == 65536 * 65536;
    assert Pow256(6) == 65536 * 65536 * 65536;
  }

  /** `n` bytes of `v`, least significant first, followed by `rest`. */
  function PutInt(v: nat, n: nat, rest: Bytes): Bytes {
    if n == 0 then rest else [v % 256] + PutInt(v / 256, n - 1, rest)
  }

  function TakeInt(s: Bytes, n: nat): Parsed<nat> {
    if n == 0 then Parsed(0, s)
    else if s == [] then Truncated
    else
      var (high, rest) :- TakeInt(s[1..], n - 1);
      Parsed(s[0] + 256 * high, rest)
  }

  lemma {:induction false} TakePutInt(v: nat, n: nat, rest: Bytes)
    requires v < Pow256(n)
    ensures TakeInt(PutInt(v, n, rest), n) == Parsed(v, rest)
  {
    if n > 0 {
      TakePutInt(v / 256, n - 1, rest);
      assert PutInt(v, n, rest)[1..] == PutInt(v / 256, n - 1, rest);
    }
  }

  lemma {:induction false} PutTakeInt(s: Bytes, n: nat)
    ensures var p := TakeInt(s, n);
      if |s| < n then p.Truncated?
      else p.Parsed? && p.value < Pow256(n) && s == PutInt(p.value, n, p.rest)
  {
    if n > 0 && s != [] {
      PutTakeInt(s[1..], n - 1);
      assert s == [s[0]] + s[1..];
    }
  }

  lemma {:induction false} PutIntAppend(v: nat, n: nat, a: Bytes, b: Bytes)
    ensures PutInt(v, n, a + b) == PutInt(v, n, a) + b
  {
    if n > 0 {
      PutIntAppend(v / 256, n - 1, a, b);
    }
  }

  lemma {:induction false} PutIntLength(v: nat, n: nat, rest: Bytes)
    ensures |PutInt(v, n, rest)| == n + |rest|
  {
    if n > 0 {
      PutIntLength(v / 256, n - 1, rest);
    }
  }

  function TakeBytes(s: Bytes, n: nat): Parsed<Bytes> {
    if |s| < n then Truncated else Parsed(s[..n], s[n..])
  }

  /** A four-byte length and that many bytes: the format of strings and blobs. */
  function PutBlob(b: Blob, rest: Bytes): Bytes {
    PutInt(|b|, 4, b + rest)
  }

  /** The decoders differ in the length they allow, given as `cap`. */
  function TakeBlob(s: Bytes, cap: nat): Parsed<Blob>
    requires cap <= MAX_U32
  {
    var (n, r) :- TakeInt(s, 4);
    if n > cap then Truncated else TakeBytes(r, n)
  }

  lemma {:induction false} TakePutBlob(b: Blob, rest: Bytes, cap: nat)
    requires |b| <= cap <= MAX_U32
    ensures TakeBlob(PutBlob(b, rest), cap) == Parsed(b, rest)
  {
    Pow256Values();
    TakePutInt(|b|, 4, b + rest);
  }

  lemma {:induction false} PutTakeBlob(s: Bytes, cap: nat)
    requires cap <= MAX_U32
    ensures var p := TakeBlob(s, cap);
      p.Parsed? ==> |p.value| <= cap && s == PutBlob(p.value, p.rest)
  {
    PutTakeInt(s, 4);
    var p := TakeInt(s, 4);
    if p.Parsed? && p.value <= cap && p.value <= |p.rest| {
      assert p.rest == p.rest[..p.value] + p.rest[p.value..];
    }
  }

  /** A fixed-size digest. */
  function TakeHash(s: Bytes): Parsed<Hash256> {
    TakeBytes(s, 32)
  }

  lemma {:induction false} TakePutHash(h: Hash256, rest: Bytes)
    ensures TakeHash(h + rest) == Parsed(h, rest)
  {
  }

  lemma {:induction false} PutTakeHash(s: Bytes)
    ensures var p := TakeHash(s); p.Parsed? ==> s == p.value + p.rest
  {
  }

  // ----- Lists of encoded items -----

  function PutMany<T>(xs: seq<T>, put: (T, Bytes) -> Bytes, rest: Bytes): Bytes {
    if xs == [] then rest else put(xs[0], PutMany(xs[1..], put, rest))
  }

  function TakeMany<T>(s: Bytes, n: nat, take: Bytes -> Parsed<T>): Parsed<seq<T>>
    decreases n
  {
    if n == 0 then Parsed([], s)
    else
      var (x, r) :- take(s);
      var (xs, r') :- TakeMany(r, n - 1, take);
      Parsed([x] + xs, r')
  }

  lemma {:induction false} TakePutMany<T(!new)>(
      xs: seq<T>, put: (T, Bytes) -> Bytes, take: Bytes -> Parsed<T>, rest: Bytes)
    requires forall x, r :: x in xs ==> take(put(x, r)) == Parsed(x, r)
    ensures TakeMany(PutMany(xs, put, rest), |xs|, take) == Parsed(xs, rest)
  {
    if xs != [] {
      TakePutMany(xs[1..], put, take, rest);
      assert xs == [xs[0]] + xs[1..];
    }
  }

  lemma {:induction false} PutTakeMany<T(!new)>(
      s: Bytes, n: nat, put: (T, Bytes) -> Bytes, take: Bytes -> Parsed<T>)
    requires forall r :: take(r).Parsed? ==> r == put(take(r).value, take(r).rest)
    ensures var p := TakeMany(s, n, take);
      p.Parsed? ==> |p.value| == n && s == PutMany(p.value, put, p.rest)
    ensures var p := TakeMany(s, n, take);
      p.Parsed? ==> forall x :: x in p.value ==> exists r :: take(r).Parsed? && take(r).value == x
    decreases n
  {
    if n > 0 && take(s).Parsed? {
      PutTakeMany(take(s).rest, n - 1, put, take);
    }
  }
}
