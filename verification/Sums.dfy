/** Sums over the values of a finite map. */
module Sums {
  ghost function Sum<K(!new), V>(m: map<K, V>, f: V -> nat): nat
    decreases |m|
  {
    if m == map[] then 0
    else
      var k :| k in m;
      assert |m - {k}| < |m| by { Smaller(m, k); }
      f(m[k]) + Sum(m - {k}, f)
  }

  lemma {:induction false} Smaller<K(!new), V>(m: map<K, V>, k: K)
    requires k in m
    ensures |m - {k}| == |m| - 1
  {
    assert (m - {k}).Keys == m.Keys - {k};
  }

  lemma {:induction false} SumRemove<K(!new), V>(m: map<K, V>, f: V -> nat, k: K)
    requires k in m
    ensures Sum(m, f) == f(m[k]) + Sum(m - {k}, f)
    decreases |m|
  {
    var p :| p in m && Sum(m, f) == f(m[p]) + Sum(m - {p}, f);
    if p != k {
      Smaller(m, p);
      Smaller(m, k);
      SumRemove(m - {p}, f, k);
      SumRemove(m - {k}, f, p);
      assert m - {p} - {k} == m - {k} - {p};
    }
  }

  lemma {:induction false} SumInsert<K(!new), V>(m: map<K, V>, f: V -> nat, k: K, v: V)
    requires k !in m
    ensures Sum(m[k := v], f) == Sum(m, f) + f(v)
  {
    SumRemove(m[k := v], f, k);
    assert m[k := v] - {k} == m;
  }

  lemma {:induction false} Reinsert<K(!new), V>(m: map<K, V>, k: K)
    requires k in m
    ensures (m - {k})[k := m[k]] == m
  {
  }

  lemma {:induction false} InsertIntoUnion<K(!new), V(!new)>(a: map<K, V>, b: map<K, V>, k: K, v: V)
    ensures (a + b)[k := v] == a + b[k := v]
  {
  }

  lemma {:induction false} RemoveFromUnion<K(!new), V(!new)>(a: map<K, V>, b: map<K, V>, keys: set<K>)
    requires b.Keys !! keys
    ensures (a + b) - keys == (a - keys) + b
  {
  }

  lemma {:induction false} MergeAssociative<K(!new), V(!new)>(a: map<K, V>, b: map<K, V>, c: map<K, V>)
    ensures a + (b + c) == a + b + c
  {
  }

  lemma {:induction false} SwapUnion<K(!new), V(!new)>(a: map<K, V>, b: map<K, V>, c: map<K, V>)
    requires b.Keys !! c.Keys
    ensures (a + b) + c == (a + c) + b
  {
  }

  lemma {:induction false} RemoveTwice<K(!new), V(!new)>(m: map<K, V>, a: set<K>, b: set<K>)
    ensures m - (a + b) == m - a - b
  {
  }

  lemma {:induction false} UnionInsert<K(!new), V>(a: map<K, V>, b: map<K, V>, k: K)
    requires a.Keys !! b.Keys && k in b
    ensures a.Keys !! (b - {k}).Keys
    ensures (a + (b - {k}))[k := b[k]] == a + b
  {
    var l, r := (a + (b - {k}))[k := b[k]], a + b;
    assert l.Keys == r.Keys;
    forall x | x in l ensures l[x] == r[x] {}
  }

  lemma {:induction false} SumUnion<K(!new), V>(a: map<K, V>, b: map<K, V>, f: V -> nat)
    requires a.Keys !! b.Keys
    ensures Sum(a + b, f) == Sum(a, f) + Sum(b, f)
    decreases |b|
  {
    if b == map[] {
      assert a + b == a;
    } else {
      var k :| k in b;
      var c := b - {k};
      Smaller(b, k);
      Reinsert(b, k);
      UnionInsert(a, b, k);
      SumUnion(a, c, f);
      SumInsert(c, f, k, b[k]);
      SumInsert(a + c, f, k, b[k]);
    }
  }


  lemma {:induction false} PartAndRest<K(!new), V>(a: map<K, V>, b: map<K, V>)
    requires forall k :: k in a ==> k in b && a[k] == b[k]
    ensures a + (b - a.Keys) == b && a.Keys !! (b - a.Keys).Keys && |a| <= |b|
  {
    var c := a + (b - a.Keys);
    assert c.Keys == b.Keys;
    assert b.Keys == a.Keys + (b.Keys - a.Keys);
  }

  /** A part of a map weighs no more than the whole. */
  lemma {:induction false} SumSubmap<K(!new), V>(a: map<K, V>, b: map<K, V>, f: V -> nat)
    requires forall k :: k in a ==> k in b && a[k] == b[k]
    ensures Sum(a, f) <= Sum(b, f) && |a| <= |b|
  {
    hide Sum;
    PartAndRest(a, b);
    SumUnion(a, b - a.Keys, f);
  }
}
