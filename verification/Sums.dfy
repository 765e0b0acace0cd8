/** Totals of the amounts held in a finite map: stake behind a block, weight behind a target, and so on. */
module Sums {

  ghost function Sum(m: map<nat, nat>): (total: nat)
    decreases |m|
  {
    if m == map[] then 0
    else
      var k :| k in m;
      assert (m - {k}).Keys == m.Keys - {k};
      m[k] + Sum(m - {k})
  }

  /** The order in which entries are added up does not matter. */
  lemma {:induction false} SumRemove(m: map<nat, nat>, k: nat)
    requires k in m
    ensures Sum(m) == m[k] + Sum(m - {k})
    decreases |m|
  {
    var j :| j in m && Sum(m) == m[j] + Sum(m - {j});
    if j != k {
      assert (m - {j}).Keys == m.Keys - {j};
      SumRemove(m - {j}, k);
      assert (m - {k}).Keys == m.Keys - {k};
      SumRemove(m - {k}, j);
      assert m - {j} - {k} == m - {k} - {j};
    }
  }

  lemma SumInsert(m: map<nat, nat>, k: nat, v: nat)
    requires k !in m
    ensures Sum(m[k := v]) == Sum(m) + v
  {
    SumRemove(m[k := v], k);
    assert m[k := v] - {k} == m;
  }

  lemma UnionWithout(a: map<nat, nat>, b: map<nat, nat>, k: nat)
    requires a.Keys !! b.Keys && k in b
    ensures (a + b) - {k} == a + (b - {k})
    ensures a.Keys !! (b - {k}).Keys && |b - {k}| < |b|
  {
    assert (b - {k}).Keys == b.Keys - {k};
  }

  lemma {:induction false} SumUnion(a: map<nat, nat>, b: map<nat, nat>)
    requires a.Keys !! b.Keys
    ensures Sum(a + b) == Sum(a) + Sum(b)
    decreases |b|
  {
    if b == map[] {
      assert a + b == a;
    } else {
      var k :| k in b;
      SumRemove(b, k);
      SumRemove(a + b, k);
      UnionWithout(a, b, k);
      SumUnion(a, b - {k});
    }
  }

  ghost predicate Within(a: map<nat, nat>, b: map<nat, nat>) {
    forall k :: k in a ==> k in b && a[k] <= b[k]
  }

  lemma {:induction false} SumMonotone(a: map<nat, nat>, b: map<nat, nat>)
    requires Within(a, b)
    ensures Sum(a) <= Sum(b)
    decreases |a|
  {
    if a != map[] {
      var k :| k in a;
      SumRemove(a, k);
      SumRemove(b, k);
      assert (a - {k}).Keys == a.Keys - {k};
      SumMonotone(a - {k}, b - {k});
    }
  }

  /** Two parts of one whole that overlap nowhere weigh at most the whole. */
  lemma SumDisjoint(a: map<nat, nat>, b: map<nat, nat>, whole: map<nat, nat>)
    requires a.Keys !! b.Keys && Within(a, whole) && Within(b, whole)
    ensures Sum(a) + Sum(b) <= Sum(whole)
  {
    SumUnion(a, b);
    SumMonotone(a + b, whole);
  }

  /** Two parts of one whole weigh at most the whole plus what they share. */
  lemma SumOverlap(a: map<nat, nat>, b: map<nat, nat>, whole: map<nat, nat>)
    requires Within(a, whole) && Within(b, whole)
    ensures Sum(a) + Sum(b) <= Sum(whole) + Sum(map k | k in a && k in b :: a[k])
  {
    var shared := map k | k in a && k in b :: a[k];
    var only := map k | k in a && k !in b :: a[k];
    assert a == only + shared;
    SumUnion(only, shared);
    SumDisjoint(only, b, whole);
  }
}
