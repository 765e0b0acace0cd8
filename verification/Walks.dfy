/**
 Walks in a finite graph in which every node has at most one outgoing edge:
 a block and its parent, or a block and its heaviest child.
 */
module Walks {

  import opened Basics
  import opened Options

  /** The node reached from `n` after exactly `k` edges, if the walk gets that far. */
  ghost function Walk(p: map<Root, Root>, n: Root, k: nat): Option<Root>
    decreases k
  {
    if k == 0 then Some(n)
    else if n in p then Walk(p, p[n], k - 1)
    else None
  }

  ghost predicate Reaches(p: map<Root, Root>, n: Root, a: Root) {
    exists k: nat :: Walk(p, n, k) == Some(a)
  }

  ghost predicate OnCycle(p: map<Root, Root>, n: Root) {
    exists k: nat :: k > 0 && Walk(p, n, k) == Some(n)
  }

  lemma {:induction false} WalkAdd(p: map<Root, Root>, n: Root, i: nat, j: nat)
    ensures Walk(p, n, i + j) == if Walk(p, n, i).Some? then Walk(p, Walk(p, n, i).value, j) else None
    decreases i
  {
    if i > 0 && n in p {
      WalkAdd(p, p[n], i - 1, j);
    }
  }

  lemma WalkOn(p: map<Root, Root>, n: Root, k: nat, a: Root)
    requires Walk(p, n, k) == Some(a) && a in p
    ensures Walk(p, n, k + 1) == Some(p[a])
  {
    WalkAdd(p, n, k, 1);
    assert Walk(p, a, 1) == Some(p[a]);
  }

  lemma ReachesTrans(p: map<Root, Root>, a: Root, b: Root, c: Root)
    requires Reaches(p, a, b) && Reaches(p, b, c)
    ensures Reaches(p, a, c)
  {
    var i: nat :| Walk(p, a, i) == Some(b);
    var j: nat :| Walk(p, b, j) == Some(c);
    WalkAdd(p, a, i, j);
  }

  lemma ReachesSelf(p: map<Root, Root>, n: Root)
    ensures Reaches(p, n, n)
  {
    assert Walk(p, n, 0) == Some(n);
  }

  lemma ReachesNext(p: map<Root, Root>, n: Root)
    requires n in p
    ensures Reaches(p, n, p[n])
  {
    assert Walk(p, p[n], 0) == Some(p[n]);
    assert Walk(p, n, 1) == Some(p[n]);
  }

  /** A walk that arrives somewhere else arrives over one of that place's children. */
  lemma LastChild(p: map<Root, Root>, n: Root, a: Root) returns (c: Root)
    requires Reaches(p, n, a) && n != a
    ensures c in p && p[c] == a && Reaches(p, n, c)
  {
    var k: nat :| Walk(p, n, k) == Some(a);
    assert k > 0;
    WalkAdd(p, n, k - 1, 1);
    c := Walk(p, n, k - 1).value;
    assert Walk(p, c, 1) == Some(a);
  }

  /** Of two places on one walk, the earlier reaches the later. */
  lemma Ordered(p: map<Root, Root>, n: Root, a: Root, b: Root)
    requires Reaches(p, n, a) && Reaches(p, n, b)
    ensures Reaches(p, a, b) || Reaches(p, b, a)
  {
    var i: nat :| Walk(p, n, i) == Some(a);
    var j: nat :| Walk(p, n, j) == Some(b);
    if i <= j {
      WalkAdd(p, n, i, j - i);
    } else {
      WalkAdd(p, n, j, i - j);
    }
  }

  /** A parent that reaches its own child closes a cycle through that child. */
  lemma ParentReachesChild(p: map<Root, Root>, c: Root)
    requires c in p && Reaches(p, p[c], c)
    ensures OnCycle(p, c) && OnCycle(p, p[c])
  {
    var k: nat :| Walk(p, p[c], k) == Some(c);
    assert Walk(p, c, k + 1) == Some(c);
    WalkAdd(p, p[c], k, 1);
    assert Walk(p, c, 1) == Some(p[c]);
    assert Walk(p, p[c], k + 1) == Some(p[c]);
  }

  /** Two acyclic siblings have no common descendant. */
  lemma SiblingsApart(p: map<Root, Root>, n: Root, c: Root, d: Root)
    requires c in p && d in p && p[c] == p[d] && c != d
    requires Reaches(p, n, c) && Reaches(p, n, d)
    ensures OnCycle(p, c) || OnCycle(p, d)
  {
    Ordered(p, n, c, d);
    if Reaches(p, c, d) {
      StepThenReach(p, c, d);
      ParentReachesChild(p, d);
    } else {
      StepThenReach(p, d, c);
      ParentReachesChild(p, c);
    }
  }

  lemma StepThenReach(p: map<Root, Root>, a: Root, b: Root)
    requires a != b && Reaches(p, a, b)
    ensures a in p && Reaches(p, p[a], b)
  {
    var k: nat :| Walk(p, a, k) == Some(b);
    assert k > 0;
    assert Walk(p, p[a], k - 1) == Some(b);
  }

  /** From a node on a cycle, every node of the walk is on that cycle. */
  lemma CycleClosed(p: map<Root, Root>, n: Root, a: Root)
    requires OnCycle(p, n) && Reaches(p, n, a)
    ensures OnCycle(p, a) && Reaches(p, a, n)
  {
    var i: nat :| Walk(p, n, i) == Some(a);
    CycleClosedBy(p, n, a, i);
  }

  lemma {:induction false} CycleClosedBy(p: map<Root, Root>, n: Root, a: Root, i: nat)
    requires OnCycle(p, n) && Walk(p, n, i) == Some(a)
    ensures OnCycle(p, a) && Reaches(p, a, n)
    decreases i
  {
    if i == 0 {
      ReachesSelf(p, n);
    } else {
      var k: nat :| k > 0 && Walk(p, n, k) == Some(n);
      assert Walk(p, p[n], k - 1) == Some(n);
      WalkAdd(p, p[n], k - 1, 1);
      assert Walk(p, n, 1) == Some(p[n]);
      assert Walk(p, p[n], k) == Some(p[n]);
      CycleClosedBy(p, p[n], a, i - 1);
      assert Reaches(p, p[n], n);
      ReachesTrans(p, a, p[n], n);
    }
  }

  /** While a walk does not revisit `x`, deleting the edge out of `x` does not change it. */
  lemma {:induction false} WalkAvoids(p: map<Root, Root>, n: Root, k: nat, x: Root)
    requires forall i: nat :: i < k ==> Walk(p, n, i) != Some(x)
    ensures Walk(p - {x}, n, k) == Walk(p, n, k)
    decreases k
  {
    if k > 0 {
      assert Walk(p, n, 0) == Some(n);
      if n in p {
        forall i: nat | i < k - 1 ensures Walk(p, p[n], i) != Some(x) {
          assert Walk(p, n, i + 1) == Walk(p, p[n], i);
        }
        WalkAvoids(p, p[n], k - 1, x);
      }
    }
  }

  lemma {:induction false} WalkWiden(p: map<Root, Root>, n: Root, k: nat, x: Root)
    requires Walk(p - {x}, n, k).Some?
    ensures Walk(p, n, k) == Walk(p - {x}, n, k)
    decreases k
  {
    if k > 0 {
      WalkWiden(p, p[n], k - 1, x);
    }
  }

  /** Whatever is reachable at all is reachable in no more steps than there are edges. */
  lemma {:induction false} ShortWalk(p: map<Root, Root>, n: Root, a: Root, k: nat) returns (j: nat)
    requires Walk(p, n, k) == Some(a)
    ensures j <= |p| && j <= k && Walk(p, n, j) == Some(a)
    decreases k
  {
    if n == a {
      j := 0;
    } else if i: nat :| 0 < i <= k && Walk(p, n, i) == Some(n) {
      WalkAdd(p, n, i, k - i);
      j := ShortWalk(p, n, a, k - i);
    } else {
      assert k > 0 && n in p;
      forall i: nat | i < k - 1 ensures Walk(p, p[n], i) != Some(n) {
        assert Walk(p, n, i + 1) == Walk(p, p[n], i);
      }
      WalkAvoids(p, p[n], k - 1, n);
      var rest := ShortWalk(p - {n}, p[n], a, k - 1);
      WalkWiden(p, p[n], rest, n);
      assert (p - {n}).Keys == p.Keys - {n};
      j := rest + 1;
    }
  }

  /** A walk that ends at a node without an outgoing edge has exactly one length. */
  lemma EndLength(p: map<Root, Root>, n: Root, h: Root, i: nat, j: nat)
    requires h !in p && Walk(p, n, i) == Some(h) && Walk(p, n, j).Some?
    ensures j <= i
  {
    if j > i {
      WalkAdd(p, n, i, j - i);
    }
  }

  /** Two graphs that take the same step everywhere in `s`, and stay in `s`, walk alike. */
  ghost predicate SameSteps(f: map<Root, Root>, g: map<Root, Root>, s: iset<Root>) {
    forall b :: b in s ==> (b in f <==> b in g) && (b in f ==> f[b] == g[b] && f[b] in s)
  }

  lemma {:induction false} SameWalks(f: map<Root, Root>, g: map<Root, Root>, s: iset<Root>, b: Root, k: nat)
    requires SameSteps(f, g, s) && b in s
    ensures Walk(f, b, k) == Walk(g, b, k)
    decreases k
  {
    if k > 0 && b in f {
      SameWalks(f, g, s, f[b], k - 1);
    }
  }

  /** Where at most k steps lead: to the end of the walk, if it ends within them. */
  ghost function Descend(p: map<Root, Root>, n: Root, k: nat): Root
    decreases k
  {
    if k == 0 || n !in p then n else Descend(p, p[n], k - 1)
  }

  lemma {:induction false} DescendIs(p: map<Root, Root>, n: Root, k: nat, j: nat, a: Root)
    requires Walk(p, n, j) == Some(a) && j <= k && (j == k || a !in p)
    ensures Descend(p, n, k) == a
    decreases k
  {
    if j > 0 {
      DescendIs(p, p[n], k - 1, j - 1, a);
    }
  }

  lemma {:induction false} DescendReaches(p: map<Root, Root>, n: Root, k: nat)
    ensures Reaches(p, n, Descend(p, n, k))
    decreases k
  {
    if k == 0 || n !in p {
      ReachesSelf(p, n);
    } else {
      DescendReaches(p, p[n], k - 1);
      ReachesNext(p, n);
      ReachesTrans(p, n, p[n], Descend(p, n, k));
    }
  }

  /** Given as many steps as there are edges, it stops at an end exactly when the walk gets there. */
  lemma DescendEnds(p: map<Root, Root>, n: Root, k: nat, h: Root)
    requires k >= |p| && h !in p
    ensures Descend(p, n, k) == h <==> Reaches(p, n, h)
  {
    if Reaches(p, n, h) {
      var i: nat :| Walk(p, n, i) == Some(h);
      var j := ShortWalk(p, n, h, i);
      DescendIs(p, n, k, j, h);
    }
    DescendReaches(p, n, k);
  }
}
