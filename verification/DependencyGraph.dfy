/**
 From the dependency graph to the guard's verdict: the printed listing drops
 every second expansion, and the verdict still equals graph reachability. The
 nodes are package versions; several may print the same name, and each is
 de-duplicated for itself.
 */
module DependencyGraph {
  import opened Basics
  import opened DependencyGuard

  type Node(==, !new)

  /** Which nodes a node depends on. */
  type Graph = map<Node, seq<Node>>

  /** The name a node is printed under. */
  type Naming = Node -> Name

  function Kids(g: Graph, n: Node): seq<Node> {
    if n in g then g[n] else []
  }

  function NamesOf(nameOf: Naming, p: seq<Node>): seq<Name> {
    seq(|p|, i requires 0 <= i < |p| => nameOf(p[i]))
  }

  /** What the printer produces for a row of dependencies, and the nodes printed so far. */
  datatype Unfolded = Unfolded(forest: Forest, seen: set<Node>)

  /** Depth-first unfolding: a node already seen is printed again but not expanded again. */
  function Unfold(g: Graph, nameOf: Naming, ks: seq<Node>, seen: set<Node>): (u: Unfolded)
    ensures seen <= u.seen
    decreases |g.Keys - seen|, |ks|
  {
    if ks == [] then Unfolded(Nil, seen)
    else
      var n := ks[0];
      if n in seen || n !in g then
        Shrinks(g, seen, n);
        var right := Unfold(g, nameOf, ks[1..], seen + {n});
        Unfolded(Cons(nameOf(n), Nil, right.forest), right.seen)
      else
        Marks(g, seen, n);
        var down := Unfold(g, nameOf, g[n], seen + {n});
        SubsetAtMost(g.Keys - down.seen, g.Keys - (seen + {n}));
        var right := Unfold(g, nameOf, ks[1..], down.seen);
        Unfolded(Cons(nameOf(n), down.forest, right.forest), right.seen)
  }

  lemma Marks(g: Graph, seen: set<Node>, n: Node)
    requires n in g && n !in seen
    ensures |g.Keys - (seen + {n})| < |g.Keys - seen|
  {
    assert g.Keys - (seen + {n}) == (g.Keys - seen) - {n};
  }

  lemma Shrinks(g: Graph, seen: set<Node>, n: Node)
    requires n in seen || n !in g
    ensures |g.Keys - (seen + {n})| == |g.Keys - seen|
  {
    assert g.Keys - (seen + {n}) == g.Keys - seen;
  }

  /** The listing the dependency query prints for this root. */
  function Printed(g: Graph, nameOf: Naming, root: Node): seq<Line> {
    Listing(nameOf(root), Unfold(g, nameOf, Kids(g, root), {root}).forest)
  }

  // ── Paths ────────────────────────────────────────────────────────────────

  /** An edge of the graph. */
  predicate Depends(g: Graph, n: Node, x: Node) {
    n in g && x in g[n]
  }

  ghost predicate IsPath(g: Graph, p: seq<Node>) {
    p != [] && forall i :: 0 <= i < |p| - 1 ==> Depends(g, p[i], p[i + 1])
  }

  /** The path leads from `n` to a different place or back to it, over at least one dependency. */
  ghost predicate Leads(g: Graph, p: seq<Node>, n: Node, x: Node) {
    IsPath(g, p) && |p| >= 2 && p[0] == n && p[|p| - 1] == x
  }

  /** `x` is a dependency of `n`, directly or through others. */
  ghost predicate DependsOn(g: Graph, n: Node, x: Node) {
    exists p :: Leads(g, p, n, x)
  }

  predicate Occurs(f: Forest, x: Name) {
    match f
    case Nil => false
    case Cons(name, kids, rest) => name == x || Occurs(kids, x) || Occurs(rest, x)
  }

  lemma {:induction false} ClearMeansAbsent(f: Forest, forbidden: set<Name>, path: seq<Name>, x: Name)
    requires First(f, forbidden, path) == Clear && x in forbidden
    ensures !Occurs(f, x)
    decreases f
  {
    match f
    case Nil =>
    case Cons(name, kids, rest) =>
      ClearMeansAbsent(kids, forbidden, path + [name], x);
      ClearMeansAbsent(rest, forbidden, path, x);
  }

  lemma PathSnoc(g: Graph, p: seq<Node>, n: Node)
    requires IsPath(g, p) && n in Kids(g, p[|p| - 1])
    ensures IsPath(g, p + [n])
  {
    var q := p + [n];
    forall i | 0 <= i < |q| - 1 ensures Depends(g, q[i], q[i + 1]) {
      if i < |p| - 1 {
        assert Depends(g, p[i], p[i + 1]);
      }
    }
  }

  lemma NamesSnoc(nameOf: Naming, p: seq<Node>, n: Node)
    ensures NamesOf(nameOf, p + [n]) == NamesOf(nameOf, p) + [nameOf(n)]
  {
  }

  ghost predicate AllIn(ks: seq<Node>, row: seq<Node>) {
    forall i :: 0 <= i < |ks| ==> ks[i] in row
  }

  lemma NotEmpty(g: Graph, nameOf: Naming, ks: seq<Node>, seen: set<Node>, forbidden: set<Name>, names: seq<Name>)
    requires First(Unfold(g, nameOf, ks, seen).forest, forbidden, names).Found?
    ensures ks != []
  {
  }

  /** One step down from the end of a path, and the rest of its row. */
  lemma Downward(g: Graph, ks: seq<Node>, path: seq<Node>)
    requires IsPath(g, path) && ks != [] && AllIn(ks, Kids(g, path[|path| - 1]))
    ensures IsPath(g, path + [ks[0]]) && path != [] && AllIn(ks[1..], Kids(g, path[|path| - 1]))
    ensures ks[0] in g ==> AllIn(g[ks[0]], Kids(g, ks[0]))
  {
    PathSnoc(g, path, ks[0]);
  }

  /** The last node of the path has a forbidden name. */
  predicate EndsIn(nameOf: Naming, p: seq<Node>, forbidden: set<Name>) {
    p != [] && nameOf(p[|p| - 1]) in forbidden
  }

  lemma EndsHere(nameOf: Naming, path: seq<Node>, n: Node, forbidden: set<Name>)
    requires nameOf(n) in forbidden
    ensures EndsIn(nameOf, path + [n], forbidden)
  {
  }

  /** Where the first forbidden name of a printed row is. */
  lemma FirstOfRow(g: Graph, nameOf: Naming, ks: seq<Node>, seen: set<Node>, forbidden: set<Name>, names: seq<Name>)
    requires ks != []
    ensures First(Unfold(g, nameOf, ks, seen).forest, forbidden, names)
         == if nameOf(ks[0]) in forbidden then Found(names + [nameOf(ks[0])])
            else if ks[0] in seen || ks[0] !in g then
              First(Unfold(g, nameOf, ks[1..], seen + {ks[0]}).forest, forbidden, names)
            else
              var down := Unfold(g, nameOf, g[ks[0]], seen + {ks[0]});
              var found := First(down.forest, forbidden, names + [nameOf(ks[0])]);
              if found.Found? then found else First(Unfold(g, nameOf, ks[1..], down.seen).forest, forbidden, names)
  {
  }

  /** A path through the printed forest is the names along a path of the graph. */
  lemma {:induction false} FoundIsReal(g: Graph, nameOf: Naming, ks: seq<Node>, seen: set<Node>, forbidden: set<Name>,
                                       path: seq<Node>)
    returns (p: seq<Node>)
    requires IsPath(g, path) && AllIn(ks, Kids(g, path[|path| - 1]))
    requires First(Unfold(g, nameOf, ks, seen).forest, forbidden, NamesOf(nameOf, path)).Found?
    ensures First(Unfold(g, nameOf, ks, seen).forest, forbidden, NamesOf(nameOf, path)) == Found(NamesOf(nameOf, p))
    ensures IsPath(g, p) && path < p && EndsIn(nameOf, p, forbidden)
    decreases |g.Keys - seen|, |ks|
  {
    hide *;
    NotEmpty(g, nameOf, ks, seen, forbidden, NamesOf(nameOf, path));
    var n := ks[0];
    var here := path + [n];
    assert here[|here| - 1] == n && |here| > |path|;
    Downward(g, ks, path);
    NamesSnoc(nameOf, path, n);
    FirstOfRow(g, nameOf, ks, seen, forbidden, NamesOf(nameOf, path));
    if nameOf(n) in forbidden {
      p := here;
      EndsHere(nameOf, path, n, forbidden);
    } else if n in seen || n !in g {
      Shrinks(g, seen, n);
      p := FoundIsReal(g, nameOf, ks[1..], seen + {n}, forbidden, path);
    } else {
      Marks(g, seen, n);
      var down := Unfold(g, nameOf, g[n], seen + {n});
      if First(down.forest, forbidden, NamesOf(nameOf, here)).Found? {
        p := FoundIsReal(g, nameOf, g[n], seen + {n}, forbidden, here);
        assert path < here < p;
      } else {
        SubsetAtMost(g.Keys - down.seen, g.Keys - (seen + {n}));
        p := FoundIsReal(g, nameOf, ks[1..], down.seen, forbidden, path);
      }
    }
  }

  /** The dependencies of `y` are all printed and all seen. */
  ghost predicate Closed(g: Graph, nameOf: Naming, u: Unfolded, y: Node) {
    forall c :: c in Kids(g, y) ==> Occurs(u.forest, nameOf(c)) && c in u.seen
  }

  /** Every listed dependency is nameOf, and every node newly seen has all its dependencies printed. */
  ghost predicate Complete(g: Graph, nameOf: Naming, ks: seq<Node>, seen: set<Node>, u: Unfolded) {
    && (forall k :: k in ks ==> Occurs(u.forest, nameOf(k)) && k in u.seen)
    && (forall y :: y in u.seen && y !in seen ==> Closed(g, nameOf, u, y))
  }

  lemma CompleteRepeated(g: Graph, nameOf: Naming, ks: seq<Node>, seen: set<Node>, right: Unfolded)
    requires ks != [] && (ks[0] in seen || ks[0] !in g)
    requires Complete(g, nameOf, ks[1..], seen + {ks[0]}, right) && ks[0] in right.seen
    ensures Complete(g, nameOf, ks, seen, Unfolded(Cons(nameOf(ks[0]), Nil, right.forest), right.seen))
  {
    var u := Unfolded(Cons(nameOf(ks[0]), Nil, right.forest), right.seen);
    forall y | y in u.seen && y !in seen ensures Closed(g, nameOf, u, y) {
      assert y != ks[0] ==> Closed(g, nameOf, right, y);
    }
  }

  lemma CompleteExpanded(g: Graph, nameOf: Naming, ks: seq<Node>, seen: set<Node>, down: Unfolded, right: Unfolded)
    requires ks != [] && ks[0] in g && ks[0] !in seen
    requires Complete(g, nameOf, g[ks[0]], seen + {ks[0]}, down) && ks[0] in down.seen
    requires Complete(g, nameOf, ks[1..], down.seen, right) && down.seen <= right.seen
    ensures Complete(g, nameOf, ks, seen, Unfolded(Cons(nameOf(ks[0]), down.forest, right.forest), right.seen))
  {
    var u := Unfolded(Cons(nameOf(ks[0]), down.forest, right.forest), right.seen);
    forall y | y in u.seen && y !in seen ensures Closed(g, nameOf, u, y) {
      if y in down.seen {
        assert y != ks[0] ==> Closed(g, nameOf, down, y);
      } else {
        assert Closed(g, nameOf, right, y);
      }
    }
  }

  lemma {:induction false} UnfoldCloses(g: Graph, nameOf: Naming, ks: seq<Node>, seen: set<Node>)
    ensures Complete(g, nameOf, ks, seen, Unfold(g, nameOf, ks, seen))
    decreases |g.Keys - seen|, |ks|
  {
    if ks != [] {
      var n := ks[0];
      if n in seen || n !in g {
        Shrinks(g, seen, n);
        UnfoldCloses(g, nameOf, ks[1..], seen + {n});
        CompleteRepeated(g, nameOf, ks, seen, Unfold(g, nameOf, ks[1..], seen + {n}));
      } else {
        Marks(g, seen, n);
        UnfoldCloses(g, nameOf, g[n], seen + {n});
        var down := Unfold(g, nameOf, g[n], seen + {n});
        SubsetAtMost(g.Keys - down.seen, g.Keys - (seen + {n}));
        UnfoldCloses(g, nameOf, ks[1..], down.seen);
        CompleteExpanded(g, nameOf, ks, seen, down, Unfold(g, nameOf, ks[1..], down.seen));
      }
    }
  }

  lemma {:induction false} PathIsPrinted(g: Graph, nameOf: Naming, root: Node, p: seq<Node>, i: nat)
    requires IsPath(g, p) && p[0] == root && i < |p|
    ensures
      var u := Unfold(g, nameOf, Kids(g, root), {root});
      p[i] in u.seen && (i > 0 ==> Occurs(u.forest, nameOf(p[i])))
    decreases i
  {
    UnfoldCloses(g, nameOf, Kids(g, root), {root});
    if i > 0 {
      PathIsPrinted(g, nameOf, root, p, i - 1);
      assert Depends(g, p[i - 1], p[i - 1 + 1]);
      if p[i - 1] != root {
        assert Closed(g, nameOf, Unfold(g, nameOf, Kids(g, root), {root}), p[i - 1]);
      }
    }
  }

  /** A node the live one depends on prints a forbidden name. */
  ghost predicate Reaches(g: Graph, nameOf: Naming, live: Node, forbidden: set<Name>) {
    exists x :: nameOf(x) in forbidden && DependsOn(g, live, x)
  }

  /** The names are those along a dependency path from the live node to one with a forbidden name. */
  ghost predicate Witnesses(g: Graph, nameOf: Naming, live: Node, forbidden: set<Name>, names: seq<Name>) {
    exists p, x :: Leads(g, p, live, x) && nameOf(x) in forbidden && names == NamesOf(nameOf, p)
  }

  /**
   The guard is exact. On the printed listing of any finite graph, however many nodes share a name, it reports a
   forbidden package exactly when the live one depends on one, and what it reports are the names along a
   dependency path that ends at it.
   */
  lemma GuardIsExact(g: Graph, nameOf: Naming, live: Node, forbidden: set<Name>)
    ensures
      var verdict := Scan(Printed(g, nameOf, live), nameOf(live), forbidden, [], false);
      && (verdict.Found? <==> Reaches(g, nameOf, live, forbidden))
      && (verdict.Found? || verdict == Clear)
      && (verdict.Found? ==> Witnesses(g, nameOf, live, forbidden, verdict.path))
  {
    var u := Unfold(g, nameOf, Kids(g, live), {live});
    ReadsEveryTree(u.forest, nameOf(live), forbidden);
    assert NamesOf(nameOf, [live]) == [nameOf(live)];
    var verdict := First(u.forest, forbidden, [nameOf(live)]);
    if verdict.Found? {
      var p := FoundIsReal(g, nameOf, Kids(g, live), {live}, forbidden, [live]);
      assert Leads(g, p, live, p[|p| - 1]);
    } else {
      forall x | nameOf(x) in forbidden && DependsOn(g, live, x) ensures false {
        var p :| Leads(g, p, live, x);
        PathIsPrinted(g, nameOf, live, p, |p| - 1);
        ClearMeansAbsent(u.forest, forbidden, [nameOf(live)], nameOf(x));
      }
    }
  }

  ghost predicate Acyclic(g: Graph) {
    forall n :: !DependsOn(g, n, n)
  }

  /** In an acyclic graph the live node itself is never what is reported. */
  lemma AcyclicNeverReportsRoot(g: Graph, nameOf: Naming, live: Node, forbidden: set<Name>)
    requires Acyclic(g)
    ensures Scan(Printed(g, nameOf, live), nameOf(live), forbidden, [], false).Found?
       <==> exists x :: nameOf(x) in forbidden && x != live && DependsOn(g, live, x)
  {
    GuardIsExact(g, nameOf, live, forbidden);
  }
}
