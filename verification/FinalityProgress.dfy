/**
 The finality-progress oracle of the soak harness
 (scripts/lifecycle_devnet_soak_lib.py): samples are grouped by node, sorted,
 and neighbours compared. What it accepts is stated on the sets of points,
 without any order.
 */
module FinalityProgress {

  import opened Options

  type Name(==, !new)

  datatype Point = Point(epoch: int, fin: int)
  datatype Sample = Sample(name: Name, point: Point)
  datatype Window = Window(lo: int, hi: int)

  /** The declared split window; without one, nothing is inside it. */
  function Declared(split: Option<Window>): Window {
    if split.Some? then split.value else Window(-1, -1)
  }

  predicate Inside(w: Window, p: Point) {
    w.lo < p.epoch <= w.hi
  }

  /** The stretch from p to q lies wholly outside the window. */
  predicate Outside(w: Window, p: Point, q: Point) {
    q.epoch <= w.lo || p.epoch > w.hi
  }

  /** A window is the epochs after its first up to its last; without one no epoch is in it. */
  lemma WindowExactly(split: Option<Window>, p: Point)
    ensures split.Some? ==> (Inside(Declared(split), p) <==> IsSplit(split.value, p.epoch))
    ensures split.None? && p.epoch >= 0 ==> !Inside(Declared(split), p) && forall q :: Outside(Declared(split), p, q)
  {
  }

  /** The epochs of a split: those after the first declared, the last one included. */
  predicate IsSplit(w: Window, e: int) {
    w.lo + 1 <= e < w.hi + 1
  }

  /** A stretch is outside a window exactly when none of its epochs is in it. */
  lemma OutsideExactly(w: Window, p: Point, q: Point)
    requires w.lo < w.hi && p.epoch <= q.epoch
    ensures Outside(w, p, q) <==> forall e :: p.epoch <= e <= q.epoch ==> !IsSplit(w, e)
  {
    var e := if p.epoch > w.lo then p.epoch else w.lo + 1;
    if !Outside(w, p, q) {
      assert IsSplit(w, e);
    }
  }

  predicate Leq(p: Point, q: Point) {
    p.epoch < q.epoch || (p.epoch == q.epoch && p.fin <= q.fin)
  }

  // ── What is accepted, point by point ─────────────────────────────────────

  predicate NeverFalls(points: set<Point>) {
    forall p, q :: p in points && q in points && Leq(p, q) ==> p.fin <= q.fin
  }

  predicate Frozen(points: set<Point>, w: Window) {
    forall p, q :: p in points && q in points && Inside(w, p) && Inside(w, q) ==> p.fin == q.fin
  }

  /** q follows p with no point strictly between. */
  predicate Consecutive(points: set<Point>, p: Point, q: Point) {
    p in points && q in points && p != q && Leq(p, q) &&
    forall r :: r in points && Leq(p, r) && Leq(r, q) ==> r == p || r == q
  }

  predicate RisesOverGap(p: Point, q: Point) {
    q.epoch - p.epoch >= 4 && p.fin >= 1 ==> p.fin < q.fin
  }

  predicate Rises(points: set<Point>, w: Window) {
    forall p, q :: p in points && q in points && Consecutive(points, p, q) && Outside(w, p, q) ==> RisesOverGap(p, q)
  }

  predicate IsFirst(points: set<Point>, p: Point) {
    p in points && forall q :: q in points ==> Leq(p, q)
  }

  predicate IsLast(points: set<Point>, q: Point) {
    q in points && forall p :: p in points ==> Leq(p, q)
  }

  predicate EndsHigher(points: set<Point>) {
    forall p, q :: p in points && q in points && IsFirst(points, p) && IsLast(points, q) && q.epoch - p.epoch >= 4
      ==> p.fin < q.fin
  }

  predicate Accepted(points: set<Point>, w: Window) {
    NeverFalls(points) && Frozen(points, w) && Rises(points, w) && EndsHigher(points)
  }

  function PointsOf(samples: seq<Sample>, name: Name): set<Point> {
    set i | 0 <= i < |samples| && samples[i].name == name :: samples[i].point
  }

  ghost predicate AllAccepted(samples: seq<Sample>, w: Window) {
    forall name :: Accepted(PointsOf(samples, name), w)
  }

  // ── What is computed, neighbour by neighbour ─────────────────────────────

  predicate Ordered(s: seq<Point>) {
    forall i, j :: 0 <= i <= j < |s| ==> Leq(s[i], s[j])
  }

  predicate NeighbourOk(p: Point, q: Point, w: Window) {
    && p.fin <= q.fin
    && (Inside(w, p) && Inside(w, q) ==> p.fin == q.fin)
    && (Outside(w, p, q) ==> RisesOverGap(p, q))
  }

  predicate NeighboursOk(s: seq<Point>, w: Window) {
    forall i :: 0 < i < |s| ==> NeighbourOk(s[i - 1], s[i], w)
  }

  predicate EndsOk(s: seq<Point>) {
    |s| > 0 && s[|s| - 1].epoch - s[0].epoch >= 4 ==> s[0].fin < s[|s| - 1].fin
  }

  function Elements(s: seq<Point>): set<Point> {
    set i | 0 <= i < |s| :: s[i]
  }

  // ── Neighbours decide for all points ─────────────────────────────────────

  lemma {:induction false} RisesAlong(s: seq<Point>, w: Window, i: nat, j: nat)
    requires NeighboursOk(s, w) && i <= j < |s|
    ensures s[i].fin <= s[j].fin
    decreases j - i
  {
    if i < j {
      RisesAlong(s, w, i, j - 1);
      assert NeighbourOk(s[j - 1], s[j], w);
    }
  }

  lemma {:induction false} FrozenAlong(s: seq<Point>, w: Window, i: nat, j: nat)
    requires Ordered(s) && NeighboursOk(s, w) && i <= j < |s| && Inside(w, s[i]) && Inside(w, s[j])
    ensures s[i].fin == s[j].fin
    decreases j - i
  {
    if i < j {
      assert Leq(s[i], s[j - 1]) && Leq(s[j - 1], s[j]);
      FrozenAlong(s, w, i, j - 1);
      assert NeighbourOk(s[j - 1], s[j], w);
    }
  }

  /** Consecutive points are neighbours somewhere in the sorted list. */
  lemma {:induction false} Neighbours(s: seq<Point>, p: Point, q: Point, i: nat, j: nat) returns (k: nat)
    requires Ordered(s) && i < j < |s| && s[i] == p && s[j] == q && Consecutive(Elements(s), p, q)
    ensures 0 < k < |s| && s[k - 1] == p && s[k] == q
    decreases j - i
  {
    if i + 1 == j {
      k := j;
    } else {
      assert Leq(s[i], s[i + 1]) && Leq(s[i + 1], s[j]) && s[i + 1] in Elements(s);
      if s[i + 1] == p {
        k := Neighbours(s, p, q, i + 1, j);
      } else {
        k := i + 1;
      }
    }
  }

  lemma Place(s: seq<Point>, p: Point, q: Point) returns (i: nat, j: nat)
    requires Ordered(s) && p in Elements(s) && q in Elements(s) && Leq(p, q)
    ensures i <= j < |s| && s[i] == p && s[j] == q
  {
    i :| 0 <= i < |s| && s[i] == p;
    j :| 0 <= j < |s| && s[j] == q;
    if j < i {
      assert Leq(s[j], s[i]);
      j := i;
    }
  }

  lemma NeighboursSuffice(s: seq<Point>, w: Window)
    requires Ordered(s) && NeighboursOk(s, w) && EndsOk(s)
    ensures Accepted(Elements(s), w)
  {
    var points := Elements(s);
    forall p, q | p in points && q in points && Leq(p, q) ensures p.fin <= q.fin {
      var i, j := Place(s, p, q);
      RisesAlong(s, w, i, j);
    }
    forall p, q | p in points && q in points && Inside(w, p) && Inside(w, q) ensures p.fin == q.fin {
      if Leq(p, q) {
        var i, j := Place(s, p, q);
        FrozenAlong(s, w, i, j);
      } else {
        var i, j := Place(s, q, p);
        FrozenAlong(s, w, i, j);
      }
    }
    forall p, q | p in points && q in points && Consecutive(points, p, q) && Outside(w, p, q)
      ensures RisesOverGap(p, q)
    {
      var i, j := Place(s, p, q);
      var k := Neighbours(s, p, q, i, j);
      assert NeighbourOk(s[k - 1], s[k], w);
    }
    forall p, q | p in points && q in points && IsFirst(points, p) && IsLast(points, q) && q.epoch - p.epoch >= 4
      ensures p.fin < q.fin
    {
      Extremes(s, p, q);
    }
  }

  lemma Extremes(s: seq<Point>, p: Point, q: Point)
    requires Ordered(s) && IsFirst(Elements(s), p) && IsLast(Elements(s), q)
    ensures |s| > 0 && s[0] == p && s[|s| - 1] == q
  {
    var i, j := Place(s, p, q);
    assert Leq(s[0], s[i]) && Leq(s[j], s[|s| - 1]);
    assert s[0] in Elements(s) && s[|s| - 1] in Elements(s);
  }

  lemma NeighboursNeeded(s: seq<Point>, w: Window)
    requires Ordered(s) && Accepted(Elements(s), w)
    ensures NeighboursOk(s, w) && EndsOk(s)
  {
    var points := Elements(s);
    assert forall i :: 0 <= i < |s| ==> s[i] in points;
    forall i | 0 < i < |s| ensures NeighbourOk(s[i - 1], s[i], w) {
      var p, q := s[i - 1], s[i];
      assert Leq(p, q);
      if Outside(w, p, q) && q.epoch - p.epoch >= 4 {
        forall r | r in points && Leq(p, r) && Leq(r, q) ensures r == p || r == q {
          var k :| 0 <= k < |s| && s[k] == r;
          assert k <= i - 1 ==> Leq(s[k], s[i - 1]);
          assert i <= k ==> Leq(s[i], s[k]);
        }
        assert Consecutive(points, p, q);
      }
    }
    if |s| > 0 {
      forall i | 0 <= i < |s| ensures Leq(s[0], s[i]) && Leq(s[i], s[|s| - 1]) {}
      assert IsFirst(points, s[0]) && IsLast(points, s[|s| - 1]);
    }
  }

  // ── The oracle ───────────────────────────────────────────────────────────

  function Insert(s: seq<Point>, p: Point): seq<Point> {
    if s == [] || Leq(p, s[0]) then [p] + s else [s[0]] + Insert(s[1..], p)
  }

  /** Python's sort of pairs: any sorting yields this list. */
  function Sorted(s: seq<Point>): seq<Point> {
    if s == [] then [] else Insert(Sorted(s[1..]), s[0])
  }

  lemma {:induction false} InsertAdds(s: seq<Point>, p: Point)
    ensures multiset(Insert(s, p)) == multiset(s) + multiset{p}
  {
    if s != [] && !Leq(p, s[0]) {
      InsertAdds(s[1..], p);
      assert s == [s[0]] + s[1..];
    }
  }

  lemma Prepend(q: Point, s: seq<Point>)
    requires Ordered(s) && forall r :: r in s ==> Leq(q, r)
    ensures Ordered([q] + s)
  {
    var t := [q] + s;
    forall i, j | 0 <= i <= j < |t| ensures Leq(t[i], t[j]) {
      if 0 < i {
        assert t[i] == s[i - 1] && t[j] == s[j - 1];
      } else if 0 < j {
        assert t[j] == s[j - 1] && s[j - 1] in s;
      }
    }
  }

  lemma {:induction false} InsertSorts(s: seq<Point>, p: Point)
    requires Ordered(s)
    ensures Ordered(Insert(s, p))
  {
    if s == [] || Leq(p, s[0]) {
      forall r | r in s ensures Leq(p, r) {
        var i :| 0 <= i < |s| && s[i] == r;
        assert Leq(s[0], s[i]);
      }
      Prepend(p, s);
    } else {
      var rest := s[1..];
      InsertSorts(rest, p);
      InsertAdds(rest, p);
      forall r | r in Insert(rest, p) ensures Leq(s[0], r) {
        assert r in multiset(Insert(rest, p));
        if r != p {
          assert r in rest;
          var i :| 0 <= i < |rest| && rest[i] == r;
          assert Leq(s[0], s[i + 1]);
        }
      }
      Prepend(s[0], Insert(rest, p));
    }
  }

  lemma {:induction false} SortedSorts(s: seq<Point>)
    ensures Ordered(Sorted(s)) && multiset(Sorted(s)) == multiset(s)
  {
    if s != [] {
      SortedSorts(s[1..]);
      InsertSorts(Sorted(s[1..]), s[0]);
      InsertAdds(Sorted(s[1..]), s[0]);
      assert s == [s[0]] + s[1..];
    }
  }

  lemma SameElements(s: seq<Point>, t: seq<Point>)
    requires multiset(s) == multiset(t)
    ensures Elements(s) == Elements(t)
  {
    forall p ensures p in Elements(s) <==> p in Elements(t) {
      assert p in s <==> p in multiset(s);
      assert p in t <==> p in multiset(t);
    }
  }

  datatype Problem =
    | Fell(name: Name, p: Point, q: Point)
    | Moved(name: Name, p: Point, q: Point)
    | Stuck(name: Name, p: Point, q: Point)
    | NeverRose(name: Name, p: Point, q: Point)

  /** What is reported about two neighbours. */
  function Compare(name: Name, p: Point, q: Point, w: Window): (found: seq<Problem>)
    ensures found == [] <==> NeighbourOk(p, q, w)
    ensures forall x :: x in found ==> x.name == name && x.p == p && x.q == q
  {
    (if q.fin < p.fin then [Fell(name, p, q)] else []) +
    (if Inside(w, p) && Inside(w, q) && q.fin != p.fin then [Moved(name, p, q)] else []) +
    (if Outside(w, p, q) && q.epoch - p.epoch >= 4 && q.fin <= p.fin && p.fin >= 1 then [Stuck(name, p, q)] else [])
  }

  predicate About(problems: seq<Problem>, name: Name, points: set<Point>) {
    forall x :: x in problems ==> x.name == name && x.p in points && x.q in points
  }

  /** Compares each point with the next. */
  method CheckNeighbours(name: Name, points: seq<Point>, w: Window) returns (problems: seq<Problem>)
    requires points != []
    ensures problems == [] <==> NeighboursOk(points, w)
    ensures About(problems, name, Elements(points))
  {
    problems := [];
    for i := 1 to |points|
      invariant problems == [] <==> NeighboursOk(points[..i], w)
      invariant About(problems, name, Elements(points))
    {
      hide NeighboursOk, NeighbourOk, Compare;
      var p, q := points[i - 1], points[i];
      NextNeighbour(points, w, i);
      problems := problems + Compare(name, p, q, w);
    }
    assert points[..|points|] == points;
  }

  /** One node's points, in order. Every problem names two of them. */
  method CheckNode(name: Name, unsorted: seq<Point>, w: Window) returns (problems: seq<Problem>)
    ensures problems == [] <==> Accepted(Elements(unsorted), w)
    ensures About(problems, name, Elements(unsorted))
  {
    var points := Sorted(unsorted);
    SortedSorts(unsorted);
    SameElements(unsorted, points);
    Decided(points, w);
    hide Sorted, Accepted, Ordered;
    problems := [];
    if points != [] {
      problems := CheckNeighbours(name, points, w);
      var p, q := points[0], points[|points| - 1];
      assert p in Elements(points) && q in Elements(points);
      if q.epoch - p.epoch >= 4 && q.fin <= p.fin {
        problems := problems + [NeverRose(name, p, q)];
      }
    }
  }

  lemma NextNeighbour(s: seq<Point>, w: Window, i: nat)
    requires 1 <= i < |s|
    ensures NeighboursOk(s[..i + 1], w) <==> NeighboursOk(s[..i], w) && NeighbourOk(s[i - 1], s[i], w)
  {
    var a, b := s[..i], s[..i + 1];
    if NeighboursOk(b, w) {
      assert NeighbourOk(b[i - 1], b[i], w);
      forall k | 0 < k < |a| ensures NeighbourOk(a[k - 1], a[k], w) {
        assert NeighbourOk(b[k - 1], b[k], w);
      }
    }
    if NeighboursOk(a, w) && NeighbourOk(s[i - 1], s[i], w) {
      forall k | 0 < k < |b| ensures NeighbourOk(b[k - 1], b[k], w) {
        if k < i { assert NeighbourOk(a[k - 1], a[k], w); }
      }
    }
  }

  lemma Decided(s: seq<Point>, w: Window)
    requires Ordered(s)
    ensures Accepted(Elements(s), w) <==> NeighboursOk(s, w) && EndsOk(s)
  {
    if NeighboursOk(s, w) && EndsOk(s) { NeighboursSuffice(s, w); }
    if Accepted(Elements(s), w) { NeighboursNeeded(s, w); }
  }

  type Groups = map<Name, seq<Point>>

  ghost predicate IsGrouping(groups: Groups, samples: seq<Sample>) {
    forall name ::
      if name in groups then Elements(groups[name]) == PointsOf(samples, name) else PointsOf(samples, name) == {}
  }

  method Group(samples: seq<Sample>) returns (groups: Groups)
    ensures IsGrouping(groups, samples)
  {
    groups := map[];
    for i := 0 to |samples|
      invariant IsGrouping(groups, samples[..i])
    {
      AddSample(groups, samples, i);
      var name := samples[i].name;
      groups := groups[name := (if name in groups then groups[name] else []) + [samples[i].point]];
    }
    assert samples[..|samples|] == samples;
  }

  lemma OneMore(s: seq<Point>, p: Point)
    ensures Elements(s + [p]) == Elements(s) + {p}
  {
    var t := s + [p];
    assert t[|s|] == p;
    forall q | q in Elements(s) ensures q in Elements(t) {
      var i :| 0 <= i < |s| && s[i] == q;
      assert t[i] == q;
    }
  }

  lemma OneMoreSample(samples: seq<Sample>, i: nat, name: Name)
    requires i < |samples|
    ensures PointsOf(samples[..i + 1], name)
         == PointsOf(samples[..i], name) + if samples[i].name == name then {samples[i].point} else {}
  {
    var a, b := samples[..i], samples[..i + 1];
    assert b[i] == samples[i];
    forall p | p in PointsOf(a, name) ensures p in PointsOf(b, name) {
      var k :| 0 <= k < |a| && a[k].name == name && a[k].point == p;
      assert b[k] == a[k];
    }
    forall p | p in PointsOf(b, name) ensures p in PointsOf(a, name) || samples[i] == Sample(name, p) {
      var k :| 0 <= k < |b| && b[k].name == name && b[k].point == p;
      if k < i { assert a[k] == b[k]; }
    }
  }

  lemma AddSample(groups: Groups, samples: seq<Sample>, i: nat)
    requires i < |samples| && IsGrouping(groups, samples[..i])
    ensures var name := samples[i].name;
            var points := if name in groups then groups[name] else [];
            IsGrouping(groups[name := points + [samples[i].point]], samples[..i + 1])
  {
    hide PointsOf, Elements;
    var name := samples[i].name;
    var was := if name in groups then groups[name] else [];
    OneMore(was, samples[i].point);
    NoElements();
    forall other ensures PointsOf(samples[..i + 1], other)
                      == PointsOf(samples[..i], other) + if samples[i].name == other then {samples[i].point} else {} {
      OneMoreSample(samples, i, other);
    }
  }

  lemma NoElements()
    ensures Elements([]) == {}
  {
  }

  /** Accepts exactly the samples whose every node is accepted. */
  method Progress(samples: seq<Sample>, split: Option<Window>) returns (ok: bool, problems: seq<Problem>)
    ensures ok <==> AllAccepted(samples, Declared(split))
    ensures ok <==> problems == []
    ensures forall x :: x in problems ==> Sample(x.name, x.p) in samples && Sample(x.name, x.q) in samples
  {
    var groups := Group(samples);
    var w := Declared(split);
    problems := [];
    var names := groups.Keys;
    while names != {}
      invariant names <= groups.Keys
      invariant problems == []
           <==> forall name :: name in groups && name !in names ==> Accepted(PointsOf(samples, name), w)
      invariant forall x :: x in problems ==> Sample(x.name, x.p) in samples && Sample(x.name, x.q) in samples
      decreases names
    {
      var name :| name in names;
      var found := CheckNode(name, groups[name], w);
      problems := problems + found;
      names := names - {name};
    }
    forall name | name !in groups ensures Accepted(PointsOf(samples, name), w) {
      assert PointsOf(samples, name) == {};
    }
    ok := problems == [];
  }

  /** The verdict depends on which samples there are, not on their order or repetition. */
  lemma OrderDoesNotMatter(samples: seq<Sample>, others: seq<Sample>, w: Window)
    requires forall x :: x in samples <==> x in others
    ensures AllAccepted(samples, w) <==> AllAccepted(others, w)
  {
    forall name ensures PointsOf(samples, name) == PointsOf(others, name) {
      forall p ensures p in PointsOf(samples, name) <==> p in PointsOf(others, name) {
        assert p in PointsOf(samples, name) <==> Sample(name, p) in samples by { SampledPoint(samples, name, p); }
        assert p in PointsOf(others, name) <==> Sample(name, p) in others by { SampledPoint(others, name, p); }
      }
    }
  }

  lemma SampledPoint(samples: seq<Sample>, name: Name, p: Point)
    ensures p in PointsOf(samples, name) <==> Sample(name, p) in samples
  {
    if Sample(name, p) in samples {
      var i :| 0 <= i < |samples| && samples[i] == Sample(name, p);
    }
  }
}
