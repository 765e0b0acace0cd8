/**
 How far the finality-progress oracle keeps its promise that finality rises
 over any stretch of four epochs outside the split. It compares neighbouring
 samples, so the promise depends on when the node was sampled: any number of
 times, several of them perhaps within one epoch.
 */
module FinalityStretch {

  import opened Options
  import opened FinalityProgress

  /** The epochs of a node's samples, in order. */
  predicate IsSchedule(es: seq<int>) {
    forall i, j :: 0 <= i <= j < |es| ==> es[i] <= es[j]
  }

  /** One node's samples, sorted as the oracle sorts them, taken at these epochs. */
  predicate SampledAt(s: seq<Point>, es: seq<int>) {
    Ordered(s) && |s| == |es| && forall k :: 0 <= k < |es| ==> s[k].epoch == es[k]
  }

  /** The stretch between two epochs is long enough and lies wholly outside the window. */
  predicate Stretch(w: Window, p: int, q: int) {
    q - p >= 4 && (q <= w.lo || p > w.hi)
  }

  /** Two neighbouring samples from the i-th to the j-th are four epochs apart. */
  predicate HasGap(es: seq<int>, i: nat, j: nat) {
    exists k :: i < k <= j && k < |es| && es[k] - es[k - 1] >= 4
  }

  /** Every accepted run sampled at these epochs whose finality has started at the i-th rises by the j-th. */
  ghost predicate AlwaysRises(es: seq<int>, w: Window, i: nat, j: nat)
    requires i < j < |es|
  {
    forall s: seq<Point> :: SampledAt(s, es) && Accepted(Elements(s), w) && s[i].fin >= 1 ==> s[i].fin < s[j].fin
  }

  lemma GapRises(s: seq<Point>, es: seq<int>, w: Window, i: nat, j: nat, k: nat)
    requires SampledAt(s, es) && NeighboursOk(s, w) && i < k <= j < |es| && es[k] - es[k - 1] >= 4
    requires Stretch(w, es[i], es[j]) && s[i].fin >= 1
    ensures s[i].fin < s[j].fin
  {
    RisesAlong(s, w, i, k - 1);
    RisesAlong(s, w, k, j);
    assert Leq(s[i], s[k - 1]) && Leq(s[k], s[j]);
    assert NeighbourOk(s[k - 1], s[k], w);
    hide NeighboursOk, Ordered;
  }

  lemma SeenToRise(s: seq<Point>, es: seq<int>, w: Window, i: nat, j: nat)
    requires SampledAt(s, es) && NeighboursOk(s, w) && EndsOk(s)
    requires i < j < |es| && Stretch(w, es[i], es[j]) && s[i].fin >= 1
    requires HasGap(es, i, j) || (i == 0 && j == |es| - 1)
    ensures s[i].fin < s[j].fin
  {
    if HasGap(es, i, j) {
      var k :| i < k <= j && k < |es| && es[k] - es[k - 1] >= 4;
      GapRises(s, es, w, i, j, k);
    }
  }

  // ── A run stuck from the i-th sample to the j-th ─────────────────────────

  function Flattened(w: Window, e: int): int {
    if w.lo < e <= w.hi then w.lo + 1 else e
  }

  /** Nothing before the stretch, one along it, rising wherever it may after it. */
  function StuckAt(es: seq<int>, w: Window, i: nat, j: nat, k: nat): Point
    requires j < |es| && k < |es|
  {
    Point(es[k], if k < i then 0 else if k <= j then 1 else 2 + Flattened(w, es[k]) - es[j])
  }

  function StuckRun(es: seq<int>, w: Window, i: nat, j: nat): seq<Point>
    requires j < |es|
  {
    seq(|es|, k requires 0 <= k < |es| => StuckAt(es, w, i, j, k))
  }

  lemma StuckNeighbours(es: seq<int>, w: Window, i: nat, j: nat, k: nat)
    requires IsSchedule(es) && i < j < |es| && Stretch(w, es[i], es[j]) && !HasGap(es, i, j) && 0 < k < |es|
    ensures var p, q := StuckAt(es, w, i, j, k - 1), StuckAt(es, w, i, j, k); Leq(p, q) && NeighbourOk(p, q, w)
  {
    assert es[k - 1] <= es[k];
    if k <= i { assert es[k] <= es[i]; }
    if j < k { assert es[j] <= es[k - 1] || k - 1 < j; }
    if i < k <= j { assert es[k] - es[k - 1] < 4; }
  }

  lemma {:induction false} OrderedByNeighbours(s: seq<Point>, i: nat, j: nat)
    requires i <= j < |s| && forall k :: 0 < k < |s| ==> Leq(s[k - 1], s[k])
    ensures Leq(s[i], s[j])
    decreases j - i
  {
    if i < j {
      OrderedByNeighbours(s, i, j - 1);
      assert Leq(s[j - 1], s[j]);
    }
  }

  lemma StuckEnds(es: seq<int>, w: Window, i: nat, j: nat)
    requires IsSchedule(es) && i < j < |es| && Stretch(w, es[i], es[j]) && !(i == 0 && j == |es| - 1)
    ensures StuckAt(es, w, i, j, 0).fin < StuckAt(es, w, i, j, |es| - 1).fin
  {
    assert es[j] <= es[|es| - 1];
  }

  lemma StuckRunAccepted(es: seq<int>, w: Window, i: nat, j: nat)
    requires IsSchedule(es) && i < j < |es| && Stretch(w, es[i], es[j])
    requires !HasGap(es, i, j) && !(i == 0 && j == |es| - 1)
    ensures SampledAt(StuckRun(es, w, i, j), es) && Accepted(Elements(StuckRun(es, w, i, j)), w)
  {
    hide Accepted, Elements, NeighbourOk, Flattened, HasGap;
    var s := StuckRun(es, w, i, j);
    forall k | 0 < k < |s| ensures Leq(s[k - 1], s[k]) && NeighbourOk(s[k - 1], s[k], w) {
      StuckNeighbours(es, w, i, j, k);
    }
    forall a, b | 0 <= a <= b < |s| ensures Leq(s[a], s[b]) {
      OrderedByNeighbours(s, a, b);
    }
    StuckEnds(es, w, i, j);
    NeighboursSuffice(s, w);
  }

  /**
   Exactly when the promise holds: a stretch outside the split is always seen
   to rise if and only if two neighbouring samples in it are four epochs
   apart, or it runs from the node's first sample to its last.
   */
  lemma RisingExactly(es: seq<int>, w: Window, i: nat, j: nat)
    requires IsSchedule(es) && i < j < |es| && Stretch(w, es[i], es[j])
    ensures AlwaysRises(es, w, i, j) <==> HasGap(es, i, j) || (i == 0 && j == |es| - 1)
  {
    if HasGap(es, i, j) || (i == 0 && j == |es| - 1) {
      forall s: seq<Point> | SampledAt(s, es) && Accepted(Elements(s), w) && s[i].fin >= 1 ensures s[i].fin < s[j].fin {
        NeighboursNeeded(s, w);
        SeenToRise(s, es, w, i, j);
      }
    } else {
      StuckRunAccepted(es, w, i, j);
    }
  }

  /** Sampled every other epoch, a run stuck for four epochs is accepted. */
  lemma StretchGoesUnnoticed()
    ensures Accepted(Elements([Point(1, 1), Point(3, 1), Point(5, 1), Point(7, 4)]), Declared(None))
  {
    NeighboursSuffice([Point(1, 1), Point(3, 1), Point(5, 1), Point(7, 4)], Declared(None));
  }

  /** Sampled twice in its first epoch, a run that then stays where it is to the end is accepted. */
  lemma DoubleSampleGoesUnnoticed()
    ensures Accepted(Elements([Point(1, 1), Point(1, 2), Point(3, 2), Point(5, 2)]), Declared(None))
  {
    NeighboursSuffice([Point(1, 1), Point(1, 2), Point(3, 2), Point(5, 2)], Declared(None));
  }
}
