/**
 Exactly when the leaves-first fork choice agrees with the reference on a
 corrupt parent map (crates/bloch-pos-committee/src/forkchoice.rs): the
 justified block may lie on a cycle of parents, as long as the cycle does not
 have two tie-winning exits two or more steps apart.
 */
module ForkChoiceCycles {
  import opened Basics
  import opened Options
  import opened Sums
  import opened Walks
  import opened ForkChoice
  import opened ForkChoiceStore

  type Slots = Option<map<Root, nat>>

  /** The children map is the inverse of the parent map. */
  ghost predicate Complete(p: map<Root, Root>, children: map<Root, seq<Root>>) {
    && (forall b, c :: b in children && c in children[b] ==> c in p && p[c] == b)
    && (forall c :: c in p ==> p[c] in children && c in children[p[c]])
  }

  /** A child of b outside every cycle. */
  ghost predicate IsExit(p: map<Root, Root>, b: Root, c: Root) {
    c in p && p[c] == b && !OnCycle(p, c)
  }

  /** An exit that wins a tie against the child on the cycle. */
  ghost predicate IsTieExit(p: map<Root, Root>, slots: Slots, b: Root, c: Root) {
    IsExit(p, b, c) && forall n :: n in p && p[n] == b && OnCycle(p, n) ==> WinsTie(slots, c, n)
  }

  ghost predicate HasTieExit(p: map<Root, Root>, slots: Slots, b: Root) {
    exists c :: IsTieExit(p, slots, b, c)
  }

  /** Different blocks of one cycle, each the parent of the next. */
  ghost predicate CyclePath(p: map<Root, Root>, from: Root, ys: seq<Root>) {
    && |ys| > 0 && ys[0] == from
    && (forall t :: 0 <= t < |ys| ==> OnCycle(p, ys[t]))
    && (forall t :: 0 < t < |ys| ==> ys[t] in p && p[ys[t]] == ys[t - 1])
    && (forall s, t :: 0 <= s < t < |ys| ==> ys[s] != ys[t])
  }

  /** Going down the cycle from a block, two of its blocks at least two steps apart have a tie-winning exit. */
  ghost predicate TwoExits(p: map<Root, Root>, slots: Slots, from: Root) {
    exists ys, i :: CyclePath(p, from, ys) && 0 <= i && i + 2 < |ys|
                 && HasTieExit(p, slots, ys[i]) && HasTieExit(p, slots, ys[|ys| - 1])
  }

  // ── Cycles of parents ────────────────────────────────────────────────────

  lemma {:induction false} PeriodsAgree(p: map<Root, Root>, b: Root, m: nat, n: nat)
    requires m > 0 && n > 0 && Walk(p, b, m) == Some(b) && Walk(p, b, n) == Some(b)
    ensures Walk(p, b, m - 1) == Walk(p, b, n - 1)
    decreases m + n
  {
    if m < n {
      WalkAdd(p, b, m, n - m);
      WalkAdd(p, b, m, n - m - 1);
      PeriodsAgree(p, b, m, n - m);
    } else if n < m {
      WalkAdd(p, b, n, m - n);
      WalkAdd(p, b, n, m - n - 1);
      PeriodsAgree(p, b, m - n, n);
    }
  }

  lemma ChildOnCycle(p: map<Root, Root>, c: Root) returns (m: nat)
    requires c in p && OnCycle(p, c)
    ensures m > 0 && Walk(p, p[c], m) == Some(p[c]) && Walk(p, p[c], m - 1) == Some(c) && OnCycle(p, p[c])
  {
    m :| m > 0 && Walk(p, c, m) == Some(c);
    WalkOn(p, p[c], m - 1, c);
  }

  /** A block of a cycle has exactly one child on it. */
  lemma OneCycleChild(p: map<Root, Root>, c: Root, d: Root)
    requires c in p && d in p && p[c] == p[d] && OnCycle(p, c) && OnCycle(p, d)
    ensures c == d
  {
    var m := ChildOnCycle(p, c);
    var n := ChildOnCycle(p, d);
    PeriodsAgree(p, p[c], m, n);
  }

  lemma CycleChild(p: map<Root, Root>, b: Root) returns (c: Root)
    requires OnCycle(p, b)
    ensures c in p && p[c] == b && OnCycle(p, c)
  {
    var k: nat :| k > 0 && Walk(p, b, k) == Some(b);
    WalkAdd(p, b, k - 1, 1);
    c := Walk(p, b, k - 1).value;
    assert Walk(p, c, 1) == Some(b);
    assert Reaches(p, b, c);
    CycleClosed(p, b, c);
  }

  /** From an exit of a cycle, parents lead only over the cycle. */
  lemma ExitReaches(p: map<Root, Root>, a: Root, x: Root)
    requires a in p && OnCycle(p, p[a]) && Reaches(p, a, x)
    ensures x == a || OnCycle(p, x)
  {
    if x != a {
      StepThenReach(p, a, x);
      CycleClosed(p, p[a], x);
    }
  }

  /** Nothing is below two exits of different blocks. */
  lemma ExitsApart(p: map<Root, Root>, a: Root, b: Root, h: Root)
    requires a in p && b in p && !OnCycle(p, a) && !OnCycle(p, b) && OnCycle(p, p[a]) && OnCycle(p, p[b])
    requires Reaches(p, h, a) && Reaches(p, h, b)
    ensures a == b
  {
    Ordered(p, h, a, b);
    if Reaches(p, a, b) { ExitReaches(p, a, b); } else { ExitReaches(p, b, a); }
  }

  lemma {:induction false} PathReaches(p: map<Root, Root>, ys: seq<Root>, t: nat)
    requires |ys| > 0 && CyclePath(p, ys[0], ys) && t < |ys|
    ensures Reaches(p, ys[|ys| - 1], ys[t])
    decreases |ys| - t
  {
    if t == |ys| - 1 {
      ReachesSelf(p, ys[t]);
    } else {
      PathReaches(p, ys, t + 1);
      ReachesNext(p, ys[t + 1]);
      ReachesTrans(p, ys[|ys| - 1], ys[t + 1], ys[t]);
    }
  }

  // ── Weights on a cycle ───────────────────────────────────────────────────

  /** The reference gives every block of a cycle the same weight. */
  lemma SameWeight(v: View, c: Root)
    requires c in v.parents && OnCycle(v.parents, c)
    ensures Weight(v.parents, v.latest, v.stake, c) == Weight(v.parents, v.latest, v.stake, v.parents[c])
  {
    var p := v.parents;
    ReachesNext(p, c);
    CycleClosed(p, c, p[c]);
    forall r ensures Reaches(p, r, c) <==> Reaches(p, r, p[c]) {
      if Reaches(p, r, c) { ReachesTrans(p, r, c, p[c]); }
      if Reaches(p, r, p[c]) { ReachesTrans(p, r, p[c], c); }
    }
    assert Backing(p, v.latest, v.stake, c) == Backing(p, v.latest, v.stake, p[c]);
  }

  ghost function Accumulated(v: View, b: Root): nat {
    Sum(Handed(v.parents, v.latest, v.stake, Acyclic(v.parents), b))
  }

  ghost function Referred(v: View, b: Root): nat {
    Weight(v.parents, v.latest, v.stake, b)
  }

  /** The accumulation never counts more than the reference. */
  lemma AtMostReferred(v: View, b: Root)
    ensures Accumulated(v, b) <= Referred(v, b)
  {
    var p := v.parents;
    forall r | Counted(p, Acyclic(p), r, b) ensures Reaches(p, r, b) {
      if r == b {
        ReachesSelf(p, b);
      } else {
        var c :| c in Acyclic(p) && c in p && p[c] == b && Reaches(p, r, c);
        ReachesNext(p, c);
        ReachesTrans(p, r, c, b);
      }
    }
    SumMonotone(Handed(p, v.latest, v.stake, Acyclic(p), b), Backing(p, v.latest, v.stake, b));
  }

  /** It counts at least what any exit of the block carries. */
  lemma AtLeastExit(v: View, b: Root, a: Root)
    requires IsExit(v.parents, b, a)
    ensures Referred(v, a) <= Accumulated(v, b)
  {
    var p := v.parents;
    forall r | Reaches(p, r, a) ensures Counted(p, Acyclic(p), r, b) {
      assert a in Acyclic(p);
    }
    SumMonotone(Backing(p, v.latest, v.stake, a), Handed(p, v.latest, v.stake, Acyclic(p), b));
  }

  lemma SameOffCycle(v: View, c: Root)
    requires !OnCycle(v.parents, c)
    ensures Accumulated(v, c) == Referred(v, c)
  {
    AcyclicBelow(v.parents, c);
    HandedIsBacking(v.parents, v.latest, v.stake, Acyclic(v.parents), c);
  }

  // ── One step of the descent ──────────────────────────────────────────────

  ghost predicate IsComplete(v: View) {
    Complete(v.parents, v.children)
  }

  lemma Kid(v: View, b: Root, c: Root)
    requires IsComplete(v)
    ensures b in v.children && c in v.children[b] <==> c in v.parents && v.parents[c] == b
    ensures c in v.parents && v.parents[c] == b ==>
      Get(v.LeavesFirstWeights(), c) == Accumulated(v, c) && Get(v.ReferenceWeights(), c) == Referred(v, c)
    ensures c in v.parents && v.parents[c] == b ==> b in v.Fast() && b in v.Slow()
  {
    if c in v.parents && v.parents[c] == b {
      assert c in v.Mentioned();
    }
  }

  lemma Chosen(v: View, b: Root)
    requires IsComplete(v) && b in v.Slow()
    ensures b in v.children && v.children[b] != [] && b in v.Fast()
    ensures IsBest(v.ReferenceWeights(), v.slots, v.children[b], v.Slow()[b])
    ensures IsBest(v.LeavesFirstWeights(), v.slots, v.children[b], v.Fast()[b])
    ensures v.Slow()[b] in v.parents && v.parents[v.Slow()[b]] == b
  {
    hide Beats, View.ReferenceWeights, View.LeavesFirstWeights;
    assert BestChild(v.ReferenceWeights(), v.slots, v.children[b]) in v.children[b];
  }

  /** Where the reference leaves the cycle, or is outside it, the accumulation takes the same child. */
  lemma ExitStep(v: View, b: Root)
    requires IsComplete(v) && b in v.Slow() && !OnCycle(v.parents, v.Slow()[b])
    ensures b in v.Fast() && v.Fast()[b] == v.Slow()[b]
  {
    Chosen(v, b);
    var a, kids := v.Slow()[b], v.children[b];
    Kid(v, b, a);
    SameOffCycle(v, a);
    forall k | k in kids ensures !Beats(v.LeavesFirstWeights(), v.slots, k, a) {
      Kid(v, b, k);
      AtMostReferred(v, k);
      assert !Beats(v.ReferenceWeights(), v.slots, k, a);
    }
    hide Beats, View.Fast, View.Slow;
    BestUnique(v.LeavesFirstWeights(), v.slots, kids, a, v.Fast()[b]);
  }

  /** One step before the reference leaves the cycle, the accumulation has all the weight there is. */
  lemma ThroughStep(v: View, b: Root)
    requires IsComplete(v) && b in v.Slow() && v.Slow()[b] in v.Slow()
    requires OnCycle(v.parents, v.Slow()[b]) && !OnCycle(v.parents, v.Slow()[v.Slow()[b]])
    ensures b in v.Fast() && v.Fast()[b] == v.Slow()[b]
  {
    var c := v.Slow()[b];
    Chosen(v, b);
    AllWeightAt(v, c);
    forall k | k in v.children[b] ensures Get(v.LeavesFirstWeights(), k) == Get(v.ReferenceWeights(), k) {
      Kid(v, b, k);
      if OnCycle(v.parents, k) {
        OneCycleChild(v.parents, k, c);
      } else {
        SameOffCycle(v, k);
      }
    }
    BestCongruent(v.LeavesFirstWeights(), v.ReferenceWeights(), v.slots, v.children[b]);
  }

  lemma AllWeightAt(v: View, x: Root)
    requires IsComplete(v) && x in v.Slow() && OnCycle(v.parents, x) && !OnCycle(v.parents, v.Slow()[x])
    ensures Accumulated(v, x) == Referred(v, x)
  {
    Chosen(v, x);
    var a := v.Slow()[x];
    var next := CycleChild(v.parents, x);
    Kid(v, x, a);
    Kid(v, x, next);
    SameWeight(v, next);
    assert !Beats(v.ReferenceWeights(), v.slots, next, a);
    AtLeastExit(v, x, a);
    AtMostReferred(v, x);
  }

  lemma BeatsCycleChild(v: View, x: Root, next: Root)
    requires IsComplete(v) && x in v.Slow() && !OnCycle(v.parents, v.Slow()[x])
    requires next in v.parents && v.parents[next] == x && OnCycle(v.parents, next)
    ensures Referred(v, v.Slow()[x]) == Referred(v, x) && WinsTie(v.slots, v.Slow()[x], next)
  {
    Chosen(v, x);
    var a := v.Slow()[x];
    Kid(v, x, a);
    Kid(v, x, next);
    SameWeight(v, next);
    AtLeastExit(v, x, a);
    AtMostReferred(v, x);
    assert !Beats(v.ReferenceWeights(), v.slots, next, a);
  }

  /** An exit the reference takes wins ties, for it holds all the weight there is. */
  lemma TakenWinsTies(v: View, x: Root)
    requires IsComplete(v) && x in v.Slow() && OnCycle(v.parents, x) && !OnCycle(v.parents, v.Slow()[x])
    ensures IsTieExit(v.parents, v.slots, x, v.Slow()[x]) && Referred(v, v.Slow()[x]) == Referred(v, x)
  {
    hide View.Slow, OnCycle, Referred, WinsTie;
    Chosen(v, x);
    var next := CycleChild(v.parents, x);
    BeatsCycleChild(v, x, next);
    forall n | n in v.parents && v.parents[n] == x && OnCycle(v.parents, n) ensures n == next {
      OneCycleChild(v.parents, n, next);
    }
  }

  /** When an exit holds all the weight, an exit of another block of the cycle holds none. */
  lemma OthersWeighNothing(v: View, x: Root, a: Root, b: Root, d: Root)
    requires IsExit(v.parents, x, a) && IsExit(v.parents, b, d) && x != b
    requires OnCycle(v.parents, x) && OnCycle(v.parents, b) && Reaches(v.parents, b, x)
    requires Referred(v, a) == Referred(v, x)
    ensures Referred(v, d) == 0
  {
    var p := v.parents;
    var left, right := Backing(p, v.latest, v.stake, a), Backing(p, v.latest, v.stake, d);
    var whole := Backing(p, v.latest, v.stake, x);
    ReachesNext(p, a);
    ReachesNext(p, d);
    ReachesTrans(p, d, b, x);
    forall u | u in left ensures u in whole && u !in right {
      ReachesTrans(p, v.latest[u].root, a, x);
      if u in right { ExitsApart(p, a, d, v.latest[u].root); }
    }
    forall u | u in right ensures u in whole {
      ReachesTrans(p, v.latest[u].root, d, x);
    }
    SumDisjoint(left, right, whole);
  }

  /** Where no exit wins a tie, weightless exits tempt nobody. */
  lemma HeldStep(v: View, b: Root)
    requires IsComplete(v) && b in v.Slow() && OnCycle(v.parents, v.Slow()[b]) && !HasTieExit(v.parents, v.slots, b)
    requires forall d :: IsExit(v.parents, b, d) ==> Referred(v, d) == 0
    ensures b in v.Fast() && v.Fast()[b] == v.Slow()[b]
  {
    Chosen(v, b);
    var c, d := v.Slow()[b], v.Fast()[b];
    Kid(v, b, c);
    Kid(v, b, d);
    if OnCycle(v.parents, d) {
      OneCycleChild(v.parents, c, d);
    } else {
      SameOffCycle(v, d);
      assert IsExit(v.parents, b, d);
      assert !Beats(v.LeavesFirstWeights(), v.slots, c, d);
      forall n | n in v.parents && v.parents[n] == b && OnCycle(v.parents, n) ensures WinsTie(v.slots, d, n) {
        OneCycleChild(v.parents, n, c);
      }
      assert IsTieExit(v.parents, v.slots, b, d);
    }
  }

  // ── Without two exits the heads agree ────────────────────────────────────

  lemma Prefix(f: map<Root, Root>, b: Root, k: nat, t: nat)
    requires Walk(f, b, k).Some? && t <= k
    ensures Walk(f, b, t).Some?
    ensures t < k ==> Walk(f, b, t).value in f && Walk(f, b, t + 1) == Some(f[Walk(f, b, t).value])
  {
    WalkAdd(f, b, t, k - t);
    if t < k {
      WalkAdd(f, b, t, 1);
      assert Walk(f, Walk(f, b, t).value, 1) == Walk(f, b, t + 1);
    }
  }

  /** A walk that ends visits nothing twice. */
  lemma NoRepeat(f: map<Root, Root>, b: Root, h: Root, k: nat, s: nat, t: nat)
    requires h !in f && Walk(f, b, k) == Some(h) && s < t <= k
    ensures Walk(f, b, s) != Walk(f, b, t)
  {
    Prefix(f, b, k, s);
    if Walk(f, b, s) == Walk(f, b, t) {
      WalkAdd(f, b, t, k - t);
      WalkAdd(f, b, s, k - t);
      EndLength(f, b, h, s + (k - t), k);
    }
  }

  ghost predicate OnWay(v: View, from: Root, t: nat) {
    Walk(v.Slow(), from, t).Some? && OnCycle(v.parents, Walk(v.Slow(), from, t).value)
  }

  /** The descent that started on the cycle and ended leaves it at some step. */
  lemma {:induction false} LeavesAt(v: View, from: Root, k: nat) returns (m: nat)
    requires OnCycle(v.parents, from) && Walk(v.Slow(), from, k).Some?
    requires !OnCycle(v.parents, Walk(v.Slow(), from, k).value)
    ensures 0 < m <= k && Walk(v.Slow(), from, m).Some? && !OnCycle(v.parents, Walk(v.Slow(), from, m).value)
    ensures forall t: nat :: t < m ==> OnWay(v, from, t)
    decreases k
  {
    assert Walk(v.Slow(), from, 0) == Some(from);
    if t: nat :| t < k && !OnWay(v, from, t) {
      Prefix(v.Slow(), from, k, t);
      m := LeavesAt(v, from, t);
    } else {
      m := k;
    }
  }

  ghost function Way(v: View, from: Root, m: nat): seq<Root>
    requires forall t: nat :: t < m ==> OnWay(v, from, t)
  {
    seq<Root>(m, t requires 0 <= t < m => assert OnWay(v, from, t); Walk(v.Slow(), from, t).value)
  }

  lemma WayIsPath(v: View, from: Root, h: Root, k: nat, m: nat)
    requires IsComplete(v) && Walk(v.Slow(), from, k) == Some(h) && h !in v.Slow() && 0 < m <= k
    requires forall t: nat :: t < m ==> OnWay(v, from, t)
    ensures CyclePath(v.parents, from, Way(v, from, m))
  {
    var ys := Way(v, from, m);
    forall t: nat | t < m ensures OnCycle(v.parents, ys[t]) {
      assert OnWay(v, from, t);
    }
    forall t: nat | 0 < t < m ensures ys[t] in v.parents && v.parents[ys[t]] == ys[t - 1] {
      Prefix(v.Slow(), from, k, t - 1);
      Chosen(v, ys[t - 1]);
    }
    forall s: nat, t: nat | s < t < m ensures ys[s] != ys[t] {
      assert OnWay(v, from, s) && OnWay(v, from, t);
      NoRepeat(v.Slow(), from, h, k, s, t);
    }
  }

  /** Every step of the way down the cycle is the same. */
  lemma WayStep(v: View, from: Root, h: Root, k: nat, m: nat, t: nat)
    requires IsComplete(v) && !TwoExits(v.parents, v.slots, from)
    requires Walk(v.Slow(), from, k) == Some(h) && h !in v.Slow() && t < m <= k
    requires forall s: nat :: s < m ==> OnWay(v, from, s)
    requires Walk(v.Slow(), from, m).Some? && !OnCycle(v.parents, Walk(v.Slow(), from, m).value)
    ensures Walk(v.Slow(), from, t).Some?
    ensures var b := Walk(v.Slow(), from, t).value; b in v.Slow() && b in v.Fast() && v.Fast()[b] == v.Slow()[b]
  {
    hide View.Slow, View.Fast, OnCycle, Walk, IsComplete, CyclePath, HasTieExit, IsTieExit;
    var slow := v.Slow();
    var ys := Way(v, from, m);
    Prefix(slow, from, k, t);
    Prefix(slow, from, k, m - 1);
    if t == m - 1 {
      ExitStep(v, ys[t]);
    } else if t == m - 2 {
      assert OnWay(v, from, t + 1);
      ThroughStep(v, ys[t]);
    } else {
      WayIsPath(v, from, h, k, m);
      assert OnWay(v, from, m - 1);
      EarlyStep(v, ys, t);
    }
  }

  lemma EarlyStep(v: View, ys: seq<Root>, t: nat)
    requires IsComplete(v) && |ys| > 0 && !TwoExits(v.parents, v.slots, ys[0]) && CyclePath(v.parents, ys[0], ys)
    requires t + 2 < |ys| && ys[t] in v.Slow() && v.Slow()[ys[t]] == ys[t + 1]
    requires ys[|ys| - 1] in v.Slow() && !OnCycle(v.parents, v.Slow()[ys[|ys| - 1]])
    ensures ys[t] in v.Fast() && v.Fast()[ys[t]] == v.Slow()[ys[t]]
  {
    hide View.Slow, View.Fast, OnCycle, Reaches, Referred, IsTieExit;
    var b, x := ys[t], ys[|ys| - 1];
    TakenWinsTies(v, x);
    assert HasTieExit(v.parents, v.slots, x);
    Chosen(v, x);
    PathReaches(v.parents, ys, t);
    CycleClosed(v.parents, x, b);
    forall d | IsExit(v.parents, b, d) ensures Referred(v, d) == 0 {
      OthersWeighNothing(v, x, v.Slow()[x], b, d);
    }
    HeldStep(v, b);
  }

  lemma {:induction false} SameUntil(f: map<Root, Root>, g: map<Root, Root>, from: Root, m: nat)
    requires forall t: nat :: t < m ==> StepsAlike(f, g, from, t)
    ensures Walk(f, from, m) == Walk(g, from, m)
    decreases m
  {
    if m > 0 {
      SameUntil(f, g, from, m - 1);
      assert StepsAlike(f, g, from, m - 1);
      WalkOn(g, from, m - 1, Walk(g, from, m - 1).value);
      WalkOn(f, from, m - 1, Walk(g, from, m - 1).value);
    }
  }

  ghost predicate StepsAlike(f: map<Root, Root>, g: map<Root, Root>, from: Root, t: nat) {
    Walk(g, from, t).Some? && var b := Walk(g, from, t).value; b in g && b in f && f[b] == g[b]
  }

  lemma AgreesFromCycle(v: View, from: Root, h: Root, k: nat, m: nat)
    requires IsComplete(v) && !TwoExits(v.parents, v.slots, from)
    requires Walk(v.Slow(), from, k) == Some(h) && h !in v.Slow() && m <= k
    requires forall s: nat :: s < m ==> OnWay(v, from, s)
    requires Walk(v.Slow(), from, m).Some? && !OnCycle(v.parents, Walk(v.Slow(), from, m).value)
    ensures Returns(v.Fast(), from, h)
  {
    hide View.Slow, View.Fast, OnCycle, Walk, TwoExits;
    forall t: nat | t < m ensures StepsAlike(v.Fast(), v.Slow(), from, t) {
      WayStep(v, from, h, k, m, t);
    }
    SameUntil(v.Fast(), v.Slow(), from, m);
    var a := Walk(v.Slow(), from, m).value;
    WalkAdd(v.Slow(), from, m, k - m);
    assert Reaches(v.Slow(), a, h);
    ConsistentIsOffCycles(v, a);
    HeadIsReferenceHead(v, a, h);
    assert Reaches(v.Fast(), from, a);
    ReachesTrans(v.Fast(), from, a, h);
  }

  lemma Agrees(v: View, from: Root, h: Root)
    requires IsComplete(v) && !TwoExits(v.parents, v.slots, from) && Returns(v.Slow(), from, h)
    ensures Returns(v.Fast(), from, h)
  {
    hide View.Slow, View.Fast, OnCycle, Walk, TwoExits, OnWay;
    if !OnCycle(v.parents, from) {
      ConsistentIsOffCycles(v, from);
      HeadIsReferenceHead(v, from, h);
    } else {
      var k: nat :| Walk(v.Slow(), from, k) == Some(h);
      HeadIsOff(v, h);
      var m := LeavesAt(v, from, k);
      AgreesFromCycle(v, from, h, k, m);
    }
  }

  lemma HeadIsOff(v: View, h: Root)
    requires IsComplete(v) && h !in v.Slow()
    ensures !OnCycle(v.parents, h)
  {
    if OnCycle(v.parents, h) {
      var c := CycleChild(v.parents, h);
      Kid(v, h, c);
    }
  }

  // ── With two exits they can be made to differ ────────────────────────────

  /** One vote, for the far exit. */
  function Split(p: map<Root, Root>, children: map<Root, seq<Root>>, slots: Slots, far: Root): View {
    View(p, children, map[0 := LatestMessage(0, far)], map[0 := 1], slots)
  }

  lemma OneVote(m: map<nat, nat>)
    requires m == map[] || m == map[0 := 1]
    ensures Sum(m) == |m|
  {
    if m == map[0 := 1] {
      SumRemove(m, 0);
      assert m - {0} == map[];
    }
  }

  lemma ReferredSplit(p: map<Root, Root>, children: map<Root, seq<Root>>, slots: Slots, far: Root, x: Root)
    requires far in p && OnCycle(p, p[far])
    ensures Referred(Split(p, children, slots, far), x) == if Reaches(p, far, x) then 1 else 0
  {
    var v := Split(p, children, slots, far);
    var m := Backing(p, v.latest, v.stake, x);
    assert m == if Reaches(p, far, x) then map[0 := 1] else map[];
    OneVote(m);
  }

  lemma AccumulatedSplit(p: map<Root, Root>, children: map<Root, seq<Root>>, slots: Slots, far: Root, x: Root)
    requires far in p && OnCycle(p, p[far]) && x != far && x != p[far]
    ensures Accumulated(Split(p, children, slots, far), x) == 0
  {
    var v := Split(p, children, slots, far);
    if Counted(p, Acyclic(p), far, x) {
      var c :| c in Acyclic(p) && c in p && p[c] == x && Reaches(p, far, c);
      ExitReaches(p, far, c);
    }
    var m := Handed(p, v.latest, v.stake, Acyclic(p), x);
    assert m == map[];
    OneVote(m);
  }

  /** Two exits at least two steps apart, as a path and its ends. */
  ghost predicate Exits(p: map<Root, Root>, slots: Slots, ys: seq<Root>, i: nat, near: Root, far: Root) {
    && |ys| > 0 && CyclePath(p, ys[0], ys) && i + 2 < |ys|
    && IsTieExit(p, slots, ys[i], near) && IsTieExit(p, slots, ys[|ys| - 1], far)
  }

  lemma FarReaches(p: map<Root, Root>, slots: Slots, ys: seq<Root>, i: nat, near: Root, far: Root, t: nat)
    requires Exits(p, slots, ys, i, near, far) && t < |ys|
    ensures Reaches(p, far, ys[t])
  {
    PathReaches(p, ys, t);
    ReachesNext(p, far);
    ReachesTrans(p, far, p[far], ys[t]);
  }

  /** The reference follows the vote down the cycle and out of the far exit. */
  lemma SlowSteps(v: View, ys: seq<Root>, i: nat, near: Root, far: Root, t: nat)
    requires v == Split(v.parents, v.children, v.slots, far) && IsComplete(v)
    requires Exits(v.parents, v.slots, ys, i, near, far) && t < |ys|
    ensures ys[t] in v.Slow() && v.Slow()[ys[t]] == if t + 1 < |ys| then ys[t + 1] else far
  {
    var p, b := v.parents, ys[t];
    var best := if t + 1 < |ys| then ys[t + 1] else far;
    Kid(v, b, best);
    Chosen(v, b);
    ReferredSplit(p, v.children, v.slots, far, best);
    if t + 1 < |ys| { FarReaches(p, v.slots, ys, i, near, far, t + 1); } else { ReachesSelf(p, far); }
    forall k | k in v.children[b] ensures !Beats(v.ReferenceWeights(), v.slots, k, best) {
      Kid(v, b, k);
      ReferredSplit(p, v.children, v.slots, far, k);
      if k != best {
        SiblingLoses(v, ys, i, near, far, t, k);
      }
    }
    hide Beats, View.Slow;
    BestUnique(v.ReferenceWeights(), v.slots, v.children[b], best, v.Slow()[b]);
  }

  lemma SiblingLoses(v: View, ys: seq<Root>, i: nat, near: Root, far: Root, t: nat, k: Root)
    requires Exits(v.parents, v.slots, ys, i, near, far) && t < |ys|
    requires k in v.parents && v.parents[k] == ys[t] && k != if t + 1 < |ys| then ys[t + 1] else far
    ensures Reaches(v.parents, far, k) ==> t + 1 == |ys| && !WinsTie(v.slots, k, far)
  {
    var p := v.parents;
    if Reaches(p, far, k) {
      ExitReaches(p, far, k);
      if t + 1 < |ys| && k != far {
        OneCycleChild(p, k, ys[t + 1]);
      }
    }
  }

  lemma NearKid(p: map<Root, Root>, slots: Slots, ys: seq<Root>, i: nat, near: Root, far: Root, k: Root)
    requires Exits(p, slots, ys, i, near, far) && k in p && p[k] == ys[i]
    ensures k != far && k != p[far]
  {
    hide OnCycle;
    if k == p[far] {
      OneCycleChild(p, k, ys[i + 1]);
    }
  }

  lemma NearWeighs(v: View, ys: seq<Root>, i: nat, near: Root, far: Root, k: Root)
    requires v == Split(v.parents, v.children, v.slots, far) && IsComplete(v)
    requires Exits(v.parents, v.slots, ys, i, near, far)
    requires k in v.parents && v.parents[k] == ys[i]
    ensures Get(v.LeavesFirstWeights(), k) == 0
  {
    hide View.LeavesFirstWeights, Get, OnCycle, Accumulated;
    Kid(v, ys[i], k);
    NearKid(v.parents, v.slots, ys, i, near, far, k);
    AccumulatedSplit(v.parents, v.children, v.slots, far, k);
  }

  /** Down to the near exit the accumulation sees no weight at all, so there the tie is lost by the cycle. */
  lemma NearStep(v: View, ys: seq<Root>, i: nat, near: Root, far: Root)
    requires v == Split(v.parents, v.children, v.slots, far) && IsComplete(v)
    requires Exits(v.parents, v.slots, ys, i, near, far)
    ensures ys[i] in v.Fast() && v.Fast()[ys[i]] != ys[i + 1]
  {
    hide View.LeavesFirstWeights, View.Fast, View.Slow, Get, OnCycle;
    var b := ys[i];
    Kid(v, b, near);
    Chosen(v, b);
    NearWeighs(v, ys, i, near, far, near);
    NearWeighs(v, ys, i, near, far, ys[i + 1]);
    assert Beats(v.LeavesFirstWeights(), v.slots, near, ys[i + 1]);
  }

  lemma FastNext(v: View, ys: seq<Root>, i: nat, near: Root, far: Root, t: nat)
    requires v == Split(v.parents, v.children, v.slots, far) && IsComplete(v)
    requires Exits(v.parents, v.slots, ys, i, near, far) && t <= i
    ensures ys[t] in v.Fast()
    ensures IsExit(v.parents, ys[t], v.Fast()[ys[t]]) || (t < i && v.Fast()[ys[t]] == ys[t + 1])
  {
    hide View.Fast, OnCycle, Walk;
    Kid(v, ys[t], ys[t + 1]);
    FastKid(v, ys[t]);
    if OnCycle(v.parents, v.Fast()[ys[t]]) {
      OneCycleChild(v.parents, v.Fast()[ys[t]], ys[t + 1]);
      if t == i { NearStep(v, ys, i, near, far); }
    }
  }

  /** The accumulation's descent leaves the cycle at the near exit or before it. */
  lemma {:induction false} FastLeaves(v: View, ys: seq<Root>, i: nat, near: Root, far: Root, t: nat)
      returns (s: nat, out: Root)
    requires v == Split(v.parents, v.children, v.slots, far) && IsComplete(v)
    requires Exits(v.parents, v.slots, ys, i, near, far)
    requires t <= i && Walk(v.Fast(), ys[0], t) == Some(ys[t])
    ensures s <= i && Walk(v.Fast(), ys[0], s + 1) == Some(out) && IsExit(v.parents, ys[s], out)
    decreases i - t
  {
    hide View.Fast, OnCycle, Walk, IsComplete, IsExit, CyclePath;
    FastNext(v, ys, i, near, far, t);
    WalkOn(v.Fast(), ys[0], t, ys[t]);
    if IsExit(v.parents, ys[t], v.Fast()[ys[t]]) {
      s, out := t, v.Fast()[ys[t]];
    } else {
      s, out := FastLeaves(v, ys, i, near, far, t + 1);
    }
  }

  lemma FastKid(v: View, b: Root)
    requires IsComplete(v) && b in v.Fast()
    ensures v.Fast()[b] in v.parents && v.parents[v.Fast()[b]] == b
  {
    hide View.LeavesFirstWeights, View.ReferenceWeights, Beats;
    assert b in v.Slow();
    Chosen(v, b);
  }

  /** A descent only ever goes down. */
  lemma {:induction false} FastGoesDown(v: View, b: Root, k: nat, x: Root)
    requires IsComplete(v) && Walk(v.Fast(), b, k) == Some(x)
    ensures Reaches(v.parents, x, b)
    decreases k
  {
    if k == 0 {
      ReachesSelf(v.parents, b);
    } else {
      FastKid(v, b);
      var c := v.Fast()[b];
      FastGoesDown(v, c, k - 1, x);
      ReachesNext(v.parents, c);
      ReachesTrans(v.parents, x, c, b);
    }
  }

  /** Off every cycle the reference descent ends, below where it started. */
  lemma {:induction false} EndsBelow(v: View, b: Root) returns (h: Root)
    requires IsComplete(v) && b in v.parents && !OnCycle(v.parents, b)
    ensures Returns(v.Slow(), b, h) && Reaches(v.parents, h, b)
    decreases |Below(v.parents, b)|
  {
    if b !in v.Slow() {
      ReachesSelf(v.Slow(), b);
      ReachesSelf(v.parents, b);
      h := b;
    } else {
      Chosen(v, b);
      var c := v.Slow()[b];
      ChildOfAcyclic(v.parents, c);
      BelowShrinks(v.parents, c);
      SubsetSmaller(Below(v.parents, c), Below(v.parents, b));
      h := EndsBelow(v, c);
      ReachesNext(v.Slow(), b);
      ReachesTrans(v.Slow(), b, c, h);
      ReachesNext(v.parents, c);
      ReachesTrans(v.parents, h, c, b);
    }
  }

  lemma {:induction false} SlowArrives(v: View, ys: seq<Root>, i: nat, near: Root, far: Root, t: nat)
    requires v == Split(v.parents, v.children, v.slots, far) && IsComplete(v)
    requires Exits(v.parents, v.slots, ys, i, near, far) && t < |ys|
    ensures Reaches(v.Slow(), ys[t], far)
    decreases |ys| - t
  {
    hide View.Slow;
    SlowSteps(v, ys, i, near, far, t);
    ReachesNext(v.Slow(), ys[t]);
    if t + 1 < |ys| {
      SlowArrives(v, ys, i, near, far, t + 1);
      ReachesTrans(v.Slow(), ys[t], ys[t + 1], far);
    }
  }

  lemma Differs(v: View, ys: seq<Root>, i: nat, near: Root, far: Root) returns (h: Root)
    requires v == Split(v.parents, v.children, v.slots, far) && IsComplete(v)
    requires Exits(v.parents, v.slots, ys, i, near, far)
    ensures Returns(v.Slow(), ys[0], h) && !Returns(v.Fast(), ys[0], h)
  {
    hide View.Slow, View.Fast, OnCycle, Walk;
    h := EndsBelow(v, far);
    SlowArrives(v, ys, i, near, far, 0);
    ReachesTrans(v.Slow(), ys[0], far, h);
    WalkNowhere(v.Fast(), ys[0]);
    var s, out := FastLeaves(v, ys, i, near, far, 0);
    if Returns(v.Fast(), ys[0], h) {
      var k: nat :| Walk(v.Fast(), ys[0], k) == Some(h);
      EndLength(v.Fast(), ys[0], h, k, s + 1);
      WalkAdd(v.Fast(), ys[0], s + 1, k - (s + 1));
      FastGoesDown(v, out, k - (s + 1), h);
      ExitsApart(v.parents, far, out, h);
      assert false;
    }
  }

  lemma WalkNowhere(f: map<Root, Root>, b: Root)
    ensures Walk(f, b, 0) == Some(b)
  {
  }

  // ── The exact condition ──────────────────────────────────────────────────

  /** Whatever the votes and the stakes: when the reference returns a head, the accumulation returns it too. */
  ghost predicate AlwaysAgrees(p: map<Root, Root>, children: map<Root, seq<Root>>, slots: Slots, from: Root) {
    forall v: View, h ::
      v.parents == p && v.children == children && v.slots == slots && Returns(v.Slow(), from, h)
      ==> Returns(v.Fast(), from, h)
  }

  lemma TwoExitsDiffer(p: map<Root, Root>, children: map<Root, seq<Root>>, slots: Slots, from: Root)
    requires Complete(p, children) && TwoExits(p, slots, from)
    ensures !AlwaysAgrees(p, children, slots, from)
  {
    hide View.Slow, View.Fast, OnCycle, Returns, IsTieExit;
    var ys, i :| CyclePath(p, from, ys) && 0 <= i && i + 2 < |ys|
              && HasTieExit(p, slots, ys[i]) && HasTieExit(p, slots, ys[|ys| - 1]);
    var near :| IsTieExit(p, slots, ys[i], near);
    var far :| IsTieExit(p, slots, ys[|ys| - 1], far);
    var h := Differs(Split(p, children, slots, far), ys, i, near, far);
  }

  /**
   Under either tie-break the two fork choices agree from a block for every
   set of votes exactly when the cycle through that block, if there is one,
   has no two tie-winning exits at least two steps apart on the way down.
   */
  lemma AgreesExactly(p: map<Root, Root>, children: map<Root, seq<Root>>, slots: Slots, from: Root)
    requires Complete(p, children)
    ensures AlwaysAgrees(p, children, slots, from) <==> !TwoExits(p, slots, from)
  {
    hide View.Slow, View.Fast, TwoExits, Returns;
    if TwoExits(p, slots, from) {
      TwoExitsDiffer(p, children, slots, from);
    } else {
      forall v: View, h | v.parents == p && v.children == children && v.slots == slots && Returns(v.Slow(), from, h)
        ensures Returns(v.Fast(), from, h)
      {
        Agrees(v, from, h);
      }
    }
  }

  /** The same for the bounded descent the node runs: it returns the reference's head on exactly those maps. */
  lemma BoundedAgreesExactly(p: map<Root, Root>, children: map<Root, seq<Root>>, slots: Slots, from: Root)
    requires Complete(p, children)
    ensures (forall v: View, h ::
               v.parents == p && v.children == children && v.slots == slots && Returns(v.Slow(), from, h)
               ==> Descend(v.Fast(), from, Levels(v)) == h)
       <==> !TwoExits(p, slots, from)
  {
    AgreesExactly(p, children, slots, from);
    forall v: View, h | Returns(v.Slow(), from, h)
      ensures Descend(v.Fast(), from, Levels(v)) == h <==> Returns(v.Fast(), from, h)
    {
      assert v.Fast().Keys == v.Slow().Keys;
      BoundIsEnough(v, from, h);
    }
    hide View.Slow, View.Fast, Returns, TwoExits, Descend, Levels;
  }
}
