/** The fork-choice store: latest votes, stakes, barred equivocators, and the two head computations. */
module ForkChoiceStore {
  import opened Basics
  import opened Options
  import opened Sums
  import opened Walks
  import opened ForkChoice
  import Votes

  /** Is `node` equal to `ancestor`, or below it? The walk gives up after a bounded number of steps. */
  method IsDescendantOrSelf(p: map<Root, Root>, node: Root, ancestor: Root) returns (verdict: bool)
    ensures verdict <==> Reaches(p, node, ancestor)
  {
    var cur, steps := node, 0;
    var limit := |p| + 1;
    while true
      invariant 0 <= steps <= limit
      invariant Walk(p, node, steps) == Some(cur)
      invariant forall i: nat :: i < steps ==> Walk(p, node, i) != Some(ancestor)
      decreases limit - steps
    {
      if cur == ancestor {
        return true;
      }
      if cur !in p {
        DeadEnd(p, node, cur, ancestor, steps);
        return false;
      }
      WalkOn(p, node, steps, cur);
      cur := p[cur];
      steps := steps + 1;
      if steps > limit {
        if k: nat :| Walk(p, node, k) == Some(ancestor) {
          var j := ShortWalk(p, node, ancestor, k);
        }
        return false;
      }
    }
  }

  lemma DeadEnd(p: map<Root, Root>, node: Root, cur: Root, ancestor: Root, steps: nat)
    requires Walk(p, node, steps) == Some(cur) && cur !in p && cur != ancestor
    requires forall i: nat :: i < steps ==> Walk(p, node, i) != Some(ancestor)
    ensures !Reaches(p, node, ancestor)
  {
    if k: nat :| Walk(p, node, k) == Some(ancestor) {
      EndLength(p, node, cur, steps, k);
    }
  }

  ghost function DirectTo(latest: map<Validator, LatestMessage>, stake: map<Validator, nat>,
                          seen: set<Validator>, b: Root): map<Validator, nat>
  {
    map v | v in seen && v in latest && latest[v].root == b :: Get(stake, v)
  }

  /** Every block holds its own votes and what the processed blocks have handed up to it. */
  ghost predicate AsHanded(p: map<Root, Root>, latest: map<Validator, LatestMessage>, stake: map<Validator, nat>,
                           weights: map<Root, nat>, done: set<Root>)
  {
    forall b :: Get(weights, b) == Sum(Handed(p, latest, stake, done, b))
  }

  /** Credit every validator's stake to the block it voted for. */
  method DirectWeights(p: map<Root, Root>, latest: map<Validator, LatestMessage>, stake: map<Validator, nat>)
    returns (weights: map<Root, nat>)
    ensures AsHanded(p, latest, stake, weights, {})
  {
    weights := map[];
    var rest := latest.Keys;
    while rest != {}
      invariant rest <= latest.Keys
      invariant forall b :: Get(weights, b) == Sum(DirectTo(latest, stake, latest.Keys - rest, b))
      decreases rest
    {
      var v :| v in rest;
      var r := latest[v].root;
      ghost var seen := latest.Keys - rest;
      assert latest.Keys - (rest - {v}) == seen + {v};
      forall b
        ensures Get(weights[r := Get(weights, r) + Get(stake, v)], b)
             == Sum(DirectTo(latest, stake, seen + {v}, b))
      {
        DirectStep(latest, stake, seen, v, b);
      }
      weights := weights[r := Get(weights, r) + Get(stake, v)];
      rest := rest - {v};
    }
    forall b ensures Get(weights, b) == Sum(Handed(p, latest, stake, {}, b)) {
      assert DirectTo(latest, stake, latest.Keys, b) == Handed(p, latest, stake, {}, b);
      assert latest.Keys - rest == latest.Keys;
    }
  }

  lemma DirectStep(latest: map<Validator, LatestMessage>, stake: map<Validator, nat>,
                   seen: set<Validator>, v: Validator, b: Root)
    requires v in latest && v !in seen
    ensures Sum(DirectTo(latest, stake, seen + {v}, b))
         == Sum(DirectTo(latest, stake, seen, b)) + if latest[v].root == b then Get(stake, v) else 0
  {
    var before := DirectTo(latest, stake, seen, b);
    if latest[v].root == b {
      assert DirectTo(latest, stake, seen + {v}, b) == before[v := Get(stake, v)];
      SumInsert(before, v, Get(stake, v));
    } else {
      assert DirectTo(latest, stake, seen + {v}, b) == before;
    }
  }

  /** The known children of `b` that are not in `done`. */
  ghost function Open(p: map<Root, Root>, done: set<Root>, b: Root): set<Root> {
    set c | c in p && p[c] == b && c !in done
  }

  /** Each block's count of known children that have not handed their weight up yet. */
  ghost predicate Counts(p: map<Root, Root>, pending: map<Root, nat>, done: set<Root>) {
    forall b :: Get(pending, b) == |Open(p, done, b)|
  }

  method PendingCounts(p: map<Root, Root>) returns (pending: map<Root, nat>)
    ensures Counts(p, pending, {})
  {
    pending := map[];
    var rest := p.Keys;
    while rest != {}
      invariant rest <= p.Keys
      invariant forall b :: Get(pending, b) == |Open(p, rest, b)|
      decreases rest
    {
      var c :| c in rest;
      forall b ensures |Open(p, rest - {c}, b)| == |Open(p, rest, b)| + if p[c] == b then 1 else 0 {
        if p[c] == b {
          assert Open(p, rest - {c}, b) == Open(p, rest, b) + {c};
        } else {
          assert Open(p, rest - {c}, b) == Open(p, rest, b);
        }
      }
      pending := pending[p[c] := Get(pending, p[c]) + 1];
      rest := rest - {c};
    }
  }

  method InitiallyReady(p: map<Root, Root>, pending: map<Root, nat>) returns (ready: seq<Root>)
    requires Counts(p, pending, {})
    ensures Accumulating(p, pending, {}, ready)
  {
    ready := [];
    var rest := p.Keys;
    while rest != {}
      invariant rest <= p.Keys && Distinct(ready)
      invariant forall b :: b in ready <==> b in p && b !in rest && Get(pending, b) == 0
      decreases rest
    {
      var b :| b in rest;
      if Get(pending, b) == 0 {
        ready := ready + [b];
      }
      rest := rest - {b};
    }
    InitiallyAccumulating(p, pending, ready);
  }

  ghost predicate Distinct(s: seq<Root>) {
    forall i, j :: 0 <= i < j < |s| ==> s[i] != s[j]
  }

  ghost predicate NoCycles(p: map<Root, Root>, done: set<Root>) {
    forall c :: c in done ==> !OnCycle(p, c)
  }

  ghost function Elements(s: seq<Root>): set<Root> {
    set b | b in s
  }

  /** What the accumulation loop keeps, with the ready stack seen as a set. */
  ghost predicate Sorting(p: map<Root, Root>, pending: map<Root, nat>, done: set<Root>, ready: set<Root>) {
    && (forall c :: c in done ==> c in p && ChildrenDone(p, done, c))
    && NoCycles(p, done)
    && (forall b :: b in ready ==> b in p && b !in done && ChildrenDone(p, done, b))
    && Counts(p, pending, done)
    && (forall b :: b in p && b !in done && b !in ready ==> Get(pending, b) > 0)
  }

  ghost predicate Accumulating(p: map<Root, Root>, pending: map<Root, nat>, done: set<Root>, ready: seq<Root>) {
    Distinct(ready) && Sorting(p, pending, done, Elements(ready))
  }

  /** Only a known parent can itself be released, once nothing below it is pending. */
  function Released(p: map<Root, Root>, front: seq<Root>, parent: Root, left: nat): seq<Root> {
    front + if left == 0 && parent in p then [parent] else []
  }

  lemma OpenAfter(p: map<Root, Root>, done: set<Root>, id: Root, b: Root)
    requires id in p && id !in done
    ensures |Open(p, done + {id}, b)| == |Open(p, done, b)| - if p[id] == b then 1 else 0
  {
    if p[id] == b {
      assert Open(p, done + {id}, b) == Open(p, done, b) - {id};
    } else {
      assert Open(p, done + {id}, b) == Open(p, done, b);
    }
  }

  lemma OpenEmpty(p: map<Root, Root>, done: set<Root>, b: Root)
    ensures |Open(p, done, b)| == 0 <==> ChildrenDone(p, done, b)
  {
    if |Open(p, done, b)| == 0 {
      forall c | c in p && p[c] == b ensures c in done {
        assert c !in Open(p, done, b);
      }
    }
  }

  /** Popping `id` keeps the loop's invariant: its parent's count drops by one and may become ready. */
  lemma AccumulateStep(p: map<Root, Root>, pending: map<Root, nat>, done: set<Root>,
                       ready: seq<Root>, front: seq<Root>, id: Root)
    requires ready != [] && front == ready[..|ready| - 1] && id == ready[|ready| - 1]
    requires Accumulating(p, pending, done, ready)
    ensures id in p && id !in done && ChildrenDone(p, done, id) && !OnCycle(p, id)
    ensures Get(pending, p[id]) > 0 && NoCycles(p, done)
    ensures
      var left := Get(pending, p[id]) - 1;
      Accumulating(p, pending[p[id] := left], done + {id}, Released(p, front, p[id], left))
  {
    hide Sorting;
    assert ready == front + [id];
    SortingStep(p, pending, done, Elements(front + [id]), id);
    PopPush(front, id, p[id]);
  }

  /** The stack after popping `id`, with or without `parent` pushed. */
  lemma PopPush(front: seq<Root>, id: Root, parent: Root)
    requires Distinct(front + [id]) && parent !in front + [id]
    ensures id in Elements(front + [id])
    ensures Distinct(front) && Elements(front + []) == Elements(front + [id]) - {id} + {}
    ensures Distinct(front + [parent]) && Elements(front + [parent]) == Elements(front + [id]) - {id} + {parent}
  {
    assert Elements(front + [id]) == Elements(front) + {id};
    assert Elements(front + [parent]) == Elements(front) + {parent};
    assert front + [] == front;
    StillDistinct(front, id, parent);
  }

  lemma SortingStep(p: map<Root, Root>, pending: map<Root, nat>, done: set<Root>, ready: set<Root>, id: Root)
    requires Sorting(p, pending, done, ready) && id in ready
    ensures id in p && id !in done && ChildrenDone(p, done, id) && !OnCycle(p, id)
    ensures Get(pending, p[id]) > 0 && p[id] !in ready && NoCycles(p, done)
    ensures
      var left := Get(pending, p[id]) - 1;
      Sorting(p, pending[p[id] := left], done + {id}, ready - {id} + if left == 0 && p[id] in p then {p[id]} else {})
  {
    ReadyIsAcyclic(p, done, id);
    CountsAfter(p, pending, done, id);
    OpenEmpty(p, done, p[id]);
    OpenEmpty(p, done + {id}, p[id]);
  }

  lemma CountsAfter(p: map<Root, Root>, pending: map<Root, nat>, done: set<Root>, id: Root)
    requires id in p && id !in done && Counts(p, pending, done)
    ensures Get(pending, p[id]) > 0 && Counts(p, pending[p[id] := Get(pending, p[id]) - 1], done + {id})
  {
    var parent := p[id];
    assert id in Open(p, done, parent);
    var after := pending[parent := Get(pending, parent) - 1];
    forall b ensures Get(after, b) == |Open(p, done + {id}, b)| {
      OpenAfter(p, done, id, b);
    }
  }

  lemma StillDistinct(front: seq<Root>, id: Root, parent: Root)
    requires Distinct(front + [id])
    ensures Distinct(front) && id !in front
    ensures parent !in front ==> Distinct(front + [parent])
  {
    var s := front + [id];
    forall i | 0 <= i < |front| ensures front[i] != id {
      assert s[i] == front[i] && s[|front|] == id;
    }
    forall i, j | 0 <= i < j < |front| ensures front[i] != front[j] {
      assert s[i] == front[i] && s[j] == front[j];
    }
  }

  /** What the accumulation holds after `done`, in one predicate. */
  ghost predicate Holds(p: map<Root, Root>, latest: map<Validator, LatestMessage>, stake: map<Validator, nat>,
                        work: Work, done: set<Root>)
  {
    && Accumulating(p, work.pending, done, work.ready)
    && AsHanded(p, latest, stake, work.weights, done)
  }

  /** The accumulation's three tables. */
  datatype Work = Work(weights: map<Root, nat>, pending: map<Root, nat>, ready: seq<Root>)

  /** Pop one ready block and hand its weight to its parent. */
  method HandOne(p: map<Root, Root>, ghost latest: map<Validator, LatestMessage>, ghost stake: map<Validator, nat>,
                 work: Work, ghost done: set<Root>)
    returns (next: Work, ghost id: Root)
    requires work.ready != [] && Holds(p, latest, stake, work, done)
    ensures id in p && id !in done && Holds(p, latest, stake, next, done + {id})
  {
    var front, top := work.ready[..|work.ready| - 1], work.ready[|work.ready| - 1];
    AccumulateStep(p, work.pending, done, work.ready, front, top);
    HandStep(p, latest, stake, work.weights, done, top);
    var parent := p[top];
    var left := Get(work.pending, parent) - 1;
    next := Work(work.weights[parent := Get(work.weights, parent) + Get(work.weights, top)],
                 work.pending[parent := left],
                 Released(p, front, parent, left));
    id := top;
  }

  /** Total stake resting on each block's subtree, every block at once, leaves first. */
  method SubtreeWeights(p: map<Root, Root>, latest: map<Validator, LatestMessage>, stake: map<Validator, nat>)
    returns (weights: map<Root, nat>)
    ensures AsHanded(p, latest, stake, weights, Acyclic(p))
    ensures forall b :: !OnCycle(p, b) ==> Get(weights, b) == Weight(p, latest, stake, b)
  {
    weights := DirectWeights(p, latest, stake);
    var pending := PendingCounts(p);
    var ready := InitiallyReady(p, pending);
    var work := Work(weights, pending, ready);
    ghost var done: set<Root> := {};
    while work.ready != []
      invariant Holds(p, latest, stake, work, done)
      decreases |p.Keys - done|
    {
      ghost var id;
      work, id := HandOne(p, latest, stake, work, done);
      Smaller(p, done, id);
      done := done + {id};
    }
    weights := work.weights;
    AccumulationEnds(p, latest, stake, weights, work.pending, done);
  }

  lemma Smaller(p: map<Root, Root>, done: set<Root>, id: Root)
    requires id in p && id !in done
    ensures |p.Keys - (done + {id})| < |p.Keys - done|
  {
    assert (p.Keys - done) - {id} == p.Keys - (done + {id});
  }

  lemma AccumulationEnds(p: map<Root, Root>, latest: map<Validator, LatestMessage>, stake: map<Validator, nat>,
                         weights: map<Root, nat>, pending: map<Root, nat>, done: set<Root>)
    requires Accumulating(p, pending, done, []) && AsHanded(p, latest, stake, weights, done)
    ensures AsHanded(p, latest, stake, weights, Acyclic(p))
    ensures forall b :: !OnCycle(p, b) ==> Get(weights, b) == Weight(p, latest, stake, b)
  {
    AllWait(p, pending, done);
    forall b | b in p && !OnCycle(p, b) ensures b in done {
      AcyclicAreDone(p, done, b);
    }
    assert done == Acyclic(p);
    forall b | !OnCycle(p, b) ensures Get(weights, b) == Weight(p, latest, stake, b) {
      AcyclicBelow(p, b);
      HandedIsBacking(p, latest, stake, done, b);
    }
  }

  lemma InitiallyAccumulating(p: map<Root, Root>, pending: map<Root, nat>, ready: seq<Root>)
    requires Distinct(ready)
    requires Counts(p, pending, {})
    requires forall b :: b in ready <==> b in p && Get(pending, b) == 0
    ensures Accumulating(p, pending, {}, ready)
  {
    forall b | b in Elements(ready) ensures b in p && ChildrenDone(p, {}, b) {
      OpenEmpty(p, {}, b);
    }
  }

  lemma HandStep(p: map<Root, Root>, latest: map<Validator, LatestMessage>, stake: map<Validator, nat>,
                 weights: map<Root, nat>, done: set<Root>, id: Root)
    requires id in p && id !in done && ChildrenDone(p, done, id) && !OnCycle(p, id)
    requires NoCycles(p, done)
    requires AsHanded(p, latest, stake, weights, done)
    ensures AsHanded(p, latest, stake, weights[p[id] := Get(weights, p[id]) + Get(weights, id)], done + {id})
  {
    var handed := weights[p[id] := Get(weights, p[id]) + Get(weights, id)];
    forall b ensures Get(handed, b) == Sum(Handed(p, latest, stake, done + {id}, b)) {
      if b == p[id] {
        HandUp(p, latest, stake, done, id);
        HandedIsBacking(p, latest, stake, done, id);
      } else {
        HandElsewhere(p, latest, stake, done, id, b);
      }
    }
  }

  lemma AllWait(p: map<Root, Root>, pending: map<Root, nat>, done: set<Root>)
    requires Accumulating(p, pending, done, [])
    ensures Stuck(p, done)
  {
    forall b | b in p && b !in done ensures Waits(p, done, b) {
      OpenEmpty(p, done, b);
    }
  }

  /** The source's bound on the levels of a descent, one more than the last level it starts. */
  function Levels(v: View): nat {
    |v.parents| + |v.children| + 2
  }

  /**
   The walk from the justified block to the head, one heaviest child at a time, for a bounded number of levels.
   When the reference returns a head this is it exactly when the unbounded fast descent ends there.
   */
  method Head(v: View, justified: Root) returns (current: Root)
    ensures current == Descend(v.Fast(), justified, Levels(v))
    ensures forall h :: Returns(v.Fast(), justified, h) ==> current == h
    ensures forall h :: Returns(v.Slow(), justified, h) ==> (current == h <==> Returns(v.Fast(), justified, h))
    ensures OffCycles(v, justified) ==> forall h :: Returns(v.Slow(), justified, h) ==> current == h
  {
    hide *;
    var weights := SubtreeWeights(v.parents, v.latest, v.stake);
    var limit := |v.parents| + |v.children| + 1;
    var levels: nat := 0;
    current := justified;
    Starting(v, justified);
    while levels <= limit && current in v.children && v.children[current] != []
      invariant levels <= limit + 1
      invariant Walk(v.Fast(), justified, levels) == Some(current)
    {
      var best := PickBest(weights, v.slots, v.children[current]);
      StepAsAccumulated(v, weights, current, best);
      WalkOn(v.Fast(), justified, levels, current);
      levels := levels + 1;
      current := best;
    }
    HeadReturned(v, justified, current, levels);
  }

  lemma Starting(v: View, justified: Root)
    ensures Walk(v.Fast(), justified, 0) == Some(justified) && Levels(v) == |v.parents| + |v.children| + 2
  {
  }

  lemma HeadReturned(v: View, justified: Root, current: Root, levels: nat)
    requires Walk(v.Fast(), justified, levels) == Some(current) && levels <= Levels(v)
    requires !(current in v.children && v.children[current] != []) || levels == Levels(v)
    ensures current == Descend(v.Fast(), justified, Levels(v))
    ensures forall h :: Returns(v.Fast(), justified, h) ==> current == h
    ensures forall h :: Returns(v.Slow(), justified, h) ==> (current == h <==> Returns(v.Fast(), justified, h))
    ensures OffCycles(v, justified) ==> forall h :: Returns(v.Slow(), justified, h) ==> current == h
  {
    DescendIs(v.Fast(), justified, Levels(v), levels, current);
    forall h | h !in v.Fast() ensures current == h <==> Returns(v.Fast(), justified, h) {
      BoundIsEnough(v, justified, h);
    }
    assert v.Fast().Keys == v.Slow().Keys;
    if OffCycles(v, justified) {
      forall h | Returns(v.Slow(), justified, h) ensures current == h {
        HeadIsReferenceHead(v, justified, h);
      }
    }
  }

  /** The level bound never cuts a descent that would have ended, and a descent that never ends stops short of one. */
  lemma BoundIsEnough(v: View, from: Root, h: Root)
    requires h !in v.Fast()
    ensures Descend(v.Fast(), from, Levels(v)) == h <==> Returns(v.Fast(), from, h)
  {
    SubsetAtMost(v.Fast().Keys, v.children.Keys);
    DescendEnds(v.Fast(), from, Levels(v), h);
  }

  lemma StepAsAccumulated(v: View, weights: map<Root, nat>, b: Root, best: Root)
    requires AsHanded(v.parents, v.latest, v.stake, weights, Acyclic(v.parents))
    requires b in v.children && v.children[b] != [] && IsBest(weights, v.slots, v.children[b], best)
    ensures b in v.Fast() && v.Fast()[b] == best
  {
    var kids := v.children[b];
    forall c | c in kids ensures Get(weights, c) == Get(v.LeavesFirstWeights(), c) {
      assert c in v.Mentioned();
    }
    BestCongruent(weights, v.LeavesFirstWeights(), v.slots, kids);
    BestUnique(weights, v.slots, kids, best, BestChild(weights, v.slots, kids));
  }

  ghost function BackingAmong(p: map<Root, Root>, latest: map<Validator, LatestMessage>, stake: map<Validator, nat>,
                              seen: set<Validator>, b: Root): map<Validator, nat>
  {
    map v | v in seen && v in latest && Reaches(p, latest[v].root, b) :: Get(stake, v)
  }

  lemma BackingStep(p: map<Root, Root>, latest: map<Validator, LatestMessage>, stake: map<Validator, nat>,
                    seen: set<Validator>, v: Validator, b: Root)
    requires v in latest && v !in seen
    ensures Sum(BackingAmong(p, latest, stake, seen + {v}, b))
         == Sum(BackingAmong(p, latest, stake, seen, b)) + if Reaches(p, latest[v].root, b) then Get(stake, v) else 0
  {
    var before := BackingAmong(p, latest, stake, seen, b);
    if Reaches(p, latest[v].root, b) {
      assert BackingAmong(p, latest, stake, seen + {v}, b) == before[v := Get(stake, v)];
      SumInsert(before, v, Get(stake, v));
    } else {
      assert BackingAmong(p, latest, stake, seen + {v}, b) == before;
    }
  }

  /** Latest votes, the stake behind each validator, and the validators barred for equivocating. */
  class Store {
    var latest: map<Validator, LatestMessage>
    var stake: map<Validator, nat>
    var equivocators: set<Validator>

    ghost predicate Valid()
      reads this
    {
      equivocators !! latest.Keys
    }

    ghost function RecordOf(v: Validator): Votes.Record
      reads this
    {
      if v in equivocators then Votes.Barred
      else if v in latest then Votes.Retained(latest[v])
      else Votes.Unseen
    }

    constructor ()
      ensures Valid() && latest == map[] && stake == map[] && equivocators == {}
    {
      latest, stake, equivocators := map[], map[], {};
    }

    method SetStake(validator: Validator, effectiveStake: nat)
      modifies this`stake
      ensures stake == old(stake)[validator := effectiveStake]
    {
      stake := stake[validator := effectiveStake];
    }

    /** Record a vote; the answer says whether it is now the validator's retained vote. */
    method Observe(validator: Validator, msg: LatestMessage) returns (retained: bool)
      requires Valid()
      modifies this`latest, this`equivocators
      ensures Valid()
      ensures forall v :: RecordOf(v)
                       == if v == validator then Votes.Observe(old(RecordOf(v)), msg) else old(RecordOf(v))
      ensures retained
         <==> RecordOf(validator) == Votes.Retained(msg) && old(RecordOf(validator)) != Votes.Retained(msg)
    {
      if validator in equivocators {
        return false;
      }
      if validator in latest {
        var prev := latest[validator];
        if prev.slot == msg.slot && prev.root != msg.root {
          latest := latest - {validator};
          equivocators := equivocators + {validator};
          return false;
        }
        if prev.slot >= msg.slot {
          return false;
        }
      }
      latest := latest[validator := msg];
      return true;
    }

    /** Total stake whose latest vote is `root` or a descendant of it, one walk per vote. */
    method WeightOf(parents: map<Root, Root>, root: Root) returns (total: nat)
      ensures total == Weight(parents, latest, stake, root)
    {
      total := 0;
      var rest := latest.Keys;
      while rest != {}
        invariant rest <= latest.Keys
        invariant total == Sum(BackingAmong(parents, latest, stake, latest.Keys - rest, root))
        decreases rest
      {
        var v :| v in rest;
        var below := IsDescendantOrSelf(parents, latest[v].root, root);
        BackingStep(parents, latest, stake, latest.Keys - rest, v, root);
        assert latest.Keys - (rest - {v}) == latest.Keys - rest + {v};
        if below {
          total := total + Get(stake, v);
        }
        rest := rest - {v};
      }
      assert BackingAmong(parents, latest, stake, latest.Keys - rest, root) == Backing(parents, latest, stake, root);
    }

    /** The fork choice over this store's votes. */
    method HeadFrom(parents: map<Root, Root>, justified: Root, children: map<Root, seq<Root>>,
                    slots: Option<map<Root, nat>>)
      returns (head: Root)
      ensures
        var v := View(parents, children, latest, stake, slots);
        && (OffCycles(v, justified) ==> forall h :: Returns(v.Slow(), justified, h) ==> head == h)
        && forall h :: Returns(v.Slow(), justified, h) ==> (head == h <==> Returns(v.Fast(), justified, h))
    {
      head := Head(View(parents, children, latest, stake, slots), justified);
    }
  }
}
