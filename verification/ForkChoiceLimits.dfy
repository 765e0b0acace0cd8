/**
 Where the fork choice stops agreeing with its description: the leaves-first
 head when the justified root lies on a cycle of a corrupt parent map.
 */
module ForkChoiceLimits {
  import opened Basics
  import opened Options
  import opened Sums
  import opened Walks
  import opened ForkChoice

  /** Blocks 0, 1, 2 are each other's parents; 3 hangs off 0 and 4 off 2; the only vote is for 4. */
  const LOOPED: map<Root, Root> := map[0 := 2, 1 := 0, 2 := 1, 3 := 0, 4 := 2]

  const ONE_VOTE: map<Validator, LatestMessage> := map[7 := LatestMessage(9, 4)]

  function CorruptView(): View {
    View(LOOPED, map[0 := [1, 3], 1 := [2], 2 := [0, 4]], ONE_VOTE, map[7 := 1], None)
  }

  lemma {:induction false} StaysIn(p: map<Root, Root>, s: set<Root>, n: Root, k: nat)
    requires n in s && forall b :: b in s && b in p ==> p[b] in s
    ensures Walk(p, n, k).Some? ==> Walk(p, n, k).value in s
    decreases k
  {
    if k > 0 && n in p {
      StaysIn(p, s, p[n], k - 1);
    }
  }

  lemma LoopedReaches()
    ensures Reaches(LOOPED, 4, 1) && Reaches(LOOPED, 4, 0) && Reaches(LOOPED, 4, 4) && !Reaches(LOOPED, 4, 3)
  {
    ReachesSelf(LOOPED, 4);
    ReachesNext(LOOPED, 4);
    ReachesNext(LOOPED, 2);
    ReachesNext(LOOPED, 1);
    ReachesTrans(LOOPED, 4, 2, 1);
    ReachesTrans(LOOPED, 4, 1, 0);
    forall k: nat ensures Walk(LOOPED, 4, k) != Some(3) {
      StaysIn(LOOPED, {0, 1, 2, 4}, 4, k);
    }
  }

  lemma LoopedCycle()
    ensures OnCycle(LOOPED, 2) && OnCycle(LOOPED, 0)
  {
    ReachesNext(LOOPED, 2);
    ReachesNext(LOOPED, 1);
    ReachesTrans(LOOPED, 2, 1, 0);
    assert LOOPED[0] == 2;
    ReachesNext(LOOPED, 0);
    ParentReachesChild(LOOPED, 0);
  }

  lemma SingleVote(m: map<Validator, nat>)
    ensures m == map[7 := 1] ==> Sum(m) == 1
    ensures m == map[] ==> Sum(m) == 0
  {
    if m == map[7 := 1] {
      SumRemove(m, 7);
      assert m - {7} == map[];
    }
  }

  lemma CorruptMentions()
    ensures CorruptView().Mentioned() == {0, 1, 2, 3, 4}
  {
    var v := CorruptView();
    assert 1 in v.children[0] && 3 in v.children[0] && 2 in v.children[1] && 0 in v.children[2] && 4 in v.children[2];
    forall c ensures c in v.Mentioned() <==> c in {0, 1, 2, 3, 4} {
      assert c in v.children[0] || c in v.children[1] || c in v.children[2] <==> c in {0, 1, 2, 3, 4};
    }
  }

  /** The reference algorithm sees the vote at every block of the cycle. */
  lemma CorruptReference()
    ensures var w := CorruptView().ReferenceWeights(); Get(w, 1) == Get(w, 0) == Get(w, 4) == 1 && Get(w, 3) == 0
  {
    var v := CorruptView();
    CorruptMentions();
    LoopedReaches();
    forall b: Root | b in {0, 1, 4} ensures Backing(LOOPED, ONE_VOTE, v.stake, b) == map[7 := 1] {
    }
    assert Backing(LOOPED, ONE_VOTE, v.stake, 3) == map[];
    SingleVote(map[7 := 1]);
    SingleVote(map[]);
  }

  lemma NotHanded(b: Root)
    requires b in {1, 3}
    ensures Handed(LOOPED, ONE_VOTE, CorruptView().stake, Acyclic(LOOPED), b) == map[]
  {
    LoopedCycle();
    hide Reaches, OnCycle;
    assert !Counted(LOOPED, Acyclic(LOOPED), 4, b);
  }

  /** The accumulation never hands the vote past block 2, which waits for itself. */
  lemma CorruptLeavesFirst()
    ensures var w := CorruptView().LeavesFirstWeights(); Get(w, 1) == 0 && Get(w, 3) == 0
  {
    CorruptMentions();
    NotHanded(1);
    NotHanded(3);
    hide Handed, Acyclic, View.Mentioned;
    SingleVote(map[]);
  }

  lemma SlowPath(v: View)
    requires v == CorruptView()
    ensures v.Slow().Keys == {0, 1, 2} && v.Slow()[0] == 1 && v.Slow()[1] == 2 && v.Slow()[2] == 4
  {
    CorruptReference();
    var w := v.ReferenceWeights();
    hide Get, View.ReferenceWeights;
    BestUnique(w, None, [1, 3], BestChild(w, None, [1, 3]), 1);
    BestUnique(w, None, [2], BestChild(w, None, [2]), 2);
    BestUnique(w, None, [0, 4], BestChild(w, None, [0, 4]), 4);
  }

  lemma FastPath(v: View)
    requires v == CorruptView()
    ensures v.Fast().Keys == {0, 1, 2} && v.Fast()[0] == 3
  {
    CorruptLeavesFirst();
    var w := v.LeavesFirstWeights();
    hide Get, View.LeavesFirstWeights;
    BestUnique(w, None, [1, 3], BestChild(w, None, [1, 3]), 3);
  }

  /** With the justified root on a cycle of three blocks the two algorithms return different heads. */
  lemma HeadsDifferOnCycle()
    ensures CorruptView().Consistent() && OnCycle(LOOPED, 0)
    ensures Returns(CorruptView().Slow(), 0, 4) && Returns(CorruptView().Fast(), 0, 3)
  {
    hide View.Slow, View.Fast, View.Consistent, OnCycle, Reaches;
    LoopedCycle();
    CorruptConsistent();
    SlowPath(CorruptView());
    FastPath(CorruptView());
    ThreeSteps(CorruptView().Slow());
    ReachesNext(CorruptView().Fast(), 0);
  }

  lemma CorruptConsistent()
    ensures CorruptView().Consistent()
  {
    var v := CorruptView();
    forall b, c | b in v.children && c in v.children[b] ensures c in v.parents && v.parents[c] == b {
      assert b == 0 || b == 1 || b == 2;
      assert c == 0 || c == 1 || c == 2 || c == 3 || c == 4;
    }
  }

  lemma ThreeSteps(next: map<Root, Root>)
    requires next.Keys == {0, 1, 2} && next[0] == 1 && next[1] == 2 && next[2] == 4
    ensures Reaches(next, 0, 4)
  {
    ReachesNext(next, 0);
    ReachesNext(next, 1);
    ReachesNext(next, 2);
    ReachesTrans(next, 0, 1, 2);
    ReachesTrans(next, 0, 2, 4);
  }
}
