/**
 LMD-GHOST fork choice (crates/bloch-pos-committee/src/forkchoice.rs).

 The reference algorithm weighs a block by walking every latest vote towards
 the roots. The shipped one accumulates subtree weights once, leaves first.
 This module proves the second computes the first's numbers and its head.
 Block roots are 256-bit values ordered as big-endian numbers.
 */
module ForkChoice {
  import opened Basics
  import opened Options
  import opened Sums
  import opened Walks

  datatype LatestMessage = LatestMessage(slot: nat, root: Root)

  // ── The reference weight of a block ──────────────────────────────────────

  /** Every vote cast for `b` or a descendant of it, with the stake behind it. */
  ghost function Backing(p: map<Root, Root>, latest: map<Validator, LatestMessage>,
                         stake: map<Validator, nat>, b: Root): map<Validator, nat>
  {
    map v | v in latest && Reaches(p, latest[v].root, b) :: Get(stake, v)
  }

  ghost function Weight(p: map<Root, Root>, latest: map<Validator, LatestMessage>,
                        stake: map<Validator, nat>, b: Root): nat
  {
    Sum(Backing(p, latest, stake, b))
  }

  // ── Leaves-first accumulation ────────────────────────────────────────────

  /** Does a vote for `r` already count at `b` once the blocks in `done` have handed their weight up? */
  ghost predicate Counted(p: map<Root, Root>, done: set<Root>, r: Root, b: Root) {
    r == b || exists c :: c in done && c in p && p[c] == b && Reaches(p, r, c)
  }

  ghost function Handed(p: map<Root, Root>, latest: map<Validator, LatestMessage>,
                        stake: map<Validator, nat>, done: set<Root>, b: Root): map<Validator, nat>
  {
    map v | v in latest && Counted(p, done, latest[v].root, b) :: Get(stake, v)
  }

  ghost predicate ChildrenDone(p: map<Root, Root>, done: set<Root>, b: Root) {
    forall c :: c in p && p[c] == b ==> c in done
  }

  /** Once every child of `b` has handed its weight up, `b` holds exactly its reference weight. */
  lemma HandedIsBacking(p: map<Root, Root>, latest: map<Validator, LatestMessage>,
                        stake: map<Validator, nat>, done: set<Root>, b: Root)
    requires ChildrenDone(p, done, b)
    ensures Handed(p, latest, stake, done, b) == Backing(p, latest, stake, b)
  {
    forall v | v in latest
      ensures Counted(p, done, latest[v].root, b) <==> Reaches(p, latest[v].root, b)
    {
      var r := latest[v].root;
      if Counted(p, done, r, b) {
        if r == b {
          ReachesSelf(p, b);
        } else {
          var c :| c in done && c in p && p[c] == b && Reaches(p, r, c);
          ReachesNext(p, c);
          ReachesTrans(p, r, c, b);
        }
      }
      if Reaches(p, r, b) && r != b {
        var c := LastChild(p, r, b);
      }
    }
  }

  /** Handing an acyclic block's weight to its parent adds each of its votes there exactly once. */
  lemma HandUp(p: map<Root, Root>, latest: map<Validator, LatestMessage>,
               stake: map<Validator, nat>, done: set<Root>, id: Root)
    requires id in p && id !in done && !OnCycle(p, id)
    requires forall c :: c in done ==> !OnCycle(p, c)
    ensures Sum(Handed(p, latest, stake, done + {id}, p[id]))
         == Sum(Handed(p, latest, stake, done, p[id])) + Weight(p, latest, stake, id)
  {
    var b := p[id];
    var before, moved := Handed(p, latest, stake, done, b), Backing(p, latest, stake, id);
    forall v | v in latest
      ensures !(v in before && v in moved)
    {
      if v in before && v in moved {
        Exclusive(p, done, latest[v].root, id);
      }
    }
    assert Handed(p, latest, stake, done + {id}, b) == before + moved;
    SumUnion(before, moved);
  }

  lemma Exclusive(p: map<Root, Root>, done: set<Root>, r: Root, id: Root)
    requires id in p && id !in done && !OnCycle(p, id)
    requires forall c :: c in done ==> !OnCycle(p, c)
    requires Reaches(p, r, id)
    ensures !Counted(p, done, r, p[id])
  {
    if Counted(p, done, r, p[id]) {
      if r == p[id] {
        ParentReachesChild(p, id);
      } else {
        var c :| c in done && c in p && p[c] == p[id] && Reaches(p, r, c);
        SiblingsApart(p, r, c, id);
      }
    }
  }

  lemma HandElsewhere(p: map<Root, Root>, latest: map<Validator, LatestMessage>,
                      stake: map<Validator, nat>, done: set<Root>, id: Root, b: Root)
    requires id in p && p[id] != b
    ensures Handed(p, latest, stake, done + {id}, b) == Handed(p, latest, stake, done, b)
  {
  }

  /** The blocks whose walk passes through `b`. */
  ghost function Below(p: map<Root, Root>, b: Root): set<Root> {
    set n | n in p && Reaches(p, n, b)
  }

  /** A child outside any cycle has strictly fewer blocks below it. */
  lemma BelowShrinks(p: map<Root, Root>, c: Root)
    requires c in p && p[c] in p && !OnCycle(p, c)
    ensures Below(p, c) < Below(p, p[c])
  {
    ReachesNext(p, c);
    forall n | n in Below(p, c) ensures n in Below(p, p[c]) {
      ReachesTrans(p, n, c, p[c]);
    }
    ReachesSelf(p, p[c]);
    if p[c] in Below(p, c) {
      ParentReachesChild(p, c);
    }
  }

  /** The loop's stopping condition: nothing is ready, so every unprocessed block waits for an unprocessed child. */
  ghost predicate Stuck(p: map<Root, Root>, done: set<Root>) {
    forall b {:trigger Waits(p, done, b)} :: b in p && b !in done ==> Waits(p, done, b)
  }

  ghost predicate Waits(p: map<Root, Root>, done: set<Root>, b: Root) {
    exists c :: c in p && p[c] == b && c !in done
  }

  /** A block left unprocessed at the end is on a cycle of parents. */
  lemma {:induction false} AcyclicAreDone(p: map<Root, Root>, done: set<Root>, b: Root)
    requires Stuck(p, done) && b in p && !OnCycle(p, b)
    ensures b in done
    decreases |Below(p, b)|
  {
    if b !in done {
      assert Waits(p, done, b);
      var c :| c in p && p[c] == b && c !in done;
      if OnCycle(p, c) {
        ReachesNext(p, c);
        CycleClosed(p, c, b);
      } else {
        BelowShrinks(p, c);
        SubsetSmaller(Below(p, c), Below(p, b));
        AcyclicAreDone(p, done, c);
      }
    }
  }

  lemma SubsetSmaller(a: set<Root>, b: set<Root>)
    requires a < b
    ensures |a| < |b|
  {
    var x :| x in b && x !in a;
    assert a <= b - {x};
    SubsetAtMost(a, b - {x});
  }

  /** A block whose children are all processed, none of them on a cycle, is itself on no cycle. */
  lemma ReadyIsAcyclic(p: map<Root, Root>, done: set<Root>, b: Root)
    requires ChildrenDone(p, done, b)
    requires forall c :: c in done ==> !OnCycle(p, c)
    ensures !OnCycle(p, b)
  {
    if OnCycle(p, b) {
      var k: nat :| k > 0 && Walk(p, b, k) == Some(b);
      WalkAdd(p, b, k - 1, 1);
      var c := Walk(p, b, k - 1).value;
      assert Walk(p, c, 1) == Some(b);
      assert Reaches(p, b, c);
      CycleClosed(p, b, c);
    }
  }

  // ── The descent ──────────────────────────────────────────────────────────

  /** Does child `x` beat child `y`? Heavier first, then the earlier slot when slots are given, then the larger root. */
  predicate Beats(w: map<Root, nat>, slots: Option<map<Root, nat>>, x: Root, y: Root) {
    Get(w, x) > Get(w, y) || (Get(w, x) == Get(w, y) && WinsTie(slots, x, y))
  }

  predicate WinsTie(slots: Option<map<Root, nat>>, x: Root, y: Root) {
    match slots
    case None => x > y
    case Some(at) => SlotOf(at, x) < SlotOf(at, y) || (SlotOf(at, x) == SlotOf(at, y) && x > y)
  }

  const NO_SLOT: nat := 0xFFFF_FFFF_FFFF_FFFF

  function SlotOf(at: map<Root, nat>, b: Root): nat {
    if b in at then at[b] else NO_SLOT
  }

  /** The winner among siblings: one of them, and no sibling beats it. */
  ghost predicate IsBest(w: map<Root, nat>, slots: Option<map<Root, nat>>, kids: seq<Root>, best: Root) {
    best in kids && forall k :: k in kids ==> !Beats(w, slots, k, best)
  }

  lemma BestUnique(w: map<Root, nat>, slots: Option<map<Root, nat>>, kids: seq<Root>, a: Root, b: Root)
    requires IsBest(w, slots, kids, a) && IsBest(w, slots, kids, b)
    ensures a == b
  {
  }

  /** `x` is known to be of an earlier slot than `y`; a block without a slot counts as the latest. */
  predicate Precedes(at: map<Root, nat>, x: Root, y: Root) {
    x in at && (y in at ==> at[x] < at[y])
  }

  /** The winner is the heaviest sibling; of the heaviest the earliest, if slots are given; of those the largest. */
  lemma BestExactly(w: map<Root, nat>, slots: Option<map<Root, nat>>, kids: seq<Root>, best: Root)
    requires slots.Some? ==> forall b :: b in slots.value ==> slots.value[b] < NO_SLOT
    ensures IsBest(w, slots, kids, best)
       <==> && best in kids
            && (forall k :: k in kids ==> Get(w, k) <= Get(w, best))
            && (slots.Some? ==> forall k :: k in kids && Get(w, k) == Get(w, best) ==> !Precedes(slots.value, k, best))
            && (forall k :: k in kids && Get(w, k) == Get(w, best) && k > best ==>
                  slots.Some? && Precedes(slots.value, best, k))
  {
    if IsBest(w, slots, kids, best) {
      forall k | k in kids ensures !Beats(w, slots, k, best) {}
    }
  }

  method PickBest(w: map<Root, nat>, slots: Option<map<Root, nat>>, kids: seq<Root>) returns (best: Root)
    requires kids != []
    ensures IsBest(w, slots, kids, best)
  {
    best := kids[0];
    var i := 1;
    while i < |kids|
      invariant 1 <= i <= |kids|
      invariant IsBest(w, slots, kids[..i], best)
    {
      assert kids[..i + 1] == kids[..i] + [kids[i]];
      if Beats(w, slots, kids[i], best) {
        best := kids[i];
      }
      i := i + 1;
    }
    assert kids[..i] == kids;
  }

  ghost function BestChild(w: map<Root, nat>, slots: Option<map<Root, nat>>, kids: seq<Root>): (best: Root)
    requires kids != []
    ensures IsBest(w, slots, kids, best)
  {
    var last := kids[|kids| - 1];
    if |kids| == 1 then last
    else
      var best := BestChild(w, slots, kids[..|kids| - 1]);
      assert kids == kids[..|kids| - 1] + [last];
      if Beats(w, slots, last, best) then last else best
  }

  // ── The two heads ────────────────────────────────────────────────────────

  /** Everything a fork choice reads: known parents, listed children, latest votes, stakes, optional slots. */
  datatype View = View(
    parents: map<Root, Root>,
    children: map<Root, seq<Root>>,
    latest: map<Validator, LatestMessage>,
    stake: map<Validator, nat>,
    slots: Option<map<Root, nat>>)
  {
    ghost function Mentioned(): set<Root> {
      set b, c | b in children && c in children[b] :: c
    }

    /** The weights the reference algorithm asks for, one query per sibling. */
    ghost function ReferenceWeights(): map<Root, nat> {
      map c | c in Mentioned() :: Weight(parents, latest, stake, c)
    }

    /** The weights the leaves-first accumulation ends with: cycle members never hand theirs up. */
    ghost function LeavesFirstWeights(): map<Root, nat> {
      map c | c in Mentioned() :: Sum(Handed(parents, latest, stake, Acyclic(parents), c))
    }

    /** One descent step from every block that has children, under the given weights. */
    ghost function Descent(w: map<Root, nat>): map<Root, Root> {
      map b | b in children && children[b] != [] :: BestChild(w, slots, children[b])
    }

    ghost function Slow(): map<Root, Root> { Descent(ReferenceWeights()) }

    ghost function Fast(): map<Root, Root> { Descent(LeavesFirstWeights()) }

    /** The children map lists only blocks whose recorded parent is the block they are listed under. */
    ghost predicate Consistent() {
      forall b, c :: b in children && c in children[b] ==> c in parents && parents[c] == b
    }
  }

  ghost function Acyclic(p: map<Root, Root>): set<Root> {
    set b | b in p && !OnCycle(p, b)
  }

  /** What the unbounded descent returns, when it returns: a childless block below `from`. */
  ghost predicate Returns(next: map<Root, Root>, from: Root, head: Root) {
    Reaches(next, from, head) && head !in next
  }

  lemma BestCongruent(w: map<Root, nat>, u: map<Root, nat>, slots: Option<map<Root, nat>>, kids: seq<Root>)
    requires kids != [] && forall k :: k in kids ==> Get(w, k) == Get(u, k)
    ensures BestChild(w, slots, kids) == BestChild(u, slots, kids)
  {
    var b := BestChild(w, slots, kids);
    assert IsBest(u, slots, kids, b);
    BestUnique(u, slots, kids, b, BestChild(u, slots, kids));
  }

  /** Where no listed child is on a cycle both algorithms see the same numbers, so they take the same child. */
  lemma SameStep(v: View, b: Root)
    requires b in v.children && v.children[b] != []
    requires forall c :: c in v.children[b] ==> !OnCycle(v.parents, c)
    ensures v.Fast()[b] == v.Slow()[b]
  {
    var kids := v.children[b];
    forall c | c in kids ensures Get(v.LeavesFirstWeights(), c) == Get(v.ReferenceWeights(), c) {
      AcyclicBelow(v.parents, c);
      HandedIsBacking(v.parents, v.latest, v.stake, Acyclic(v.parents), c);
      assert c in v.Mentioned();
    }
    BestCongruent(v.LeavesFirstWeights(), v.ReferenceWeights(), v.slots, kids);
  }

  lemma ChildOfAcyclic(p: map<Root, Root>, c: Root)
    requires c in p && !OnCycle(p, p[c])
    ensures !OnCycle(p, c)
  {
    if OnCycle(p, c) {
      ReachesNext(p, c);
      CycleClosed(p, c, p[c]);
    }
  }

  lemma AcyclicBelow(p: map<Root, Root>, b: Root)
    requires !OnCycle(p, b)
    ensures ChildrenDone(p, Acyclic(p), b)
  {
    forall c | c in p && p[c] == b ensures c in Acyclic(p) {
      ChildOfAcyclic(p, c);
    }
  }

  /** Listed k levels below `from`, whatever the recorded parents say. */
  ghost predicate ListedBelow(v: View, from: Root, k: nat, c: Root) {
    if k == 0 then c == from
    else exists b :: ListedBelow(v, from, k - 1, b) && b in v.children && c in v.children[b]
  }

  ghost predicate Listed(v: View, from: Root, c: Root) {
    exists k: nat :: ListedBelow(v, from, k, c)
  }

  /** No block listed anywhere below `from` lies on a cycle of parents. */
  ghost predicate OffCycles(v: View, from: Root) {
    forall k: nat, c :: k > 0 && ListedBelow(v, from, k, c) ==> !OnCycle(v.parents, c)
  }

  /** The fast head is the reference head for every children map that lists no block on a cycle of parents. */
  lemma HeadIsReferenceHead(v: View, justified: Root, head: Root)
    requires OffCycles(v, justified)
    ensures Returns(v.Fast(), justified, head) <==> Returns(v.Slow(), justified, head)
  {
    var fast, slow, below := v.Fast(), v.Slow(), iset b: Root | Listed(v, justified, b);
    forall b | b in below ensures (b in fast <==> b in slow) && (b in fast ==> fast[b] == slow[b] && fast[b] in below) {
      if b in fast {
        var k: nat :| ListedBelow(v, justified, k, b);
        forall c | c in v.children[b] ensures !OnCycle(v.parents, c) && c in below {
          assert ListedBelow(v, justified, k + 1, c);
        }
        SameStep(v, b);
        assert BestChild(v.LeavesFirstWeights(), v.slots, v.children[b]) in v.children[b];
      }
    }
    assert ListedBelow(v, justified, 0, justified);
    assert fast.Keys == slow.Keys;
    hide OnCycle, Walk, OffCycles;
    forall k: nat ensures Walk(fast, justified, k) == Walk(slow, justified, k) {
      SameWalks(fast, slow, below, justified, k);
    }
  }

  /** A children map that agrees with the parents lists none below a block that is on none. */
  lemma ConsistentIsOffCycles(v: View, from: Root)
    requires v.Consistent() && !OnCycle(v.parents, from)
    ensures OffCycles(v, from)
  {
    forall k: nat, c | ListedBelow(v, from, k, c) ensures !OnCycle(v.parents, c) {
      ListedIsOff(v, from, k, c);
    }
  }

  lemma {:induction false} ListedIsOff(v: View, from: Root, k: nat, c: Root)
    requires v.Consistent() && !OnCycle(v.parents, from) && ListedBelow(v, from, k, c)
    ensures !OnCycle(v.parents, c)
    decreases k
  {
    if k > 0 {
      var b :| ListedBelow(v, from, k - 1, b) && b in v.children && c in v.children[b];
      ListedIsOff(v, from, k - 1, b);
      ChildOfAcyclic(v.parents, c);
    }
  }
}
