/**
 When two sides of a split network part for good
 (crates/bloch-pos-committee/src/finality.rs, params.rs): before the recovery
 gate always, from it on exactly if both hold about a third of the stake, and
 under the frozen set never.
 */
module FinalityRegimes {
  import opened Basics
  import opened Sums
  import opened Finality
  import opened FinalitySafety
  import opened AccountableSafety
  import opened FinalitySplit
  import opened FinalityRecovery

  /** Both finalize past where they parted, neither justifies what the other finalized, and nobody votes on both. */
  ghost predicate Apart(r: Rules, s: State, g: seq<Event>, h: seq<Event>) {
    && NoCommonVoter(g, h) && Run(r, s, g).Some? && Run(r, s, h).Some?
    && Parted(s, Run(r, s, g).value, Run(r, s, h).value)
  }

  ghost predicate Parted(s: State, t: State, u: State) {
    && s.nextEpoch <= t.finalized.epoch && s.nextEpoch <= u.finalized.epoch
    && !t.IsJustified(u.finalized) && !u.IsJustified(t.finalized)
  }

  ghost predicate PartAfter(r: Rules, s: State, active: seq<Member>, a: set<Validator>, b: set<Validator>,
                            left: Branch, right: Branch, m: nat, n: nat)
  {
    Apart(r, s, SideHistory(r, s, active, a, left, m), SideHistory(r, s, active, b, right, n))
  }

  /** The two sides, each voting alone for its branch, come to finalize in conflict. */
  ghost predicate SidesPart(r: Rules, s: State, active: seq<Member>, a: set<Validator>, b: set<Validator>,
                            left: Branch, right: Branch)
  {
    exists m: nat, n: nat :: PartAfter(r, s, active, a, b, left, right, m, n)
  }

  // ── What a side justifies is its own ─────────────────────────────────────

  lemma SideJustifies(r: Rules, s: State, active: seq<Member>, side: set<Validator>, root: Root)
    requires Sound(s) && OwnOk(s) && !Frozen(r, s.nextEpoch)
    ensures var t := NextState(r, s, active, side, root);
            t.justified == s.justified || t.justified == s.justified[s.nextEpoch := root]
  {
    var begun := RecordOwn(s, s.nextEpoch, root);
    BoundaryReadies(s, root);
    SideWinner(r, begun, active, side, root);
    hide Leaks, Winner, Strong, CloseSets, NewFinalized;
  }

  /** Sound, as far on as it should be, with only its own branch's checkpoints since s. */
  ghost predicate OnBranch(s: State, t: State, branch: Branch, n: nat) {
    && Sound(t) && OwnOk(t) && t.nextEpoch == s.nextEpoch + n
    && (forall e :: e in t.justified && e !in s.justified ==> s.nextEpoch <= e && t.justified[e] == branch(e))
    && s.currentJustified.epoch <= t.currentJustified.epoch
    && (t.finalized == s.finalized || s.currentJustified.epoch <= t.finalized.epoch)
  }

  lemma OnBranchStep(r: Rules, s: State, t: State, active: seq<Member>, side: set<Validator>, branch: Branch, n: nat)
    requires OnBranch(s, t, branch, n) && !Frozen(r, t.nextEpoch)
    ensures OnBranch(s, NextState(r, t, active, side, branch(t.nextEpoch)), branch, n + 1)
  {
    hide NextState, Sound, OwnOk, Strong, SideLeaks, Frozen, OwnSource;
    var root := branch(t.nextEpoch);
    SideStep(r, t, active, side, root);
    SideJustifies(r, t, active, side, root);
    InOrder(t);
  }

  lemma {:induction false} RunsOnBranch(r: Rules, s: State, active: seq<Member>, side: set<Validator>, branch: Branch,
                                        n: nat)
    requires Sound(s) && OwnOk(s) && r.frozenFrom == U64_MAX
    ensures OnBranch(s, SideRun(r, s, active, side, branch, n), branch, n)
  {
    hide NextState, SideRun, Sound, OwnOk;
    OneMore(r, s, active, side, branch, 0);
    if n > 0 {
      RunsOnBranch(r, s, active, side, branch, n - 1);
      OneMore(r, s, active, side, branch, n - 1);
      OnBranchStep(r, s, SideRun(r, s, active, side, branch, n - 1), active, side, branch, n - 1);
    }
  }

  lemma {:induction false} RunInTwo(r: Rules, s: State, active: seq<Member>, side: set<Validator>, branch: Branch,
                                    m: nat, n: nat)
    ensures SideRun(r, s, active, side, branch, m + n)
         == SideRun(r, SideRun(r, s, active, side, branch, m), active, side, branch, n)
  {
    hide NextState;
    if n > 0 {
      RunInTwo(r, s, active, side, branch, m, n - 1);
    }
  }

  // ── From the recovery gate on ────────────────────────────────────────────

  /** A side at the floor sooner or later finalizes a checkpoint later than any it has finalized. */
  lemma FinalizesAgain(r: Rules, s: State, active: seq<Member>, side: set<Validator>, branch: Branch, k: nat)
    returns (n: nat)
    requires Sound(s) && OwnOk(s) && r.frozenFrom == U64_MAX && MeetsFloor(active, side)
    requires r.recoverFrom <= s.nextEpoch + k
    ensures n >= k
    ensures SideRun(r, s, active, side, branch, n).finalized.epoch
          > SideRun(r, s, active, side, branch, k).finalized.epoch
  {
    hide *;
    RunsOnBranch(r, s, active, side, branch, k);
    var t := SideRun(r, s, active, side, branch, k);
    BranchFacts(s, t, branch, k);
    RecoversExactly(r, t, active, side, branch);
    var more := Ever(r, t, active, side, branch);
    RunInTwo(r, s, active, side, branch, k, more);
    n := k + more;
  }

  lemma Ever(r: Rules, s: State, active: seq<Member>, side: set<Validator>, branch: Branch) returns (n: nat)
    requires EverFinalizes(r, s, active, side, branch)
    ensures SideRun(r, s, active, side, branch, n).finalized.epoch > s.finalized.epoch
  {
    n :| SideRun(r, s, active, side, branch, n).finalized.epoch > s.finalized.epoch;
  }

  lemma BranchFacts(s: State, t: State, branch: Branch, n: nat)
    requires OnBranch(s, t, branch, n)
    ensures Sound(t) && OwnOk(t) && t.nextEpoch == s.nextEpoch + n
  {
  }

  /** From any state, whatever was leaked and however far the recovery gate: it finalizes a checkpoint of its own. */
  lemma FinalizesItsOwn(r: Rules, s: State, active: seq<Member>, side: set<Validator>, branch: Branch)
    returns (n: nat)
    requires Sound(s) && OwnOk(s) && r.frozenFrom == U64_MAX && MeetsFloor(active, side)
    ensures var f := SideRun(r, s, active, side, branch, n).finalized;
            f.epoch >= s.nextEpoch && f.root == branch(f.epoch)
  {
    hide *;
    var k := Sub(r.recoverFrom, s.nextEpoch);
    assert r.recoverFrom <= s.nextEpoch + k by { SubReaches(r.recoverFrom, s.nextEpoch); }
    var once := FinalizesAgain(r, s, active, side, branch, k);
    n := FinalizesAgain(r, s, active, side, branch, once);
    RunsOnBranch(r, s, active, side, branch, k);
    RunsOnBranch(r, s, active, side, branch, once);
    RunsOnBranch(r, s, active, side, branch, n);
    LaterIsOwn(s, SideRun(r, s, active, side, branch, k), SideRun(r, s, active, side, branch, once),
               SideRun(r, s, active, side, branch, n), branch, k, once, n);
  }

  lemma SubReaches(x: nat, y: nat)
    ensures x <= y + Sub(x, y)
  {
  }

  lemma LaterIsOwn(s: State, t: State, u: State, v: State, branch: Branch, k: nat, m: nat, n: nat)
    requires Sound(s) && OnBranch(s, t, branch, k) && OnBranch(s, u, branch, m) && OnBranch(s, v, branch, n)
    requires t.finalized.epoch < u.finalized.epoch < v.finalized.epoch
    ensures v.finalized.epoch >= s.nextEpoch && v.finalized.root == branch(v.finalized.epoch)
  {
    assert v.IsJustified(v.finalized);
  }

  /** Neither justifies what the other finalized on a branch of its own. */
  lemma OwnFinalitiesPart(s: State, t: State, u: State, left: Branch, right: Branch, m: nat, n: nat)
    requires Sound(s) && OnBranch(s, t, left, m) && OnBranch(s, u, right, n) && forall e :: left(e) != right(e)
    requires t.finalized.epoch >= s.nextEpoch && u.finalized.epoch >= s.nextEpoch
    ensures Parted(s, t, u)
  {
    assert t.IsJustified(t.finalized) && u.IsJustified(u.finalized);
    assert left(t.finalized.epoch) != right(t.finalized.epoch);
    assert left(u.finalized.epoch) != right(u.finalized.epoch);
  }

  lemma PartIs(r: Rules, s: State, active: seq<Member>, a: set<Validator>, b: set<Validator>,
               left: Branch, right: Branch, m: nat, n: nat)
    requires a !! b
    ensures PartAfter(r, s, active, a, b, left, right, m, n)
       <==> Parted(s, SideRun(r, s, active, a, left, m), SideRun(r, s, active, b, right, n))
    ensures PartAfter(r, s, active, a, b, left, right, m, n) ==> SidesPart(r, s, active, a, b, left, right)
  {
    HistoryRuns(r, s, active, a, left, m);
    HistoryRuns(r, s, active, b, right, n);
    SidesShareNobody(r, s, active, a, b, left, right, m, n);
    hide Run, SideRun, SideHistory, NoCommonVoter;
  }

  // ── What a side comes to, from any state ─────────────────────────────────

  /** How many epochs are left before the recovery gate. */
  function ToGate(r: Rules, s: State): nat {
    Sub(r.recoverFrom, s.nextEpoch)
  }

  /** The side meets the recovery floor, or has finalized a checkpoint of its own by the recovery gate. */
  ghost predicate Comes(r: Rules, s: State, active: seq<Member>, side: set<Validator>, branch: Branch) {
    MeetsFloor(active, side) || Past(r, s, active, side, branch, ToGate(r, s))
  }

  /** After so many epochs alone the side has finalized past where it started. */
  ghost predicate Past(r: Rules, s: State, active: seq<Member>, side: set<Validator>, branch: Branch, n: nat) {
    SideRun(r, s, active, side, branch, n).finalized.epoch >= s.nextEpoch
  }

  lemma {:induction false} FinalityGrows(r: Rules, s: State, active: seq<Member>, side: set<Validator>,
                                         branch: Branch, m: nat, n: nat)
    requires Sound(s) && OwnOk(s) && r.frozenFrom == U64_MAX && m <= n
    ensures SideRun(r, s, active, side, branch, m).finalized.epoch
         <= SideRun(r, s, active, side, branch, n).finalized.epoch
    decreases n
  {
    hide NextState, SideRun, Sound, OwnOk, OnBranch, Strong;
    if m < n {
      FinalityGrows(r, s, active, side, branch, m, n - 1);
      var before := SideRun(r, s, active, side, branch, n - 1);
      RunsOnBranch(r, s, active, side, branch, n - 1);
      BranchFacts(s, before, branch, n - 1);
      OneMore(r, s, active, side, branch, n - 1);
      SideStep(r, before, active, side, branch(before.nextEpoch));
    }
  }

  /** From every state: the side comes to finalize a checkpoint of its own branch, or it never does. */
  lemma ComesExactly(r: Rules, s: State, active: seq<Member>, side: set<Validator>, branch: Branch)
    requires Sound(s) && OwnOk(s) && r.frozenFrom == U64_MAX
    ensures Comes(r, s, active, side, branch)
       <==> exists n: nat :: Past(r, s, active, side, branch, n)
  {
    hide SideRun, Sound, OwnOk, MeetsFloor;
    if MeetsFloor(active, side) {
      var n := FinalizesItsOwn(r, s, active, side, branch);
      assert Past(r, s, active, side, branch, n);
    } else {
      forall n: nat
        ensures SideRun(r, s, active, side, branch, n).finalized.epoch
             <= SideRun(r, s, active, side, branch, ToGate(r, s)).finalized.epoch
      {
        BelowFloorStays(r, s, active, side, branch, n);
      }
    }
  }

  /** From the recovery gate on a side below the floor finalizes nothing more. */
  lemma BelowFloorStays(r: Rules, s: State, active: seq<Member>, side: set<Validator>, branch: Branch, n: nat)
    requires Sound(s) && OwnOk(s) && r.frozenFrom == U64_MAX && !MeetsFloor(active, side)
    ensures SideRun(r, s, active, side, branch, n).finalized.epoch
         <= SideRun(r, s, active, side, branch, ToGate(r, s)).finalized.epoch
  {
    hide *;
    var k := ToGate(r, s);
    if n <= k {
      FinalityGrows(r, s, active, side, branch, n, k);
    } else {
      var t := SideRun(r, s, active, side, branch, k);
      RunsOnBranch(r, s, active, side, branch, k);
      BranchFacts(s, t, branch, k);
      GateReached(r, s);
      RunInTwo(r, s, active, side, branch, k, n - k);
      BelowFloorRun(r, t, active, side, branch, n - k);
    }
  }

  lemma GateReached(r: Rules, s: State)
    ensures r.recoverFrom <= s.nextEpoch + ToGate(r, s)
  {
  }

  // ── Long before the recovery gate, and under the frozen set ──────────────

  /** Every epoch it takes the absent to leak out is before the recovery gate. */
  ghost predicate UngatedStall(r: Rules, s: State, q: nat) {
    forall e :: s.nextEpoch <= e < LeakedBy(s, q) + 3 ==> Ungated(r, e, q)
  }

  /** Long enough before the gate every side with stake left comes to finalize, however small. */
  lemma UngatedSideComes(r: Rules, s: State, active: seq<Member>, side: set<Validator>, branch: Branch, q: nat)
    requires Sound(s) && OwnOk(s) && r.frozenFrom == U64_MAX && Held(active, side, s.leaked) > 0
    requires UngatedStall(r, s, q)
    ensures Comes(r, s, active, side, branch)
  {
    var n := StallLength(r, s, q);
    hide SideRun, SideHistory, Sound, OwnOk, Held, MeetsFloor, Run, UngatedStall, Ungated;
    LoneSideFinalizes(r, s, active, side, branch, q, n);
    FinalityGrows(r, s, active, side, branch, n, ToGate(r, s));
  }

  lemma StallLength(r: Rules, s: State, q: nat) returns (n: nat)
    requires UngatedStall(r, s, q)
    ensures 3 <= n <= ToGate(r, s) && s.nextEpoch + n > LeakedBy(s, q) + 2
    ensures forall e :: s.nextEpoch <= e < s.nextEpoch + n ==> Ungated(r, e, q)
  {
    n := LeakedBy(s, q) + 3 - s.nextEpoch;
    assert Ungated(r, s.nextEpoch + n - 1, q);
  }

  /** From the gate on only the floor counts. */
  lemma GatedSideComes(r: Rules, s: State, active: seq<Member>, side: set<Validator>, branch: Branch)
    requires Sound(s) && r.recoverFrom <= s.nextEpoch
    ensures Comes(r, s, active, side, branch) <==> MeetsFloor(active, side)
  {
    InOrder(s);
    OneMore(r, s, active, side, branch, 0);
    hide MeetsFloor, SideRun, Sound;
  }

  lemma FrozenSidesStay(r: Rules, s: State, active: seq<Member>, a: set<Validator>, b: set<Validator>,
                        left: Branch, right: Branch, m: nat, n: nat)
    requires SplitPoint(r, s)
    ensures !PartAfter(r, s, active, a, b, left, right, m, n)
  {
    var g, h := SideHistory(r, s, active, a, left, m), SideHistory(r, s, active, b, right, n);
    InOrder(s);
    hide SideHistory, SplitPoint, Run, Sound, NoCommonVoter;
    if Apart(r, s, g, h) {
      AtMostOneSideFinalizes(r, s, g, h);
    }
  }

  // ── All together ─────────────────────────────────────────────────────────

  /**
   Two disjoint sides come to finalize in conflict if and only if the frozen set is not in force and each of
   them meets the recovery floor or has finalized alone by the recovery gate. This is every state of the shipped
   gates, and every state under the frozen set once its last recovery is over.
   */
  lemma SplitExactly(r: Rules, s: State, active: seq<Member>, a: set<Validator>, b: set<Validator>,
                     left: Branch, right: Branch)
    requires Sound(s) && OwnOk(s) && a !! b && forall e :: left(e) != right(e)
    requires r.frozenFrom == U64_MAX || SplitPoint(r, s)
    ensures SidesPart(r, s, active, a, b, left, right)
       <==> !Frozen(r, s.nextEpoch) && Comes(r, s, active, a, left) && Comes(r, s, active, b, right)
  {
    hide PartAfter, Sound, OwnOk, Comes;
    if SplitPoint(r, s) {
      forall m: nat, n: nat ensures !PartAfter(r, s, active, a, b, left, right, m, n) {
        FrozenSidesStay(r, s, active, a, b, left, right, m, n);
      }
    } else {
      UnfrozenSplitExactly(r, s, active, a, b, left, right);
    }
  }

  lemma UnfrozenSplitExactly(r: Rules, s: State, active: seq<Member>, a: set<Validator>, b: set<Validator>,
                             left: Branch, right: Branch)
    requires Sound(s) && OwnOk(s) && r.frozenFrom == U64_MAX && a !! b && forall e :: left(e) != right(e)
    ensures SidesPart(r, s, active, a, b, left, right)
       <==> Comes(r, s, active, a, left) && Comes(r, s, active, b, right)
  {
    hide PartAfter, Sound, OwnOk, Comes, SideRun, OnBranch, Parted;
    ComesExactly(r, s, active, a, left);
    ComesExactly(r, s, active, b, right);
    if Comes(r, s, active, a, left) && Comes(r, s, active, b, right) {
      var m: nat :| Past(r, s, active, a, left, m);
      var n: nat :| Past(r, s, active, b, right, n);
      RunsOnBranch(r, s, active, a, left, m);
      RunsOnBranch(r, s, active, b, right, n);
      OwnFinalitiesPart(s, SideRun(r, s, active, a, left, m), SideRun(r, s, active, b, right, n), left, right, m, n);
      PartIs(r, s, active, a, b, left, right, m, n);
    }
    if SidesPart(r, s, active, a, b, left, right) {
      var m: nat, n: nat :| PartAfter(r, s, active, a, b, left, right, m, n);
      PartIs(r, s, active, a, b, left, right, m, n);
      PartedFinalities(s, SideRun(r, s, active, a, left, m), SideRun(r, s, active, b, right, n));
      assert Past(r, s, active, a, left, m) && Past(r, s, active, b, right, n);
    }
  }

  lemma PartedFinalities(s: State, t: State, u: State)
    requires Parted(s, t, u)
    ensures s.nextEpoch <= t.finalized.epoch && s.nextEpoch <= u.finalized.epoch
  {
  }

  /** The shipped gates from their recovery epoch on: two disjoint sides part if and only if both meet the floor. */
  lemma RecoveredSplitExactly(r: Rules, s: State, active: seq<Member>, a: set<Validator>, b: set<Validator>,
                              left: Branch, right: Branch)
    requires Sound(s) && OwnOk(s) && r.recoverFrom <= s.nextEpoch && r.frozenFrom == U64_MAX
    requires a !! b && forall e :: left(e) != right(e)
    ensures SidesPart(r, s, active, a, b, left, right) <==> MeetsFloor(active, a) && MeetsFloor(active, b)
  {
    hide SidesPart, Sound, OwnOk, MeetsFloor, Comes;
    UnfrozenSplitExactly(r, s, active, a, b, left, right);
    GatedSideComes(r, s, active, a, left);
    GatedSideComes(r, s, active, b, right);
  }

  // ── How many ways ────────────────────────────────────────────────────────

  lemma WholeTogether(active: seq<Member>, a: set<Validator>, b: set<Validator>)
    requires a !! b
    ensures Whole(active, a) + Whole(active, b) == Whole(active, a + b)
  {
    var stake := AdjustedStake(active, map[]);
    hide AdjustedStake;
    SumUnion(Of(stake, a), Of(stake, b));
    assert Of(stake, a + b) == Of(stake, a) + Of(stake, b);
  }

  lemma {:induction false} StakesAtMost(active: seq<Member>)
    ensures Sum(AdjustedStake(active, map[])) <= UnleakedTotal(active)
  {
    if active != [] {
      var front, last := active[..|active| - 1], active[|active| - 1];
      StakesAtMost(front);
      var before, after := AdjustedStake(front, map[]), AdjustedStake(active, map[]);
      SumRemove(after, last.index);
      SumMonotone(after - {last.index}, before);
    }
  }

  lemma WholeAtMost(active: seq<Member>, side: set<Validator>)
    ensures Whole(active, side) <= UnleakedTotal(active)
  {
    HeldAtMost(active, side, map[]);
    StakesAtMost(active);
  }

  /** The floor lets a network part at most three ways: four disjoint sides never all meet it. */
  lemma AtMostThreeWays(active: seq<Member>, a: set<Validator>, b: set<Validator>, c: set<Validator>,
                        d: set<Validator>)
    requires a !! b !! c !! d
    ensures !(MeetsFloor(active, a) && MeetsFloor(active, b) && MeetsFloor(active, c) && MeetsFloor(active, d))
  {
    WholeTogether(active, a, b);
    WholeTogether(active, a + b, c);
    WholeTogether(active, a + b + c, d);
    WholeAtMost(active, a + b + c + d);
    hide Whole, UnleakedTotal;
  }

  lemma OneMoreMember(active: seq<Member>, m: Member)
    ensures AdjustedStake(active + [m], map[]) == AdjustedStake(active, map[])[m.index := m.stake]
    ensures UnleakedTotal(active + [m]) == UnleakedTotal(active) + m.stake
    ensures AdjustedStake([], map[]) == map[] && UnleakedTotal([]) == 0
  {
    assert (active + [m])[..|active|] == active;
  }

  lemma AloneWeighs(u: nat, x: nat)
    ensures Sum(map[u := x]) == x
  {
    var one: map<nat, nat> := map[u := x];
    SumRemove(one, u);
    assert one - {u} == map[];
  }

  /** And three ways it can part: three equal members each meet it alone. */
  lemma ThreeWaysExist(x: nat)
    requires x > 0
    ensures var active := [Member(0, x), Member(1, x), Member(2, x)];
            MeetsFloor(active, {0}) && MeetsFloor(active, {1}) && MeetsFloor(active, {2})
  {
    var active := [Member(0, x), Member(1, x), Member(2, x)];
    var stake := AdjustedStake(active, map[]);
    var one, two := [Member(0, x)], [Member(0, x), Member(1, x)];
    OneMoreMember([], Member(0, x));
    OneMoreMember(one, Member(1, x));
    OneMoreMember(two, Member(2, x));
    assert [] + [Member(0, x)] == one && one + [Member(1, x)] == two && two + [Member(2, x)] == active;
    hide AdjustedStake, UnleakedTotal;
    forall u: nat | u < 3 ensures Whole(active, {u}) == x {
      assert Of(stake, {u}) == map[u := x];
      AloneWeighs(u, x);
    }
  }
}
