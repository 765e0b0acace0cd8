/**
 What the recovery gate changes for a side that votes alone
 (crates/bloch-pos-committee/src/finality.rs): the floor under the denominator
 decides which sides ever finalize, and its debts do not.
 */
module FinalityRecovery {
  import opened Basics
  import opened Sums
  import opened Finality
  import opened FinalitySafety
  import opened FinalityLimits
  import opened FinalitySplit

  /** The side's stake with nothing leaked. */
  ghost function Whole(active: seq<Member>, side: set<Validator>): nat {
    Held(active, side, map[])
  }

  /** Large enough to meet the floor of half the unleaked stake. */
  ghost predicate MeetsFloor(active: seq<Member>, side: set<Validator>) {
    Whole(active, side) > 0 && 3 * Whole(active, side) >= 2 * (UnleakedTotal(active) / 2)
  }

  lemma BelowFloorIsWeak(r: Rules, active: seq<Member>, side: set<Validator>, leaked: map<Validator, nat>, epoch: nat)
    requires epoch >= r.recoverFrom && !MeetsFloor(active, side)
    ensures !Strong(r, active, side, leaked, epoch)
  {
    DebtsGrow(active, side, map[], leaked);
    hide Held, AdjustedStake, UnleakedTotal;
  }

  /** Debt-free and with the absent leaked out, such a side holds two thirds. */
  lemma AtFloorIsStrong(r: Rules, active: seq<Member>, side: set<Validator>, leaked: map<Validator, nat>, epoch: nat)
    requires epoch >= r.recoverFrom && MeetsFloor(active, side) && LeakedOut(active, side, leaked)
    requires forall u :: u in side && u in Indices(active) ==> Get(leaked, u) == 0
    ensures Strong(r, active, side, leaked, epoch)
  {
    HeldIsAll(active, side, leaked);
    DebtsGrow(active, side, map[], leaked);
    hide Held, AdjustedStake, UnleakedTotal, LeakedOut, Indices;
  }

  lemma {:induction false} RecoverPays(active: seq<Member>, voted: set<Validator>, leaking: bool,
                                       leaked: map<Validator, nat>, u: Validator)
    requires u in Indices(active) && u in voted
    ensures Get(RecoverAll(active, voted, leaking, leaked), u) <= Sub(Get(leaked, u), 1)
  {
    var front, last := active[..|active| - 1], active[|active| - 1];
    RecoverOnlyPresent(front, voted, leaking, leaked, u);
    if last.index != u {
      assert active == front + [last];
      assert Indices(active) == Indices(front) + {last.index};
      RecoverPays(front, voted, leaking, leaked, u);
    }
  }

  lemma SettledByGet(active: seq<Member>, voted: set<Validator>, leaking: bool, leaked: map<Validator, nat>,
                     u: Validator)
    ensures Get(DropSettled(active, voted, leaking, leaked), u) == Get(leaked, u)
  {
  }

  ghost predicate DebtsWithin(active: seq<Member>, side: set<Validator>, leaked: map<Validator, nat>, k: nat) {
    forall u :: u in side && u in Indices(active) ==> Get(leaked, u) <= k
  }

  lemma StepAbove(r: Rules, s: State, active: seq<Member>, side: set<Validator>, root: Root, k: nat, q: nat)
    requires Sound(s) && OwnOk(s) && !Frozen(r, s.nextEpoch) && r.recoverFrom <= s.nextEpoch
    requires LeakQuotient(r, s.nextEpoch) <= q && DebtsWithin(active, side, s.leaked, k)
    ensures DebtsWithin(active, side, SideLeaks(r, s, active, side, root), Sub(k, 1))
    ensures Since(r, s, active, side) >= LEAK_THRESHOLD + q
        ==> LeakedOut(active, side, SideLeaks(r, s, active, side, root))
  {
    var voted, leaking := side * Indices(active), Since(r, s, active, side) > LEAK_THRESHOLD;
    var charged := Charged(r, s, active, side);
    var after := SideLeaks(r, s, active, side, root);
    SideLeaksAre(r, s, active, side, root);
    ChargedSpares(r, s, active, side, q);
    hide Charged, SideLeaks, Since, Sound, OwnOk, LeakQuotient, RecoverAll, AdjustedStake, Indices;
    forall u ensures (u in voted ==> Get(after, u) <= Sub(Get(charged, u), 1))
                  && (leaking && u !in voted ==> Get(after, u) == Get(charged, u)) {
      SettledByGet(active, voted, leaking, RecoverAll(active, voted, leaking, charged), u);
      RecoverOnlyPresent(active, voted, leaking, charged, u);
      if u in voted { RecoverPays(active, voted, leaking, charged, u); }
    }
    hide DropSettled;
    if Since(r, s, active, side) >= LEAK_THRESHOLD + q {
      AdjustedIs(active, charged);
      AdjustedIs(active, after);
      forall u | u in Indices(active) && u !in side ensures Get(AdjustedStake(active, after), u) == 0 {
        assert Get(AdjustedStake(active, charged), u) == 0;
      }
    }
  }

  /** Gone further than s in finality, or still stalled with the side's debts and the absent's stake running out. */
  ghost predicate Recovering(s: State, t: State, active: seq<Member>, side: set<Validator>, debt: nat, q: nat) {
    var out, e := Max(LeakedBy(s, q), s.nextEpoch + debt), t.nextEpoch;
    && Sound(t) && OwnOk(t) && s.nextEpoch <= e
    && (t.finalized.epoch > s.finalized.epoch
        || (&& t.finalized == s.finalized && e <= out + 2
            && DebtsWithin(active, side, t.leaked, Sub(debt, e - s.nextEpoch))
            && (e > LeakedBy(s, q) ==> LeakedOut(active, side, t.leaked))
            && (e > out + 1 ==> t.currentJustified.epoch == e - 1 && e - 1 in t.own)))
  }

  lemma RecoveringStep(r: Rules, s: State, t: State, active: seq<Member>, side: set<Validator>, root: Root,
                       debt: nat, q: nat)
    requires Sound(s) && Recovering(s, t, active, side, debt, q) && MeetsFloor(active, side)
    requires r.recoverFrom <= s.nextEpoch && !Frozen(r, t.nextEpoch) && LeakQuotient(r, t.nextEpoch) <= q
    ensures Recovering(s, NextState(r, t, active, side, root), active, side, debt, q)
  {
    hide NextState, SideLeaks, Strong, Sound, OwnOk, LeakedOut, MeetsFloor, LeakQuotient, DebtsWithin;
    InOrder(s);
    InOrder(t);
    SideStep(r, t, active, side, root);
    if t.finalized.epoch <= s.finalized.epoch {
      var out := Max(LeakedBy(s, q), s.nextEpoch + debt);
      StepAbove(r, t, active, side, root, Sub(debt, t.nextEpoch - s.nextEpoch), q);
      if t.nextEpoch > out {
        DebtFree(active, side, t.leaked);
        AtFloorIsStrong(r, active, side, t.leaked, t.nextEpoch);
      }
    }
  }

  lemma DebtFree(active: seq<Member>, side: set<Validator>, leaked: map<Validator, nat>)
    ensures DebtsWithin(active, side, leaked, 0)
       <==> forall u :: u in side && u in Indices(active) ==> Get(leaked, u) == 0
  {
  }

  lemma {:induction false} RecoveringRun(r: Rules, s: State, active: seq<Member>, side: set<Validator>, branch: Branch,
                                         debt: nat, q: nat, n: nat)
    requires Sound(s) && OwnOk(s) && DebtsWithin(active, side, s.leaked, debt) && MeetsFloor(active, side)
    requires r.recoverFrom <= s.nextEpoch && r.frozenFrom == U64_MAX && forall e :: LeakQuotient(r, e) <= q
    ensures SideRun(r, s, active, side, branch, n).nextEpoch == s.nextEpoch + n
    ensures Recovering(s, SideRun(r, s, active, side, branch, n), active, side, debt, q)
  {
    hide NextState, Recovering, SideRun, Sound, OwnOk, DebtsWithin, MeetsFloor, LeakQuotient;
    OneMore(r, s, active, side, branch, 0);
    if n == 0 {
      RecoveringAtFirst(s, active, side, debt, q);
    } else {
      RecoveringRun(r, s, active, side, branch, debt, q, n - 1);
      var before := SideRun(r, s, active, side, branch, n - 1);
      OneMore(r, s, active, side, branch, n - 1);
      RecoveringStep(r, s, before, active, side, branch(before.nextEpoch), debt, q);
      RecoveringIsSound(s, before, active, side, debt, q);
      SideStep(r, before, active, side, branch(before.nextEpoch));
    }
  }

  lemma RecoveringAtFirst(s: State, active: seq<Member>, side: set<Validator>, debt: nat, q: nat)
    requires Sound(s) && OwnOk(s) && DebtsWithin(active, side, s.leaked, debt)
    ensures Recovering(s, s, active, side, debt, q)
  {
    hide Sound, OwnOk, DebtsWithin;
  }

  lemma RecoveringIsSound(s: State, t: State, active: seq<Member>, side: set<Validator>, debt: nat, q: nat)
    requires Recovering(s, t, active, side, debt, q)
    ensures Sound(t) && OwnOk(t)
  {
  }

  lemma {:induction false} BelowFloorRun(r: Rules, s: State, active: seq<Member>, side: set<Validator>,
                                         branch: Branch, n: nat)
    requires Sound(s) && OwnOk(s) && !MeetsFloor(active, side) && r.recoverFrom <= s.nextEpoch
    requires r.frozenFrom == U64_MAX
    ensures var t := SideRun(r, s, active, side, branch, n);
            Sound(t) && OwnOk(t) && t.nextEpoch == s.nextEpoch + n && t.finalized == s.finalized
  {
    hide NextState, SideRun, Sound, OwnOk, MeetsFloor, Strong;
    OneMore(r, s, active, side, branch, 0);
    if n > 0 {
      BelowFloorRun(r, s, active, side, branch, n - 1);
      var before := SideRun(r, s, active, side, branch, n - 1);
      OneMore(r, s, active, side, branch, n - 1);
      BelowFloorIsWeak(r, active, side, before.leaked, before.nextEpoch);
      SideStep(r, before, active, side, branch(before.nextEpoch));
    }
  }

  lemma SumBounds(m: map<nat, nat>, k: nat)
    ensures Get(m, k) <= Sum(m)
  {
    if k in m { SumRemove(m, k); }
  }

  /** Does the side, voting alone, ever finalize anything new? */
  ghost predicate EverFinalizes(r: Rules, s: State, active: seq<Member>, side: set<Validator>, branch: Branch) {
    exists n :: SideRun(r, s, active, side, branch, n).finalized.epoch > s.finalized.epoch
  }

  /**
   From the recovery gate on, a side that votes alone finalizes if and only if three times its unleaked
   stake is at least twice the floor, whatever it owed and however long the stall has been.
   */
  lemma RecoversExactly(r: Rules, s: State, active: seq<Member>, side: set<Validator>, branch: Branch)
    requires Sound(s) && OwnOk(s) && r.recoverFrom <= s.nextEpoch && r.frozenFrom == U64_MAX
    ensures EverFinalizes(r, s, active, side, branch) <==> MeetsFloor(active, side)
  {
    hide SideRun, Sound, OwnOk, MeetsFloor;
    if MeetsFloor(active, side) {
      var debt, q := Sum(s.leaked), LEAK_QUOTIENT_ETH_PACED;
      forall u ensures Get(s.leaked, u) <= debt {
        SumBounds(s.leaked, u);
      }
      var n := Max(LeakedBy(s, q), s.nextEpoch + debt) + 3 - s.nextEpoch;
      RecoveringRun(r, s, active, side, branch, debt, q, n);
      assert SideRun(r, s, active, side, branch, n).finalized.epoch > s.finalized.epoch;
    } else {
      forall n: nat ensures SideRun(r, s, active, side, branch, n).finalized == s.finalized {
        BelowFloorRun(r, s, active, side, branch, n);
      }
    }
  }
}
