/** The leak: what it charges and credits, and the floor under its denominator. */
module FinalityLimits {
  import opened Basics
  import opened Options
  import opened Sums
  import opened Finality

  // ── Charged or credited, never both ──────────────────────────────────────

  lemma {:induction false} LeakOnlyAbsent(active: seq<Member>, voted: set<Validator>, stake: map<Validator, nat>,
                                          t: nat, q: nat, leaked: map<Validator, nat>, u: Validator)
    requires q > 0
    ensures var after := LeakAll(active, voted, stake, t, q, leaked);
            Get(after, u) >= Get(leaked, u) && (u in voted ==> Get(after, u) == Get(leaked, u))
  {
    hide Bite;
    if active != [] {
      LeakOnlyAbsent(active[..|active| - 1], voted, stake, t, q, leaked, u);
    }
  }

  lemma {:induction false} RecoverOnlyPresent(active: seq<Member>, voted: set<Validator>, leaking: bool,
                                              leaked: map<Validator, nat>, u: Validator)
    ensures var after := RecoverAll(active, voted, leaking, leaked);
            && Get(after, u) <= Get(leaked, u) && (u in after <==> u in leaked)
            && (leaking && u !in voted ==> Get(after, u) == Get(leaked, u))
  {
    if active != [] {
      RecoverOnlyPresent(active[..|active| - 1], voted, leaking, leaked, u);
    }
  }

  /** During a stall a validator whose vote counted never owes more, and one whose vote did not never owes less. */
  lemma ChargedOrCredited(r: Rules, s: State, v: EpochVotes, u: Validator)
    requires Sub(v.epoch, NewFinalized(r, s, v).epoch) > LEAK_THRESHOLD
    ensures u in Counted(r, s, v) ==> Get(Leaks(r, s, v), u) <= Get(s.leaked, u)
    ensures u !in Counted(r, s, v) ==> Get(Leaks(r, s, v), u) >= Get(s.leaked, u)
  {
    var stake, voted := AdjustedStake(v.activeSet, s.leaked), Counted(r, s, v).Keys;
    var t, q := Sub(v.epoch, NewFinalized(r, s, v).epoch) - LEAK_THRESHOLD, LeakQuotient(r, v.epoch);
    LeakOnlyAbsent(v.activeSet, voted, stake, t, q, s.leaked, u);
    var charged := LeakAll(v.activeSet, voted, stake, t, q, s.leaked);
    RecoverOnlyPresent(v.activeSet, voted, true, charged, u);
    hide LeakAll, RecoverAll, AdjustedStake, Counted, NewFinalized, LeakQuotient;
  }

  /** While the chain finalizes, nobody's debt grows. */
  lemma NobodyCharged(r: Rules, s: State, v: EpochVotes, u: Validator)
    requires Sub(v.epoch, NewFinalized(r, s, v).epoch) <= LEAK_THRESHOLD
    ensures Get(Leaks(r, s, v), u) <= Get(s.leaked, u)
  {
    RecoverOnlyPresent(v.activeSet, Counted(r, s, v).Keys, false, s.leaked, u);
    hide RecoverAll, AdjustedStake, Counted, NewFinalized;
  }

  // ── The floor ────────────────────────────────────────────────────────────

  /** From the recovery gate on, no set below a third of the unleaked stake justifies, however long it waits. */
  lemma MinorityNeverJustifies(r: Rules, s: State, v: EpochVotes, root: Root)
    requires v.epoch >= r.recoverFrom && !Frozen(r, v.epoch)
    requires Winner(r, s, v) == Some(Checkpoint(v.epoch, root))
    ensures 3 * Sum(Tally(Counted(r, s, v), AdjustedStake(v.activeSet, s.leaked), root)) + 1
         >= UnleakedTotal(v.activeSet)
  {
    hide Counted, AdjustedStake, Tally;
    assert Quorum(Counted(r, s, v), Weights(r, s, v), Denominator(r, s, v), root);
  }
}
