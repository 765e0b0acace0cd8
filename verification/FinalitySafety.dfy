/**
 Safety of finality over whole histories: what every run keeps, and what two
 runs of a split network can and cannot both do.
 */
module FinalitySafety {
  import opened Basics
  import opened Options
  import opened Finality

  // ── What every run keeps ─────────────────────────────────────────────────

  /** Checkpoints only ever grow upwards, and the finalized one is among the justified ones. */
  ghost predicate Sound(s: State) {
    && s.IsJustified(s.currentJustified)
    && s.IsJustified(s.finalized)
    && s.finalized.epoch <= s.currentJustified.epoch < s.nextEpoch
    && (forall e :: e in s.justified ==> e <= s.currentJustified.epoch)
    && Positive(s.leaked)
  }

  ghost predicate Positive(m: map<nat, nat>) {
    forall u :: u in m ==> m[u] > 0
  }

  /** `t` extends `s`: nothing justified or final is forgotten or replaced. */
  ghost predicate Extends(s: State, t: State) {
    && (forall e :: e in s.justified ==> e in t.justified && t.justified[e] == s.justified[e])
    && s.currentJustified.epoch <= t.currentJustified.epoch
    && s.finalized.epoch <= t.finalized.epoch
    && (s.finalized.epoch == t.finalized.epoch ==> s.finalized == t.finalized)
    && s.nextEpoch <= t.nextEpoch
  }

  lemma {:induction false} LeakAllPositive(active: seq<Member>, voted: set<Validator>, stake: map<Validator, nat>,
                                           t: nat, q: nat, leaked: map<Validator, nat>)
    requires q > 0 && Positive(leaked)
    ensures Positive(LeakAll(active, voted, stake, t, q, leaked))
  {
    if active != [] {
      hide Bite;
      LeakAllPositive(active[..|active| - 1], voted, stake, t, q, leaked);
      assert Get(stake, active[|active| - 1].index) > 0 ==> Bite(Get(stake, active[|active| - 1].index), t, q) > 0;
    }
  }

  lemma {:induction false} RecoverUntouched(active: seq<Member>, voted: set<Validator>, leaking: bool,
                                            leaked: map<Validator, nat>, u: Validator)
    requires u !in Indices(active) || (leaking && u !in voted)
    ensures var after := RecoverAll(active, voted, leaking, leaked);
            (u in after <==> u in leaked) && (u in leaked ==> after[u] == leaked[u])
  {
    if active != [] {
      var m := active[|active| - 1];
      assert m in active && m.index in Indices(active);
      forall n | n in active[..|active| - 1] ensures n in active {
      }
      RecoverUntouched(active[..|active| - 1], voted, leaking, leaked, u);
    }
  }

  lemma SettledPositive(active: seq<Member>, voted: set<Validator>, leaking: bool, leaked: map<Validator, nat>)
    requires Positive(leaked)
    ensures Positive(DropSettled(active, voted, leaking, RecoverAll(active, voted, leaking, leaked)))
  {
    var recovered := RecoverAll(active, voted, leaking, leaked);
    var settled := DropSettled(active, voted, leaking, recovered);
    forall u | u in settled ensures settled[u] > 0 {
      if recovered[u] == 0 {
        RecoverUntouched(active, voted, leaking, leaked, u);
      }
    }
  }

  /** A debt paid down to nothing leaves no entry behind. */
  lemma NoZeroDebts(r: Rules, s: State, v: EpochVotes)
    requires Positive(s.leaked)
    ensures Positive(Leaks(r, s, v))
  {
    hide LeakAll, RecoverAll, DropSettled, Counted, AdjustedStake, Positive;
    var stake, voted := AdjustedStake(v.activeSet, s.leaked), Counted(r, s, v).Keys;
    var since := Sub(v.epoch, NewFinalized(r, s, v).epoch);
    var leaking := since > LEAK_THRESHOLD;
    if leaking {
      var t, q := since - LEAK_THRESHOLD, LeakQuotient(r, v.epoch);
      LeakAllPositive(v.activeSet, voted, stake, t, q, s.leaked);
      SettledPositive(v.activeSet, voted, leaking, LeakAll(v.activeSet, voted, stake, t, q, s.leaked));
    } else {
      SettledPositive(v.activeSet, voted, leaking, s.leaked);
    }
  }

  /** What one processed epoch does to the checkpoints. */
  ghost predicate Advances(s: State, t: State, epoch: nat, won: Option<Checkpoint>) {
    && t.nextEpoch == s.nextEpoch + 1 && t.own == s.own
    && match won
       case None => t.justified == s.justified && t.currentJustified == s.currentJustified && t.finalized == s.finalized
       case Some(cp) =>
         && cp.epoch == epoch
         && t.justified == s.justified[epoch := cp.root] && t.currentJustified == cp
         && (t.finalized == s.finalized
             || (t.finalized == s.currentJustified && s.currentJustified.epoch + 1 == epoch
                 && s.finalized.epoch < s.currentJustified.epoch))
  }

  lemma ProcessAdvances(r: Rules, s: State, v: EpochVotes)
    requires Sound(s) && v.epoch == s.nextEpoch
    ensures Advances(s, Process(r, s, v).value, v.epoch, Winner(r, s, v))
    ensures Process(r, s, v).value.leaked == Leaks(r, s, v)
  {
    hide Leaks, CloseSets, Counted, Weights, Denominator;
  }

  lemma AdvancesKeeps(s: State, t: State, won: Option<Checkpoint>)
    requires Sound(s) && Advances(s, t, s.nextEpoch, won) && Positive(t.leaked)
    ensures Sound(t) && Extends(s, t)
  {
  }

  lemma ProcessKeeps(r: Rules, s: State, v: EpochVotes)
    requires Sound(s) && Process(r, s, v).Some?
    ensures Sound(Process(r, s, v).value) && Extends(s, Process(r, s, v).value)
  {
    NoZeroDebts(r, s, v);
    ProcessAdvances(r, s, v);
    AdvancesKeeps(s, Process(r, s, v).value, Winner(r, s, v));
  }

  lemma {:induction false} RunKeeps(r: Rules, s: State, h: seq<Event>)
    requires Sound(s) && Run(r, s, h).Some?
    ensures Sound(Run(r, s, h).value) && Extends(s, Run(r, s, h).value)
  {
    if h != [] {
      RunKeeps(r, s, h[..|h| - 1]);
      var t := Run(r, s, h[..|h| - 1]).value;
      if h[|h| - 1].Tallied? {
        ProcessKeeps(r, t, h[|h| - 1].votes);
      }
    }
  }

  /** From genesis on, in every run, every finalized checkpoint is justified and nothing is ever taken back. */
  lemma EveryRun(r: Rules, genesis: Checkpoint, h: seq<Event>, more: seq<Event>)
    requires Run(r, Genesis(genesis), h).Some? && Run(r, Run(r, Genesis(genesis), h).value, more).Some?
    ensures
      var s := Run(r, Genesis(genesis), h).value;
      var t := Run(r, s, more).value;
      && Sound(s) && Sound(t) && Extends(s, t) && t.IsJustified(s.finalized)
      && Run(r, Genesis(genesis), h + more) == Some(t)
  {
    RunKeeps(r, Genesis(genesis), h);
    RunKeeps(r, Run(r, Genesis(genesis), h).value, more);
    RunConcat(r, Genesis(genesis), h, more);
  }

  /** Replaying a history in two pieces gives the state of replaying it whole. */
  lemma {:induction false} RunConcat(r: Rules, s: State, h: seq<Event>, more: seq<Event>)
    ensures Run(r, s, h + more) == if Run(r, s, h).Some? then Run(r, Run(r, s, h).value, more) else None
    decreases |more|
  {
    if more == [] {
      assert h + more == h;
    } else {
      var front := more[..|more| - 1];
      assert (h + more)[..|h + more| - 1] == h + front;
      RunConcat(r, s, h, front);
    }
  }

  /** The order and multiplicity in which votes are heard decide nothing. */
  lemma ArrivalOrder(r: Rules, s: State, v: EpochVotes, w: EpochVotes)
    requires v.epoch == w.epoch && v.activeSet == w.activeSet && v.Heard() == w.Heard()
    ensures Process(r, s, v) == Process(r, s, w)
  {
    assert Counted(r, s, v) == Counted(r, s, w);
    assert OpenSets(r, s, v) == OpenSets(r, s, w);
    assert Weights(r, s, v) == Weights(r, s, w) && Denominator(r, s, v) == Denominator(r, s, w);
    SameWinner(r, s, v, w);
  }

  lemma SameWinner(r: Rules, s: State, v: EpochVotes, w: EpochVotes)
    requires v.epoch == w.epoch && Counted(r, s, v) == Counted(r, s, w)
    requires Weights(r, s, v) == Weights(r, s, w) && Denominator(r, s, v) == Denominator(r, s, w)
    ensures Winner(r, s, v) == Winner(r, s, w)
  {
    DenominatorCovers(r, s, v);
    var counted, weights, total := Counted(r, s, v), Weights(r, s, v), Denominator(r, s, v);
    hide Counted, Weights, Denominator, Quorum;
    forall a, b | Quorum(counted, weights, total, a) && Quorum(counted, weights, total, b) ensures a == b {
      OneQuorum(counted, weights, total, a, b);
    }
  }
}
