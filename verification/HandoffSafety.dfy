/**
 Accountable safety through any number of handoffs of the frozen finality set
 (crates/bloch-pos-committee/src/finality.rs). A branch may change its set as
 often as it finalizes: what has to be common to two branches is only the set
 that the two epochs deciding a finality were measured against.
 */
module HandoffSafety {
  import opened Basics
  import opened Options
  import opened Sums
  import opened Finality
  import opened FinalitySafety
  import opened AccountableSafety

  /** The tally of this epoch, wherever it stands in the history, is measured against `c`. */
  ghost predicate SetIs(r: Rules, s: State, h: seq<Event>, epoch: nat, c: map<Validator, nat>) {
    forall i :: 0 <= i < |h| && TalliesAt(r, s, h, i, epoch) ==> MeasuredAt(r, s, h, i, c)
  }

  ghost predicate TalliesAt(r: Rules, s: State, h: seq<Event>, i: nat, epoch: nat)
    requires i < |h|
  {
    h[i].Tallied? && h[i].votes.epoch == epoch && Run(r, s, h[..i]).Some?
  }

  ghost predicate MeasuredAt(r: Rules, s: State, h: seq<Event>, i: nat, c: map<Validator, nat>)
    requires i < |h|
  {
    h[i].Tallied? && Run(r, s, h[..i]).Some? && TalliedAgainst(r, Run(r, s, h[..i]).value, h[i].votes, c)
  }

  /** Some tally of this epoch is measured against `c`. */
  ghost predicate Measured(r: Rules, s: State, h: seq<Event>, epoch: nat, c: map<Validator, nat>) {
    exists i :: 0 <= i < |h| && TalliesAt(r, s, h, i, epoch) && MeasuredAt(r, s, h, i, c)
  }

  lemma MeasuredIsSet(r: Rules, s: State, h: seq<Event>, epoch: nat, c: map<Validator, nat>, d: map<Validator, nat>)
    requires SetIs(r, s, h, epoch, c) && Measured(r, s, h, epoch, d)
    ensures c == d
  {
    var i :| 0 <= i < |h| && TalliesAt(r, s, h, i, epoch) && MeasuredAt(r, s, h, i, d);
    assert MeasuredAt(r, s, h, i, c);
  }

  lemma MeasuredLater(r: Rules, s: State, h: seq<Event>, epoch: nat, c: map<Validator, nat>)
    requires h != [] && Measured(r, s, h[..|h| - 1], epoch, c)
    ensures Measured(r, s, h, epoch, c)
  {
    var front := h[..|h| - 1];
    var i :| 0 <= i < |front| && TalliesAt(r, s, front, i, epoch) && MeasuredAt(r, s, front, i, c);
    assert front[..i] == h[..i];
    assert TalliesAt(r, s, h, i, epoch) && MeasuredAt(r, s, h, i, c);
  }

  // ── The sets of one branch ───────────────────────────────────────────────

  /** Past the gate and the last recovery, a branch always has a set. */
  lemma {:induction false} SplitStays(r: Rules, s: State, h: seq<Event>)
    requires SplitPoint(r, s) && Run(r, s, h).Some?
    ensures SplitPoint(r, Run(r, s, h).value) && Run(r, s, h).value.nextEpoch >= s.nextEpoch
  {
    if h != [] {
      var front, last := h[..|h| - 1], h[|h| - 1];
      SplitStays(r, s, front);
      RunKeeps(r, s, h);
      if last.Tallied? {
        SetKeptOneEpoch(r, Run(r, s, front).value, last.votes);
      }
    }
  }

  /** The last event's tally, and the set it is measured against. */
  lemma LastMeasured(r: Rules, s: State, h: seq<Event>)
    requires SplitPoint(r, s) && h != [] && h[|h| - 1].Tallied? && Run(r, s, h).Some?
    ensures var before, v := Run(r, s, h[..|h| - 1]).value, h[|h| - 1].votes;
            && SplitPoint(r, before) && v.epoch == before.nextEpoch
            && TalliedAgainst(r, before, v, before.sets.value.current.members)
            && Measured(r, s, h, v.epoch, before.sets.value.current.members)
  {
    var last := |h| - 1;
    var before, v := Run(r, s, h[..last]).value, h[last].votes;
    SplitStays(r, s, h[..last]);
    SetKeptOneEpoch(r, before, v);
    hide SplitPoint, Sound, TalliedAgainst, Process;
    assert TalliesAt(r, s, h, last, v.epoch) && MeasuredAt(r, s, h, last, before.sets.value.current.members);
  }

  /** From two epochs after its justified checkpoint on, a branch has not changed its set. */
  lemma {:induction false} SetSinceJustified(r: Rules, s: State, h: seq<Event>, epoch: nat)
    requires SplitPoint(r, s) && Run(r, s, h).Some?
    requires s.nextEpoch <= epoch && Run(r, s, h).value.currentJustified.epoch + 1 < epoch
    requires epoch < Run(r, s, h).value.nextEpoch
    ensures Run(r, s, h).value.sets.Some?
    ensures Measured(r, s, h, epoch, Run(r, s, h).value.sets.value.current.members)
    decreases |h|
  {
    var front, last := h[..|h| - 1], h[|h| - 1];
    SplitStays(r, s, h);
    SplitStays(r, s, front);
    var before := Run(r, s, front).value;
    if last.Tallied? {
      LastMeasured(r, s, h);
      ProcessAdvances(r, before, last.votes);
      SetKeptOneEpoch(r, before, last.votes);
    }
    hide Measured, SplitPoint, TalliedAgainst, Process;
    if !last.Tallied? || epoch < last.votes.epoch {
      SetSinceJustified(r, s, front, epoch);
      MeasuredLater(r, s, h, epoch, before.sets.value.current.members);
    }
  }

  // ── The links of one branch, each backed by the set of its epoch ─────────

  /** A supermajority link, two thirds of the set its epoch was measured against. */
  ghost predicate Link(r: Rules, s: State, h: seq<Event>, src: Checkpoint, tgt: Checkpoint,
                       c: map<Validator, nat>, w: map<Validator, nat>)
  {
    Backed(c, h, src, tgt, w) && Measured(r, s, h, tgt.epoch, c)
  }

  lemma LinkLater(r: Rules, s: State, h: seq<Event>, src: Checkpoint, tgt: Checkpoint,
                  c: map<Validator, nat>, w: map<Validator, nat>)
    requires h != [] && Link(r, s, h[..|h| - 1], src, tgt, c, w)
    ensures Link(r, s, h, src, tgt, c, w)
  {
    FrontWiden(c, h, src, tgt, w);
    MeasuredLater(r, s, h, tgt.epoch, c);
  }

  lemma NewLink(r: Rules, s: State, h: seq<Event>) returns (c: map<Validator, nat>, w: map<Validator, nat>)
    requires SplitPoint(r, s) && h != [] && h[|h| - 1].Tallied? && Run(r, s, h).Some?
    requires Winner(r, Run(r, s, h[..|h| - 1]).value, h[|h| - 1].votes).Some?
    ensures var before, v := Run(r, s, h[..|h| - 1]).value, h[|h| - 1].votes;
            && before.sets.Some? && c == before.sets.value.current.members
            && Link(r, s, h, before.currentJustified, Winner(r, before, v).value, c, w)
            && Winner(r, before, v).value.epoch == v.epoch
  {
    var before, v := Run(r, s, h[..|h| - 1]).value, h[|h| - 1].votes;
    LastMeasured(r, s, h);
    c := before.sets.value.current.members;
    w := WinnerIsBacked(r, before, v, c);
    hide Backed, Winner;
    BackedWiden(c, [Tallied(v)], h, before.currentJustified, Winner(r, before, v).value, w);
  }

  /** Every checkpoint justified since the split. */
  lemma {:induction false} JustifiedBy(r: Rules, s: State, h: seq<Event>, cp: Checkpoint)
    returns (src: Checkpoint, c: map<Validator, nat>, w: map<Validator, nat>)
    requires SplitPoint(r, s) && Run(r, s, h).Some?
    requires Run(r, s, h).value.IsJustified(cp) && cp.epoch > s.currentJustified.epoch
    ensures Link(r, s, h, src, cp, c, w) && cp.epoch >= s.nextEpoch
    decreases |h|
  {
    var front := h[..|h| - 1];
    SplitStays(r, s, front);
    var before := Run(r, s, front).value;
    hide Link;
    if before.IsJustified(cp) {
      src, c, w := JustifiedBy(r, s, front, cp);
      LinkLater(r, s, h, src, cp, c, w);
    } else {
      ProcessAdvances(r, before, h[|h| - 1].votes);
      c, w := NewLink(r, s, h);
      src := before.currentJustified;
    }
  }

  /** A finalized checkpoint and the next epoch's link from it. */
  lemma {:induction false} FinalizedBy(r: Rules, s: State, h: seq<Event>)
    returns (tgt: Checkpoint, c: map<Validator, nat>, w: map<Validator, nat>)
    requires SplitPoint(r, s) && Run(r, s, h).Some? && Run(r, s, h).value.finalized.epoch > s.finalized.epoch
    ensures var f := Run(r, s, h).value.finalized;
            Link(r, s, h, f, tgt, c, w) && tgt.epoch == f.epoch + 1 && f.epoch >= s.currentJustified.epoch
    decreases |h|
  {
    var front := h[..|h| - 1];
    SplitStays(r, s, front);
    var before := Run(r, s, front).value;
    if h[|h| - 1].Tallied? {
      ProcessAdvances(r, before, h[|h| - 1].votes);
    }
    RunKeeps(r, s, front);
    hide Link;
    if before.finalized == Run(r, s, h).value.finalized {
      tgt, c, w := FinalizedBy(r, s, front);
      LinkLater(r, s, h, before.finalized, tgt, c, w);
    } else {
      c, w := NewLink(r, s, h);
      tgt := Winner(r, before, h[|h| - 1].votes).value;
    }
  }

  /** One event moves the justified checkpoint only to its epoch's winner. */
  lemma JustifiedMoves(r: Rules, s: State, h: seq<Event>)
    requires SplitPoint(r, s) && h != [] && Run(r, s, h).Some?
    ensures var before, after, last := Run(r, s, h[..|h| - 1]).value, Run(r, s, h).value, h[|h| - 1];
            && SplitPoint(r, before)
            && (forall cp :: before.IsJustified(cp) ==> after.IsJustified(cp))
            && (before.currentJustified != after.currentJustified ==>
                  && last.Tallied? && last.votes.epoch == before.nextEpoch
                  && Winner(r, before, last.votes) == Some(after.currentJustified))
            && after.IsJustified(after.currentJustified)
  {
    var front, last := h[..|h| - 1], h[|h| - 1];
    SplitStays(r, s, front);
    RunKeeps(r, s, h);
    if last.Tallied? {
      ProcessAdvances(r, Run(r, s, front).value, last.votes);
      ProcessKeeps(r, Run(r, s, front).value, last.votes);
    }
  }

  lemma LinkIsMeasured(r: Rules, s: State, h: seq<Event>, src: Checkpoint, tgt: Checkpoint,
                       c: map<Validator, nat>, w: map<Validator, nat>)
    requires Link(r, s, h, src, tgt, c, w)
    ensures Measured(r, s, h, tgt.epoch, c)
  {
  }

  /**
   The link over which a branch moves past an epoch `a`: if it jumps over the next epoch too, that one was
   measured against the same set.
   */
  lemma {:induction false} CrossedBy(r: Rules, s: State, h: seq<Event>, a: nat)
    returns (src: Checkpoint, tgt: Checkpoint, c: map<Validator, nat>, w: map<Validator, nat>)
    requires SplitPoint(r, s) && Run(r, s, h).Some?
    requires s.nextEpoch <= a <= Run(r, s, h).value.currentJustified.epoch
    ensures Link(r, s, h, src, tgt, c, w) && src.epoch < a <= tgt.epoch && Run(r, s, h).value.IsJustified(tgt)
    ensures Measured(r, s, h, if tgt.epoch > a then a + 1 else a, c)
    decreases |h|
  {
    var front, last := h[..|h| - 1], h[|h| - 1];
    hide Link, Measured, SplitPoint, Winner, State.IsJustified;
    JustifiedMoves(r, s, h);
    var before := Run(r, s, front).value;
    if before.currentJustified.epoch >= a {
      src, tgt, c, w := CrossedBy(r, s, front, a);
      LinkLater(r, s, h, src, tgt, c, w);
      MeasuredLater(r, s, h, if tgt.epoch > a then a + 1 else a, c);
    } else {
      c, w := NewLink(r, s, h);
      src, tgt := before.currentJustified, Winner(r, before, last.votes).value;
      LinkIsMeasured(r, s, h, src, tgt, c, w);
      if tgt.epoch > a + 1 {
        SetSinceJustified(r, s, front, a + 1);
        MeasuredLater(r, s, h, a + 1, c);
      }
    }
  }

  // ── Two branches ─────────────────────────────────────────────────────────

  /** At least a third of the set signed a slashable pair. */
  ghost predicate ThirdOffends(c: map<Validator, nat>, g: seq<Event>, h: seq<Event>) {
    3 * Sum(Offenders(c, g, h)) >= Sum(c) > 0
  }

  /**
   Accountable safety through every handoff. One branch finalizes `f`, the other finalizes as high or higher,
   and both measured the epochs `f.epoch` and `f.epoch + 1` against the same sets `c` and `d`, whatever sets
   they used before and after. Then `f` is justified on the other branch too, or a third of `c` or of `d`
   signed a slashable pair.
   */
  lemma AccountableThroughHandoffs(r: Rules, s: State, g: seq<Event>, h: seq<Event>,
                                   c: map<Validator, nat>, d: map<Validator, nat>)
    requires SplitPoint(r, s) && Run(r, s, g).Some? && Run(r, s, h).Some?
    requires s.finalized.epoch < Run(r, s, g).value.finalized.epoch <= Run(r, s, h).value.finalized.epoch
    requires var e := Run(r, s, g).value.finalized.epoch;
             SetIs(r, s, g, e, c) && SetIs(r, s, h, e, c) && SetIs(r, s, g, e + 1, d) && SetIs(r, s, h, e + 1, d)
    ensures Run(r, s, h).value.IsJustified(Run(r, s, g).value.finalized)
         || ThirdOffends(c, g, h) || ThirdOffends(d, g, h)
  {
    hide *;
    BothStand(r, s, g, h);
    var f := Run(r, s, g).value.finalized;
    var child, cf, wf := FinalizedBy(r, s, g);
    if f.epoch > s.currentJustified.epoch {
      var back, cb, wb := JustifiedBy(r, s, g, f);
      var src, tgt, cx, wx := CrossedBy(r, s, h, f.epoch);
      if tgt.epoch > f.epoch {
        SameSetOffends(r, s, g, h, d, f, child, cf, wf, src, tgt, cx, wx);
      } else if tgt != f {
        SameSetOffends(r, s, g, h, c, back, f, cb, wb, src, tgt, cx, wx);
      }
    }
  }

  lemma BothStand(r: Rules, s: State, g: seq<Event>, h: seq<Event>)
    requires SplitPoint(r, s) && Run(r, s, g).Some? && Run(r, s, h).Some?
    ensures var a, b := Run(r, s, g).value, Run(r, s, h).value;
            && a.IsJustified(a.finalized) && b.finalized.epoch <= b.currentJustified.epoch
            && (a.finalized.epoch == s.currentJustified.epoch ==> b.IsJustified(a.finalized))
  {
    RunKeeps(r, s, g);
    RunKeeps(r, s, h);
    hide Run;
  }

  /** Two conflicting links, both measured at the earlier one's epoch against one set. */
  lemma SameSetOffends(r: Rules, s: State, g: seq<Event>, h: seq<Event>, c: map<Validator, nat>,
                       s1: Checkpoint, t1: Checkpoint, c1: map<Validator, nat>, w1: map<Validator, nat>,
                       s2: Checkpoint, t2: Checkpoint, c2: map<Validator, nat>, w2: map<Validator, nat>)
    requires SetIs(r, s, g, t1.epoch, c) && SetIs(r, s, h, t1.epoch, c)
    requires Link(r, s, g, s1, t1, c1, w1) && Link(r, s, h, s2, t2, c2, w2) && Measured(r, s, h, t1.epoch, c2)
    requires !(s1 == s2 && t1 == t2) && t1.epoch <= t2.epoch && (t1.epoch < t2.epoch ==> s2.epoch < s1.epoch)
    ensures ThirdOffends(c, g, h)
  {
    hide SetIs, Measured, Offenders;
    MeasuredIsSet(r, s, g, t1.epoch, c, c1);
    MeasuredIsSet(r, s, h, t1.epoch, c, c2);
    ConflictOffends(c, g, h, s1, t1, w1, s2, t2, w2);
  }

  // ── Different sets ───────────────────────────────────────────────────────

  /** These members of the set, with their stakes, hold two thirds of it. */
  ghost predicate IsQuorum(c: map<Validator, nat>, w: map<Validator, nat>) {
    Sum(c) > 0 && 3 * Sum(w) >= 2 * Sum(c) && forall u :: u in w ==> u in c && w[u] == c[u]
  }

  ghost predicate Share(v: map<Validator, nat>, w: map<Validator, nat>) {
    exists u :: u in v && u in w
  }

  /** Every two thirds of the one set and every two thirds of the other have a validator in common. */
  ghost predicate Overlap(c: map<Validator, nat>, d: map<Validator, nat>) {
    forall v, w :: IsQuorum(c, v) && IsQuorum(d, w) ==> Share(v, w)
  }

  /** A set overlaps itself. */
  lemma OneSetOverlaps(c: map<Validator, nat>)
    ensures Overlap(c, c)
  {
    forall v, w | IsQuorum(c, v) && IsQuorum(c, w) ensures Share(v, w) {
      SumOverlap(v, w, c);
      var shared := map u | u in v && u in w :: v[u];
      TallyNonEmpty(shared);
      var u :| u in shared;
    }
  }

  ghost predicate SomeoneOffends(g: seq<Event>, h: seq<Event>) {
    exists u :: SlashablePair(u, g, h)
  }

  /**
   The branches may even have measured the two deciding epochs against different sets, as long as these overlap:
   then the finality is shared, or someone signed a slashable pair.
   */
  lemma AccountableAcrossSets(r: Rules, s: State, g: seq<Event>, h: seq<Event>,
                              c1: map<Validator, nat>, c2: map<Validator, nat>,
                              d1: map<Validator, nat>, d2: map<Validator, nat>)
    requires SplitPoint(r, s) && Run(r, s, g).Some? && Run(r, s, h).Some?
    requires s.finalized.epoch < Run(r, s, g).value.finalized.epoch <= Run(r, s, h).value.finalized.epoch
    requires var e := Run(r, s, g).value.finalized.epoch;
             SetIs(r, s, g, e, c1) && SetIs(r, s, h, e, c2) && SetIs(r, s, g, e + 1, d1) && SetIs(r, s, h, e + 1, d2)
    requires Overlap(c1, c2) && Overlap(d1, d2)
    ensures Run(r, s, h).value.IsJustified(Run(r, s, g).value.finalized) || SomeoneOffends(g, h)
  {
    hide *;
    BothStand(r, s, g, h);
    var f := Run(r, s, g).value.finalized;
    var child, cf, wf := FinalizedBy(r, s, g);
    if f.epoch > s.currentJustified.epoch {
      var back, cb, wb := JustifiedBy(r, s, g, f);
      var src, tgt, cx, wx := CrossedBy(r, s, h, f.epoch);
      if tgt.epoch > f.epoch {
        OverlapOffends(r, s, g, h, d1, d2, f, child, cf, wf, src, tgt, cx, wx);
      } else if tgt != f {
        OverlapOffends(r, s, g, h, c1, c2, back, f, cb, wb, src, tgt, cx, wx);
      }
    }
  }

  lemma OverlapOffends(r: Rules, s: State, g: seq<Event>, h: seq<Event>,
                       c: map<Validator, nat>, d: map<Validator, nat>,
                       s1: Checkpoint, t1: Checkpoint, c1: map<Validator, nat>, w1: map<Validator, nat>,
                       s2: Checkpoint, t2: Checkpoint, c2: map<Validator, nat>, w2: map<Validator, nat>)
    requires SetIs(r, s, g, t1.epoch, c) && SetIs(r, s, h, t1.epoch, d) && Overlap(c, d)
    requires Link(r, s, g, s1, t1, c1, w1) && Link(r, s, h, s2, t2, c2, w2) && Measured(r, s, h, t1.epoch, c2)
    requires !(s1 == s2 && t1 == t2) && t1.epoch <= t2.epoch && (t1.epoch < t2.epoch ==> s2.epoch < s1.epoch)
    ensures SomeoneOffends(g, h)
  {
    hide SetIs, Measured;
    MeasuredIsSet(r, s, g, t1.epoch, c, c1);
    MeasuredIsSet(r, s, h, t1.epoch, d, c2);
    assert IsQuorum(c, w1) && IsQuorum(d, w2);
    assert Share(w1, w2);
    var u :| u in w1 && u in w2;
    BothSigned(u, g, h, s1, t1, s2, t2);
  }
}
