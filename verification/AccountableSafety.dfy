/**
 Two branches of one network. While both measure their quorums against one
 frozen finality set, conflicting finality needs a third of that set to have
 signed a slashable pair of votes, and disjoint voters cannot both justify.
 */
module AccountableSafety {
  import opened Basics
  import opened Sums
  import opened Finality
  import opened FinalitySafety

  /** Evidence is of one offence only, whichever vote is named first, and no vote conflicts with itself. */
  lemma OffencesAreApart(a: Vote, b: Vote)
    ensures (a.Conflicts(b) <==> b.Conflicts(a)) && !a.Conflicts(a)
    ensures a.IsDoubleVote(b) ==> !a.Surrounds(b) && !b.Surrounds(a)
    ensures a.Surrounds(b) ==> !b.Surrounds(a)
  {
  }

  /** Validator `u`'s vote `d` was tallied somewhere in the history. */
  ghost predicate Signed(h: seq<Event>, u: Validator, d: Vote) {
    exists i :: 0 <= i < |h| && h[i].Tallied? && (u, d) in h[i].votes.attestations
  }

  ghost predicate SignedLink(h: seq<Event>, u: Validator, src: Checkpoint, tgt: Checkpoint) {
    exists d :: Signed(h, u, d) && d.source == src && d.target == tgt
  }

  /** A supermajority link: two thirds of the set `c` signed votes from `src` to `tgt` in this history. */
  ghost predicate Backed(c: map<Validator, nat>, h: seq<Event>, src: Checkpoint, tgt: Checkpoint,
                         w: map<Validator, nat>)
  {
    && Sum(c) > 0 && 3 * Sum(w) >= 2 * Sum(c)
    && (forall u :: u in w ==> u in c && w[u] == c[u])
    && (forall u :: u in w ==> SignedLink(h, u, src, tgt))
  }

  /** This epoch's quorum is measured against exactly the stakes `c`. */
  ghost predicate TalliedAgainst(r: Rules, s: State, v: EpochVotes, c: map<Validator, nat>) {
    Frozen(r, v.epoch) && OpenSets(r, s, v).Some? && OpenSets(r, s, v).value.current.members == c
  }

  /** Every epoch of the history is measured against `c`. */
  ghost predicate AllAgainst(r: Rules, s: State, h: seq<Event>, c: map<Validator, nat>) {
    h != [] ==>
      && AllAgainst(r, s, h[..|h| - 1], c)
      && (h[|h| - 1].Tallied? && Run(r, s, h[..|h| - 1]).Some? ==>
            TalliedAgainst(r, Run(r, s, h[..|h| - 1]).value, h[|h| - 1].votes, c))
  }

  // ── Links of one run ─────────────────────────────────────────────────────

  lemma WinnerIsBacked(r: Rules, s: State, v: EpochVotes, c: map<Validator, nat>) returns (w: map<Validator, nat>)
    requires TalliedAgainst(r, s, v, c) && Winner(r, s, v).Some?
    ensures Backed(c, [Tallied(v)], s.currentJustified, Winner(r, s, v).value, w)
    ensures Winner(r, s, v).value.epoch == v.epoch && s.currentJustified.epoch < v.epoch
  {
    var counted, root := Counted(r, s, v), Winner(r, s, v).value.root;
    assert Weights(r, s, v) == c && Denominator(r, s, v) == Sum(c);
    w := Tally(counted, c, root);
    assert Quorum(counted, c, Sum(c), root);
    forall u | u in w ensures SignedLink([Tallied(v)], u, s.currentJustified, Checkpoint(v.epoch, root)) {
      CountedIsSigned(r, s, v, u);
    }
    TallyNonEmpty(w);
    var u :| u in w;
    CountedIsSigned(r, s, v, u);
  }

  lemma TallyNonEmpty(w: map<Validator, nat>)
    requires Sum(w) > 0
    ensures exists u :: u in w
  {
  }

  lemma CountedIsSigned(r: Rules, s: State, v: EpochVotes, u: Validator)
    requires u in Counted(r, s, v)
    ensures var d := Counted(r, s, v)[u];
            Signed([Tallied(v)], u, d) && d.source == s.currentJustified && d.target.epoch == v.epoch
            && d.source.epoch < v.epoch
  {
    var clean := Clean(AdjustedStake(v.activeSet, s.leaked).Keys, v.epoch, v.Heard());
    assert VotedFor(v.Heard(), v.epoch, u, clean[u]);
    assert [Tallied(v)][0].votes == v;
  }

  lemma BackedWiden(c: map<Validator, nat>, g: seq<Event>, h: seq<Event>, src: Checkpoint, tgt: Checkpoint,
                    w: map<Validator, nat>)
    requires Backed(c, g, src, tgt, w) && forall e :: e in g ==> e in h
    ensures Backed(c, h, src, tgt, w)
  {
    forall u | u in w ensures SignedLink(h, u, src, tgt) {
      assert SignedLink(g, u, src, tgt);
      var d :| Signed(g, u, d) && d.source == src && d.target == tgt;
      var i :| 0 <= i < |g| && g[i].Tallied? && (u, d) in g[i].votes.attestations;
      assert g[i] in h;
      var j :| 0 <= j < |h| && h[j] == g[i];
      assert Signed(h, u, d);
    }
  }

  /** The last event's justification, as a link of the whole history. */
  lemma LastLink(r: Rules, s: State, h: seq<Event>, c: map<Validator, nat>) returns (w: map<Validator, nat>)
    requires h != [] && h[|h| - 1].Tallied? && Run(r, s, h[..|h| - 1]).Some? && AllAgainst(r, s, h, c)
    requires Winner(r, Run(r, s, h[..|h| - 1]).value, h[|h| - 1].votes).Some?
    ensures
      var before, v := Run(r, s, h[..|h| - 1]).value, h[|h| - 1].votes;
      Backed(c, h, before.currentJustified, Winner(r, before, v).value, w)
      && Winner(r, before, v).value.epoch == v.epoch && before.currentJustified.epoch < v.epoch
  {
    var before, v := Run(r, s, h[..|h| - 1]).value, h[|h| - 1].votes;
    w := WinnerIsBacked(r, before, v, c);
    assert h[|h| - 1] == Tallied(v);
    BackedWiden(c, [Tallied(v)], h, before.currentJustified, Winner(r, before, v).value, w);
  }

  lemma FrontWiden(c: map<Validator, nat>, h: seq<Event>, src: Checkpoint, tgt: Checkpoint, w: map<Validator, nat>)
    requires h != [] && Backed(c, h[..|h| - 1], src, tgt, w)
    ensures Backed(c, h, src, tgt, w)
  {
    BackedWiden(c, h[..|h| - 1], h, src, tgt, w);
  }

  /** Every checkpoint justified since the start of the history was reached over a supermajority link. */
  lemma {:induction false} JustifiedLink(r: Rules, s: State, h: seq<Event>, c: map<Validator, nat>, cp: Checkpoint)
    returns (src: Checkpoint, w: map<Validator, nat>)
    requires Sound(s) && Run(r, s, h).Some? && AllAgainst(r, s, h, c)
    requires Run(r, s, h).value.IsJustified(cp) && cp.epoch > s.currentJustified.epoch
    ensures Backed(c, h, src, cp, w)
    decreases |h|
  {
    var front := h[..|h| - 1];
    RunKeeps(r, s, front);
    var before := Run(r, s, front).value;
    if before.IsJustified(cp) {
      src, w := JustifiedLink(r, s, front, c, cp);
      FrontWiden(c, h, src, cp, w);
    } else {
      ProcessAdvances(r, before, h[|h| - 1].votes);
      w := LastLink(r, s, h, c);
      src := before.currentJustified;
    }
  }

  /** The justified checkpoint moves past any epoch over one link that starts below it. */
  lemma {:induction false} CrossingLink(r: Rules, s: State, h: seq<Event>, c: map<Validator, nat>, a: nat)
    returns (src: Checkpoint, tgt: Checkpoint, w: map<Validator, nat>)
    requires Sound(s) && Run(r, s, h).Some? && AllAgainst(r, s, h, c)
    requires s.currentJustified.epoch < a <= Run(r, s, h).value.currentJustified.epoch
    ensures Backed(c, h, src, tgt, w) && src.epoch < a <= tgt.epoch && Run(r, s, h).value.IsJustified(tgt)
    decreases |h|
  {
    var front := h[..|h| - 1];
    RunKeeps(r, s, front);
    var before := Run(r, s, front).value;
    if h[|h| - 1].Tallied? {
      ProcessAdvances(r, before, h[|h| - 1].votes);
    }
    if before.currentJustified.epoch >= a {
      src, tgt, w := CrossingLink(r, s, front, c, a);
      FrontWiden(c, h, src, tgt, w);
    } else {
      w := LastLink(r, s, h, c);
      src, tgt := before.currentJustified, Winner(r, before, h[|h| - 1].votes).value;
    }
  }

  /** A newly finalized checkpoint is the source of a supermajority link to the very next epoch. */
  lemma {:induction false} FinalLink(r: Rules, s: State, h: seq<Event>, c: map<Validator, nat>)
    returns (tgt: Checkpoint, w: map<Validator, nat>)
    requires Sound(s) && Run(r, s, h).Some? && AllAgainst(r, s, h, c)
    requires Run(r, s, h).value.finalized.epoch > s.finalized.epoch
    ensures
      var f := Run(r, s, h).value.finalized;
      Backed(c, h, f, tgt, w) && tgt.epoch == f.epoch + 1 && f.epoch >= s.currentJustified.epoch
    decreases |h|
  {
    var front := h[..|h| - 1];
    RunKeeps(r, s, front);
    var before := Run(r, s, front).value;
    if h[|h| - 1].Tallied? {
      ProcessAdvances(r, before, h[|h| - 1].votes);
    }
    if before.finalized == Run(r, s, h).value.finalized {
      tgt, w := FinalLink(r, s, front, c);
      FrontWiden(c, h, before.finalized, tgt, w);
    } else {
      w := LastLink(r, s, h, c);
      tgt := Winner(r, before, h[|h| - 1].votes).value;
    }
  }

  // ── Two runs ─────────────────────────────────────────────────────────────

  /** `u` signed a double vote or a surround vote across the two histories. */
  ghost predicate SlashablePair(u: Validator, g: seq<Event>, h: seq<Event>) {
    exists d, e :: Signed(g, u, d) && Signed(h, u, e) && d.Conflicts(e)
  }

  ghost function Offenders(c: map<Validator, nat>, g: seq<Event>, h: seq<Event>): map<Validator, nat> {
    map u | u in c && SlashablePair(u, g, h) :: c[u]
  }

  /** Any vote over the first link conflicts with any vote over the second. */
  predicate LinksConflict(s1: Checkpoint, t1: Checkpoint, s2: Checkpoint, t2: Checkpoint) {
    || (t1.epoch == t2.epoch && (s1 != s2 || t1 != t2))
    || (s1.epoch < s2.epoch && t2.epoch < t1.epoch)
    || (s2.epoch < s1.epoch && t1.epoch < t2.epoch)
  }

  /** Two supermajority links share at least a third of the set. */
  lemma QuorumsOverlap(c: map<Validator, nat>, g: seq<Event>, h: seq<Event>,
                       s1: Checkpoint, t1: Checkpoint, w1: map<Validator, nat>,
                       s2: Checkpoint, t2: Checkpoint, w2: map<Validator, nat>)
    requires Backed(c, g, s1, t1, w1) && Backed(c, h, s2, t2, w2)
    ensures 3 * Sum(map u | u in w1 && u in w2 :: w1[u]) >= Sum(c) > 0
  {
    SumOverlap(w1, w2, c);
  }

  lemma SharedVoter(c: map<Validator, nat>, g: seq<Event>, h: seq<Event>,
                    s1: Checkpoint, t1: Checkpoint, w1: map<Validator, nat>,
                    s2: Checkpoint, t2: Checkpoint, w2: map<Validator, nat>)
    requires Backed(c, g, s1, t1, w1) && Backed(c, h, s2, t2, w2)
    ensures !NoCommonVoter(g, h)
  {
    QuorumsOverlap(c, g, h, s1, t1, w1, s2, t2, w2);
    TallyNonEmpty(map u | u in w1 && u in w2 :: w1[u]);
    var u :| u in w1 && u in w2;
    assert SignedLink(g, u, s1, t1) && SignedLink(h, u, s2, t2);
  }

  lemma BothSigned(u: Validator, g: seq<Event>, h: seq<Event>, s1: Checkpoint, t1: Checkpoint, s2: Checkpoint,
                   t2: Checkpoint)
    requires SignedLink(g, u, s1, t1) && SignedLink(h, u, s2, t2) && LinksConflict(s1, t1, s2, t2)
    ensures SlashablePair(u, g, h)
  {
    var d :| Signed(g, u, d) && d.source == s1 && d.target == t1;
    var e :| Signed(h, u, e) && e.source == s2 && e.target == t2;
    assert d.Conflicts(e);
  }

  lemma ConflictOffends(c: map<Validator, nat>, g: seq<Event>, h: seq<Event>,
                        s1: Checkpoint, t1: Checkpoint, w1: map<Validator, nat>,
                        s2: Checkpoint, t2: Checkpoint, w2: map<Validator, nat>)
    requires Backed(c, g, s1, t1, w1) && Backed(c, h, s2, t2, w2) && LinksConflict(s1, t1, s2, t2)
    ensures 3 * Sum(Offenders(c, g, h)) >= Sum(c)
  {
    QuorumsOverlap(c, g, h, s1, t1, w1, s2, t2, w2);
    var shared := map u | u in w1 && u in w2 :: w1[u];
    forall u | u in shared ensures u in Offenders(c, g, h) && shared[u] <= Offenders(c, g, h)[u] {
      BothSigned(u, g, h, s1, t1, s2, t2);
    }
    SumMonotone(shared, Offenders(c, g, h));
  }

  /**
   Accountable safety. Two branches leave one state and both finalize. Then the branch that finalized later
   justified what the other finalized, or a third of the finality set signed a slashable pair.
   */
  lemma AccountableFinality(r: Rules, s: State, g: seq<Event>, h: seq<Event>, c: map<Validator, nat>)
    requires Sound(s) && Run(r, s, g).Some? && Run(r, s, h).Some?
    requires AllAgainst(r, s, g, c) && AllAgainst(r, s, h, c)
    requires s.finalized.epoch < Run(r, s, g).value.finalized.epoch <= Run(r, s, h).value.finalized.epoch
    ensures Run(r, s, h).value.IsJustified(Run(r, s, g).value.finalized) || 3 * Sum(Offenders(c, g, h)) >= Sum(c)
  {
    RunKeeps(r, s, g);
    RunKeeps(r, s, h);
    var a, b := Run(r, s, g).value, Run(r, s, h).value;
    hide Run, AllAgainst, Backed, Offenders;
    var child, wf := FinalLink(r, s, g, c);
    if a.finalized.epoch == s.currentJustified.epoch {
      assert a.finalized == s.currentJustified;
    } else {
      var back, wb := JustifiedLink(r, s, g, c, a.finalized);
      var src, tgt, w := CrossingLink(r, s, h, c, a.finalized.epoch);
      if tgt != a.finalized {
        LaterLinkConflicts(c, g, h, back, wb, a.finalized, child, wf, src, tgt, w);
      }
    }
  }

  /** A link that jumps over a finalized checkpoint, or lands beside it, conflicts with one of the links around it. */
  lemma LaterLinkConflicts(c: map<Validator, nat>, g: seq<Event>, h: seq<Event>,
                           back: Checkpoint, wb: map<Validator, nat>, fin: Checkpoint,
                           child: Checkpoint, wf: map<Validator, nat>,
                           src: Checkpoint, tgt: Checkpoint, w: map<Validator, nat>)
    requires Backed(c, g, back, fin, wb) && Backed(c, g, fin, child, wf) && child.epoch == fin.epoch + 1
    requires Backed(c, h, src, tgt, w) && src.epoch < fin.epoch <= tgt.epoch && tgt != fin
    ensures 3 * Sum(Offenders(c, g, h)) >= Sum(c)
  {
    hide Backed, Offenders;
    if tgt.epoch == fin.epoch {
      ConflictOffends(c, g, h, back, fin, wb, src, tgt, w);
    } else {
      ConflictOffends(c, g, h, fin, child, wf, src, tgt, w);
    }
  }

  // ── A split network ──────────────────────────────────────────────────────

  /** A state past the frozen-set gate, with its set formed and no recovery epoch still to come. */
  ghost predicate SplitPoint(r: Rules, s: State) {
    && Sound(s) && s.sets.Some? && Frozen(r, s.nextEpoch)
    && forall e :: e in r.recoveries ==> e < s.nextEpoch
  }

  /** Every epoch processed past the gate leaves such a state, once the last recovery is over. */
  lemma SplitPointReached(r: Rules, s: State, v: EpochVotes)
    requires Sound(s) && v.epoch == s.nextEpoch && Frozen(r, v.epoch)
    requires forall e :: e in r.recoveries ==> e <= v.epoch
    ensures SplitPoint(r, Process(r, s, v).value)
  {
    ProcessKeeps(r, s, v);
    hide Leaks, Winner, Counted;
  }

  lemma SetKeptOneEpoch(r: Rules, s: State, v: EpochVotes)
    requires SplitPoint(r, s) && v.epoch == s.nextEpoch
    ensures TalliedAgainst(r, s, v, s.sets.value.current.members)
    ensures Process(r, s, v).value.sets.Some?
    ensures Process(r, s, v).value.finalized == s.finalized
        ==> Process(r, s, v).value.sets.value.current == s.sets.value.current
  {
  }

  /** While a branch has finalized nothing new, its finality set is the one in force at the split. */
  lemma {:induction false} SetKept(r: Rules, s: State, h: seq<Event>)
    requires SplitPoint(r, s) && Run(r, s, h).Some? && Run(r, s, h).value.finalized == s.finalized
    ensures SplitPoint(r, Run(r, s, h).value)
    ensures Run(r, s, h).value.sets.value.current == s.sets.value.current
    ensures AllAgainst(r, s, h, s.sets.value.current.members)
    decreases |h|
  {
    if h != [] {
      var front, last := h[..|h| - 1], h[|h| - 1];
      RunKeeps(r, s, h);
      RunKeeps(r, s, front);
      var before := Run(r, s, front).value;
      if last.Tallied? {
        ProcessKeeps(r, before, last.votes);
      }
      SetKept(r, s, front);
      if last.Tallied? {
        SetKeptOneEpoch(r, before, last.votes);
      }
    }
  }

  /** Up to and including the epoch of its first finality, a branch is measured against the set of the split. */
  lemma {:induction false} FirstFinality(r: Rules, s: State, h: seq<Event>) returns (k: nat)
    requires SplitPoint(r, s) && Run(r, s, h).Some? && Run(r, s, h).value.finalized != s.finalized
    ensures k <= |h| && Run(r, s, h[..k]).Some?
    ensures Run(r, s, h[..k]).value.finalized.epoch > s.finalized.epoch
    ensures AllAgainst(r, s, h[..k], s.sets.value.current.members)
    decreases |h|
  {
    var front := h[..|h| - 1];
    assert h[..|h|] == h;
    RunKeeps(r, s, h);
    RunKeeps(r, s, front);
    if Run(r, s, front).value.finalized == s.finalized {
      SetKept(r, s, front);
      if h[|h| - 1].Tallied? {
        SetKeptOneEpoch(r, Run(r, s, front).value, h[|h| - 1].votes);
      }
      k := |h|;
    } else {
      k := FirstFinality(r, s, front);
      assert front[..k] == h[..k];
    }
  }

  ghost predicate NoCommonVoter(g: seq<Event>, h: seq<Event>) {
    forall u, d, e :: !(Signed(g, u, d) && Signed(h, u, e))
  }

  /** If no validator's votes are heard on both sides of a split, at most one side ever finalizes anything. */
  lemma AtMostOneSideFinalizes(r: Rules, s: State, g: seq<Event>, h: seq<Event>)
    requires SplitPoint(r, s) && Run(r, s, g).Some? && Run(r, s, h).Some? && NoCommonVoter(g, h)
    ensures Run(r, s, g).value.finalized == s.finalized || Run(r, s, h).value.finalized == s.finalized
  {
    if Run(r, s, g).value.finalized != s.finalized && Run(r, s, h).value.finalized != s.finalized {
      var c := s.sets.value.current.members;
      var i := FirstFinality(r, s, g);
      var j := FirstFinality(r, s, h);
      var t1, w1 := FinalLink(r, s, g[..i], c);
      var t2, w2 := FinalLink(r, s, h[..j], c);
      var f1, f2 := Run(r, s, g[..i]).value.finalized, Run(r, s, h[..j]).value.finalized;
      BackedWiden(c, g[..i], g, f1, t1, w1);
      BackedWiden(c, h[..j], h, f2, t2, w2);
      SharedVoter(c, g, h, f1, t1, w1, f2, t2, w2);
    }
  }
}
