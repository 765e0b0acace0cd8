/**
 Finality of a network whose validators sign through slashing protection:
 while less than a third of the frozen set signs without it, two branches
 measured against that set never finalize in conflict.
 */
module ProtectedFinality {
  import opened Basics
  import opened Sums
  import opened Finality
  import opened FinalitySafety
  import opened AccountableSafety
  import opened HandoffSafety
  import Handoff = FinalityHandoff
  import SP = SlashingProtection

  /** Every vote of `u` tallied in the history was released by one run of `u`'s signer. */
  ghost predicate SignedThrough(h: seq<Event>, u: Validator, log: seq<SP.Signature>) {
    forall d :: Signed(h, u, d) ==> SP.Attestation(d) in log
  }

  ghost predicate SignedBoth(g: seq<Event>, h: seq<Event>, u: Validator, anchored: bool, events: seq<SP.Event>) {
    && SP.AllAllowed(SP.FirstBoot(anchored), events)
    && SignedThrough(g, u, SP.After(SP.FirstBoot(anchored), events).released)
    && SignedThrough(h, u, SP.After(SP.FirstBoot(anchored), events).released)
  }

  /** Validator `u` signed everything on both branches through one slashing-protection record. */
  ghost predicate Protected(g: seq<Event>, h: seq<Event>, u: Validator) {
    exists anchored, events :: SignedBoth(g, h, u, anchored, events)
  }

  lemma ProtectedNeverOffends(g: seq<Event>, h: seq<Event>, u: Validator)
    requires Protected(g, h, u)
    ensures !SlashablePair(u, g, h)
  {
    var anchored, events :| SignedBoth(g, h, u, anchored, events);
    var log := SP.After(SP.FirstBoot(anchored), events).released;
    SP.NoRunIsSlashable(anchored, events);
    forall d, e | Signed(g, u, d) && Signed(h, u, e) ensures !d.Conflicts(e) {
      var i :| 0 <= i < |log| && log[i] == SP.Attestation(d);
      var j :| 0 <= j < |log| && log[j] == SP.Attestation(e);
      assert !SP.Slashable(log[i], log[j]);
    }
  }

  /** Protection of two histories protects any two pieces of them, on either side. */
  lemma ProtectedPieces(g: seq<Event>, h: seq<Event>, x: seq<Event>, y: seq<Event>, u: Validator)
    requires Protected(g, h, u)
    requires (x <= g && y <= h) || (x <= h && y <= g)
    ensures Protected(x, y, u)
  {
    var anchored, events :| SignedBoth(g, h, u, anchored, events);
    forall d ensures Signed(x, u, d) || Signed(y, u, d) ==> Signed(g, u, d) || Signed(h, u, d) {
      if Signed(x, u, d) {
        var i :| 0 <= i < |x| && x[i].Tallied? && (u, d) in x[i].votes.attestations;
        assert x <= g ==> g[i] == x[i];
        assert x <= h ==> h[i] == x[i];
      }
      if Signed(y, u, d) {
        var i :| 0 <= i < |y| && y[i].Tallied? && (u, d) in y[i].votes.attestations;
        assert y <= g ==> g[i] == y[i];
        assert y <= h ==> h[i] == y[i];
      }
    }
    assert SignedBoth(x, y, u, anchored, events);
  }

  lemma FewerUnprotected(c: map<Validator, nat>, g: seq<Event>, h: seq<Event>, x: seq<Event>, y: seq<Event>)
    requires (x <= g && y <= h) || (x <= h && y <= g)
    ensures Sum(Unprotected(c, x, y)) <= Sum(Unprotected(c, g, h))
  {
    forall u | u in Unprotected(c, x, y) ensures u in Unprotected(c, g, h) {
      if Protected(g, h, u) {
        ProtectedPieces(g, h, x, y, u);
      }
    }
    SumMonotone(Unprotected(c, x, y), Unprotected(c, g, h));
  }

  ghost function Unprotected(c: map<Validator, nat>, g: seq<Event>, h: seq<Event>): map<Validator, nat> {
    map u | u in c && !Protected(g, h, u) :: c[u]
  }

  lemma OffendersAreUnprotected(c: map<Validator, nat>, g: seq<Event>, h: seq<Event>)
    ensures Sum(Offenders(c, g, h)) <= Sum(Unprotected(c, g, h))
  {
    forall u | u in Offenders(c, g, h) ensures u in Unprotected(c, g, h) {
      if Protected(g, h, u) {
        ProtectedNeverOffends(g, h, u);
      }
    }
    SumMonotone(Offenders(c, g, h), Unprotected(c, g, h));
  }

  /** Two branches of one frozen set, less than a third of it unprotected: the later finality contains the earlier. */
  lemma ProtectedBranchesAgree(r: Rules, s: State, g: seq<Event>, h: seq<Event>, c: map<Validator, nat>)
    requires Sound(s) && Run(r, s, g).Some? && Run(r, s, h).Some?
    requires AllAgainst(r, s, g, c) && AllAgainst(r, s, h, c)
    requires s.finalized.epoch < Run(r, s, g).value.finalized.epoch <= Run(r, s, h).value.finalized.epoch
    requires 3 * Sum(Unprotected(c, g, h)) < Sum(c)
    ensures Run(r, s, h).value.IsJustified(Run(r, s, g).value.finalized)
  {
    AccountableFinality(r, s, g, h, c);
    OffendersAreUnprotected(c, g, h);
  }

  /**
    * From the split on, the first checkpoint either branch finalizes is justified on the other as
    * soon as it finalizes.
    */
  lemma ProtectedSplitAgrees(r: Rules, s: State, g: seq<Event>, h: seq<Event>) returns (i: nat, j: nat)
    requires SplitPoint(r, s) && Run(r, s, g).Some? && Run(r, s, h).Some?
    requires Run(r, s, g).value.finalized != s.finalized && Run(r, s, h).value.finalized != s.finalized
    requires 3 * Sum(Unprotected(s.sets.value.current.members, g, h)) < Sum(s.sets.value.current.members)
    ensures i <= |g| && j <= |h| && Run(r, s, g[..i]).Some? && Run(r, s, h[..j]).Some?
    ensures
      var a, b := Run(r, s, g[..i]).value, Run(r, s, h[..j]).value;
      && a.finalized.epoch > s.finalized.epoch && b.finalized.epoch > s.finalized.epoch
      && if a.finalized.epoch <= b.finalized.epoch then b.IsJustified(a.finalized) else a.IsJustified(b.finalized)
  {
    var c := s.sets.value.current.members;
    i := FirstFinality(r, s, g);
    j := FirstFinality(r, s, h);
    if Run(r, s, g[..i]).value.finalized.epoch <= Run(r, s, h[..j]).value.finalized.epoch {
      FewerUnprotected(c, g, h, g[..i], h[..j]);
      ProtectedBranchesAgree(r, s, g[..i], h[..j], c);
    } else {
      FewerUnprotected(c, g, h, h[..j], g[..i]);
      ProtectedBranchesAgree(r, s, h[..j], g[..i], c);
    }
  }

  /** With less than a third of either set unprotected, whatever one branch ever finalizes the other justifies. */
  lemma ProtectedThroughHandoffs(r: Rules, s: State, g: seq<Event>, h: seq<Event>,
                                 c: map<Validator, nat>, d: map<Validator, nat>)
    requires SplitPoint(r, s) && Run(r, s, g).Some? && Run(r, s, h).Some?
    requires s.finalized.epoch < Run(r, s, g).value.finalized.epoch <= Run(r, s, h).value.finalized.epoch
    requires var e := Run(r, s, g).value.finalized.epoch;
             SetIs(r, s, g, e, c) && SetIs(r, s, h, e, c) && SetIs(r, s, g, e + 1, d) && SetIs(r, s, h, e + 1, d)
    requires 3 * Sum(Unprotected(c, g, h)) < Sum(c) && 3 * Sum(Unprotected(d, g, h)) < Sum(d)
    ensures Run(r, s, h).value.IsJustified(Run(r, s, g).value.finalized)
  {
    hide Run, SetIs, Offenders, Unprotected;
    AccountableThroughHandoffs(r, s, g, h, c, d);
    OffendersAreUnprotected(c, g, h);
    OffendersAreUnprotected(d, g, h);
  }

  // ── What protection does not give ────────────────────────────────────────

  /** Whoever signs rising votes below the sentinel can sign them all through one record. */
  lemma RisingIsProtected(g: seq<Event>, h: seq<Event>, u: Validator, votes: seq<Vote>)
    requires SP.Rising(votes) && SP.AllWordsBelow(votes)
    requires forall d :: Signed(g, u, d) || Signed(h, u, d) ==> d in votes
    ensures Protected(g, h, u)
  {
    SP.RisingIsReleased(true, votes);
    hide SP.Rising, SP.AllWordsBelow, SP.AllAllowed, SP.After, SP.HasReleased;
    var events := SP.Signing(votes);
    var log := SP.After(SP.FirstBoot(true), events).released;
    forall d | d in votes ensures SP.Attestation(d) in log {
      var i :| 0 <= i < |votes| && votes[i] == d;
      assert log[i] == SP.Attestation(d);
    }
    assert SignedThrough(g, u, log) && SignedThrough(h, u, log);
    assert SignedBoth(g, h, u, true, events);
  }

  /** The votes cast on either branch of `HandoffCanConflict` by the old quorum, and by the new, in slot order. */
  const OLD_VOTES: seq<Vote> :=
    [Handoff.COMMON, Vote(96, 103, Checkpoint(2, 2), Checkpoint(3, 103)),
     Vote(128, 204, Checkpoint(2, 2), Checkpoint(4, 204)), Vote(160, 205, Checkpoint(4, 204), Checkpoint(5, 205))]
  const NEW_VOTES: seq<Vote> :=
    [Vote(128, 104, Checkpoint(3, 103), Checkpoint(4, 104)), Vote(160, 105, Checkpoint(4, 104), Checkpoint(5, 105))]

  lemma HandoffVotesRise(g: seq<Event>, h: seq<Event>, v: set<Validator>, w: set<Validator>, u: Validator)
    returns (votes: seq<Vote>)
    requires v !! w
    requires Handoff.SignedOnly(g, Handoff.LeftBallots(v, w)) && Handoff.SignedOnly(h, Handoff.RightBallots(v))
    ensures SP.Rising(votes) && SP.AllWordsBelow(votes)
    ensures forall d :: Signed(g, u, d) || Signed(h, u, d) ==> d in votes
  {
    hide Signed;
    votes := if u in v then OLD_VOTES else NEW_VOTES;
    assert OLD_VOTES[1] in OLD_VOTES && OLD_VOTES[2] in OLD_VOTES && OLD_VOTES[3] in OLD_VOTES;
    assert NEW_VOTES[0] in NEW_VOTES && NEW_VOTES[1] in NEW_VOTES;
    forall d | Signed(g, u, d) ensures d in votes {
      var x := Handoff.LeftBallots(v, w);
      var i :| 0 <= i < |x| && u in x[i].voters && x[i].vote == d;
    }
    forall d | Signed(h, u, d) ensures d in votes {
      var x := Handoff.RightBallots(v);
      var i :| 0 <= i < |x| && u in x[i].voters && x[i].vote == d;
    }
  }

  /**
   Two branches of one split finalize in conflict although every validator signs both through its record: what
   `ProtectedSplitAgrees` promises of the first finalities does not reach past the handoff of only one branch.
   */
  lemma ProtectedHandoffCanConflict() returns (g: seq<Event>, h: seq<Event>)
    ensures var r, s := Handoff.GATED, Handoff.SplitOf(Handoff.SMALL);
            && SplitPoint(r, s) && Run(r, s, g).Some? && Run(r, s, h).Some?
            && var a, b := Run(r, s, g).value.finalized, Run(r, s, h).value.finalized;
               a.epoch == b.epoch > s.finalized.epoch && a.root != b.root
    ensures forall u :: Protected(g, h, u)
    ensures 3 * Sum(Unprotected(Handoff.SMALL, g, h)) < Sum(Handoff.SMALL)
  {
    hide Protected, SplitPoint, Run, Handoff.SignedOnly, Handoff.OneRoster, Handoff.Accountable;
    Handoff.SmallAndGrand();
    hide Handoff.IsCase;
    g, h := Handoff.HandoffCanConflict(Handoff.SMALL, Handoff.GRAND, Handoff.ROSTER, {0}, {1});
    forall u ensures Protected(g, h, u) {
      var votes := HandoffVotesRise(g, h, {0}, {1}, u);
      RisingIsProtected(g, h, u, votes);
    }
    assert Unprotected(Handoff.SMALL, g, h) == map[];
  }
}
