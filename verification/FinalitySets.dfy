/**
 Who is in a finality set, and whose votes count
 (crates/bloch-pos-committee/src/finality.rs): the snapshot with its pruning
 of absent validators, the forming and handing over of the frozen set, and the
 filter on votes for foreign checkpoints.
 */
module FinalitySets {
  import opened Basics
  import opened Options
  import opened Finality
  import opened FinalityLeak

  // ── The snapshot ─────────────────────────────────────────────────────────

  /** Not unseen for as long as the pruning horizon; who was never seen has a grace start. */
  predicate Recent(epoch: nat, lastSeen: map<Validator, nat>, u: Validator) {
    u in lastSeen ==> epoch < lastSeen[u] + PRUNE_AFTER
  }

  lemma {:induction false} Unlisted(active: seq<Member>, epoch: nat, lastSeen: map<Validator, nat>, u: Validator)
    requires Listed(active, u) == 0
    ensures u !in Unpruned(active, epoch, lastSeen)
  {
    if active != [] {
      Unlisted(active[..|active| - 1], epoch, lastSeen, u);
    }
  }

  /** A snapshot holds exactly the listed validators with stake that are recent, each with that stake. */
  lemma {:induction false} SnapshotExactly(active: seq<Member>, epoch: nat, lastSeen: map<Validator, nat>,
                                           u: Validator, stake: nat)
    requires ListedWith(active, u, stake)
    ensures u in Unpruned(active, epoch, lastSeen) <==> stake > 0 && Recent(epoch, lastSeen, u)
    ensures u in Unpruned(active, epoch, lastSeen) ==> Unpruned(active, epoch, lastSeen)[u] == stake
  {
    var front, last := active[..|active| - 1], active[|active| - 1];
    assert active == front + [last];
    ListedIsIndex(front, u);
    if last.index == u {
      Unlisted(front, epoch, lastSeen, u);
    } else {
      SnapshotExactly(front, epoch, lastSeen, u, stake);
    }
  }

  // ── Forming the set, and handing it over ─────────────────────────────────

  /** What an epoch is measured against: a set formed when the gate opens or a recovery is due, else the old one. */
  lemma FormedExactly(r: Rules, s: State, v: EpochVotes, u: Validator, stake: nat)
    requires Frozen(r, v.epoch) && ListedWith(v.activeSet, u, stake)
    requires s.sets.None? || v.epoch in r.recoveries
    ensures OpenSets(r, s, v).Some? && OpenSets(r, s, v).value.pending.None?
    ensures OpenSets(r, s, v).value.lastSeen == if s.sets.None? then map[] else s.sets.value.lastSeen
    ensures var members := OpenSets(r, s, v).value.current.members;
            && (u in members <==> stake > 0 && (s.sets.Some? ==> Recent(v.epoch, s.sets.value.lastSeen, u)))
            && (u in members ==> members[u] == stake)
  {
    SnapshotExactly(v.activeSet, v.epoch, if s.sets.None? then map[] else s.sets.value.lastSeen, u, stake);
  }

  lemma OpenedOtherwise(r: Rules, s: State, v: EpochVotes)
    requires !Frozen(r, v.epoch) || (s.sets.Some? && v.epoch !in r.recoveries)
    ensures OpenSets(r, s, v) == s.sets
  {
  }

  /** Heard this epoch: exactly one vote for it, whatever it links. */
  ghost predicate Present(r: Rules, s: State, v: EpochVotes, u: Validator) {
    && u in Indices(v.activeSet) && (exists d :: VotedFor(v.Heard(), v.epoch, u, d))
    && !Equivocated(v.Heard(), v.epoch, u)
  }

  lemma {:induction false} RosterKeys(active: seq<Member>, leaked: map<Validator, nat>)
    ensures AdjustedStake(active, leaked).Keys == Indices(active)
  {
    if active != [] {
      var front, last := active[..|active| - 1], active[|active| - 1];
      RosterKeys(front, leaked);
      assert active == front + [last];
      assert Indices(active) == Indices(front) + {last.index};
    }
  }

  /**
   The end of a gated epoch: the set in force becomes the candidate exactly when this epoch finalizes the checkpoint
   the candidate was taken at, and the next candidate is taken.
   */
  lemma HandedOverExactly(r: Rules, s: State, v: EpochVotes)
    requires Frozen(r, v.epoch) && v.epoch == s.nextEpoch
    ensures var t, open := Process(r, s, v).value, OpenSets(r, s, v);
            && t.sets.Some? && open.Some?
            && t.sets.value.current
               == (if open.value.pending.Some? && NewlyFinal(r, s, v).Some?
                      && open.value.pending.value.epoch == NewlyFinal(r, s, v).value.epoch
                   then open.value.pending.value else open.value.current)
            && t.sets.value.pending.Some? && t.sets.value.pending.value.epoch == v.epoch
  {
    hide Winner, Leaks, Clean, AdjustedStake, Unpruned, NewlyFinal;
  }

  /** Who was last seen when: now if present or new on the roster, else as before; who left the roster is forgotten. */
  lemma SeenExactly(r: Rules, s: State, v: EpochVotes, u: Validator)
    requires Frozen(r, v.epoch) && v.epoch == s.nextEpoch
    ensures var was, seen := OpenSets(r, s, v).value.lastSeen, Process(r, s, v).value.sets.value.lastSeen;
            && (u in seen <==> u in Indices(v.activeSet))
            && (u in seen ==> seen[u] == if Present(r, s, v, u) || u !in was then v.epoch else was[u])
  {
    hide Winner, Leaks, Unpruned, NewlyFinal, AdjustedStake;
    RosterKeys(v.activeSet, s.leaked);
  }

  /** The next candidate: everyone listed with stake, but those unseen for the pruning horizon. */
  lemma CandidateExactly(r: Rules, s: State, v: EpochVotes, u: Validator, stake: nat)
    requires Frozen(r, v.epoch) && v.epoch == s.nextEpoch && ListedWith(v.activeSet, u, stake)
    ensures var was, t := OpenSets(r, s, v).value.lastSeen, Process(r, s, v).value;
            && t.sets.Some? && t.sets.value.pending.Some?
            && var members := t.sets.value.pending.value.members;
               && (u in members ==> members[u] == stake)
               && (u in members <==> stake > 0 && (Present(r, s, v, u) || Recent(v.epoch, was, u)))
  {
    HandedOverExactly(r, s, v);
    SeenExactly(r, s, v, u);
    ListedIsIndex(v.activeSet, u);
    var seen := Process(r, s, v).value.sets.value.lastSeen;
    SnapshotExactly(v.activeSet, v.epoch, seen, u, stake);
    PendingIs(r, s, v);
    hide Process, Unpruned, OpenSets, Present, Indices;
  }

  lemma PendingIs(r: Rules, s: State, v: EpochVotes)
    requires Frozen(r, v.epoch) && v.epoch == s.nextEpoch
    ensures var sets := Process(r, s, v).value.sets;
            && sets.Some? && sets.value.pending.Some?
            && sets.value.pending.value.members == Unpruned(v.activeSet, v.epoch, sets.value.lastSeen)
  {
    hide Winner, Leaks, Clean, AdjustedStake, Unpruned, NewlyFinal;
  }

  // ── Away for good ────────────────────────────────────────────────────────

  /** A gated epoch on whose roster the validator is, unheard. */
  ghost predicate Unheard(r: Rules, s: State, v: EpochVotes, u: Validator, stake: nat) {
    Frozen(r, v.epoch) && ListedWith(v.activeSet, u, stake) && !Present(r, s, v, u)
  }

  ghost predicate UnheardThrough(r: Rules, s: State, h: seq<Event>, u: Validator, stake: nat) {
    h != [] ==>
      var front, last := h[..|h| - 1], h[|h| - 1];
      && UnheardThrough(r, s, front, u, stake)
      && (last.Tallied? && Run(r, s, front).Some? ==> Unheard(r, Run(r, s, front).value, last.votes, u, stake))
  }

  /**
   A validator that stays on the roster unheard leaves the candidate sets exactly when the pruning horizon has
   passed since it was last seen, whatever else happens, handoffs and recoveries included.
   */
  lemma {:induction false} UnheardIsPruned(r: Rules, s: State, h: seq<Event>, u: Validator, stake: nat)
    requires Run(r, s, h).Some? && UnheardThrough(r, s, h, u, stake) && stake > 0
    requires s.sets.Some? && u in s.sets.value.lastSeen
    ensures var t := Run(r, s, h).value;
            && t.nextEpoch == s.nextEpoch + Ticks(h) && t.sets.Some?
            && u in t.sets.value.lastSeen && t.sets.value.lastSeen[u] == s.sets.value.lastSeen[u]
            && (Ticks(h) > 0 ==>
                  && t.sets.value.pending.Some?
                  && (u in t.sets.value.pending.value.members
                      <==> t.nextEpoch <= s.sets.value.lastSeen[u] + PRUNE_AFTER))
  {
    if h != [] {
      var front, last := h[..|h| - 1], h[|h| - 1];
      hide Unheard, Process;
      UnheardIsPruned(r, s, front, u, stake);
      var before := Run(r, s, front).value;
      if last.Tallied? {
        InOrderOnly(r, before, last.votes);
        UnheardStep(r, before, last.votes, u, stake);
      }
    }
  }

  lemma UnheardStep(r: Rules, s: State, v: EpochVotes, u: Validator, stake: nat)
    requires v.epoch == s.nextEpoch && Unheard(r, s, v, u, stake) && stake > 0
    requires s.sets.Some? && u in s.sets.value.lastSeen
    ensures var t := Process(r, s, v).value;
            && t.nextEpoch == s.nextEpoch + 1 && t.sets.Some? && t.sets.value.pending.Some?
            && u in t.sets.value.lastSeen && t.sets.value.lastSeen[u] == s.sets.value.lastSeen[u]
            && (u in t.sets.value.pending.value.members <==> v.epoch < s.sets.value.lastSeen[u] + PRUNE_AFTER)
  {
    hide Winner, Leaks, Clean, AdjustedStake, Unpruned, NewlyFinal, Present, Indices, CloseSets;
    ListedIsIndex(v.activeSet, u);
    HandedOverExactly(r, s, v);
    SeenExactly(r, s, v, u);
    CandidateExactly(r, s, v, u, stake);
  }

  // ── Whose votes count ────────────────────────────────────────────────────

  /** The vote names this chain's own checkpoint, and does not leave from a foreign one. */
  predicate NamesOwn(s: State, epoch: nat, d: Vote) {
    && epoch in s.own && d.target.root == s.own[epoch]
    && (s.currentJustified.epoch in s.own ==> s.own[s.currentJustified.epoch] == s.currentJustified.root)
  }

  /**
   A validator counts exactly when it is on the roster, cast one vote for the epoch, and that vote links from the
   justified checkpoint and, once the filter is in force, names this chain's own.
   */
  lemma CountedExactly(r: Rules, s: State, v: EpochVotes, u: Validator, d: Vote)
    ensures u in Counted(r, s, v) && Counted(r, s, v)[u] == d
       <==> && Present(r, s, v, u) && VotedFor(v.Heard(), v.epoch, u, d)
            && d.source == s.currentJustified && s.currentJustified.epoch < v.epoch
            && (r.ownFrom != U64_MAX && r.ownFrom <= v.epoch ==> NamesOwn(s, v.epoch, d))
  {
    RosterKeys(v.activeSet, s.leaked);
    hide AdjustedStake;
    var clean := Clean(AdjustedStake(v.activeSet, s.leaked).Keys, v.epoch, v.Heard());
    assert u in clean <==> Present(r, s, v, u);
    if u in clean {
      assert VotedFor(v.Heard(), v.epoch, u, clean[u]);
      assert VotedFor(v.Heard(), v.epoch, u, d) ==> d == clean[u];
    }
    hide Clean, Equivocated;
  }

  /** Once the filter is in force, only this chain's own checkpoints are justified, and only they are finalized. */
  lemma OnlyOwn(r: Rules, s: State, v: EpochVotes)
    requires r.ownFrom != U64_MAX && r.ownFrom <= v.epoch
    ensures Winner(r, s, v).Some? ==> v.epoch in s.own && Winner(r, s, v).value == Checkpoint(v.epoch, s.own[v.epoch])
    ensures NewlyFinal(r, s, v).Some? ==>
              var f := NewlyFinal(r, s, v).value; f.epoch in s.own && s.own[f.epoch] == f.root
  {
    if Winner(r, s, v).Some? {
      var root := Winner(r, s, v).value.root;
      var counted, weights := Counted(r, s, v), Weights(r, s, v);
      assert Quorum(counted, weights, Denominator(r, s, v), root);
      var tally := Tally(counted, weights, root);
      assert tally != map[];
      var u :| u in tally;
      assert counted[u].target.root == root;
    }
  }

  /** What is recorded of this chain's own checkpoints: the newest, and the justified one's. */
  lemma OwnExactly(s: State, epoch: nat, root: Root, e: nat)
    ensures var t := RecordOwn(s, epoch, root);
            && (e in t.own <==> e == epoch || (e in s.own && e == s.currentJustified.epoch))
            && (e in t.own ==> t.own[e] == if e == epoch then root else s.own[e])
            && t == s.(own := t.own)
  {
  }
}
