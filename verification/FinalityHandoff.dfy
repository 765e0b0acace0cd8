/**
 Where agreement between branches ends (crates/bloch-pos-committee/src/finality.rs):
 one branch hands its frozen set over, the other does not finalize there and
 keeps the old one, and both can go on to finalize in conflict although they
 have the same roster and nobody commits an offence.
 */
module FinalityHandoff {
  import opened Options
  import opened Basics
  import opened Sums
  import opened Finality
  import opened FinalitySafety
  import opened AccountableSafety
  import opened FinalitySplit
  import opened HandoffSafety

  // ── An epoch under the frozen set ────────────────────────────────────────

  /** The roster's staked members. */
  function Staked(active: seq<Member>): map<Validator, nat> {
    Unpruned(active, 0, map[])
  }

  lemma {:induction false} NobodyPruned(active: seq<Member>, epoch: nat, lastSeen: map<Validator, nat>)
    requires epoch < PRUNE_AFTER
    ensures Unpruned(active, epoch, lastSeen) == Staked(active)
  {
    if active != [] {
      NobodyPruned(active[..|active| - 1], epoch, lastSeen);
    }
  }

  ghost predicate Carried(members: map<Validator, nat>, voters: set<Validator>) {
    Sum(members) > 0 && 3 * Sum(Of(members, voters)) >= 2 * Sum(members)
  }

  ghost predicate UnderSet(r: Rules, s: State) {
    && Sound(s) && OwnOk(s) && s.sets.Some? && Frozen(r, s.nextEpoch) && r.recoveries == {} && r.ownFrom == U64_MAX
    && s.nextEpoch < PRUNE_AFTER
  }

  lemma FrozenWinner(r: Rules, s: State, active: seq<Member>, side: set<Validator>, root: Root)
    requires UnderSet(r, s) && Ready(s, root)
    ensures Winner(r, s, SideEpoch(s, active, side, root))
         == if Carried(s.sets.value.current.members, side * Indices(active))
            then Some(Checkpoint(s.nextEpoch, root)) else None
  {
    var v, d, members := SideEpoch(s, active, side, root), SideVote(s, root), s.sets.value.current.members;
    SideCounted(r, s, active, side, root);
    var counted := Counted(r, s, v);
    forall other
      ensures Tally(counted, members, other) == if other == root then Of(members, side * Indices(active)) else map[] {
    }
    WinnerIs(r, s, v, root, Carried(members, side * Indices(active)));
  }

  lemma FrozenStep(r: Rules, s: State, active: seq<Member>, side: set<Validator>, root: Root)
    requires UnderSet(r, s)
    ensures var t, fs := NextState(r, s, active, side, root), s.sets.value;
            var won := Carried(fs.current.members, side * Indices(active));
            var at := s.currentJustified.epoch;
            var final := won && at + 1 == s.nextEpoch && at > s.finalized.epoch;
            && Sound(t) && OwnOk(t) && t.nextEpoch == s.nextEpoch + 1
            && t.currentJustified == (if won then Checkpoint(s.nextEpoch, root) else s.currentJustified)
            && t.finalized == (if final then s.currentJustified else s.finalized)
            && t.sets.Some? && t.sets.value.pending == Some(FinalitySet(s.nextEpoch, Staked(active)))
            && t.sets.value.current
               == if final && fs.pending.Some? && fs.pending.value.epoch == at then fs.pending.value else fs.current
  {
    var begun := RecordOwn(s, s.nextEpoch, root);
    var v := SideEpoch(begun, active, side, root);
    BoundaryReadies(s, root);
    FrozenWinner(r, begun, active, side, root);
    ProcessKeeps(r, begun, v);
    NobodyPruned(active, v.epoch, CloseSets(r, begun, v).value.lastSeen);
    hide Leaks, Winner, Carried, Positive, Clean, AdjustedStake, Unpruned;
  }

  // ── Histories, epoch by epoch ────────────────────────────────────────────

  /** The history with one more epoch of a side. */
  ghost function More(r: Rules, s: State, h: seq<Event>, active: seq<Member>, side: set<Validator>,
                      root: Root): seq<Event>
    requires Run(r, s, h).Some?
  {
    var t := Run(r, s, h).value;
    h + [Boundary(t.nextEpoch, root), Tallied(SideEpoch(RecordOwn(t, t.nextEpoch, root), active, side, root))]
  }

  lemma MoreRuns(r: Rules, s: State, h: seq<Event>, active: seq<Member>, side: set<Validator>, root: Root)
    requires Run(r, s, h).Some?
    ensures Run(r, s, More(r, s, h, active, side, root)) == Some(NextState(r, Run(r, s, h).value, active, side, root))
  {
    hide NextState, RecordOwn, SideEpoch, Apply, Run;
    var t := Run(r, s, h).value;
    NextIsApplied(r, t, active, side, root);
    TwoMoreEvents(r, s, h, Boundary(t.nextEpoch, root),
                  Tallied(SideEpoch(RecordOwn(t, t.nextEpoch, root), active, side, root)));
  }

  lemma MoreSigned(r: Rules, s: State, h: seq<Event>, active: seq<Member>, side: set<Validator>, root: Root,
                   u: Validator, d: Vote)
    requires Run(r, s, h).Some? && Signed(More(r, s, h, active, side, root), u, d)
    ensures Signed(h, u, d) || (u in side && d == SideVote(Run(r, s, h).value, root))
  {
    hide Run;
    var g, t := More(r, s, h, active, side, root), Run(r, s, h).value;
    var i :| 0 <= i < |g| && g[i].Tallied? && (u, d) in g[i].votes.attestations;
    if i < |h| {
      assert h[i] == g[i];
    } else {
      CastIs(active, side, SideVote(RecordOwn(t, t.nextEpoch, root), root), (u, d));
    }
  }

  // ── A branch from a split point, epoch by epoch ──────────────────────────

  const GATED: Rules := Rules(1, U64_MAX, 2_880, U64_MAX, {})

  /** Epoch 1 is justified, the set `c` is in force. */
  function SplitOf(c: map<Validator, nat>): State {
    State(map[0 := 0, 1 := 1], Checkpoint(1, 1), Checkpoint(0, 0), map[], 2,
          Some(SetState(FinalitySet(1, c), Some(FinalitySet(1, c)), map[])), map[])
  }

  /** A vote cast by all of these. */
  datatype Ballot = Ballot(voters: set<Validator>, vote: Vote)

  /**
   How far a branch has come: its checkpoints, its set, the candidate and when it was taken, the set each epoch
   from 2 on was measured against, and the votes cast.
   */
  datatype Standing = Standing(justified: Checkpoint, finalized: Checkpoint, members: map<Validator, nat>,
                               taken: nat, candidate: map<Validator, nat>,
                               sets: seq<map<Validator, nat>>, ballots: seq<Ballot>)
  {
    function Epoch(): nat { 2 + |sets| }
  }

  /** After one more epoch, in which exactly these vote and the roster is `d`. */
  ghost function After(x: Standing, d: map<Validator, nat>, voters: set<Validator>, root: Root): Standing {
    var won := Carried(x.members, voters);
    var final := won && x.justified.epoch + 1 == x.Epoch() && x.justified.epoch > x.finalized.epoch;
    Standing(if won then Checkpoint(x.Epoch(), root) else x.justified,
             if final then x.justified else x.finalized,
             if final && x.taken == x.justified.epoch then x.candidate else x.members,
             x.Epoch(), d, x.sets + [x.members],
             x.ballots + [Ballot(voters, Vote(32 * x.Epoch(), root, x.justified, Checkpoint(x.Epoch(), root)))])
  }

  /** Every epoch of the history is tallied with this roster. */
  ghost predicate OneRoster(h: seq<Event>, roster: seq<Member>) {
    forall i :: 0 <= i < |h| && h[i].Tallied? ==> h[i].votes.activeSet == roster
  }

  ghost predicate SignedOnly(h: seq<Event>, ballots: seq<Ballot>) {
    forall u, d :: Signed(h, u, d) ==> IsCast(ballots, u, d)
  }

  ghost predicate IsCast(ballots: seq<Ballot>, u: Validator, d: Vote) {
    exists k :: 0 <= k < |ballots| && u in ballots[k].voters && ballots[k].vote == d
  }

  ghost predicate SetsAre(c: map<Validator, nat>, h: seq<Event>, sets: seq<map<Validator, nat>>) {
    && (forall i :: 0 <= i < |h| && h[i].Tallied? ==> h[i].votes.epoch < 2 + |sets|)
    && (forall k :: 0 <= k < |sets| ==> SetIs(GATED, SplitOf(c), h, 2 + k, sets[k]))
  }

  ghost predicate Stands(t: State, x: Standing) {
    && UnderSet(GATED, t) && t.nextEpoch == x.Epoch() && t.currentJustified == x.justified && t.finalized == x.finalized
    && t.sets.value.current.members == x.members
    && t.sets.value.pending == Some(FinalitySet(x.taken, x.candidate))
  }

  ghost predicate Reached(c: map<Validator, nat>, roster: seq<Member>, h: seq<Event>, x: Standing) {
    && Run(GATED, SplitOf(c), h).Some? && Stands(Run(GATED, SplitOf(c), h).value, x)
    && OneRoster(h, roster) && SignedOnly(h, x.ballots) && SetsAre(c, h, x.sets)
  }

  function Start(c: map<Validator, nat>): Standing {
    Standing(Checkpoint(1, 1), Checkpoint(0, 0), c, 1, c, [], [])
  }

  lemma StartReached(c: map<Validator, nat>, roster: seq<Member>)
    ensures SplitPoint(GATED, SplitOf(c)) && Reached(c, roster, [], Start(c))
  {
  }

  lemma MoreRoster(s: State, h: seq<Event>, roster: seq<Member>, voters: set<Validator>, root: Root)
    requires Run(GATED, s, h).Some? && OneRoster(h, roster)
    ensures OneRoster(More(GATED, s, h, roster, voters, root), roster)
  {
    hide Run;
  }

  lemma MoreBallots(s: State, h: seq<Event>, roster: seq<Member>, ballots: seq<Ballot>, voters: set<Validator>,
                    root: Root)
    requires Run(GATED, s, h).Some? && SignedOnly(h, ballots)
    ensures SignedOnly(More(GATED, s, h, roster, voters, root),
                       ballots + [Ballot(voters, SideVote(Run(GATED, s, h).value, root))])
  {
    hide Run, Signed, More;
    var more, last := More(GATED, s, h, roster, voters, root), Ballot(voters, SideVote(Run(GATED, s, h).value, root));
    var all := ballots + [last];
    forall u, d | Signed(more, u, d) ensures IsCast(all, u, d) {
      MoreSigned(GATED, s, h, roster, voters, root, u, d);
      if Signed(h, u, d) {
        var k :| 0 <= k < |ballots| && u in ballots[k].voters && ballots[k].vote == d;
        assert all[k] == ballots[k];
      } else {
        assert all[|ballots|] == last;
      }
    }
  }

  /** The new tally is measured against the set in force. */
  lemma LastMeasures(s: State, h: seq<Event>, members: map<Validator, nat>, roster: seq<Member>,
                     voters: set<Validator>, root: Root)
    requires Run(GATED, s, h).Some?
    requires var t := Run(GATED, s, h).value; UnderSet(GATED, t) && t.sets.value.current.members == members
    ensures var more, last := More(GATED, s, h, roster, voters, root), |h| + 1;
            && |more| == last + 1 && h <= more && more[|h|].Boundary? && more[last].Tallied?
            && more[last].votes.epoch == Run(GATED, s, h).value.nextEpoch && MeasuredAt(GATED, s, more, last, members)
  {
    var t := Run(GATED, s, h).value;
    var more, last := More(GATED, s, h, roster, voters, root), |h| + 1;
    assert more[..last] == h + [Boundary(t.nextEpoch, root)] && more[..last][..|h|] == h;
    assert Run(GATED, s, more[..last]) == Apply(GATED, t, Boundary(t.nextEpoch, root));
    hide Run, Sound, OwnOk;
  }

  /** A set measured before stays so. */
  lemma SetIsLater(s: State, h: seq<Event>, more: seq<Event>, epoch: nat, c: map<Validator, nat>)
    requires h <= more && SetIs(GATED, s, h, epoch, c)
    requires forall i :: |h| <= i < |more| && more[i].Tallied? && more[i].votes.epoch == epoch ==>
               MeasuredAt(GATED, s, more, i, c)
    ensures SetIs(GATED, s, more, epoch, c)
  {
    hide Run, TalliedAgainst;
    forall i | 0 <= i < |more| && TalliesAt(GATED, s, more, i, epoch) ensures MeasuredAt(GATED, s, more, i, c) {
      if i < |h| {
        assert more[..i] == h[..i] && more[i] == h[i];
        assert TalliesAt(GATED, s, h, i, epoch);
      }
    }
  }

  lemma NotTalliedYet(s: State, h: seq<Event>, epoch: nat, c: map<Validator, nat>)
    requires forall i :: 0 <= i < |h| && h[i].Tallied? ==> h[i].votes.epoch < epoch
    ensures SetIs(GATED, s, h, epoch, c)
  {
    hide Run, TalliedAgainst;
  }

  lemma MoreSets(c: map<Validator, nat>, h: seq<Event>, sets: seq<map<Validator, nat>>, members: map<Validator, nat>,
                 roster: seq<Member>, voters: set<Validator>, root: Root)
    requires Run(GATED, SplitOf(c), h).Some? && SetsAre(c, h, sets)
    requires var t := Run(GATED, SplitOf(c), h).value;
             UnderSet(GATED, t) && t.nextEpoch == 2 + |sets| && t.sets.value.current.members == members
    ensures SetsAre(c, More(GATED, SplitOf(c), h, roster, voters, root), sets + [members])
  {
    hide Run, SetIs, MeasuredAt, UnderSet, More, SplitOf;
    var s := SplitOf(c);
    var more, all := More(GATED, s, h, roster, voters, root), sets + [members];
    LastMeasures(s, h, members, roster, voters, root);
    NotTalliedYet(s, h, 2 + |sets|, members);
    forall k | 0 <= k < |all| ensures SetIs(GATED, s, more, 2 + k, all[k]) {
      assert SetIs(GATED, s, h, 2 + k, all[k]);
      SetIsLater(s, h, more, 2 + k, all[k]);
    }
    forall i | 0 <= i < |more| && more[i].Tallied? ensures more[i].votes.epoch < 2 + |all| {
      if i < |h| { assert more[i] == h[i]; }
    }
  }

  lemma ReachedNext(c: map<Validator, nat>, d: map<Validator, nat>, roster: seq<Member>, h: seq<Event>, x: Standing,
                    voters: set<Validator>, root: Root)
    returns (more: seq<Event>)
    requires Reached(c, roster, h, x) && Staked(roster) == d && voters <= Indices(roster)
    requires x.Epoch() + 1 < PRUNE_AFTER
    ensures Reached(c, roster, more, After(x, d, voters, root))
  {
    hide Run, NextState, Carried, SignedOnly, More, Sound, OwnOk, Staked, Indices, OneRoster, SetsAre;
    var s := SplitOf(c);
    var t := Run(GATED, s, h).value;
    assert voters * Indices(roster) == voters;
    more := More(GATED, s, h, roster, voters, root);
    MoreRuns(GATED, s, h, roster, voters, root);
    MoreRoster(s, h, roster, voters, root);
    MoreBallots(s, h, roster, x.ballots, voters, root);
    MoreSets(c, h, x.sets, x.members, roster, voters, root);
    FrozenStep(GATED, t, roster, voters, root);
  }

  // ── Two branches that hand over at different epochs ──────────────────────

  const COMMON: Vote := Vote(64, 2, Checkpoint(1, 1), Checkpoint(2, 2))

  /** `v` finalizes epoch 2, which hands over to the roster; `w` then finalizes epoch 4. */
  function LeftBallots(v: set<Validator>, w: set<Validator>): seq<Ballot> {
    [Ballot(v, COMMON), Ballot(v, Vote(96, 103, Checkpoint(2, 2), Checkpoint(3, 103))),
     Ballot(w, Vote(128, 104, Checkpoint(3, 103), Checkpoint(4, 104))),
     Ballot(w, Vote(160, 105, Checkpoint(4, 104), Checkpoint(5, 105)))]
  }

  /** Nobody votes in epoch 3, so nothing is handed over there and `v` finalizes epoch 4. */
  function RightBallots(v: set<Validator>): seq<Ballot> {
    [Ballot(v, COMMON), Ballot({}, Vote(96, 203, Checkpoint(2, 2), Checkpoint(3, 203))),
     Ballot(v, Vote(128, 204, Checkpoint(2, 2), Checkpoint(4, 204))),
     Ballot(v, Vote(160, 205, Checkpoint(4, 204), Checkpoint(5, 205)))]
  }

  /** The set `c` and its quorum `v`, the roster's stakes `d` and their quorum `w`. */
  ghost predicate IsCase(c: map<Validator, nat>, d: map<Validator, nat>, roster: seq<Member>,
                         v: set<Validator>, w: set<Validator>)
  {
    && Staked(roster) == d && v <= Indices(roster) && w <= Indices(roster)
    && Carried(c, v) && Carried(d, w) && !Carried(c, {})
  }

  function Shared(c: map<Validator, nat>, d: map<Validator, nat>, v: set<Validator>): Standing {
    Standing(Checkpoint(2, 2), Checkpoint(1, 1), c, 2, d, [c], [Ballot(v, COMMON)])
  }

  /** What both branches share: epoch 2, justified by the quorum of the set in force. */
  lemma CommonEpoch(c: map<Validator, nat>, d: map<Validator, nat>, roster: seq<Member>,
                    v: set<Validator>, w: set<Validator>)
    returns (h: seq<Event>)
    requires IsCase(c, d, roster, v, w)
    ensures Reached(c, roster, h, Shared(c, d, v))
  {
    hide Reached, Carried, Staked, Indices;
    StartReached(c, roster);
    h := ReachedNext(c, d, roster, [], Start(c), v, 2);
    assert After(Start(c), d, v, 2) == Shared(c, d, v);
  }

  lemma LeftBranch(c: map<Validator, nat>, d: map<Validator, nat>, roster: seq<Member>,
                   v: set<Validator>, w: set<Validator>)
    returns (h: seq<Event>)
    requires IsCase(c, d, roster, v, w)
    ensures Reached(c, roster, h, Standing(Checkpoint(5, 105), Checkpoint(4, 104), d, 5, d, [c, c, d, d],
                                           LeftBallots(v, w)))
  {
    hide Reached, Carried, Staked, Indices;
    h := CommonEpoch(c, d, roster, v, w);
    var x := Shared(c, d, v);
    h := ReachedNext(c, d, roster, h, x, v, 103);
    var y := After(x, d, v, 103);
    assert y == Standing(Checkpoint(3, 103), Checkpoint(2, 2), d, 3, d, [c, c], LeftBallots(v, w)[..2]);
    h := ReachedNext(c, d, roster, h, y, w, 104);
    var z := After(y, d, w, 104);
    assert z == Standing(Checkpoint(4, 104), Checkpoint(3, 103), d, 4, d, [c, c, d], LeftBallots(v, w)[..3]);
    h := ReachedNext(c, d, roster, h, z, w, 105);
    assert After(z, d, w, 105).ballots == LeftBallots(v, w) && After(z, d, w, 105).sets == [c, c, d, d];
  }

  lemma RightBranch(c: map<Validator, nat>, d: map<Validator, nat>, roster: seq<Member>,
                    v: set<Validator>, w: set<Validator>)
    returns (h: seq<Event>)
    requires IsCase(c, d, roster, v, w)
    ensures Reached(c, roster, h, Standing(Checkpoint(5, 205), Checkpoint(4, 204), d, 5, d, [c, c, c, c],
                                           RightBallots(v)))
  {
    hide Reached, Carried, Staked, Indices;
    h := CommonEpoch(c, d, roster, v, w);
    var x := Shared(c, d, v);
    h := ReachedNext(c, d, roster, h, x, {}, 203);
    var y := After(x, d, {}, 203);
    assert y == Standing(Checkpoint(2, 2), Checkpoint(1, 1), c, 3, d, [c, c], RightBallots(v)[..2]);
    h := ReachedNext(c, d, roster, h, y, v, 204);
    var z := After(y, d, v, 204);
    assert z == Standing(Checkpoint(4, 204), Checkpoint(1, 1), c, 4, d, [c, c, c], RightBallots(v)[..3]);
    h := ReachedNext(c, d, roster, h, z, v, 205);
    assert After(z, d, v, 205).ballots == RightBallots(v) && After(z, d, v, 205).sets == [c, c, c, c];
  }

  // ── Any two sets whose quorums need not meet ─────────────────────────────

  lemma OneMoreMember(active: seq<Member>, m: Member)
    ensures Staked(active + [m]) == if m.stake > 0 then Staked(active)[m.index := m.stake] else Staked(active)
    ensures Indices(active + [m]) == Indices(active) + {m.index}
  {
    assert (active + [m])[..|active|] == active;
  }

  lemma Any<T>(s: set<T>) returns (x: T)
    requires s != {}
    ensures x in s
  {
    x :| x in s;
  }

  lemma {:induction false} RosterOf(d: map<Validator, nat>) returns (roster: seq<Member>)
    requires forall u :: u in d ==> d[u] > 0
    ensures Staked(roster) == d && Indices(roster) == d.Keys
    decreases |d|
  {
    if d == map[] {
      roster := [];
    } else {
      var u := Any(d.Keys);
      var rest := d - {u};
      assert rest.Keys == d.Keys - {u};
      roster := RosterOf(rest);
      OneMoreMember(roster, Member(u, d[u]));
      roster := roster + [Member(u, d[u])];
      assert rest[u := d[u]] == d;
    }
  }

  /** The roster may list more validators, without stake. */
  lemma {:induction false} Unstaked(roster: seq<Member>, more: set<Validator>) returns (wider: seq<Member>)
    ensures Staked(wider) == Staked(roster) && Indices(wider) == Indices(roster) + more
    decreases |more|
  {
    if more == {} {
      wider := roster;
    } else {
      var u := Any(more);
      wider := Unstaked(roster, more - {u});
      OneMoreMember(wider, Member(u, 0));
      wider := wider + [Member(u, 0)];
    }
  }

  lemma QuorumCarries(c: map<Validator, nat>, v: map<Validator, nat>)
    requires IsQuorum(c, v)
    ensures Carried(c, v.Keys) && !Carried(c, {}) && v.Keys <= c.Keys
  {
    assert Of(c, v.Keys) == v && Of(c, {}) == map[];
  }

  lemma CaseOf(c: map<Validator, nat>, d: map<Validator, nat>, v: map<Validator, nat>, w: map<Validator, nat>)
    returns (roster: seq<Member>)
    requires IsQuorum(c, v) && IsQuorum(d, w) && forall u :: u in d ==> d[u] > 0
    ensures IsCase(c, d, roster, v.Keys, w.Keys)
  {
    QuorumCarries(c, v);
    QuorumCarries(d, w);
    hide Staked, Indices, Carried, IsQuorum;
    roster := RosterOf(d);
    roster := Unstaked(roster, c.Keys);
  }

  /** No validator of either quorum signs a slashable pair on the two branches. */
  lemma NobodyOffends(g: seq<Event>, h: seq<Event>, v: set<Validator>, w: set<Validator>)
    requires v !! w && SignedOnly(g, LeftBallots(v, w)) && SignedOnly(h, RightBallots(v))
    ensures !SomeoneOffends(g, h)
  {
    hide Signed;
    forall u, x, y | Signed(g, u, x) && Signed(h, u, y) ensures !x.Conflicts(y) {
      var i :| 0 <= i < |LeftBallots(v, w)| && u in LeftBallots(v, w)[i].voters && LeftBallots(v, w)[i].vote == x;
      var j :| 0 <= j < |RightBallots(v)| && u in RightBallots(v)[j].voters && RightBallots(v)[j].vote == y;
      assert u in v && i < 2 && j != 1;
    }
  }

  /** One branch measured its deciding epochs against `d`, the other, which finalized as high, against `c`. */
  ghost predicate Deciding(r: Rules, s: State, g: seq<Event>, h: seq<Event>, c: map<Validator, nat>,
                           d: map<Validator, nat>)
  {
    && SplitPoint(r, s) && Run(r, s, g).Some? && Run(r, s, h).Some?
    && s.finalized.epoch < Run(r, s, g).value.finalized.epoch <= Run(r, s, h).value.finalized.epoch
    && var e := Run(r, s, g).value.finalized.epoch;
       SetIs(r, s, g, e, d) && SetIs(r, s, g, e + 1, d) && SetIs(r, s, h, e, c) && SetIs(r, s, h, e + 1, c)
  }

  /** What the one finalized is justified on the other too, or someone signed a slashable pair. */
  ghost predicate Accountable(r: Rules, s: State, g: seq<Event>, h: seq<Event>) {
    Run(r, s, g).Some? && Run(r, s, h).Some? ==>
      Run(r, s, h).value.IsJustified(Run(r, s, g).value.finalized) || SomeoneOffends(g, h)
  }

  ghost predicate AlwaysAccountable(c: map<Validator, nat>, d: map<Validator, nat>) {
    forall r, s, g, h :: Deciding(r, s, g, h, c, d) ==> Accountable(r, s, g, h)
  }

  /**
   Past a handoff nothing is promised of sets with disjoint quorums. Two branches of one split, with one roster
   throughout, finalize epoch 4 under different roots: one handed `c` over to `d` at epoch 2, the other, which
   did not finalize it, kept `c`. No validator signed a slashable pair.
   */
  lemma HandoffCanConflict(c: map<Validator, nat>, d: map<Validator, nat>, roster: seq<Member>,
                           v: set<Validator>, w: set<Validator>)
    returns (g: seq<Event>, h: seq<Event>)
    requires IsCase(c, d, roster, v, w) && v !! w
    ensures Deciding(GATED, SplitOf(c), g, h, c, d) && !Accountable(GATED, SplitOf(c), g, h)
    ensures var a, b := Run(GATED, SplitOf(c), g).value.finalized, Run(GATED, SplitOf(c), h).value.finalized;
            a == Checkpoint(4, 104) && b == Checkpoint(4, 204)
    ensures OneRoster(g, roster) && OneRoster(h, roster)
    ensures SignedOnly(g, LeftBallots(v, w)) && SignedOnly(h, RightBallots(v))
  {
    hide Staked, Indices, Carried, SplitPoint, SetIs, OneRoster, SignedOnly, Run;
    StartReached(c, roster);
    g := LeftBranch(c, d, roster, v, w);
    h := RightBranch(c, d, roster, v, w);
    NobodyOffends(g, h, v, w);
    assert [c, c, d, d][2] == d && [c, c, d, d][3] == d && [c, c, c, c][2] == c && [c, c, c, c][3] == c;
    assert SetIs(GATED, SplitOf(c), g, 2 + 2, d) && SetIs(GATED, SplitOf(c), g, 2 + 3, d);
    assert SetIs(GATED, SplitOf(c), h, 2 + 2, c) && SetIs(GATED, SplitOf(c), h, 2 + 3, c);
    hide SetsAre;
  }

  /**
   The exact condition. Whatever the branches, those that measure the two deciding epochs against `c` and `d`
   share the finality or expose an offender, if and only if every two thirds of the one set and every two
   thirds of the other have a validator in common.
   */
  lemma AccountableExactly(c: map<Validator, nat>, d: map<Validator, nat>)
    requires forall u :: u in d ==> d[u] > 0
    ensures AlwaysAccountable(c, d) <==> Overlap(d, c)
  {
    hide Deciding, Accountable, IsQuorum, Share;
    if Overlap(d, c) {
      forall r, s, g, h | Deciding(r, s, g, h, c, d) ensures Accountable(r, s, g, h) {
        DecidedIsAccountable(r, s, g, h, c, d);
      }
    } else {
      var w, v :| IsQuorum(d, w) && IsQuorum(c, v) && !Share(w, v);
      var roster := CaseOf(c, d, v, w);
      assert v.Keys !! w.Keys by { NotShared(w, v); }
      var g, h := HandoffCanConflict(c, d, roster, v.Keys, w.Keys);
    }
  }

  lemma NotShared(v: map<Validator, nat>, w: map<Validator, nat>)
    requires !Share(v, w)
    ensures v.Keys !! w.Keys
  {
  }

  lemma DecidedIsAccountable(r: Rules, s: State, g: seq<Event>, h: seq<Event>, c: map<Validator, nat>,
                             d: map<Validator, nat>)
    requires Deciding(r, s, g, h, c, d) && Overlap(d, c)
    ensures Accountable(r, s, g, h)
  {
    hide Run, SetIs, SplitPoint, Overlap, SomeoneOffends;
    AccountableAcrossSets(r, s, g, h, d, c, d, c);
  }

  // ── An instance ──────────────────────────────────────────────────────────

  const SMALL: map<Validator, nat> := map[0 := 1]
  const GRAND: map<Validator, nat> := map[0 := 1, 1 := 10]

  /** Validator 0 has been the whole set; validator 1, ten times larger, has joined the roster. */
  const ROSTER: seq<Member> := [Member(0, 1), Member(1, 10)]

  lemma SmallSums()
    ensures Carried(SMALL, {0}) && !Carried(SMALL, {}) && Carried(GRAND, {1}) && Sum(SMALL) == 1
  {
    var big: map<nat, nat> := map[1 := 10];
    SumRemove(SMALL, 0);
    assert SMALL - {0} == map[];
    SumRemove(big, 1);
    assert big - {1} == map[];
    SumRemove(GRAND, 0);
    assert GRAND - {0} == big;
    assert Of(SMALL, {0}) == SMALL && Of(SMALL, {}) == map[] && Of(GRAND, {1}) == big;
    hide Of, Sum;
  }

  lemma RosterFacts()
    ensures Staked(ROSTER) == GRAND && Indices(ROSTER) == {0, 1}
  {
    OneMoreMember([], Member(0, 1));
    OneMoreMember([Member(0, 1)], Member(1, 10));
    assert [] + [Member(0, 1)] == [Member(0, 1)] && [Member(0, 1)] + [Member(1, 10)] == ROSTER;
  }

  lemma SmallAndGrand()
    ensures IsCase(SMALL, GRAND, ROSTER, {0}, {1}) && Sum(SMALL) == 1
  {
    hide Carried, Staked, Indices, Sum;
    SmallSums();
    RosterFacts();
  }
}
