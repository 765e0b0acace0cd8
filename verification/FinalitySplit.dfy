/**
 What a side of a split network can do alone
 (crates/bloch-pos-committee/src/finality.rs). A side is a set of validators
 that all vote, every epoch, for their own branch while nobody else is heard.
 */
module FinalitySplit {
  import opened Options
  import opened Basics
  import opened Sums
  import opened Finality
  import opened FinalitySafety
  import opened FinalityLimits
  import opened AccountableSafety

  // ── A side's epochs ──────────────────────────────────────────────────────

  /** The root of a branch's checkpoint, epoch by epoch. */
  type Branch = nat -> Root

  /** Everyone on the side links its branch's new checkpoint to what the side last justified. */
  function SideVote(s: State, root: Root): Vote {
    Vote(32 * s.nextEpoch, root, s.currentJustified, Checkpoint(s.nextEpoch, root))
  }

  function Cast(active: seq<Member>, side: set<Validator>, d: Vote): seq<(Validator, Vote)> {
    if active == [] then []
    else
      var u := active[|active| - 1].index;
      Cast(active[..|active| - 1], side, d) + if u in side then [(u, d)] else []
  }

  function SideEpoch(s: State, active: seq<Member>, side: set<Validator>, root: Root): EpochVotes {
    EpochVotes(s.nextEpoch, active, Cast(active, side, SideVote(s, root)))
  }

  /** The boundary that opens the epoch, then its tally. */
  ghost function NextState(r: Rules, s: State, active: seq<Member>, side: set<Validator>, root: Root): State {
    var begun := RecordOwn(s, s.nextEpoch, root);
    Process(r, begun, SideEpoch(begun, active, side, root)).value
  }

  lemma {:induction false} CastIs(active: seq<Member>, side: set<Validator>, d: Vote, x: (Validator, Vote))
    ensures x in Cast(active, side, d) <==> x.1 == d && x.0 in side && x.0 in Indices(active)
  {
    if active != [] {
      var front, last := active[..|active| - 1], active[|active| - 1];
      CastIs(front, side, d, x);
      assert active == front + [last];
      assert Indices(active) == Indices(front) + {last.index};
    }
  }

  // ── Stake, leaked and not ────────────────────────────────────────────────

  function Stakes(active: seq<Member>): map<Validator, nat> {
    AdjustedStake(active, map[])
  }

  lemma {:induction false} AdjustedAt(active: seq<Member>, leaked: map<Validator, nat>, u: Validator)
    ensures u in AdjustedStake(active, leaked) <==> u in Indices(active)
    ensures u in Stakes(active) <==> u in Indices(active)
    ensures u in Indices(active) ==> AdjustedStake(active, leaked)[u] == Sub(Stakes(active)[u], Get(leaked, u))
  {
    if active != [] {
      var front, last := active[..|active| - 1], active[|active| - 1];
      AdjustedAt(front, leaked, u);
      assert active == front + [last];
      assert Indices(active) == Indices(front) + {last.index};
      hide Indices;
    }
  }

  lemma AdjustedIs(active: seq<Member>, leaked: map<Validator, nat>)
    ensures Stakes(active).Keys == Indices(active)
    ensures AdjustedStake(active, leaked) == map u | u in Stakes(active) :: Sub(Stakes(active)[u], Get(leaked, u))
  {
    hide AdjustedStake, Stakes, Indices, Sub, Get;
    forall u ensures (u in AdjustedStake(active, leaked) <==> u in Indices(active))
                  && (u in Stakes(active) <==> u in Indices(active))
                  && (u in Indices(active)
                      ==> AdjustedStake(active, leaked)[u] == Sub(Stakes(active)[u], Get(leaked, u)))
    {
      AdjustedAt(active, leaked, u);
    }
  }

  function Of(stake: map<Validator, nat>, side: set<Validator>): map<Validator, nat> {
    map u | u in stake && u in side :: stake[u]
  }

  /** The side's own checkpoints are recorded, so none of its votes is filtered. */
  ghost predicate OwnOk(s: State) {
    s.currentJustified.epoch in s.own ==> s.own[s.currentJustified.epoch] == s.currentJustified.root
  }

  ghost predicate Ready(s: State, root: Root) {
    && Sound(s) && OwnOk(s)
    && s.nextEpoch in s.own && s.own[s.nextEpoch] == root
  }

  lemma BoundaryReadies(s: State, root: Root)
    requires Sound(s) && OwnOk(s)
    ensures Ready(RecordOwn(s, s.nextEpoch, root), root)
  {
  }

  lemma OneVoteClean(members: set<Validator>, epoch: nat, heard: set<(Validator, Vote)>, voters: set<Validator>,
                     d: Vote)
    requires d.target.epoch == epoch && forall x :: x in heard <==> x.1 == d && x.0 in voters
    ensures Clean(members, epoch, heard) == map u | u in members && u in voters :: d
  {
    var clean := Clean(members, epoch, heard);
    forall u ensures u in clean <==> u in members && u in voters {
      if u in voters {
        assert VotedFor(heard, epoch, u, d);
        assert !Equivocated(heard, epoch, u);
      }
    }
    forall u | u in clean ensures clean[u] == d {
      assert VotedFor(heard, epoch, u, clean[u]);
    }
  }

  /** Exactly the side's members of the roster are counted, each with the side's vote. */
  lemma SideCounted(r: Rules, s: State, active: seq<Member>, side: set<Validator>, root: Root)
    requires Ready(s, root)
    ensures Counted(r, s, SideEpoch(s, active, side, root))
         == map u | u in Indices(active) && u in side :: SideVote(s, root)
  {
    hide AdjustedStake, Stakes, Cast, Clean, Get, Sub;
    var v, d := SideEpoch(s, active, side, root), SideVote(s, root);
    AdjustedIs(active, s.leaked);
    forall x ensures x in v.Heard() <==> x.1 == d && x.0 in side * Indices(active) {
      CastIs(active, side, d, x);
    }
    OneVoteClean(AdjustedStake(active, s.leaked).Keys, v.epoch, v.Heard(), side * Indices(active), d);
  }

  lemma SideTally(active: seq<Member>, side: set<Validator>, stake: map<Validator, nat>, d: Vote, root: Root)
    requires stake.Keys == Indices(active)
    ensures var counted := map u | u in Indices(active) && u in side :: d;
            Tally(counted, stake, root) == if d.target.root == root then Of(stake, side) else map[]
  {
  }

  /** What the side weighs at this epoch, and out of how much. */
  ghost function Held(active: seq<Member>, side: set<Validator>, leaked: map<Validator, nat>): nat {
    Sum(Of(AdjustedStake(active, leaked), side))
  }

  ghost function Total(r: Rules, active: seq<Member>, leaked: map<Validator, nat>, epoch: nat): nat {
    LeakDenominator(r, EpochVotes(epoch, active, []), leaked)
  }

  ghost predicate Strong(r: Rules, active: seq<Member>, side: set<Validator>, leaked: map<Validator, nat>, epoch: nat) {
    var total := Total(r, active, leaked, epoch);
    total > 0 && 3 * Held(active, side, leaked) >= 2 * total
  }

  /** Without a frozen set the side justifies its checkpoint exactly when it holds two thirds. */
  lemma SideWinner(r: Rules, s: State, active: seq<Member>, side: set<Validator>, root: Root)
    requires Ready(s, root) && !Frozen(r, s.nextEpoch)
    ensures Winner(r, s, SideEpoch(s, active, side, root))
         == if Strong(r, active, side, s.leaked, s.nextEpoch) then Some(Checkpoint(s.nextEpoch, root)) else None
  {
    var v, d := SideEpoch(s, active, side, root), SideVote(s, root);
    var stake := AdjustedStake(active, s.leaked);
    SideCounted(r, s, active, side, root);
    AdjustedIs(active, s.leaked);
    hide AdjustedStake, Clean, Get, Sub;
    var counted := Counted(r, s, v);
    forall other ensures Tally(counted, stake, other) == if other == root then Of(stake, side) else map[] {
      SideTally(active, side, stake, d, other);
    }
    assert Weights(r, s, v) == stake && Denominator(r, s, v) == Total(r, active, s.leaked, s.nextEpoch);
    WinnerIs(r, s, v, root, Strong(r, active, side, s.leaked, s.nextEpoch));
  }

  /** If one root has two thirds or nobody has, that is the winner. */
  lemma WinnerIs(r: Rules, s: State, v: EpochVotes, root: Root, wins: bool)
    requires var counted, weights, total := Counted(r, s, v), Weights(r, s, v), Denominator(r, s, v);
             && (forall other :: other != root ==> Tally(counted, weights, other) == map[])
             && (wins <==> total > 0 && 3 * Sum(Tally(counted, weights, root)) >= 2 * total)
    ensures Winner(r, s, v) == if wins then Some(Checkpoint(v.epoch, root)) else None
  {
    var counted, weights, total := Counted(r, s, v), Weights(r, s, v), Denominator(r, s, v);
    assert Sum(map[]) == 0;
    hide Counted, Weights, Denominator, Tally, Sum;
    forall other ensures Quorum(counted, weights, total, other) <==> other == root && wins {
    }
    if wins {
      assert Quorum(counted, weights, total, root);
      assert exists other :: Quorum(counted, weights, total, other);
    } else {
      assert !exists other :: Quorum(counted, weights, total, other);
    }
    hide Quorum;
  }

  // ── One epoch of a side ──────────────────────────────────────────────────

  /** May the link out of the current justified checkpoint finalize it? */
  ghost predicate OwnSource(r: Rules, s: State) {
    GateActive(s.nextEpoch, r.ownFrom) ==> s.currentJustified.epoch in s.own
  }

  ghost function SideLeaks(r: Rules, s: State, active: seq<Member>, side: set<Validator>,
                           root: Root): map<Validator, nat>
  {
    var begun := RecordOwn(s, s.nextEpoch, root);
    Leaks(r, begun, SideEpoch(begun, active, side, root))
  }

  ghost predicate Finalizes(r: Rules, s: State, active: seq<Member>, side: set<Validator>) {
    && Strong(r, active, side, s.leaked, s.nextEpoch)
    && s.currentJustified.epoch + 1 == s.nextEpoch && s.currentJustified.epoch > s.finalized.epoch && OwnSource(r, s)
  }

  lemma SideStep(r: Rules, s: State, active: seq<Member>, side: set<Validator>, root: Root)
    requires Sound(s) && OwnOk(s) && !Frozen(r, s.nextEpoch)
    ensures var t, strong := NextState(r, s, active, side, root), Strong(r, active, side, s.leaked, s.nextEpoch);
            && Sound(t) && OwnOk(t) && t.sets == s.sets && t.nextEpoch == s.nextEpoch + 1
            && t.currentJustified == (if strong then Checkpoint(s.nextEpoch, root) else s.currentJustified)
            && t.finalized == (if Finalizes(r, s, active, side) then s.currentJustified else s.finalized)
            && t.leaked == SideLeaks(r, s, active, side, root)
            && s.nextEpoch in t.own && t.own[s.nextEpoch] == root
  {
    var begun := RecordOwn(s, s.nextEpoch, root);
    BoundaryReadies(s, root);
    SideWinner(r, begun, active, side, root);
    ProcessKeeps(r, begun, SideEpoch(begun, active, side, root));
    hide Leaks, Winner, Strong, Positive;
  }

  // ── What a stall does to the absent ──────────────────────────────────────

  lemma BiteAll(x: nat, t: nat, q: nat)
    requires 0 < q <= t
    ensures Bite(x, t, q) == x
  {
    Scales(q, t, x);
    AtLeastQuotient(x * t, q, x);
  }

  lemma Scales(a: nat, b: nat, d: nat)
    ensures a <= b ==> d * a <= d * b
  {
    assert d * b - d * a == d * (b - a);
  }

  lemma AtLeastQuotient(y: nat, q: nat, x: nat)
    requires q > 0 && y >= x * q
    ensures y / q >= x
  {
    var k := y / q;
    assert y == q * k + y % q;
    Scales(k + 1, x, q);
    assert q * (k + 1) == q * k + q;
  }

  lemma {:induction false} LeakAllBites(active: seq<Member>, voted: set<Validator>, stake: map<Validator, nat>,
                                        t: nat, q: nat, leaked: map<Validator, nat>, u: Validator)
    requires q > 0 && u in Indices(active) && u !in voted && Get(stake, u) > 0
    ensures Get(LeakAll(active, voted, stake, t, q, leaked), u) >= Get(leaked, u) + Bite(Get(stake, u), t, q)
  {
    hide Bite;
    var front, last := active[..|active| - 1], active[|active| - 1];
    LeakOnlyAbsent(front, voted, stake, t, q, leaked, u);
    if last.index != u {
      assert active == front + [last];
      assert Indices(active) == Indices(front) + {last.index};
      LeakAllBites(front, voted, stake, t, q, leaked, u);
    }
  }

  /** Everyone absent has nothing left. */
  ghost predicate LeakedOut(active: seq<Member>, side: set<Validator>, leaked: map<Validator, nat>) {
    forall u :: u in Indices(active) && u !in side ==> Get(AdjustedStake(active, leaked), u) == 0
  }

  /** Long enough into a stall one tick takes all that the absent have left. */
  lemma TickLeaksOut(active: seq<Member>, side: set<Validator>, voted: set<Validator>, t: nat, q: nat,
                     leaked: map<Validator, nat>)
    requires 0 < q <= t && forall u :: u in Indices(active) && u !in side ==> u !in voted
    ensures LeakedOut(active, side, LeakAll(active, voted, AdjustedStake(active, leaked), t, q, leaked))
  {
    var stake := AdjustedStake(active, leaked);
    var after := LeakAll(active, voted, stake, t, q, leaked);
    AdjustedIs(active, leaked);
    AdjustedIs(active, after);
    forall u | u in Indices(active) && u !in side ensures Get(AdjustedStake(active, after), u) == 0 {
      LeakOnlyAbsent(active, voted, stake, t, q, leaked, u);
      if Get(stake, u) > 0 {
        LeakAllBites(active, voted, stake, t, q, leaked, u);
        BiteAll(Get(stake, u), t, q);
      }
    }
  }

  // ── The side's ledger ────────────────────────────────────────────────────

  /** Epochs since finality, as the leak counts them after this epoch's votes. */
  ghost function Since(r: Rules, s: State, active: seq<Member>, side: set<Validator>): nat {
    Sub(s.nextEpoch, if Finalizes(r, s, active, side) then s.currentJustified.epoch else s.finalized.epoch)
  }

  ghost function Charged(r: Rules, s: State, active: seq<Member>, side: set<Validator>): map<Validator, nat> {
    var since := Since(r, s, active, side);
    if since > LEAK_THRESHOLD
    then LeakAll(active, side * Indices(active), AdjustedStake(active, s.leaked), since - LEAK_THRESHOLD,
                 LeakQuotient(r, s.nextEpoch), s.leaked)
    else s.leaked
  }

  lemma SideLeaksAre(r: Rules, s: State, active: seq<Member>, side: set<Validator>, root: Root)
    requires Sound(s) && OwnOk(s) && !Frozen(r, s.nextEpoch)
    ensures var voted, leaking := side * Indices(active), Since(r, s, active, side) > LEAK_THRESHOLD;
            SideLeaks(r, s, active, side, root)
            == if s.nextEpoch < r.recoverFrom then Charged(r, s, active, side)
               else DropSettled(active, voted, leaking, RecoverAll(active, voted, leaking, Charged(r, s, active, side)))
  {
    var begun := RecordOwn(s, s.nextEpoch, root);
    BoundaryReadies(s, root);
    SideWinner(r, begun, active, side, root);
    SideCounted(r, begun, active, side, root);
    assert Counted(r, begun, SideEpoch(begun, active, side, root)).Keys == side * Indices(active);
    hide Winner, Strong, Counted, LeakAll, RecoverAll, DropSettled, AdjustedStake, Sound, Indices;
  }

  /** What one tick of the ledger does before recovery: the side is spared and the absent may be leaked out. */
  lemma ChargedSpares(r: Rules, s: State, active: seq<Member>, side: set<Validator>, q: nat)
    requires LeakQuotient(r, s.nextEpoch) <= q
    ensures forall u :: Get(Charged(r, s, active, side), u) >= Get(s.leaked, u)
    ensures forall u :: u in side && u in Indices(active) ==> Get(Charged(r, s, active, side), u) == Get(s.leaked, u)
    ensures Since(r, s, active, side) >= LEAK_THRESHOLD + q ==> LeakedOut(active, side, Charged(r, s, active, side))
  {
    var since, voted, stake := Since(r, s, active, side), side * Indices(active), AdjustedStake(active, s.leaked);
    if since > LEAK_THRESHOLD {
      forall u ensures Get(Charged(r, s, active, side), u) >= Get(s.leaked, u)
                    && (u in voted ==> Get(Charged(r, s, active, side), u) == Get(s.leaked, u)) {
        LeakOnlyAbsent(active, voted, stake, since - LEAK_THRESHOLD, LeakQuotient(r, s.nextEpoch), s.leaked, u);
      }
      if since >= LEAK_THRESHOLD + q {
        TickLeaksOut(active, side, voted, since - LEAK_THRESHOLD, LeakQuotient(r, s.nextEpoch), s.leaked);
      }
    }
  }

  // ── Weights along the way ────────────────────────────────────────────────

  lemma {:induction false} SumZero(m: map<nat, nat>)
    requires forall k :: k in m ==> m[k] == 0
    ensures Sum(m) == 0
    decreases |m|
  {
    if m != map[] {
      var k :| k in m;
      SumRemove(m, k);
      assert (m - {k}).Keys == m.Keys - {k};
      SumZero(m - {k});
    }
  }

  /** With the absent leaked out, the side holds all there is. */
  lemma HeldIsAll(active: seq<Member>, side: set<Validator>, leaked: map<Validator, nat>)
    requires LeakedOut(active, side, leaked)
    ensures Sum(AdjustedStake(active, leaked)) == Held(active, side, leaked)
  {
    var stake := AdjustedStake(active, leaked);
    AdjustedIs(active, leaked);
    var rest := map u | u in stake && u !in side :: stake[u];
    assert stake == Of(stake, side) + rest;
    SumUnion(Of(stake, side), rest);
    SumZero(rest);
  }

  lemma HeldAtMost(active: seq<Member>, side: set<Validator>, leaked: map<Validator, nat>)
    ensures Held(active, side, leaked) <= Sum(AdjustedStake(active, leaked))
  {
    SumMonotone(Of(AdjustedStake(active, leaked), side), AdjustedStake(active, leaked));
  }

  /** Debts that only grow leave less in all, and the side the same if its own did not change. */
  lemma DebtsGrow(active: seq<Member>, side: set<Validator>, less: map<Validator, nat>, more: map<Validator, nat>)
    requires forall u :: Get(less, u) <= Get(more, u)
    ensures Sum(AdjustedStake(active, more)) <= Sum(AdjustedStake(active, less))
    ensures Held(active, side, more) <= Held(active, side, less)
    ensures (forall u :: u in side && u in Indices(active) ==> Get(less, u) == Get(more, u))
        ==> Held(active, side, more) == Held(active, side, less)
  {
    AdjustedIs(active, less);
    AdjustedIs(active, more);
    hide AdjustedStake, Stakes, Indices;
    SumMonotone(AdjustedStake(active, more), AdjustedStake(active, less));
    SumMonotone(Of(AdjustedStake(active, more), side), Of(AdjustedStake(active, less), side));
    if forall u :: u in side && u in Indices(active) ==> Get(less, u) == Get(more, u) {
      assert Of(AdjustedStake(active, more), side) == Of(AdjustedStake(active, less), side);
    }
  }

  // ── Before the recovery gate any side finalizes alone ────────────────────

  /** An epoch before the frozen set and the recovery gate, with a leak at least this fast. */
  ghost predicate Ungated(r: Rules, epoch: nat, q: nat) {
    !Frozen(r, epoch) && epoch < r.recoverFrom && LeakQuotient(r, epoch) <= q
  }

  ghost predicate Majority(active: seq<Member>, side: set<Validator>, leaked: map<Validator, nat>) {
    3 * Held(active, side, leaked) >= 2 * Sum(AdjustedStake(active, leaked))
  }

  lemma MajorityIsStrong(r: Rules, s: State, active: seq<Member>, side: set<Validator>, q: nat)
    requires Ungated(r, s.nextEpoch, q) && Held(active, side, s.leaked) > 0
    ensures Strong(r, active, side, s.leaked, s.nextEpoch) <==> Majority(active, side, s.leaked)
  {
    HeldAtMost(active, side, s.leaked);
    hide Held, AdjustedStake;
  }

  lemma StepBelow(r: Rules, s: State, active: seq<Member>, side: set<Validator>, root: Root, q: nat)
    requires Sound(s) && OwnOk(s) && Ungated(r, s.nextEpoch, q) && Held(active, side, s.leaked) > 0
    ensures var after := SideLeaks(r, s, active, side, root);
            && Held(active, side, after) == Held(active, side, s.leaked)
            && (Majority(active, side, s.leaked) ==> Majority(active, side, after))
            && (s.nextEpoch >= s.finalized.epoch + LEAK_THRESHOLD + q ==> Majority(active, side, after))
  {
    var after := SideLeaks(r, s, active, side, root);
    SideLeaksAre(r, s, active, side, root);
    ChargedSpares(r, s, active, side, q);
    DebtsGrow(active, side, s.leaked, after);
    MajorityIsStrong(r, s, active, side, q);
    if s.nextEpoch >= s.finalized.epoch + LEAK_THRESHOLD + q && !Majority(active, side, s.leaked) {
      HeldIsAll(active, side, after);
    }
    hide Held, AdjustedStake, Charged, SideLeaks, LeakedOut, Strong, Sound, OwnOk;
  }

  /** The side's state after so many epochs on its own. */
  ghost function SideRun(r: Rules, s: State, active: seq<Member>, side: set<Validator>, branch: Branch, n: nat): State {
    if n == 0 then s
    else
      var before := SideRun(r, s, active, side, branch, n - 1);
      NextState(r, before, active, side, branch(before.nextEpoch))
  }

  /** The first epoch whose tick leaks out everyone absent, however little the side holds. */
  function LeakedBy(s: State, q: nat): nat {
    Max(s.nextEpoch, s.finalized.epoch + LEAK_THRESHOLD + q)
  }

  ghost predicate OnItsOwn(s: State, t: State, active: seq<Member>, side: set<Validator>, branch: Branch, q: nat) {
    var out, e := LeakedBy(s, q), t.nextEpoch;
    && Sound(t) && OwnOk(t) && t.sets == s.sets
    && Held(active, side, t.leaked) == Held(active, side, s.leaked)
    && (Majority(active, side, t.leaked) || t.finalized == s.finalized)
    && (e > out ==> Majority(active, side, t.leaked))
    && (e > out + 1 ==> t.currentJustified == Checkpoint(e - 1, branch(e - 1)) && e - 1 in t.own)
    && (e > out + 1 ==> t.finalized.epoch < t.currentJustified.epoch)
    && (e > out + 2 ==> t.finalized == Checkpoint(e - 2, branch(e - 2)))
  }

  lemma OnItsOwnStep(r: Rules, s: State, t: State, active: seq<Member>, side: set<Validator>, branch: Branch, q: nat)
    requires OnItsOwn(s, t, active, side, branch, q) && s.nextEpoch <= t.nextEpoch
    requires Ungated(r, t.nextEpoch, q) && Held(active, side, s.leaked) > 0
    ensures OnItsOwn(s, NextState(r, t, active, side, branch(t.nextEpoch)), active, side, branch, q)
    ensures NextState(r, t, active, side, branch(t.nextEpoch)).nextEpoch == t.nextEpoch + 1
  {
    hide NextState, SideLeaks, Strong, Majority, Held, Sound, OwnOk, LeakQuotient;
    var root := branch(t.nextEpoch);
    InOrder(t);
    SideStep(r, t, active, side, root);
    StepBelow(r, t, active, side, root, q);
    MajorityIsStrong(r, t, active, side, q);
  }

  lemma InOrder(s: State)
    requires Sound(s)
    ensures s.finalized.epoch <= s.currentJustified.epoch < s.nextEpoch
  {
  }

  lemma OnItsOwnAtFirst(s: State, active: seq<Member>, side: set<Validator>, branch: Branch, q: nat)
    requires Sound(s) && OwnOk(s)
    ensures OnItsOwn(s, s, active, side, branch, q)
  {
    hide Held, Majority;
  }

  lemma OneMore(r: Rules, s: State, active: seq<Member>, side: set<Validator>, branch: Branch, n: nat)
    ensures var before := SideRun(r, s, active, side, branch, n);
            SideRun(r, s, active, side, branch, n + 1) == NextState(r, before, active, side, branch(before.nextEpoch))
    ensures SideRun(r, s, active, side, branch, 0) == s
  {
    hide NextState;
  }

  lemma {:induction false} SideRunBelow(r: Rules, s: State, active: seq<Member>, side: set<Validator>, branch: Branch,
                                        q: nat, n: nat)
    requires Sound(s) && OwnOk(s) && Held(active, side, s.leaked) > 0
    requires forall e :: s.nextEpoch <= e < s.nextEpoch + n ==> Ungated(r, e, q)
    ensures SideRun(r, s, active, side, branch, n).nextEpoch == s.nextEpoch + n
    ensures OnItsOwn(s, SideRun(r, s, active, side, branch, n), active, side, branch, q)
  {
    hide *;
    if n == 0 {
      OneMore(r, s, active, side, branch, 0);
      OnItsOwnAtFirst(s, active, side, branch, q);
    } else {
      SideRunBelow(r, s, active, side, branch, q, n - 1);
      var before := SideRun(r, s, active, side, branch, n - 1);
      OneMore(r, s, active, side, branch, n - 1);
      OnItsOwnStep(r, s, before, active, side, branch, q);
    }
  }

  // ── As histories ─────────────────────────────────────────────────────────

  ghost function SideHistory(r: Rules, s: State, active: seq<Member>, side: set<Validator>, branch: Branch,
                             n: nat): seq<Event>
  {
    if n == 0 then []
    else
      var before := SideRun(r, s, active, side, branch, n - 1);
      var root := branch(before.nextEpoch);
      var begun := RecordOwn(before, before.nextEpoch, root);
      SideHistory(r, s, active, side, branch, n - 1)
      + [Boundary(before.nextEpoch, root), Tallied(SideEpoch(begun, active, side, root))]
  }

  lemma TwoMoreEvents(r: Rules, s: State, h: seq<Event>, x: Event, y: Event)
    requires Run(r, s, h).Some? && Apply(r, Run(r, s, h).value, x).Some?
    ensures Run(r, s, h + [x, y]) == Apply(r, Apply(r, Run(r, s, h).value, x).value, y)
  {
    hide Apply;
    var g := h + [x, y];
    assert g[..|g| - 1] == h + [x];
    assert (h + [x])[..|h|] == h;
    assert Run(r, s, h + [x]) == Apply(r, Run(r, s, h).value, x);
  }

  lemma NextIsApplied(r: Rules, s: State, active: seq<Member>, side: set<Validator>, root: Root)
    ensures var begun := RecordOwn(s, s.nextEpoch, root);
            && Apply(r, s, Boundary(s.nextEpoch, root)) == Some(begun)
            && Apply(r, begun, Tallied(SideEpoch(begun, active, side, root)))
               == Some(NextState(r, s, active, side, root))
  {
    hide Winner, NewFinalized, Leaks, CloseSets;
  }

  lemma {:induction false} HistoryRuns(r: Rules, s: State, active: seq<Member>, side: set<Validator>, branch: Branch,
                                       n: nat)
    ensures Run(r, s, SideHistory(r, s, active, side, branch, n)) == Some(SideRun(r, s, active, side, branch, n))
  {
    hide NextState, RecordOwn, SideEpoch, Apply;
    if n > 0 {
      HistoryRuns(r, s, active, side, branch, n - 1);
      var before := SideRun(r, s, active, side, branch, n - 1);
      var root := branch(before.nextEpoch);
      var begun := RecordOwn(before, before.nextEpoch, root);
      NextIsApplied(r, before, active, side, root);
      TwoMoreEvents(r, s, SideHistory(r, s, active, side, branch, n - 1), Boundary(before.nextEpoch, root),
                    Tallied(SideEpoch(begun, active, side, root)));
    }
  }

  lemma {:induction false} OnlySideSigns(r: Rules, s: State, active: seq<Member>, side: set<Validator>, branch: Branch,
                                         n: nat, u: Validator, d: Vote)
    requires Signed(SideHistory(r, s, active, side, branch, n), u, d)
    ensures u in side
  {
    hide SideRun, RecordOwn;
    var h := SideHistory(r, s, active, side, branch, n);
    var i :| 0 <= i < |h| && h[i].Tallied? && (u, d) in h[i].votes.attestations;
    var before := SideRun(r, s, active, side, branch, n - 1);
    var front := SideHistory(r, s, active, side, branch, n - 1);
    if i < |front| {
      assert h[i] == front[i];
      OnlySideSigns(r, s, active, side, branch, n - 1, u, d);
    } else {
      var root := branch(before.nextEpoch);
      CastIs(active, side, SideVote(RecordOwn(before, before.nextEpoch, root), root), (u, d));
    }
  }

  lemma SidesShareNobody(r: Rules, s: State, active: seq<Member>, a: set<Validator>, b: set<Validator>,
                         left: Branch, right: Branch, m: nat, n: nat)
    requires a !! b
    ensures NoCommonVoter(SideHistory(r, s, active, a, left, m), SideHistory(r, s, active, b, right, n))
  {
    var g, h := SideHistory(r, s, active, a, left, m), SideHistory(r, s, active, b, right, n);
    forall u, d, e ensures !(Signed(g, u, d) && Signed(h, u, e)) {
      if Signed(g, u, d) && Signed(h, u, e) {
        OnlySideSigns(r, s, active, a, left, m, u, d);
        OnlySideSigns(r, s, active, b, right, n, u, e);
      }
    }
  }

  // ── Two sides ────────────────────────────────────────────────────────────

  /** A set of any size finalizes alone once the stall is long enough, and from then on epoch by epoch. */
  lemma LoneSideFinalizes(r: Rules, s: State, active: seq<Member>, side: set<Validator>, branch: Branch, q: nat, n: nat)
    requires Sound(s) && OwnOk(s) && Held(active, side, s.leaked) > 0
    requires forall e :: s.nextEpoch <= e < s.nextEpoch + n ==> Ungated(r, e, q)
    requires s.nextEpoch + n > LeakedBy(s, q) + 2
    ensures Run(r, s, SideHistory(r, s, active, side, branch, n)) == Some(SideRun(r, s, active, side, branch, n))
    ensures SideRun(r, s, active, side, branch, n).finalized
         == Checkpoint(s.nextEpoch + n - 2, branch(s.nextEpoch + n - 2))
  {
    hide SideRun, SideHistory, Sound, OwnOk, Held, Majority, Run, Ungated;
    SideRunBelow(r, s, active, side, branch, q, n);
    HistoryRuns(r, s, active, side, branch, n);
  }

  /** Both sides finalize one epoch under different roots, though nobody voted on both. */
  ghost predicate Conflict(r: Rules, s: State, g: seq<Event>, h: seq<Event>) {
    && NoCommonVoter(g, h) && Run(r, s, g).Some? && Run(r, s, h).Some?
    && var a, b := Run(r, s, g).value.finalized, Run(r, s, h).value.finalized;
       s.finalized.epoch < a.epoch == b.epoch && a.root != b.root
  }

  /** Without a frozen set any two sides with stake left, however small, finalize in conflict. */
  lemma SidesConflict(r: Rules, s: State, active: seq<Member>, a: set<Validator>, b: set<Validator>,
                      left: Branch, right: Branch, q: nat, n: nat)
    requires Sound(s) && OwnOk(s) && a !! b && Held(active, a, s.leaked) > 0 && Held(active, b, s.leaked) > 0
    requires forall e :: left(e) != right(e)
    requires forall e :: s.nextEpoch <= e < s.nextEpoch + n ==> Ungated(r, e, q)
    requires s.nextEpoch + n > LeakedBy(s, q) + 2
    ensures Conflict(r, s, SideHistory(r, s, active, a, left, n), SideHistory(r, s, active, b, right, n))
    ensures Run(r, s, SideHistory(r, s, active, a, left, n)).value.finalized.epoch == s.nextEpoch + n - 2
  {
    InOrder(s);
    hide SideRun, SideHistory, Sound, OwnOk, Held, Run, Ungated, NoCommonVoter;
    LoneSideFinalizes(r, s, active, a, left, q, n);
    LoneSideFinalizes(r, s, active, b, right, q, n);
    SidesShareNobody(r, s, active, a, b, left, right, n, n);
  }

  /** Under the shipped gates: in every epoch before the recovery gate, from the seventieth after genesis on. */
  lemma SplitFinalizesTwice(cp: Checkpoint, active: seq<Member>, a: set<Validator>, b: set<Validator>,
                            left: Branch, right: Branch, n: nat)
    requires a !! b && Held(active, a, map[]) > 0 && Held(active, b, map[]) > 0 && forall e :: left(e) != right(e)
    requires n >= 70 && cp.epoch + n < SHIPPED.recoverFrom
    ensures Conflict(SHIPPED, Genesis(cp), SideHistory(SHIPPED, Genesis(cp), active, a, left, n),
                     SideHistory(SHIPPED, Genesis(cp), active, b, right, n))
    ensures Run(SHIPPED, Genesis(cp), SideHistory(SHIPPED, Genesis(cp), active, a, left, n)).value.finalized.epoch
         == cp.epoch + n - 1
  {
    hide SideHistory, Held, Run, Conflict;
    SidesConflict(SHIPPED, Genesis(cp), active, a, b, left, right, LEAK_QUOTIENT, n);
  }
}
