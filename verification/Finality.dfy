/**
 Justification and finality (crates/bloch-pos-committee/src/finality.rs): one
 epoch of votes folded into the state, as a function of the state and the votes.

 Stakes, epochs and totals are unbounded here; the source keeps sums in u128.
 */
module Finality {
  import opened Basics
  import opened Options
  import opened Sums

  datatype Checkpoint = Checkpoint(epoch: nat, root: Root)

  /** What a validator signs. */
  datatype Vote = Vote(slot: nat, head: Root, source: Checkpoint, target: Checkpoint) {
    predicate Surrounds(other: Vote) {
      source.epoch < other.source.epoch && other.target.epoch < target.epoch
    }

    predicate IsDoubleVote(other: Vote) {
      target.epoch == other.target.epoch && this != other
    }

    /** The pair of votes is evidence of an attestation offence. */
    predicate Conflicts(other: Vote) {
      IsDoubleVote(other) || Surrounds(other) || other.Surrounds(this)
    }
  }

  datatype Member = Member(index: Validator, stake: nat)

  /** Everything consumed for one epoch: the whole active set and the verified votes heard. */
  datatype EpochVotes = EpochVotes(epoch: nat, activeSet: seq<Member>, attestations: seq<(Validator, Vote)>) {
    ghost function Heard(): set<(Validator, Vote)> {
      set a | a in attestations
    }
  }

  /** A frozen stake map: the quorum's weights and denominator while it is in force. */
  datatype FinalitySet = FinalitySet(epoch: nat, members: map<Validator, nat>)

  datatype SetState = SetState(current: FinalitySet, pending: Option<FinalitySet>, lastSeen: map<Validator, nat>)

  datatype State = State(
    justified: map<nat, Root>,
    currentJustified: Checkpoint,
    finalized: Checkpoint,
    leaked: map<Validator, nat>,
    nextEpoch: nat,
    sets: Option<SetState>,
    own: map<nat, Root>)
  {
    predicate IsJustified(cp: Checkpoint) {
      cp.epoch in justified && justified[cp.epoch] == cp.root
    }
  }

  /** The activation epochs the rules depend on; the sentinel u64::MAX never activates. */
  datatype Rules = Rules(frozenFrom: nat, ownFrom: nat, recoverFrom: nat, ethPacedFrom: nat, recoveries: set<nat>)

  const U64_MAX: nat := 0xFFFF_FFFF_FFFF_FFFF
  const LEAK_THRESHOLD: nat := 4
  const LEAK_QUOTIENT: nat := 64
  const LEAK_QUOTIENT_ETH_PACED: nat := 2_684_355
  const LEAK_RECOVERY_QUOTIENT: nat := 16
  const PRUNE_AFTER: nat := 90

  predicate GateActive(epoch: nat, activation: nat) {
    activation != U64_MAX && epoch >= activation
  }

  /** The constants this source ships: the leak gates are scheduled, the two HF1 gates are inert. */
  const SHIPPED: Rules := Rules(U64_MAX, U64_MAX, 2_880, 5_700, {})

  function Sub(a: nat, b: nat): nat {
    if a <= b then 0 else a - b
  }

  function Min(a: nat, b: nat): nat {
    if a < b then a else b
  }

  function Genesis(cp: Checkpoint): State {
    State(map[cp.epoch := cp.root], cp, cp, map[], cp.epoch + 1, None, map[])
  }

  // ── Weights and denominator ──────────────────────────────────────────────

  /** Leak-adjusted stake per member; a repeated index keeps its last entry. */
  function AdjustedStake(active: seq<Member>, leaked: map<Validator, nat>): map<Validator, nat> {
    if active == [] then map[]
    else
      var m := active[|active| - 1];
      AdjustedStake(active[..|active| - 1], leaked)[m.index := Sub(m.stake, Get(leaked, m.index))]
  }

  function UnleakedTotal(active: seq<Member>): nat {
    if active == [] then 0 else UnleakedTotal(active[..|active| - 1]) + active[|active| - 1].stake
  }

  /** Below the recovery gate the adjusted total; from it on, never less than half the unleaked total. */
  ghost function LeakDenominator(r: Rules, v: EpochVotes, leaked: map<Validator, nat>): nat {
    var adjusted := Sum(AdjustedStake(v.activeSet, leaked));
    if v.epoch < r.recoverFrom then adjusted else Max(adjusted, UnleakedTotal(v.activeSet) / 2)
  }

  /** The roster's staked members minus those unseen for the pruning horizon. */
  function Snapshot(v: EpochVotes, lastSeen: map<Validator, nat>): FinalitySet {
    FinalitySet(v.epoch, Unpruned(v.activeSet, v.epoch, lastSeen))
  }

  function Unpruned(active: seq<Member>, epoch: nat, lastSeen: map<Validator, nat>): map<Validator, nat> {
    if active == [] then map[]
    else
      var m := active[|active| - 1];
      var rest := Unpruned(active[..|active| - 1], epoch, lastSeen);
      var seen := if m.index in lastSeen then lastSeen[m.index] else epoch;
      if m.stake > 0 && Sub(epoch, seen) < PRUNE_AFTER then rest[m.index := m.stake] else rest
  }

  predicate Frozen(r: Rules, epoch: nat) {
    GateActive(epoch, r.frozenFrom)
  }

  /** Start of a gated epoch: form the first set, or re-form it at a coordinated recovery epoch. */
  function OpenSets(r: Rules, s: State, v: EpochVotes): Option<SetState> {
    if !Frozen(r, v.epoch) then s.sets
    else
      match s.sets
      case None => Some(SetState(Snapshot(v, map[]), None, map[]))
      case Some(fs) =>
        if v.epoch in r.recoveries then Some(fs.(current := Snapshot(v, fs.lastSeen), pending := None)) else s.sets
  }

  /** What each counted vote weighs this epoch. */
  function Weights(r: Rules, s: State, v: EpochVotes): map<Validator, nat> {
    var sets := OpenSets(r, s, v);
    if Frozen(r, v.epoch) && sets.Some? then sets.value.current.members else AdjustedStake(v.activeSet, s.leaked)
  }

  ghost function Denominator(r: Rules, s: State, v: EpochVotes): nat {
    var sets := OpenSets(r, s, v);
    if Frozen(r, v.epoch) && sets.Some? then Sum(sets.value.current.members) else LeakDenominator(r, v, s.leaked)
  }

  // ── The votes that count ─────────────────────────────────────────────────

  ghost predicate VotedFor(heard: set<(Validator, Vote)>, epoch: nat, u: Validator, d: Vote) {
    (u, d) in heard && d.target.epoch == epoch
  }

  /** Two different votes for this target epoch: the validator counts for no target. */
  ghost predicate Equivocated(heard: set<(Validator, Vote)>, epoch: nat, u: Validator) {
    exists d, e :: VotedFor(heard, epoch, u, d) && VotedFor(heard, epoch, u, e) && d != e
  }

  /** One vote per member that cast exactly one for this epoch, whatever order the votes arrived in. */
  ghost function Clean(members: set<Validator>, epoch: nat, heard: set<(Validator, Vote)>): map<Validator, Vote> {
    map u | u in members && (exists d :: VotedFor(heard, epoch, u, d)) && !Equivocated(heard, epoch, u)
      :: var d :| VotedFor(heard, epoch, u, d); d
  }

  /** Votes linking from the current justified checkpoint and, once gated, naming this chain's own checkpoints. */
  predicate Links(r: Rules, s: State, epoch: nat, d: Vote) {
    && d.source == s.currentJustified
    && d.source.epoch < d.target.epoch
    && (GateActive(epoch, r.ownFrom) ==>
        && epoch in s.own && d.target.root == s.own[epoch]
        && (s.currentJustified.epoch in s.own ==> s.own[s.currentJustified.epoch] == d.source.root))
  }

  ghost function Counted(r: Rules, s: State, v: EpochVotes): map<Validator, Vote> {
    var clean := Clean(AdjustedStake(v.activeSet, s.leaked).Keys, v.epoch, v.Heard());
    map u | u in clean && Links(r, s, v.epoch, clean[u]) :: clean[u]
  }

  /** The weight behind one target root. */
  ghost function Tally(counted: map<Validator, Vote>, weights: map<Validator, nat>, root: Root): map<Validator, nat> {
    map u | u in counted && counted[u].target.root == root && u in weights :: weights[u]
  }

  ghost predicate Quorum(counted: map<Validator, Vote>, weights: map<Validator, nat>, total: nat, root: Root) {
    total > 0 && 3 * Sum(Tally(counted, weights, root)) >= 2 * total
  }

  /** Two different roots never both reach two thirds of one total. */
  lemma OneQuorum(counted: map<Validator, Vote>, weights: map<Validator, nat>, total: nat, a: Root, b: Root)
    requires Sum(weights) <= total && Quorum(counted, weights, total, a) && Quorum(counted, weights, total, b)
    ensures a == b
  {
    if a != b {
      SumDisjoint(Tally(counted, weights, a), Tally(counted, weights, b), weights);
    }
  }

  ghost function Winner(r: Rules, s: State, v: EpochVotes): Option<Checkpoint> {
    var counted, weights, total := Counted(r, s, v), Weights(r, s, v), Denominator(r, s, v);
    if exists root :: Quorum(counted, weights, total, root) then
      var root :| Quorum(counted, weights, total, root);
      Some(Checkpoint(v.epoch, root))
    else None
  }

  /** The denominator is never less than the weight there is to vote with. */
  lemma DenominatorCovers(r: Rules, s: State, v: EpochVotes)
    ensures Sum(Weights(r, s, v)) <= Denominator(r, s, v)
  {
  }

  // ── Finality, handoff, leak ──────────────────────────────────────────────

  predicate SourceIsOwn(r: Rules, s: State, epoch: nat) {
    !GateActive(epoch, r.ownFrom)
    || (s.currentJustified.epoch in s.own && s.own[s.currentJustified.epoch] == s.currentJustified.root)
  }

  /** Consecutive justification finalizes the source of the link. */
  ghost function NewlyFinal(r: Rules, s: State, v: EpochVotes): Option<Checkpoint> {
    if Winner(r, s, v).Some? && s.currentJustified.epoch + 1 == v.epoch
       && s.currentJustified.epoch > s.finalized.epoch && SourceIsOwn(r, s, v.epoch)
    then Some(s.currentJustified) else None
  }

  function Indices(active: seq<Member>): set<Validator> {
    set m | m in active :: m.index
  }

  /** End of a gated epoch: hand off if the pending set's checkpoint finalized, record presence, snapshot the next. */
  ghost function CloseSets(r: Rules, s: State, v: EpochVotes): Option<SetState> {
    var sets := OpenSets(r, s, v);
    if !Frozen(r, v.epoch) || sets.None? then sets
    else
      var fs := sets.value;
      var final := NewlyFinal(r, s, v);
      var current := if final.Some? && fs.pending.Some? && fs.pending.value.epoch == final.value.epoch
                     then fs.pending.value else fs.current;
      var present := Clean(AdjustedStake(v.activeSet, s.leaked).Keys, v.epoch, v.Heard()).Keys;
      var lastSeen := map u | u in Indices(v.activeSet)
                        :: if u in present || u !in fs.lastSeen then v.epoch else fs.lastSeen[u];
      Some(SetState(current, Some(Snapshot(v, lastSeen)), lastSeen))
  }

  function LeakQuotient(r: Rules, epoch: nat): (q: nat)
    ensures q > 0
  {
    if GateActive(epoch, r.ethPacedFrom) then LEAK_QUOTIENT_ETH_PACED else LEAK_QUOTIENT
  }

  function Bite(remaining: nat, t: nat, q: nat): (bite: nat)
    requires q > 0
    ensures remaining > 0 ==> 0 < bite <= remaining
  {
    Min(Max(remaining * t / q, 1), remaining)
  }

  /** Charge every absent member with stake left, in roster order. */
  function LeakAll(active: seq<Member>, voted: set<Validator>, stake: map<Validator, nat>,
                   t: nat, q: nat, leaked: map<Validator, nat>): map<Validator, nat>
    requires q > 0
  {
    if active == [] then leaked
    else
      var u := active[|active| - 1].index;
      var before := LeakAll(active[..|active| - 1], voted, stake, t, q, leaked);
      if u in voted || Get(stake, u) == 0 then before
      else before[u := Get(before, u) + Bite(Get(stake, u), t, q)]
  }

  function PayBack(owed: nat): (left: nat)
    ensures owed > 0 ==> left < owed
  {
    owed - Min(Max(owed / LEAK_RECOVERY_QUOTIENT, 1), owed)
  }

  /** Discharge part of the debt of every member that may recover, in roster order. */
  function RecoverAll(active: seq<Member>, voted: set<Validator>, leaking: bool,
                      leaked: map<Validator, nat>): map<Validator, nat>
  {
    if active == [] then leaked
    else
      var u := active[|active| - 1].index;
      var before := RecoverAll(active[..|active| - 1], voted, leaking, leaked);
      if (leaking && u !in voted) || u !in before then before
      else before[u := PayBack(before[u])]
  }

  /** Entries paid down to nothing are removed, not kept at zero. */
  function DropSettled(active: seq<Member>, voted: set<Validator>, leaking: bool,
                       leaked: map<Validator, nat>): map<Validator, nat>
  {
    map u | u in leaked && !(leaked[u] == 0 && u in Indices(active) && (leaking ==> u in voted)) :: leaked[u]
  }

  ghost function Leaks(r: Rules, s: State, v: EpochVotes): map<Validator, nat> {
    var stake, voted := AdjustedStake(v.activeSet, s.leaked), Counted(r, s, v).Keys;
    var since := Sub(v.epoch, NewFinalized(r, s, v).epoch);
    var leaking := since > LEAK_THRESHOLD;
    var charged :=
      if leaking
      then LeakAll(v.activeSet, voted, stake, since - LEAK_THRESHOLD, LeakQuotient(r, v.epoch), s.leaked)
      else s.leaked;
    if v.epoch < r.recoverFrom then charged
    else DropSettled(v.activeSet, voted, leaking, RecoverAll(v.activeSet, voted, leaking, charged))
  }

  ghost function NewFinalized(r: Rules, s: State, v: EpochVotes): Checkpoint {
    var final := NewlyFinal(r, s, v);
    if final.Some? then final.value else s.finalized
  }

  /** Fold one epoch of votes into the state; epochs must be dense and in order. */
  ghost function Process(r: Rules, s: State, v: EpochVotes): Option<State> {
    if v.epoch != s.nextEpoch then None
    else
      var won := Winner(r, s, v);
      Some(State(
        if won.Some? then s.justified[v.epoch := won.value.root] else s.justified,
        if won.Some? && v.epoch > s.currentJustified.epoch then won.value else s.currentJustified,
        NewFinalized(r, s, v),
        Leaks(r, s, v),
        s.nextEpoch + 1,
        CloseSets(r, s, v),
        s.own))
  }

  /** Record this chain's own checkpoint at the boundary that opens `epoch`. */
  function RecordOwn(s: State, epoch: nat, root: Root): State {
    var all := s.own[epoch := root];
    s.(own := map e | e in all && (e == epoch || e == s.currentJustified.epoch) :: all[e])
  }

  /** One event of a chain's history. */
  datatype Event = Boundary(epoch: nat, root: Root) | Tallied(votes: EpochVotes)

  ghost function Apply(r: Rules, s: State, e: Event): Option<State> {
    match e
    case Boundary(epoch, root) => Some(RecordOwn(s, epoch, root))
    case Tallied(votes) => Process(r, s, votes)
  }

  /** The state after a whole history, or nothing if some epoch came out of order. */
  ghost function Run(r: Rules, s: State, h: seq<Event>): Option<State> {
    if h == [] then Some(s)
    else
      var before := Run(r, s, h[..|h| - 1]);
      if before.None? then None else Apply(r, before.value, h[|h| - 1])
  }
}
