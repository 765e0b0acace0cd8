/** The finality state as the node holds it, updated in place one epoch at a time. */
module FinalityGadget {
  import opened Basics
  import opened Options
  import opened Sums
  import opened Finality

  datatype Outcome = Outcome(justified: Option<Checkpoint>, finalized: Option<Checkpoint>, equivocators: set<Validator>)

  datatype Verdict = Accepted(outcome: Outcome) | OutOfOrderEpoch(got: nat, expected: nat)

  method SumOf(m: map<Validator, nat>) returns (total: nat)
    ensures total == Sum(m)
  {
    total := 0;
    var rest := m;
    while rest != map[]
      invariant total + Sum(rest) == Sum(m)
      decreases |rest|
    {
      var u :| u in rest;
      SumRemove(rest, u);
      total := total + rest[u];
      assert (rest - {u}).Keys == rest.Keys - {u};
      rest := rest - {u};
    }
  }

  method AdjustedStakes(active: seq<Member>, leaked: map<Validator, nat>)
      returns (stake: map<Validator, nat>, unleaked: nat)
    ensures stake == AdjustedStake(active, leaked) && unleaked == UnleakedTotal(active)
  {
    stake, unleaked := map[], 0;
    var i := 0;
    while i < |active|
      invariant 0 <= i <= |active|
      invariant stake == AdjustedStake(active[..i], leaked) && unleaked == UnleakedTotal(active[..i])
    {
      assert active[..i + 1][..i] == active[..i];
      var m := active[i];
      stake := stake[m.index := Sub(m.stake, Get(leaked, m.index))];
      unleaked := unleaked + m.stake;
      i := i + 1;
    }
    assert active[..i] == active;
  }

  /** What the vote loop knows after hearing `heard`. */
  ghost predicate Collected(members: set<Validator>, epoch: nat, heard: set<(Validator, Vote)>,
                            first: map<Validator, Vote>, equivocators: set<Validator>)
  {
    && (forall u :: u in first ==> u in members && VotedFor(heard, epoch, u, first[u]))
    && (forall u, d :: u in members && VotedFor(heard, epoch, u, d) ==> u in first)
    && (forall u :: u in equivocators ==> u in first && Equivocated(heard, epoch, u))
    && (forall u, d :: u in first && VotedFor(heard, epoch, u, d) && d != first[u] ==> u in equivocators)
  }

  lemma CollectOne(members: set<Validator>, epoch: nat, heard: set<(Validator, Vote)>,
                   first: map<Validator, Vote>, equivocators: set<Validator>, u: Validator, d: Vote)
    requires Collected(members, epoch, heard, first, equivocators)
    ensures
      var heard' := heard + {(u, d)};
      if u !in members || d.target.epoch != epoch then Collected(members, epoch, heard', first, equivocators)
      else if u !in first then Collected(members, epoch, heard', first[u := d], equivocators)
      else if first[u] != d then Collected(members, epoch, heard', first, equivocators + {u})
      else Collected(members, epoch, heard', first, equivocators)
  {
    var heard' := heard + {(u, d)};
    forall w: Validator, e: Vote
      ensures VotedFor(heard', epoch, w, e)
         <==> VotedFor(heard, epoch, w, e) || ((w, e) == (u, d) && d.target.epoch == epoch)
    {
    }
    forall w | Equivocated(heard, epoch, w) ensures Equivocated(heard', epoch, w) {
      var x, y :| VotedFor(heard, epoch, w, x) && VotedFor(heard, epoch, w, y) && x != y;
      assert VotedFor(heard', epoch, w, x) && VotedFor(heard', epoch, w, y);
    }
    if u in first && first[u] != d && d.target.epoch == epoch {
      assert VotedFor(heard', epoch, u, first[u]) && VotedFor(heard', epoch, u, d);
    }
  }

  /** The votes left after the equivocators are struck out are exactly the clean ones. */
  lemma CollectedIsClean(members: set<Validator>, epoch: nat, heard: set<(Validator, Vote)>,
                         first: map<Validator, Vote>, equivocators: set<Validator>)
    requires Collected(members, epoch, heard, first, equivocators)
    ensures first - equivocators == Clean(members, epoch, heard)
    ensures equivocators == set u | u in members && Equivocated(heard, epoch, u)
  {
    var clean := Clean(members, epoch, heard);
    forall u | u in members && Equivocated(heard, epoch, u) ensures u in equivocators {
      var x, y :| VotedFor(heard, epoch, u, x) && VotedFor(heard, epoch, u, y) && x != y;
      assert u in first;
      assert x != first[u] || y != first[u];
    }
    forall u | u in clean ensures u in first && clean[u] == first[u] {
      assert VotedFor(heard, epoch, u, clean[u]);
    }
    assert (first - equivocators).Keys == clean.Keys;
  }

  /** Collect the first vote of every member for this target epoch, and the members that cast two different ones. */
  method CollectVotes(members: set<Validator>, v: EpochVotes)
      returns (clean: map<Validator, Vote>, equivocators: set<Validator>)
    ensures clean == Clean(members, v.epoch, v.Heard())
    ensures equivocators == set u | u in members && Equivocated(v.Heard(), v.epoch, u)
  {
    var first: map<Validator, Vote> := map[];
    equivocators := {};
    ghost var heard: set<(Validator, Vote)> := {};
    var i := 0;
    while i < |v.attestations|
      invariant 0 <= i <= |v.attestations|
      invariant heard == set a | a in v.attestations[..i]
      invariant Collected(members, v.epoch, heard, first, equivocators)
    {
      var (u, d) := v.attestations[i];
      CollectOne(members, v.epoch, heard, first, equivocators, u, d);
      assert v.attestations[..i + 1] == v.attestations[..i] + [(u, d)];
      heard := heard + {(u, d)};
      if u in members && d.target.epoch == v.epoch {
        if u !in first {
          first := first[u := d];
        } else if first[u] != d {
          equivocators := equivocators + {u};
        }
      }
      i := i + 1;
    }
    assert v.attestations[..i] == v.attestations;
    CollectedIsClean(members, v.epoch, heard, first, equivocators);
    clean := first - equivocators;
  }

  ghost function TallyAmong(counted: map<Validator, Vote>, weights: map<Validator, nat>, seen: set<Validator>,
                            root: Root): map<Validator, nat>
  {
    map u | u in seen && u in counted && counted[u].target.root == root && u in weights :: weights[u]
  }

  lemma TallyOne(counted: map<Validator, Vote>, weights: map<Validator, nat>, seen: set<Validator>, u: Validator,
                 root: Root)
    requires u in counted && u !in seen
    ensures Sum(TallyAmong(counted, weights, seen + {u}, root))
         == Sum(TallyAmong(counted, weights, seen, root))
          + if counted[u].target.root == root then Get(weights, u) else 0
  {
    var before := TallyAmong(counted, weights, seen, root);
    if counted[u].target.root == root && u in weights {
      assert TallyAmong(counted, weights, seen + {u}, root) == before[u := weights[u]];
      SumInsert(before, u, weights[u]);
    } else {
      assert TallyAmong(counted, weights, seen + {u}, root) == before;
    }
  }

  ghost predicate Tallies(counted: map<Validator, Vote>, weights: map<Validator, nat>, seen: set<Validator>,
                          tally: map<Root, nat>)
  {
    forall root :: Get(tally, root) == Sum(TallyAmong(counted, weights, seen, root))
  }

  lemma TallyStep(counted: map<Validator, Vote>, weights: map<Validator, nat>, seen: set<Validator>,
                  tally: map<Root, nat>, u: Validator)
    requires Tallies(counted, weights, seen, tally) && u in counted && u !in seen
    ensures
      var root := counted[u].target.root;
      Tallies(counted, weights, seen + {u}, tally[root := Get(tally, root) + Get(weights, u)])
  {
    var at := counted[u].target.root;
    var after := tally[at := Get(tally, at) + Get(weights, u)];
    forall root ensures Get(after, root) == Sum(TallyAmong(counted, weights, seen + {u}, root)) {
      TallyOne(counted, weights, seen, u, root);
    }
  }

  /** Add every counted vote's weight to the root it names. */
  method TallyVotes(counted: map<Validator, Vote>, weights: map<Validator, nat>) returns (tally: map<Root, nat>)
    ensures forall root :: Get(tally, root) == Sum(Tally(counted, weights, root))
  {
    tally := map[];
    var rest := counted.Keys;
    ghost var seen: set<Validator> := {};
    while rest != {}
      invariant seen == counted.Keys - rest && rest <= counted.Keys
      invariant Tallies(counted, weights, seen, tally)
      decreases rest
    {
      var u :| u in rest;
      TallyStep(counted, weights, seen, tally, u);
      var root := counted[u].target.root;
      tally := tally[root := Get(tally, root) + Get(weights, u)];
      rest, seen := rest - {u}, seen + {u};
    }
    forall root ensures Get(tally, root) == Sum(Tally(counted, weights, root)) {
      assert TallyAmong(counted, weights, seen, root) == Tally(counted, weights, root);
    }
  }

  /** The first root found with two thirds of the total; no other can have it. */
  method FindQuorum(tally: map<Root, nat>, total: nat) returns (won: Option<Root>)
    ensures won.None? ==> forall root :: !(total > 0 && 3 * Get(tally, root) >= 2 * total)
    ensures won.Some? ==> total > 0 && 3 * Get(tally, won.value) >= 2 * total
  {
    var rest := tally.Keys;
    while rest != {}
      invariant rest <= tally.Keys
      invariant forall root :: root in tally && root !in rest ==> !(total > 0 && tally[root] * 3 >= total * 2)
      decreases rest
    {
      var root :| root in rest;
      if total > 0 && tally[root] * 3 >= total * 2 {
        return Some(root);
      }
      rest := rest - {root};
    }
    won := None;
  }

  method LeakAbsent(active: seq<Member>, voted: set<Validator>, stake: map<Validator, nat>, t: nat, q: nat,
                    owed: map<Validator, nat>)
    returns (leaked: map<Validator, nat>)
    requires q > 0
    ensures leaked == LeakAll(active, voted, stake, t, q, owed)
  {
    leaked := owed;
    var i := 0;
    while i < |active|
      invariant 0 <= i <= |active|
      invariant leaked == LeakAll(active[..i], voted, stake, t, q, owed)
    {
      assert active[..i + 1][..i] == active[..i];
      var u := active[i].index;
      if u !in voted {
        var remaining := Get(stake, u);
        if remaining != 0 {
          leaked := leaked[u := Get(leaked, u) + Bite(remaining, t, q)];
        }
      }
      i := i + 1;
    }
    assert active[..i] == active;
  }

  method RecoverPresent(active: seq<Member>, voted: set<Validator>, leaking: bool, charged: map<Validator, nat>)
    returns (leaked: map<Validator, nat>)
    ensures leaked == DropSettled(active, voted, leaking, RecoverAll(active, voted, leaking, charged))
  {
    leaked := charged;
    var drained: set<Validator> := {};
    var i := 0;
    while i < |active|
      invariant 0 <= i <= |active|
      invariant leaked == RecoverAll(active[..i], voted, leaking, charged)
      invariant drained
             == set u | u in leaked && leaked[u] == 0 && u in Indices(active[..i]) && (leaking ==> u in voted)
    {
      assert active[..i + 1][..i] == active[..i];
      assert active[..i + 1] == active[..i] + [active[i]];
      var u := active[i].index;
      assert Indices(active[..i + 1]) == Indices(active[..i]) + {u};
      if !(leaking && u !in voted) && u in leaked {
        leaked := leaked[u := PayBack(leaked[u])];
        if leaked[u] == 0 {
          drained := drained + {u};
        }
      }
      i := i + 1;
    }
    assert active[..i] == active;
    leaked := leaked - drained;
  }

  /** Tally one epoch: the votes that count, who equivocated, and the checkpoint that reached two thirds. */
  method Judge(r: Rules, s: State, v: EpochVotes)
    returns (stake: map<Validator, nat>, clean: map<Validator, Vote>, equivocators: set<Validator>,
             counted: map<Validator, Vote>, won: Option<Checkpoint>)
    ensures stake == AdjustedStake(v.activeSet, s.leaked)
    ensures clean == Clean(stake.Keys, v.epoch, v.Heard())
    ensures equivocators == set u | u in stake.Keys && Equivocated(v.Heard(), v.epoch, u)
    ensures counted == Counted(r, s, v) && won == Winner(r, s, v)
  {
    var unleaked;
    stake, unleaked := AdjustedStakes(v.activeSet, s.leaked);
    var adjusted := SumOf(stake);
    var total := if v.epoch < r.recoverFrom then adjusted else Max(adjusted, unleaked / 2);
    var weights := stake;
    var sets := OpenSets(r, s, v);
    if Frozen(r, v.epoch) && sets.Some? {
      weights := sets.value.current.members;
      total := SumOf(weights);
    }
    clean, equivocators := CollectVotes(stake.Keys, v);
    counted := map u | u in clean && Links(r, s, v.epoch, clean[u]) :: clean[u];
    var tally := TallyVotes(counted, weights);
    var root := FindQuorum(tally, total);
    won := if root.Some? then Some(Checkpoint(v.epoch, root.value)) else None;
    assert weights == Weights(r, s, v) && total == Denominator(r, s, v);
    QuorumFound(r, s, v, root);
  }

  lemma QuorumFound(r: Rules, s: State, v: EpochVotes, root: Option<Root>)
    requires
      var counted, weights, total := Counted(r, s, v), Weights(r, s, v), Denominator(r, s, v);
      match root
      case None => forall x :: !(total > 0 && 3 * Sum(Tally(counted, weights, x)) >= 2 * total)
      case Some(x) => total > 0 && 3 * Sum(Tally(counted, weights, x)) >= 2 * total
    ensures Winner(r, s, v) == if root.Some? then Some(Checkpoint(v.epoch, root.value)) else None
  {
    DenominatorCovers(r, s, v);
    var counted, weights, total := Counted(r, s, v), Weights(r, s, v), Denominator(r, s, v);
    hide Counted, Weights, Denominator;
    match root {
      case None =>
        assert forall x :: !Quorum(counted, weights, total, x);
      case Some(x) =>
        assert Quorum(counted, weights, total, x);
        OneQuorum(counted, weights, total, x, Winner(r, s, v).value.root);
    }
  }

  method SettleLeaks(r: Rules, ghost s: State, v: EpochVotes, stake: map<Validator, nat>, counted: map<Validator, Vote>,
                     finalized: Checkpoint, leaked: map<Validator, nat>)
    returns (after: map<Validator, nat>)
    requires stake == AdjustedStake(v.activeSet, s.leaked) && counted == Counted(r, s, v)
    requires finalized == NewFinalized(r, s, v) && leaked == s.leaked
    ensures after == Leaks(r, s, v)
  {
    var since := Sub(v.epoch, finalized.epoch);
    var leaking := since > LEAK_THRESHOLD;
    after := leaked;
    if leaking {
      after := LeakAbsent(v.activeSet, counted.Keys, stake, since - LEAK_THRESHOLD, LeakQuotient(r, v.epoch), leaked);
    }
    if v.epoch >= r.recoverFrom {
      after := RecoverPresent(v.activeSet, counted.Keys, leaking, after);
    }
  }

  method HandOff(r: Rules, ghost s: State, v: EpochVotes, inForce: Option<SetState>,
                 finalizedNow: Option<Checkpoint>, present: set<Validator>)
    returns (sets: Option<SetState>)
    requires inForce == OpenSets(r, s, v) && finalizedNow == NewlyFinal(r, s, v)
    requires present == Clean(AdjustedStake(v.activeSet, s.leaked).Keys, v.epoch, v.Heard()).Keys
    ensures sets == CloseSets(r, s, v)
  {
    if !Frozen(r, v.epoch) || inForce.None? {
      return inForce;
    }
    var fs := inForce.value;
    var current := fs.current;
    if finalizedNow.Some? && fs.pending.Some? && fs.pending.value.epoch == finalizedNow.value.epoch {
      current := fs.pending.value;
    }
    var lastSeen :=
      map u | u in Indices(v.activeSet) :: if u in present || u !in fs.lastSeen then v.epoch else fs.lastSeen[u];
    sets := Some(SetState(current, Some(Snapshot(v, lastSeen)), lastSeen));
  }

  /** Justified and finalized checkpoints, the leak ledger and the frozen set, as one node holds them. */
  class Gadget {
    const rules: Rules
    var justified: map<nat, Root>
    var currentJustified: Checkpoint
    var finalized: Checkpoint
    var leaked: map<Validator, nat>
    var nextEpoch: nat
    var sets: Option<SetState>
    var own: map<nat, Root>

    function View(): State
      reads this
    {
      State(justified, currentJustified, finalized, leaked, nextEpoch, sets, own)
    }

    constructor (rules: Rules, genesis: Checkpoint)
      ensures this.rules == rules && View() == Genesis(genesis)
    {
      this.rules := rules;
      justified, currentJustified, finalized := map[genesis.epoch := genesis.root], genesis, genesis;
      leaked, nextEpoch, sets, own := map[], genesis.epoch + 1, None, map[];
    }

    /** Record this chain's own checkpoint of `epoch`, keeping only that one and the justified one. */
    method RecordOwnCheckpoint(epoch: nat, root: Root)
      modifies this`own
      ensures View() == RecordOwn(old(View()), epoch, root)
    {
      own := own[epoch := root];
      own := map e | e in own && (e == epoch || e == currentJustified.epoch) :: own[e];
    }

    /** Fold one epoch of votes into the state, or refuse an epoch out of order and change nothing. */
    method ProcessEpoch(v: EpochVotes) returns (verdict: Verdict)
      modifies this
      ensures verdict.OutOfOrderEpoch? <==> v.epoch != old(nextEpoch)
      ensures verdict.OutOfOrderEpoch? ==> View() == old(View()) && verdict == OutOfOrderEpoch(v.epoch, nextEpoch)
      ensures verdict.Accepted? ==>
        && Process(rules, old(View()), v) == Some(View())
        && verdict.outcome.justified == Winner(rules, old(View()), v)
        && verdict.outcome.finalized == NewlyFinal(rules, old(View()), v)
        && verdict.outcome.equivocators == set u | u in Indices(v.activeSet) && Equivocated(v.Heard(), v.epoch, u)
    {
      if v.epoch != nextEpoch {
        return OutOfOrderEpoch(v.epoch, nextEpoch);
      }
      var next, outcome := Fold(rules, View(), v);
      justified, currentJustified, finalized := next.justified, next.currentJustified, next.finalized;
      leaked, nextEpoch, sets := next.leaked, next.nextEpoch, next.sets;
      OwnKept(rules, old(View()), v);
      verdict := Accepted(outcome);
    }
  }

  lemma OwnKept(r: Rules, s: State, v: EpochVotes)
    ensures Process(r, s, v).Some? ==> Process(r, s, v).value.own == s.own
  {
  }

  /** Tally, then justify and finalize, then hand the frozen set over, then tick the leak: in this order. */
  method Fold(r: Rules, s: State, v: EpochVotes) returns (next: State, outcome: Outcome)
    requires v.epoch == s.nextEpoch
    ensures Process(r, s, v) == Some(next)
    ensures outcome.justified == Winner(r, s, v) && outcome.finalized == NewlyFinal(r, s, v)
    ensures outcome.equivocators == set u | u in Indices(v.activeSet) && Equivocated(v.Heard(), v.epoch, u)
  {
    var stake, clean, equivocators, counted, won := Judge(r, s, v);
    StakeIndices(v.activeSet, s.leaked);
    ProcessedFields(r, s, v);
    hide *;
    var finalizedNow := Settle(r, s, v, won);
    var justified := if won.Some? then s.justified[v.epoch := won.value.root] else s.justified;
    var current := if won.Some? && v.epoch > s.currentJustified.epoch then won.value else s.currentJustified;
    var finalized := if finalizedNow.Some? then finalizedNow.value else s.finalized;
    var sets := HandOff(r, s, v, OpenSets(r, s, v), finalizedNow, clean.Keys);
    var leaked := SettleLeaks(r, s, v, stake, counted, finalized, s.leaked);
    next := State(justified, current, finalized, leaked, s.nextEpoch + 1, sets, s.own);
    outcome := Outcome(won, finalizedNow, equivocators);
  }

  /** Consecutive justification: the link's source is final if the link spans one epoch. */
  method Settle(r: Rules, s: State, v: EpochVotes, won: Option<Checkpoint>) returns (finalizedNow: Option<Checkpoint>)
    requires won == Winner(r, s, v)
    ensures finalizedNow == NewlyFinal(r, s, v)
  {
    var source := s.currentJustified;
    if won.Some? && source.epoch + 1 == v.epoch && source.epoch > s.finalized.epoch && SourceIsOwn(r, s, v.epoch) {
      return Some(source);
    }
    return None;
  }

  lemma ProcessedFields(r: Rules, s: State, v: EpochVotes)
    requires v.epoch == s.nextEpoch
    ensures
      var won, final := Winner(r, s, v), NewlyFinal(r, s, v);
      && NewFinalized(r, s, v) == (if final.Some? then final.value else s.finalized)
      && Process(r, s, v) == Some(State(
           if won.Some? then s.justified[v.epoch := won.value.root] else s.justified,
           if won.Some? && v.epoch > s.currentJustified.epoch then won.value else s.currentJustified,
           NewFinalized(r, s, v), Leaks(r, s, v), s.nextEpoch + 1, CloseSets(r, s, v), s.own))
  {
  }

  lemma {:induction false} StakeIndices(active: seq<Member>, leaked: map<Validator, nat>)
    ensures AdjustedStake(active, leaked).Keys == Indices(active)
  {
    if active != [] {
      var front, m := active[..|active| - 1], active[|active| - 1];
      StakeIndices(front, leaked);
      assert active == front + [m];
    }
  }
}
