/**
 How much the inactivity leak takes and gives back
 (crates/bloch-pos-committee/src/finality.rs): each epoch's charge and credit
 to the unit, and the quadratic loss of a validator that stays away.
 */
module FinalityLeak {
  import opened Basics
  import opened Finality
  import opened FinalitySplit

  // ── One charge, one credit ───────────────────────────────────────────────

  /** The largest amount up to `whole` that is at most the share `num / den` of it, or 1 if that share is below 1. */
  predicate IsShare(whole: nat, num: nat, den: nat, share: nat) {
    && 1 <= share <= whole
    && (share == 1 || den * share <= num * whole)
    && (share == whole || num * whole < den * (share + 1))
  }

  /** There is only one such amount. */
  lemma ShareIsUnique(whole: nat, num: nat, den: nat, a: nat, b: nat)
    requires den > 0 && IsShare(whole, num, den, a) && IsShare(whole, num, den, b)
    ensures a == b
  {
    if a < b {
      Scales(a + 1, b, den);
    } else if b < a {
      Scales(b + 1, a, den);
    }
  }

  lemma QuotientBounds(x: nat, q: nat)
    requires q > 0
    ensures q * (x / q) <= x < q * (x / q + 1)
  {
  }

  lemma Smaller(q: nat, a: nat, b: nat)
    requires a <= b
    ensures q * a <= q * b
  {
    Scales(a, b, q);
  }

  /** The bite out of a positive stake is its share t/q. */
  lemma BiteIsShare(x: nat, t: nat, q: nat)
    requires q > 0 && x > 0
    ensures IsShare(x, t, q, Bite(x, t, q))
  {
    assert x * t == t * x;
    QuotientBounds(x * t, q);
    var k := x * t / q;
    if k < 1 {
      Smaller(q, k + 1, 2);
    } else if k > x {
      Smaller(q, x, k);
    }
  }

  /** The part of a debt paid back is its sixteenth. */
  lemma PaidIsShare(owed: nat)
    requires owed > 0
    ensures IsShare(owed, 1, LEAK_RECOVERY_QUOTIENT, owed - PayBack(owed))
  {
  }

  // ── One epoch's ledger ───────────────────────────────────────────────────

  /** How often the roster lists the validator. */
  function Listed(active: seq<Member>, u: Validator): nat {
    if active == [] then 0
    else Listed(active[..|active| - 1], u) + if active[|active| - 1].index == u then 1 else 0
  }

  lemma {:induction false} ListedIsIndex(active: seq<Member>, u: Validator)
    ensures Listed(active, u) > 0 <==> u in Indices(active)
  {
    if active != [] {
      var front, last := active[..|active| - 1], active[|active| - 1];
      ListedIsIndex(front, u);
      assert active == front + [last];
      assert Indices(active) == Indices(front) + {last.index};
    }
  }

  lemma {:induction false} LeakAllAt(active: seq<Member>, voted: set<Validator>, stake: map<Validator, nat>,
                                     t: nat, q: nat, leaked: map<Validator, nat>, u: Validator)
    requires q > 0 && Listed(active, u) <= 1
    ensures Get(LeakAll(active, voted, stake, t, q, leaked), u)
         == Get(leaked, u)
          + if Listed(active, u) == 1 && u !in voted && Get(stake, u) > 0 then Bite(Get(stake, u), t, q) else 0
  {
    hide Bite;
    if active != [] {
      LeakAllAt(active[..|active| - 1], voted, stake, t, q, leaked, u);
    }
  }

  lemma {:induction false} RecoverAllAt(active: seq<Member>, voted: set<Validator>, leaking: bool,
                                        leaked: map<Validator, nat>, u: Validator)
    requires Listed(active, u) <= 1
    ensures var after := RecoverAll(active, voted, leaking, leaked);
            && (u in after <==> u in leaked)
            && Get(after, u)
            == if Listed(active, u) == 1 && (leaking ==> u in voted) then PayBack(Get(leaked, u)) else Get(leaked, u)
  {
    hide PayBack;
    assert PayBack(0) == 0 by { NothingOwed(); }
    if active != [] {
      RecoverAllAt(active[..|active| - 1], voted, leaking, leaked, u);
    }
  }

  lemma NothingOwed()
    ensures PayBack(0) == 0
  {
  }

  /** Charged this epoch: listed, with stake left, its vote not counted, in a stall. */
  ghost predicate IsCharged(r: Rules, s: State, v: EpochVotes, u: Validator) {
    && StallOf(r, s, v) > LEAK_THRESHOLD && u in Indices(v.activeSet) && u !in Counted(r, s, v)
    && Get(AdjustedStake(v.activeSet, s.leaked), u) > 0
  }

  /** Credited this epoch: past the gate, listed and in debt, and its vote counted or there is no stall. */
  ghost predicate IsCredited(r: Rules, s: State, v: EpochVotes, u: Validator) {
    && v.epoch >= r.recoverFrom && u in Indices(v.activeSet) && Get(s.leaked, u) > 0
    && (StallOf(r, s, v) > LEAK_THRESHOLD ==> u in Counted(r, s, v))
  }

  /** Epochs since finality, this epoch's votes included. */
  ghost function StallOf(r: Rules, s: State, v: EpochVotes): nat {
    Sub(v.epoch, NewFinalized(r, s, v).epoch)
  }

  /**
   What one epoch does to a validator's debt, to the unit: a charge is the share t/q of the stake it has left,
   for the t-th epoch past the threshold and the quotient in force, a credit is a sixteenth of the debt, either
   at least 1, and everybody else's debt stays.
   */
  lemma LedgerExactly(r: Rules, s: State, v: EpochVotes, u: Validator)
    requires Listed(v.activeSet, u) <= 1
    ensures var before, after := Get(s.leaked, u), Get(Leaks(r, s, v), u);
            if IsCharged(r, s, v, u) then
              && after > before
              && IsShare(Get(AdjustedStake(v.activeSet, s.leaked), u), StallOf(r, s, v) - LEAK_THRESHOLD,
                         LeakQuotient(r, v.epoch), after - before)
            else if IsCredited(r, s, v, u) then
              after < before && IsShare(before, 1, LEAK_RECOVERY_QUOTIENT, before - after)
            else after == before
  {
    hide LeakAll, RecoverAll, Bite, PayBack, Counted, NewFinalized, LeakQuotient, AdjustedStake, Indices, IsShare;
    var stake, voted := AdjustedStake(v.activeSet, s.leaked), Counted(r, s, v).Keys;
    var t, q := Sub(StallOf(r, s, v), LEAK_THRESHOLD), LeakQuotient(r, v.epoch);
    var leaking := StallOf(r, s, v) > LEAK_THRESHOLD;
    var charged := if leaking then LeakAll(v.activeSet, voted, stake, t, q, s.leaked) else s.leaked;
    ListedIsIndex(v.activeSet, u);
    LeakAllAt(v.activeSet, voted, stake, t, q, s.leaked, u);
    RecoverAllAt(v.activeSet, voted, leaking, charged, u);
    NothingOwed();
    Settled(v.activeSet, voted, leaking, RecoverAll(v.activeSet, voted, leaking, charged), u);
    if Get(stake, u) > 0 { BiteIsShare(Get(stake, u), t, q); }
    if Get(charged, u) > 0 { PaidIsShare(Get(charged, u)); }
    ShareIsPositive(Get(stake, u), t, q, Bite(Get(stake, u), t, q));
    ShareIsPositive(Get(charged, u), 1, LEAK_RECOVERY_QUOTIENT, Get(charged, u) - PayBack(Get(charged, u)));
    hide DropSettled;
  }

  lemma ShareIsPositive(whole: nat, num: nat, den: nat, share: int)
    ensures share >= 0 && IsShare(whole, num, den, share) ==> share > 0
  {
  }

  lemma Settled(active: seq<Member>, voted: set<Validator>, leaking: bool, leaked: map<Validator, nat>, u: Validator)
    ensures Get(DropSettled(active, voted, leaking, leaked), u) == Get(leaked, u)
  {
  }

  // ── A whole stall ────────────────────────────────────────────────────────

  /** The roster lists the validator once, with this stake. */
  ghost predicate ListedWith(active: seq<Member>, u: Validator, stake: nat) {
    Listed(active, u) == 1 && Member(u, stake) in active
  }

  /** What it has left of this stake. */
  function Left(s: State, u: Validator, stake: nat): nat {
    Sub(stake, Get(s.leaked, u))
  }

  lemma {:induction false} ListedStake(active: seq<Member>, leaked: map<Validator, nat>, u: Validator, stake: nat)
    requires ListedWith(active, u, stake)
    ensures Get(AdjustedStake(active, leaked), u) == Sub(stake, Get(leaked, u))
  {
    var front, last := active[..|active| - 1], active[|active| - 1];
    ListedIsIndex(front, u);
    assert active == front + [last];
    if last.index != u {
      ListedStake(front, leaked, u, stake);
    }
  }

  /** An epoch of a stall in which the validator is away. */
  ghost predicate Away(r: Rules, s: State, v: EpochVotes, u: Validator, stake: nat, q: nat) {
    && ListedWith(v.activeSet, u, stake) && u !in Counted(r, s, v)
    && NewlyFinal(r, s, v).None? && StallOf(r, s, v) > LEAK_THRESHOLD && LeakQuotient(r, v.epoch) == q
  }

  /** A history of such epochs, with any boundaries between them. */
  ghost predicate AwayThrough(r: Rules, s: State, h: seq<Event>, u: Validator, stake: nat, q: nat) {
    h != [] ==>
      var front, last := h[..|h| - 1], h[|h| - 1];
      && AwayThrough(r, s, front, u, stake, q)
      && (last.Tallied? && Run(r, s, front).Some? ==> Away(r, Run(r, s, front).value, last.votes, u, stake, q))
  }

  function Ticks(h: seq<Event>): nat {
    if h == [] then 0 else Ticks(h[..|h| - 1]) + if h[|h| - 1].Tallied? then 1 else 0
  }

  /** Twice the sum of the first k numbers from a on: how many epochs past the threshold the ticks are, together. */
  function TwiceSum(a: nat, k: nat): nat {
    if k == 0 then 0 else TwiceSum(a, k - 1) + 2 * (a + k - 1)
  }

  /** In closed form. */
  lemma {:induction false} TwiceSumIs(a: nat, k: nat)
    requires a > 0
    ensures TwiceSum(a, k) == k * (2 * a + k - 1)
  {
    if k > 0 {
      TwiceSumIs(a, k - 1);
      assert k * (2 * a + k - 1) == (k - 1) * (2 * a + k - 2) + 2 * (a + k - 1);
    }
  }

  /** From x down to y in k ticks, the first of them a epochs past the threshold: between two parabolas. */
  ghost predicate Quadratic(x: nat, y: nat, a: nat, k: nat, q: nat) {
    && y <= x
    && 2 * q * (x - y) <= x * TwiceSum(a, k) + 2 * q * k
    && y * TwiceSum(a, k) <= 2 * q * (x - y + k)
  }

  /** One tick: nothing left stays nothing, and otherwise the share for that epoch is gone. */
  ghost predicate Tick(y: nat, z: nat, t: nat, q: nat) {
    if y == 0 then z == 0 else z <= y && IsShare(y, t, q, y - z)
  }

  lemma UpperStep(x: nat, y: nat, z: nat, sum: nat, t: nat, k: nat, q: nat)
    requires z <= y <= x && (y == z || q * (y - z) <= q + x * t)
    requires 2 * q * (x - y) <= x * sum + 2 * q * k
    ensures 2 * q * (x - z) <= x * (sum + 2 * t) + 2 * q * (k + 1)
  {
    assert 2 * q * (x - z) == 2 * q * (x - y) + 2 * (q * (y - z));
    assert x * (sum + 2 * t) == x * sum + 2 * (x * t);
    assert 2 * q * (k + 1) == 2 * q * k + 2 * q;
  }

  lemma LowerStep(x: nat, y: nat, z: nat, sum: nat, t: nat, k: nat, q: nat)
    requires z <= y <= x && (z == 0 || t * y < q * (y - z + 1))
    requires y * sum <= 2 * q * (x - y + k)
    ensures z * (sum + 2 * t) <= 2 * q * (x - z + (k + 1))
  {
    if z > 0 {
      Scales(z, y, sum);
      Scales(z, y, t);
      assert z * (sum + 2 * t) == sum * z + 2 * (t * z) && y * sum == sum * y;
      assert 2 * q * (x - z + (k + 1)) == 2 * q * (x - y + k) + 2 * (q * (y - z + 1));
    }
  }

  lemma TickBounds(x: nat, y: nat, z: nat, t: nat, q: nat)
    requires y <= x && Tick(y, z, t, q)
    ensures z <= y && (y == z || q * (y - z) <= q + x * t) && (z == 0 || t * y < q * (y - z + 1))
  {
    if y > 0 {
      Scales(y, x, t);
      assert t * x == x * t;
    }
  }

  lemma QuadraticStep(x: nat, y: nat, z: nat, a: nat, k: nat, q: nat)
    requires a > 0 && Quadratic(x, y, a, k, q) && Tick(y, z, a + k, q)
    ensures Quadratic(x, z, a, k + 1, q)
  {
    TickBounds(x, y, z, a + k, q);
    UpperStep(x, y, z, TwiceSum(a, k), a + k, k, q);
    LowerStep(x, y, z, TwiceSum(a, k), a + k, k, q);
  }

  lemma AwayTicks(r: Rules, s: State, v: EpochVotes, u: Validator, stake: nat, q: nat)
    requires v.epoch == s.nextEpoch && Away(r, s, v, u, stake, q)
    ensures var t := Process(r, s, v).value;
            && Tick(Left(s, u, stake), Left(t, u, stake), Sub(s.nextEpoch, s.finalized.epoch) - LEAK_THRESHOLD, q)
            && t.nextEpoch == s.nextEpoch + 1 && t.finalized == s.finalized
  {
    hide Leaks, Counted, Winner, CloseSets, IsShare, AdjustedStake, Indices, LeakQuotient, NewlyFinal;
    ListedIsIndex(v.activeSet, u);
    ListedStake(v.activeSet, s.leaked, u, stake);
    LedgerExactly(r, s, v, u);
    ShareAtMost(Left(s, u, stake), StallOf(r, s, v) - LEAK_THRESHOLD, q, Get(Leaks(r, s, v), u) - Get(s.leaked, u));
  }

  lemma ShareAtMost(whole: nat, num: nat, den: nat, share: int)
    ensures share >= 0 && IsShare(whole, num, den, share) ==> share <= whole
  {
  }

  /**
   A validator that stays away through k epochs of a stall loses quadratically in k: with the first tick a epochs
   past the threshold, stake x left at its start and y at its end, and S = k (2a + k - 1), the loss x - y is at
   most x S / 2q + k and at least y S / 2q - k. This holds of every history, on either side of the recovery gate.
   */
  lemma {:induction false} StallIsQuadratic(r: Rules, s: State, h: seq<Event>, u: Validator, stake: nat, q: nat)
    requires Run(r, s, h).Some? && AwayThrough(r, s, h, u, stake, q)
    requires s.nextEpoch > s.finalized.epoch + LEAK_THRESHOLD
    ensures var t, a, k := Run(r, s, h).value, s.nextEpoch - s.finalized.epoch - LEAK_THRESHOLD, Ticks(h);
            && t.nextEpoch == s.nextEpoch + k && t.finalized == s.finalized
            && Quadratic(Left(s, u, stake), Left(t, u, stake), a, k, q)
            && TwiceSum(a, k) == k * (2 * a + k - 1)
  {
    var a, k, x := s.nextEpoch - s.finalized.epoch - LEAK_THRESHOLD, Ticks(h), Left(s, u, stake);
    hide Away, Quadratic, Process, TwiceSum;
    TwiceSumIs(a, k);
    if h == [] {
      NoTicks(x, a, q);
    } else {
      var front, last := h[..|h| - 1], h[|h| - 1];
      StallIsQuadratic(r, s, front, u, stake, q);
      var before := Run(r, s, front).value;
      if last.Tallied? {
        InOrderOnly(r, before, last.votes);
        AwayTicks(r, before, last.votes, u, stake, q);
        QuadraticStep(x, Left(before, u, stake), Left(Run(r, s, h).value, u, stake), a, k - 1, q);
      }
    }
  }

  lemma NoTicks(x: nat, a: nat, q: nat)
    ensures Quadratic(x, x, a, 0, q)
  {
  }

  lemma InOrderOnly(r: Rules, s: State, v: EpochVotes)
    requires Process(r, s, v).Some?
    ensures v.epoch == s.nextEpoch
  {
  }
}
