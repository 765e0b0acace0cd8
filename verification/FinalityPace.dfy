/**
 The pace of the leak, as crates/bloch-pos-committee/src/params.rs gives it in
 figures: what a validator has left after a day and after three weeks of a
 stall, and how fast a debt is paid back once it votes or the chain finalizes.
 All of it over every history of the epoch fold.
 */
module FinalityPace {
  import opened Basics
  import opened Finality
  import opened FinalityLeak

  /** 32 slots of 30 seconds. */
  const EPOCH_SECONDS: nat := 960
  const DAY_SECONDS: nat := 86_400
  const DAY: nat := 90

  /** The two leak gates are 31 days and 8 hours apart, and pruning looks back one day. */
  lemma ShippedSchedule()
    ensures (SHIPPED.ethPacedFrom - SHIPPED.recoverFrom) * EPOCH_SECONDS == 31 * DAY_SECONDS + 8 * 3_600
    ensures PRUNE_AFTER == DAY && DAY * EPOCH_SECONDS == DAY_SECONDS
  {
  }

  // ── Which pace is in force ───────────────────────────────────────────────

  function Distance(a: nat, b: nat): nat {
    if a < b then b - a else a - b
  }

  /**
   Ethereum takes n^2 / 2^25 in n of its epochs, 2.5 to one of these; the leak takes T^2 / 2q in T. No quotient is
   nearer to making the two equal than the one in force from the gate on, and before the gate it is 64.
   */
  lemma PaceExactly(r: Rules, epoch: nat, p: nat)
    ensures r.ethPacedFrom != U64_MAX && epoch >= r.ethPacedFrom ==>
              Distance(0x400_0000, 25 * LeakQuotient(r, epoch)) <= Distance(0x400_0000, 25 * p)
    ensures r.ethPacedFrom == U64_MAX || epoch < r.ethPacedFrom ==> LeakQuotient(r, epoch) == 64
  {
  }

  // ── A stall, cut into pieces ─────────────────────────────────────────────

  /** A history with enough ticks has a beginning with any smaller number of them. */
  lemma {:induction false} Beginning(h: seq<Event>, k: nat) returns (i: nat)
    requires k <= Ticks(h)
    ensures i <= |h| && Ticks(h[..i]) == k
  {
    if Ticks(h) == k {
      i := |h|;
      assert h[..i] == h;
    } else {
      i := Beginning(h[..|h| - 1], k);
      assert h[..|h| - 1][..i] == h[..i];
    }
  }

  lemma {:induction false} TicksAdd(h: seq<Event>, more: seq<Event>)
    ensures Ticks(h + more) == Ticks(h) + Ticks(more)
  {
    if more == [] {
      assert h + more == h;
    } else {
      assert (h + more)[..|h + more| - 1] == h + more[..|more| - 1];
      TicksAdd(h, more[..|more| - 1]);
    }
  }

  /** Staying away through a history is staying away through its two parts. */
  lemma {:induction false} AwayInParts(r: Rules, s: State, h: seq<Event>, more: seq<Event>, u: Validator, stake: nat,
                                       q: nat)
    requires Run(r, s, h + more).Some? && AwayThrough(r, s, h + more, u, stake, q)
    ensures Run(r, s, h).Some? && AwayThrough(r, s, h, u, stake, q)
    ensures var t := Run(r, s, h).value;
            Run(r, t, more) == Run(r, s, h + more) && AwayThrough(r, t, more, u, stake, q)
  {
    hide Away;
    if more == [] {
      assert h + more == h;
    } else {
      var front := more[..|more| - 1];
      assert (h + more)[..|h + more| - 1] == h + front;
      AwayInParts(r, s, h, front, u, stake, q);
    }
  }

  // ── What is left after a day, and after three weeks ──────────────────────

  /** The validator is away, at the slow pace, from the first epoch that leaks on. */
  ghost predicate AwayFromTheStart(r: Rules, s: State, h: seq<Event>, u: Validator, stake: nat) {
    && Run(r, s, h).Some? && AwayThrough(r, s, h, u, stake, LEAK_QUOTIENT_ETH_PACED)
    && s.nextEpoch == s.finalized.epoch + LEAK_THRESHOLD + 1
  }

  /** A day of a stall costs less than two parts in a thousand, up to one unit an epoch. */
  lemma DayIsCheap(r: Rules, s: State, h: seq<Event>, u: Validator, stake: nat)
    requires AwayFromTheStart(r, s, h, u, stake) && Ticks(h) == DAY
    ensures 1000 * (Left(Run(r, s, h).value, u, stake) + DAY) >= 998 * Left(s, u, stake)
  {
    hide Run, AwayThrough, Left, Ticks, TwiceSum;
    StallIsQuadratic(r, s, h, u, stake, LEAK_QUOTIENT_ETH_PACED);
  }

  /** What one week of three leaves of x, the first, second or third: between low and high parts in ten thousand. */
  ghost predicate WeekLeaves(x: nat, y: nat, low: nat, high: nat) {
    10_000 * (y + 7 * DAY) >= low * x && 10_000 * y <= high * (x + 7 * DAY)
  }

  lemma ThreeWeeks(x: nat, y: nat, z: nat, w: nat)
    requires WeekLeaves(x, y, 9_259, 9_311) && WeekLeaves(y, z, 7_780, 8_185) && WeekLeaves(z, w, 6_302, 7_301)
    ensures 100 * (w + 21 * DAY) >= 45 * x && 100 * (w - 21 * DAY) <= 56 * x
  {
  }

  lemma Week(x: nat, y: nat, a: nat, low: nat, high: nat)
    requires Quadratic(x, y, a, 7 * DAY, LEAK_QUOTIENT_ETH_PACED)
    requires TwiceSum(a, 7 * DAY) == 7 * DAY * (2 * a + 7 * DAY - 1)
    requires || (a == 1 && low == 9_259 && high == 9_311)
             || (a == 7 * DAY + 1 && low == 7_780 && high == 8_185)
             || (a == 14 * DAY + 1 && low == 6_302 && high == 7_301)
    ensures WeekLeaves(x, y, low, high)
  {
    hide TwiceSum;
    if a == 1 {
      assert TwiceSum(a, 7 * DAY) == 397_530;
    } else if a == 7 * DAY + 1 {
      assert TwiceSum(a, 7 * DAY) == 1_191_330;
    } else {
      assert TwiceSum(a, 7 * DAY) == 1_985_130;
    }
  }

  lemma WeekOf(r: Rules, s: State, h: seq<Event>, u: Validator, stake: nat, a: nat, low: nat, high: nat)
    requires Run(r, s, h).Some? && AwayThrough(r, s, h, u, stake, LEAK_QUOTIENT_ETH_PACED) && Ticks(h) == 7 * DAY
    requires s.nextEpoch == s.finalized.epoch + LEAK_THRESHOLD + a && a > 0
    requires || (a == 1 && low == 9_259 && high == 9_311)
             || (a == 7 * DAY + 1 && low == 7_780 && high == 8_185)
             || (a == 14 * DAY + 1 && low == 6_302 && high == 7_301)
    ensures WeekLeaves(Left(s, u, stake), Left(Run(r, s, h).value, u, stake), low, high)
    ensures var t := Run(r, s, h).value; t.nextEpoch == s.nextEpoch + 7 * DAY && t.finalized == s.finalized
  {
    hide Run, AwayThrough, Left, Ticks, WeekLeaves, Quadratic, TwiceSum;
    StallIsQuadratic(r, s, h, u, stake, LEAK_QUOTIENT_ETH_PACED);
    Week(Left(s, u, stake), Left(Run(r, s, h).value, u, stake), a, low, high);
  }

  /** After three weeks of an unbroken stall a validator that was away throughout has about half its weight left. */
  lemma HalfInThreeWeeks(r: Rules, s: State, h: seq<Event>, u: Validator, stake: nat)
    requires AwayFromTheStart(r, s, h, u, stake) && Ticks(h) == 21 * DAY
    ensures 100 * (Left(Run(r, s, h).value, u, stake) + 21 * DAY) >= 45 * Left(s, u, stake)
    ensures 100 * (Left(Run(r, s, h).value, u, stake) - 21 * DAY) <= 56 * Left(s, u, stake)
  {
    hide Run, AwayThrough, Left, Ticks, WeekLeaves;
    var i := Beginning(h, 7 * DAY);
    assert h == h[..i] + h[i..];
    TicksAdd(h[..i], h[i..]);
    AwayInParts(r, s, h[..i], h[i..], u, stake, LEAK_QUOTIENT_ETH_PACED);
    WeekOf(r, s, h[..i], u, stake, 1, 9_259, 9_311);
    TwoWeeks(r, s, Run(r, s, h[..i]).value, h[i..], u, stake);
  }

  lemma TwoWeeks(r: Rules, s: State, t: State, h: seq<Event>, u: Validator, stake: nat)
    requires Run(r, t, h).Some? && AwayThrough(r, t, h, u, stake, LEAK_QUOTIENT_ETH_PACED) && Ticks(h) == 14 * DAY
    requires t.nextEpoch == t.finalized.epoch + LEAK_THRESHOLD + 7 * DAY + 1
    requires WeekLeaves(Left(s, u, stake), Left(t, u, stake), 9_259, 9_311)
    ensures 100 * (Left(Run(r, t, h).value, u, stake) + 21 * DAY) >= 45 * Left(s, u, stake)
    ensures 100 * (Left(Run(r, t, h).value, u, stake) - 21 * DAY) <= 56 * Left(s, u, stake)
  {
    hide Run, AwayThrough, Left, Ticks, WeekLeaves;
    var i := Beginning(h, 7 * DAY);
    assert h == h[..i] + h[i..];
    TicksAdd(h[..i], h[i..]);
    AwayInParts(r, t, h[..i], h[i..], u, stake, LEAK_QUOTIENT_ETH_PACED);
    WeekOf(r, t, h[..i], u, stake, 7 * DAY + 1, 7_780, 8_185);
    var t' := Run(r, t, h[..i]).value;
    WeekOf(r, t', h[i..], u, stake, 14 * DAY + 1, 6_302, 7_301);
    ThreeWeeks(Left(s, u, stake), Left(t, u, stake), Left(t', u, stake), Left(Run(r, t, h).value, u, stake));
  }

  // ── Paying back ──────────────────────────────────────────────────────────

  /** An epoch past the gate in which the validator votes, or there is no stall. */
  ghost predicate PaysBack(r: Rules, s: State, v: EpochVotes, u: Validator) {
    && Listed(v.activeSet, u) == 1 && v.epoch >= r.recoverFrom
    && (StallOf(r, s, v) > LEAK_THRESHOLD ==> u in Counted(r, s, v))
  }

  ghost predicate PaysBackThrough(r: Rules, s: State, h: seq<Event>, u: Validator) {
    h != [] ==>
      var front, last := h[..|h| - 1], h[|h| - 1];
      && PaysBackThrough(r, s, front, u)
      && (last.Tallied? && Run(r, s, front).Some? ==> PaysBack(r, Run(r, s, front).value, last.votes, u))
  }

  function Pow(b: nat, k: nat): nat {
    if k == 0 then 1 else b * Pow(b, k - 1)
  }

  /** From x down to y in k ticks: (15/16)^k of it, up to the rounding of sixteenths, and at least one unit each. */
  ghost predicate Decays(x: nat, y: nat, k: nat) {
    && Pow(16, k) * (y - 15) <= Pow(15, k) * (x - 15)
    && Pow(16, k) * (y + 16) >= Pow(15, k) * (x + 16)
    && y <= Sub(x, k)
  }

  lemma PaymentBounds(y: nat, z: nat)
    requires if y == 0 then z == 0 else z < y && IsShare(y, 1, 16, y - z)
    ensures 16 * (z - 15) <= 15 * (y - 15) && 16 * (z + 16) >= 15 * (y + 16) && z <= Sub(y, 1)
  {
  }

  lemma ScalesUp(p: nat, a: int, b: int)
    requires a <= b
    ensures p * a <= p * b
  {
  }

  /** One more factor on either side of an inequality. */
  lemma OneMoreFactor(p: nat, q: nat, a: int, b: int, c: int, m: nat, n: nat)
    requires m * a <= n * b && p * b <= q * c
    ensures (m * p) * a <= (n * q) * c
  {
    ScalesUp(p, m * a, n * b);
    ScalesUp(n, p * b, q * c);
    Regroup(m, p, a);
    Regroup(n, p, b);
    assert (n * q) * c == n * (q * c);
  }

  lemma Regroup(m: nat, p: nat, a: int)
    ensures (m * p) * a == p * (m * a) == m * (p * a)
  {
  }

  lemma DecaysStep(x: nat, y: nat, z: nat, k: nat)
    requires Decays(x, y, k)
    requires 16 * (z - 15) <= 15 * (y - 15) && 16 * (z + 16) >= 15 * (y + 16) && z <= Sub(y, 1)
    ensures Decays(x, z, k + 1)
  {
    var p, q := Pow(16, k), Pow(15, k);
    assert Pow(16, k + 1) == 16 * p && Pow(15, k + 1) == 15 * q;
    hide Pow;
    OneMoreFactor(p, q, z - 15, y - 15, x - 15, 16, 15);
    OneMoreFactor(15, 16, x + 16, y + 16, z + 16, q, p);
  }

  lemma PaymentMade(r: Rules, s: State, v: EpochVotes, u: Validator)
    requires PaysBack(r, s, v, u) && Process(r, s, v).Some?
    ensures var y, z := Get(s.leaked, u), Get(Process(r, s, v).value.leaked, u);
            if y == 0 then z == 0 else z < y && IsShare(y, 1, 16, y - z)
  {
    hide Leaks, Counted, Winner, CloseSets, IsShare, AdjustedStake, Indices, LeakQuotient, NewlyFinal, NewFinalized;
    ListedIsIndex(v.activeSet, u);
    LedgerExactly(r, s, v, u);
  }

  /** While a debt is paid back it decays by a sixteenth an epoch, over every history. */
  lemma {:induction false} DebtDecays(r: Rules, s: State, h: seq<Event>, u: Validator)
    requires Run(r, s, h).Some? && PaysBackThrough(r, s, h, u)
    ensures Decays(Get(s.leaked, u), Get(Run(r, s, h).value.leaked, u), Ticks(h))
  {
    hide PaysBack, Decays, Process, Pow;
    if h == [] {
      NothingPaid(Get(s.leaked, u));
    } else {
      var front, last := h[..|h| - 1], h[|h| - 1];
      DebtDecays(r, s, front, u);
      var before := Run(r, s, front).value;
      if last.Tallied? {
        var y, z := Get(before.leaked, u), Get(Run(r, s, h).value.leaked, u);
        PaymentMade(r, before, last.votes, u);
        PaymentBounds(y, z);
        DecaysStep(Get(s.leaked, u), y, z, Ticks(front));
      }
    }
  }

  lemma NothingPaid(x: nat)
    ensures Decays(x, x, 0)
  {
  }

  /** So it halves in eleven epochs, not in ten, and is gone after as many epochs as it has units. */
  lemma HalvesInEleven(r: Rules, s: State, h: seq<Event>, u: Validator)
    requires Run(r, s, h).Some? && PaysBackThrough(r, s, h, u)
    ensures var x, y := Get(s.leaked, u), Get(Run(r, s, h).value.leaked, u);
            && (Ticks(h) == 11 ==> 2 * y <= x + 15)
            && (Ticks(h) == 10 ==> 100 * (y + 16) >= 52 * (x + 16))
            && (Ticks(h) >= x ==> y == 0)
  {
    DebtDecays(r, s, h, u);
    hide Run, PaysBackThrough, Ticks;
    assert Pow(16, 11) == 17_592_186_044_416 && Pow(15, 11) == 8_649_755_859_375;
    assert Pow(16, 10) == 1_099_511_627_776 && Pow(15, 10) == 576_650_390_625;
  }
}
