/**
 The three readings of the wall epoch, in whole milliseconds:
 scripts/arm-lifecycle-epoch.py, scripts/lifecycle_devnet_soak_lib.py and
 scripts/preservation-manifest.py. Division is Python's floor division.
 */
module Clocks {

  import opened Basics

  const SLOTS_PER_EPOCH: nat := 32

  /** The arming tool: one division by the length of an epoch. */
  function ArmingEpoch(now: int, genesis: int, slot: int): int
    requires slot > 0
  {
    Max(now - genesis, 0) / (slot * SLOTS_PER_EPOCH)
  }

  /** The soak harness: slots first, then epochs. */
  function SoakEpoch(now: int, genesis: int, slot: int): int
    requires slot > 0
  {
    (Max(now - genesis, 0) / slot) / SLOTS_PER_EPOCH
  }

  /** The preservation check: floor first, then clamp; a zero slot length counts as 30 seconds. */
  function PreservationEpoch(now: int, genesis: int, slot: nat): int {
    Max(0, (now - genesis) / (if slot == 0 then 30_000 else slot)) / SLOTS_PER_EPOCH
  }

  function EpochStart(epoch: int, genesis: int, slot: int): int {
    genesis + epoch * (slot * SLOTS_PER_EPOCH)
  }

  /** Strictly in the future, and far enough ahead. */
  predicate Admissible(epoch: int, wall: int, lead: int) {
    epoch > wall && epoch - wall >= lead
  }

  lemma Scales(a: int, b: int, d: int)
    requires d > 0
    ensures a <= b ==> a * d <= b * d
  {
    assert (b - a) * d == b * d - a * d;
  }

  /** A quotient is pinned by its remainder. */
  lemma QuotientIs(x: int, d: int, q: int)
    requires d > 0 && q * d <= x < (q + 1) * d
    ensures x / d == q
  {
    var p, r := x / d, x % d;
    assert x == p * d + r && 0 <= r < d;
    Scales(p + 1, q, d);
    Scales(q + 1, p, d);
    assert (p + 1) * d == p * d + d;
  }

  lemma DivideTwice(x: nat, a: int, b: int)
    requires a > 0 && b > 0
    ensures a * b > 0 && (x / a) / b == x / (a * b)
  {
    var q := (x / a) / b;
    var r, s := x % a, (x / a) % b;
    assert x == (x / a) * a + r;
    assert x / a == q * b + s;
    assert x == (q * b + s) * a + r;
    assert (q * b + s) * a == q * (a * b) + s * a;
    assert 0 <= s * a + r < a * b by {
      assert s * a <= (b - 1) * a;
    }
    assert (q + 1) * (a * b) == q * (a * b) + a * b;
    QuotientIs(x, a * b, q);
  }

  /** The three readings agree at every instant. */
  lemma EpochsAgree(now: int, genesis: int, slot: nat)
    requires slot > 0
    ensures ArmingEpoch(now, genesis, slot) == SoakEpoch(now, genesis, slot) == PreservationEpoch(now, genesis, slot)
  {
    DivideTwice(Max(now - genesis, 0), slot, SLOTS_PER_EPOCH);
    if now < genesis {
      assert (now - genesis) / slot < 0 by {
        assert (now - genesis) == ((now - genesis) / slot) * slot + (now - genesis) % slot;
      }
    }
  }

  /** A positive epoch is ahead of the wall epoch exactly when it starts strictly after now. */
  lemma AheadMeansLater(epoch: int, now: int, genesis: int, slot: int)
    requires slot > 0 && epoch > 0
    ensures epoch > ArmingEpoch(now, genesis, slot) <==> EpochStart(epoch, genesis, slot) > now
  {
    var length := slot * SLOTS_PER_EPOCH;
    var elapsed := Max(now - genesis, 0);
    var wall := elapsed / length;
    assert elapsed == wall * length + elapsed % length;
    assert (wall + 1) * length == wall * length + length;
    if epoch > wall {
      assert (wall + 1) * length <= epoch * length;
    } else {
      assert epoch * length <= wall * length;
      assert epoch * length > 0;
    }
  }

  /** Admissible means starting after now, and the lead or more after the start of the epoch under way. */
  lemma AdmissibleExactly(epoch: int, now: int, genesis: int, slot: int, lead: int)
    requires slot > 0 && epoch > 0
    ensures Admissible(epoch, ArmingEpoch(now, genesis, slot), lead)
       <==> && EpochStart(epoch, genesis, slot) > now
            && EpochStart(epoch, genesis, slot) - EpochStart(ArmingEpoch(now, genesis, slot), genesis, slot)
               >= lead * (slot * SLOTS_PER_EPOCH)
  {
    AheadMeansLater(epoch, now, genesis, slot);
    var wall, length := ArmingEpoch(now, genesis, slot), slot * SLOTS_PER_EPOCH;
    assert EpochStart(epoch, genesis, slot) - EpochStart(wall, genesis, slot) == (epoch - wall) * length;
    hide ArmingEpoch, EpochStart;
    Scales(lead, epoch - wall, length);
    Scales(epoch - wall + 1, lead, length);
    assert (epoch - wall + 1) * length == (epoch - wall) * length + length;
  }

  /** So an admissible epoch begins after now, by at least the lead less the epoch under way. */
  lemma AdmissibleStartsLater(epoch: int, now: int, genesis: int, slot: int, lead: int)
    requires slot > 0 && epoch > 0 && Admissible(epoch, ArmingEpoch(now, genesis, slot), lead)
    ensures EpochStart(epoch, genesis, slot) > now
    ensures now >= genesis ==> EpochStart(epoch, genesis, slot) - now > (lead - 1) * (slot * SLOTS_PER_EPOCH)
  {
    AheadMeansLater(epoch, now, genesis, slot);
    var length := slot * SLOTS_PER_EPOCH;
    var wall := ArmingEpoch(now, genesis, slot);
    if now >= genesis {
      assert now - genesis == wall * length + (now - genesis) % length;
      assert (epoch - wall - 1) * length == epoch * length - wall * length - length;
      assert (lead - 1) * length <= (epoch - wall - 1) * length;
    }
  }
}
