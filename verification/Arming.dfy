/**
 Arming the lifecycle constants (scripts/arm-lifecycle-epoch.py): which
 declaration of a constant counts, and the edit of the five gates.
 */
module Arming {

  import opened Options
  import opened SourceConstants

  const GATES: seq<Name> := [FundedAdmission, ExitAuth, Withdrawal, SlashingEvidence, RandaoRecommit]

  /** The production declaration, unless the declarations are ambiguous or unfamiliar. */
  function ConstantMatch(source: Source, name: Name): (r: Option<nat>)
    ensures r.Some? ==> r.value < |source| && Declares(source[r.value], name, U64)
  {
    var hits := Hits(source, name, U64);
    if |hits| == 1 && Guards(source, hits[0]) == [] then Some(hits[0])
    else if name == RandaoRecommit && |hits| == 2 then
      var first, second := Guards(source, hits[0]), Guards(source, hits[1]);
      if first == [CfgProduction] && second == [CfgDevnet] then Some(hits[0])
      else if first == [CfgDevnet] && second == [CfgProduction] then Some(hits[1])
      else None
    else None
  }

  function ReadConstant(source: Source, name: Name): Option<Value> {
    var i := ConstantMatch(source, name);
    if i.Some? then Some(source[i.value].value) else None
  }

  lemma MatchByShape(a: Source, b: Source, name: Name)
    requires SameShape(a, b)
    ensures ConstantMatch(a, name) == ConstantMatch(b, name)
  {
    HitsByShape(a, b, name, U64);
    hide Hits, SameShape;
    var hits := Hits(a, name, U64);
    forall k | 0 <= k < |hits| ensures Guards(a, hits[k]) == Guards(b, hits[k]) {
      GuardsByShape(a, b, hits[k]);
    }
  }

  /** Line i declares the constant, and no other line does. */
  predicate DeclaredOnlyAt(source: Source, name: Name, i: nat) {
    && i < |source| && Declares(source[i], name, U64)
    && forall j :: 0 <= j < |source| && Declares(source[j], name, U64) ==> j == i
  }

  /** Exactly these two different lines declare the constant. */
  predicate DeclaredAtBoth(source: Source, name: Name, i: nat, j: nat) {
    && i < |source| && j < |source| && i != j && Declares(source[i], name, U64) && Declares(source[j], name, U64)
    && forall k :: 0 <= k < |source| && Declares(source[k], name, U64) ==> k == i || k == j
  }

  /**
   The production declaration: the only one, without attributes; or, of the RANDAO constant, the one under the
   production attribute alone, when the only other one is under the devnet attribute alone.
   */
  ghost predicate Production(source: Source, name: Name, i: nat) {
    || (DeclaredOnlyAt(source, name, i) && Unguarded(source, i))
    || (name == RandaoRecommit && exists j: nat :: IsPair(source, name, i, j))
  }

  ghost predicate IsPair(source: Source, name: Name, i: nat, j: nat) {
    && DeclaredAtBoth(source, name, i, j)
    && GuardedOnlyBy(source, i, CfgProduction) && GuardedOnlyBy(source, j, CfgDevnet)
  }

  /** The match is the production declaration, whichever of a pair comes first, and there is none otherwise. */
  lemma MatchExactly(source: Source, name: Name, i: nat)
    ensures ConstantMatch(source, name) == Some(i) <==> Production(source, name, i)
  {
    var hits := Hits(source, name, U64);
    HitsInOrder(source, name, U64);
    forall k | 0 <= k < |hits|
      ensures (Guards(source, hits[k]) == [] <==> Unguarded(source, hits[k]))
           && (Guards(source, hits[k]) == [CfgProduction] <==> GuardedOnlyBy(source, hits[k], CfgProduction))
           && (Guards(source, hits[k]) == [CfgDevnet] <==> GuardedOnlyBy(source, hits[k], CfgDevnet))
    {
      GuardsEmpty(source, hits[k]);
      GuardsOne(source, hits[k], CfgProduction);
      GuardsOne(source, hits[k], CfgDevnet);
    }
    hide Hits, Guards, Unguarded, GuardedOnlyBy;
    OneHit(source, name, i);
    forall j: nat ensures DeclaredAtBoth(source, name, i, j)
                     <==> hits == [i, j] || hits == [j, i] {
      TwoHits(source, name, i, j);
    }
    hide DeclaredOnlyAt, DeclaredAtBoth;
    if |hits| == 2 {
      assert hits == [hits[0], hits[1]];
      if ConstantMatch(source, name) == Some(i) {
        assert IsPair(source, name, i, if i == hits[0] then hits[1] else hits[0]);
      }
      if name == RandaoRecommit && exists j: nat :: IsPair(source, name, i, j) {
        var j: nat :| IsPair(source, name, i, j);
      }
    }
  }

  lemma OneHit(source: Source, name: Name, i: nat)
    ensures DeclaredOnlyAt(source, name, i) <==> Hits(source, name, U64) == [i]
  {
    var hits := Hits(source, name, U64);
    HitsInOrder(source, name, U64);
    hide Hits;
    if DeclaredOnlyAt(source, name, i) {
      assert i in hits;
      forall k | 0 <= k < |hits| ensures hits[k] == i {}
      FirstThree(hits);
      assert |hits| == 1;
    }
    if hits == [i] {
      assert hits[0] == i;
      forall j | 0 <= j < |source| && Declares(source[j], name, U64) ensures j == i {
        assert j in hits;
      }
    }
  }

  lemma TwoHits(source: Source, name: Name, i: nat, j: nat)
    ensures DeclaredAtBoth(source, name, i, j)
       <==> Hits(source, name, U64) == [i, j] || Hits(source, name, U64) == [j, i]
  {
    var hits := Hits(source, name, U64);
    HitsInOrder(source, name, U64);
    hide Hits;
    if DeclaredAtBoth(source, name, i, j) {
      assert i in hits && j in hits;
      forall k | 0 <= k < |hits| ensures hits[k] == i || hits[k] == j {}
      FirstThree(hits);
      assert |hits| == 2;
    }
    if hits == [i, j] || hits == [j, i] {
      assert hits[0] < hits[1];
      forall k | 0 <= k < |source| && Declares(source[k], name, U64) ensures k == i || k == j {
        assert k in hits;
      }
    }
  }

  /** A line under the devnet attribute is never the production one. */
  lemma DevnetIsNotProduction(source: Source, name: Name, i: nat, k: nat)
    requires Above(source, k, i) && source[k].attr == CfgDevnet
    ensures !Production(source, name, i)
  {
    hide DeclaredOnlyAt, DeclaredAtBoth;
  }

  // ── The edit ─────────────────────────────────────────────────────────────

  predicate Unarmed(source: Source, name: Name) {
    ReadConstant(source, name) == Some(Max)
  }

  predicate FirstUnarmed(source: Source, k: nat) {
    forall j :: 0 <= j < k && j < |GATES| ==> Unarmed(source, GATES[j])
  }

  predicate Armable(source: Source) {
    FirstUnarmed(source, |GATES|) && Unarmed(source, Deposit)
  }

  /** Is line i the declaration of one of the first k gates? */
  predicate IsGate(source: Source, i: nat, k: nat) {
    exists j :: 0 <= j < k && j < |GATES| && ConstantMatch(source, GATES[j]) == Some(i)
  }

  function ArmedLine(source: Source, epoch: nat, i: nat, k: nat): Line
    requires i < |source|
  {
    if IsGate(source, i, k) && source[i].Decl? then source[i].(value := Printed(epoch)) else source[i]
  }

  /** The source with the first k gates set, and no other line changed. */
  function Armed(source: Source, epoch: nat, k: nat): (r: Source)
    ensures |r| == |source|
  {
    seq(|source|, i requires 0 <= i < |source| => ArmedLine(source, epoch, i, k))
  }

  lemma ArmedShape(source: Source, epoch: nat, k: nat)
    ensures SameShape(Armed(source, epoch, k), source)
  {
  }

  /** The declarations of different gates are different lines. */
  lemma GatesApart(source: Source, j: nat, k: nat)
    requires j < k < |GATES| && ConstantMatch(source, GATES[j]).Some? && ConstantMatch(source, GATES[k]).Some?
    ensures ConstantMatch(source, GATES[j]) != ConstantMatch(source, GATES[k])
  {
    assert GATES[j] != GATES[k];
  }

  /** The edit of one declaration; an armed or ambiguous one is refused. */
  function Splice(source: Source, name: Name, epoch: nat): Option<Source> {
    var i := ConstantMatch(source, name);
    if i.None? || source[i.value].value != Max then None
    else Some(source[i.value := source[i.value].(value := Printed(epoch))])
  }

  lemma GateUntouched(source: Source, epoch: nat, k: nat)
    requires k < |GATES| && ConstantMatch(source, GATES[k]).Some?
    ensures var i := ConstantMatch(source, GATES[k]).value; Armed(source, epoch, k)[i] == source[i]
  {
    var i := ConstantMatch(source, GATES[k]).value;
    if IsGate(source, i, k) {
      var j :| 0 <= j < k && j < |GATES| && ConstantMatch(source, GATES[j]) == Some(i);
      GatesApart(source, j, k);
    }
  }

  lemma ArmNext(source: Source, epoch: nat, k: nat, out: Source, i: nat)
    requires k < |GATES| && ConstantMatch(source, GATES[k]) == Some(i) && out == Armed(source, epoch, k)
    ensures out[i := source[i].(value := Printed(epoch))] == Armed(source, epoch, k + 1)
  {
    forall n: nat | n < |source| ensures IsGate(source, n, k + 1) <==> IsGate(source, n, k) || n == i {
      if IsGate(source, n, k) {
        var j :| 0 <= j < k && j < |GATES| && ConstantMatch(source, GATES[j]) == Some(n);
      }
    }
  }

  lemma SpliceArms(source: Source, epoch: nat, k: nat)
    requires k < |GATES|
    ensures Splice(Armed(source, epoch, k), GATES[k], epoch)
         == if Unarmed(source, GATES[k]) then Some(Armed(source, epoch, k + 1)) else None
    ensures FirstUnarmed(source, k + 1) <==> FirstUnarmed(source, k) && Unarmed(source, GATES[k])
    ensures FirstUnarmed(source, |GATES|) ==> FirstUnarmed(source, k + 1)
  {
    ArmedShape(source, epoch, k);
    MatchByShape(Armed(source, epoch, k), source, GATES[k]);
    var i := ConstantMatch(source, GATES[k]);
    if i.Some? {
      GateUntouched(source, epoch, k);
      ArmNext(source, epoch, k, Armed(source, epoch, k), i.value);
    }
  }

  /** A constant that is no gate reads the same after the edit. */
  lemma OthersUntouched(source: Source, epoch: nat, name: Name)
    requires name !in GATES
    ensures ReadConstant(Armed(source, epoch, |GATES|), name) == ReadConstant(source, name)
    ensures Unarmed(source, name) <==> ReadConstant(Armed(source, epoch, |GATES|), name) == Some(Max)
  {
    var out := Armed(source, epoch, |GATES|);
    ArmedShape(source, epoch, |GATES|);
    MatchByShape(out, source, name);
    var i := ConstantMatch(source, name);
    if i.Some? {
      assert !IsGate(source, i.value, |GATES|);
    }
  }

  /** After the edit every gate reads the epoch. */
  lemma GatesRead(source: Source, epoch: nat, k: nat)
    requires k < |GATES| && ConstantMatch(source, GATES[k]).Some?
    ensures ReadConstant(Armed(source, epoch, |GATES|), GATES[k]) == Some(Printed(epoch))
  {
    var out := Armed(source, epoch, |GATES|);
    ArmedShape(source, epoch, |GATES|);
    MatchByShape(out, source, GATES[k]);
    assert IsGate(source, ConstantMatch(source, GATES[k]).value, |GATES|);
  }

  /** The edit, line by line: the production declarations of the gates get the epoch, every other line stays. */
  lemma ArmedExactly(source: Source, epoch: nat, i: nat)
    requires i < |source|
    ensures Armed(source, epoch, |GATES|)[i]
         == if exists g :: g in GATES && Production(source, g, i)
            then source[i].(value := Printed(epoch)) else source[i]
  {
    hide ConstantMatch, Production;
    forall g ensures ConstantMatch(source, g) == Some(i) <==> Production(source, g, i) {
      MatchExactly(source, g, i);
    }
    if g :| g in GATES && Production(source, g, i) {
      var j :| 0 <= j < |GATES| && GATES[j] == g;
      assert IsGate(source, i, |GATES|);
    }
  }

  /** Nothing under a devnet attribute is changed. */
  lemma DevnetUntouched(source: Source, epoch: nat, i: nat, k: nat)
    requires i < |source| && Above(source, k, i) && source[k].attr == CfgDevnet
    ensures Armed(source, epoch, |GATES|)[i] == source[i]
  {
    ArmedExactly(source, epoch, i);
    forall g ensures !Production(source, g, i) {
      DevnetIsNotProduction(source, g, i, k);
    }
  }

  /** Splices the epoch into the five declarations, one after the other. */
  method ArmSource(source: Source, epoch: nat) returns (r: Option<Source>)
    ensures r.Some? <==> Armable(source)
    ensures r.Some? ==> r.value == Armed(source, epoch, |GATES|)
  {
    assert FirstUnarmed(source, 0);
    var out := source;
    assert out == Armed(source, epoch, 0);
    hide Armed, Unarmed, Splice, ReadConstant, FirstUnarmed;
    for k := 0 to |GATES|
      invariant out == Armed(source, epoch, k)
      invariant FirstUnarmed(source, k)
    {
      SpliceArms(source, epoch, k);
      var next := Splice(out, GATES[k], epoch);
      if next.None? {
        return None;
      }
      out := next.value;
    }
    OthersUntouched(source, epoch, Deposit);
    if ReadConstant(out, Deposit) != Some(Max) {
      return None;
    }
    r := Some(out);
  }
}
