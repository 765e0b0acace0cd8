/**
 A Rust source as the arming scripts see it: lines, some of which declare a
 constant. The patterns of scripts/arm-lifecycle-epoch.py and
 scripts/lifecycle_devnet_soak_lib.py are the line classes below.
 */
module SourceConstants {

  datatype Name = FundedAdmission | ExitAuth | Withdrawal | SlashingEvidence | RandaoRecommit | Deposit | Named(id: nat)

  datatype Type = U64 | OtherType(id: nat)

  /** The text of a declared value: `u64::MAX`, or digits and the way underscores are put between them. */
  datatype Value = Max | Num(digits: seq<nat>, underscores: nat)

  datatype Attribute = CfgProduction | CfgDevnet | OtherAttribute(id: nat)

  datatype Line =
    | Decl(name: Name, ty: Type, value: Value)   // pub const NAME: TYPE = VALUE;
    | Attr(attr: Attribute)                      // starts with # or ends with ]
    | Skip(id: nat)                              // blank, or a line comment
    | Code(id: nat)

  type Source = seq<Line>

  // ── Numbers as text ──────────────────────────────────────────────────────

  function Decimal(n: nat): seq<nat> {
    if n < 10 then [n] else Decimal(n / 10) + [n % 10]
  }

  function Number(digits: seq<nat>): nat {
    if digits == [] then 0 else Number(digits[..|digits| - 1]) * 10 + digits[|digits| - 1]
  }

  lemma {:induction false} NumberOfDecimal(n: nat)
    ensures Number(Decimal(n)) == n
  {
    if n < 10 {
      assert Decimal(n)[..0] == [];
    } else {
      NumberOfDecimal(n / 10);
      assert Decimal(n)[..|Decimal(n)| - 1] == Decimal(n / 10);
    }
  }

  /** How Python prints an epoch. */
  function Printed(epoch: nat): Value {
    Num(Decimal(epoch), 0)
  }

  // ── Declarations and what guards them ────────────────────────────────────

  predicate Declares(line: Line, name: Name, ty: Type) {
    line.Decl? && line.name == name && line.ty == ty
  }

  /** The lines declaring the constant, in order. */
  function Hits(source: Source, name: Name, ty: Type): (hits: seq<nat>)
    ensures forall k :: 0 <= k < |hits| ==> hits[k] < |source| && Declares(source[hits[k]], name, ty)
    ensures forall i :: 0 <= i < |source| && Declares(source[i], name, ty) ==> i in hits
  {
    if source == [] then []
    else
      var n := |source| - 1;
      Hits(source[..n], name, ty) + if Declares(source[n], name, ty) then [n] else []
  }

  /** The attributes above line i, nearest first, past blank lines and comments. */
  function Guards(source: Source, i: nat): seq<Attribute>
    requires i <= |source|
  {
    if i == 0 then []
    else match source[i - 1]
      case Skip(_) => Guards(source, i - 1)
      case Attr(a) => [a] + Guards(source, i - 1)
      case _ => []
  }

  /** The same text up to declared values. */
  predicate SameShape(a: Source, b: Source) {
    |a| == |b| && forall i :: 0 <= i < |a| ==> a[i] == b[i] || SameDeclaration(a[i], b[i])
  }

  predicate SameDeclaration(a: Line, b: Line) {
    a.Decl? && b.Decl? && a.name == b.name && a.ty == b.ty
  }

  lemma {:induction false} HitsByShape(a: Source, b: Source, name: Name, ty: Type)
    requires SameShape(a, b)
    ensures Hits(a, name, ty) == Hits(b, name, ty)
  {
    if a != [] {
      var n := |a| - 1;
      assert SameShape(a[..n], b[..n]);
      HitsByShape(a[..n], b[..n], name, ty);
      assert a[n] == b[n] || SameDeclaration(a[n], b[n]);
    }
  }

  lemma {:induction false} GuardsByShape(a: Source, b: Source, i: nat)
    requires SameShape(a, b) && i <= |a|
    ensures Guards(a, i) == Guards(b, i)
  {
    if i > 0 {
      assert a[i - 1] == b[i - 1] || SameDeclaration(a[i - 1], b[i - 1]);
      GuardsByShape(a, b, i - 1);
    }
  }

  // ── What guards a line, said without reading upwards ─────────────────────

  /** Line k is an attribute and only blank lines, comments and other attributes stand between it and line i. */
  predicate Above(source: Source, k: nat, i: nat) {
    k < i <= |source| && source[k].Attr? && forall m :: k < m < i ==> source[m].Skip? || source[m].Attr?
  }

  ghost predicate Unguarded(source: Source, i: nat) {
    forall k: nat :: !Above(source, k, i)
  }

  /** Exactly one attribute stands above line i, and it is this one. */
  ghost predicate GuardedOnlyBy(source: Source, i: nat, a: Attribute) {
    exists k: nat :: Above(source, k, i) && source[k].attr == a && forall m: nat :: Above(source, m, i) ==> m == k
  }

  lemma AboveStep(source: Source, k: nat, i: nat)
    requires 0 < i <= |source|
    ensures Above(source, k, i)
       <==> (k == i - 1 && source[k].Attr?)
            || ((source[i - 1].Skip? || source[i - 1].Attr?) && Above(source, k, i - 1))
  {
  }

  lemma {:induction false} GuardsEmpty(source: Source, i: nat)
    requires i <= |source|
    ensures Guards(source, i) == [] <==> Unguarded(source, i)
  {
    if i > 0 {
      GuardsEmpty(source, i - 1);
      forall k: nat ensures Above(source, k, i)
                       <==> (k == i - 1 && source[k].Attr?)
                            || ((source[i - 1].Skip? || source[i - 1].Attr?) && Above(source, k, i - 1)) {
        AboveStep(source, k, i);
      }
      assert source[i - 1].Attr? ==> Above(source, i - 1, i);
      hide Above;
    }
  }

  lemma OneAbove(source: Source, i: nat, a: Attribute)
    requires 0 < i <= |source| && source[i - 1].Attr?
    ensures GuardedOnlyBy(source, i, a) <==> source[i - 1].attr == a && Unguarded(source, i - 1)
  {
    forall k: nat ensures Above(source, k, i) <==> k == i - 1 || Above(source, k, i - 1) {
      AboveStep(source, k, i);
    }
    assert Above(source, i - 1, i) && !Above(source, i - 1, i - 1);
    hide Above;
    if GuardedOnlyBy(source, i, a) {
      var j := i - 1;
      forall k: nat ensures !Above(source, k, j) {
        assert Above(source, k, j) ==> Above(source, k, i);
      }
    }
    if source[i - 1].attr == a && Unguarded(source, i - 1) {
      assert forall m: nat :: Above(source, m, i) ==> m == i - 1;
    }
  }

  lemma OneMoreGuard(x: Attribute, rest: seq<Attribute>, a: Attribute)
    ensures [x] + rest == [a] <==> x == a && rest == []
  {
    assert |[x] + rest| == 1 + |rest| && ([x] + rest)[0] == x;
  }

  lemma {:induction false} GuardsOne(source: Source, i: nat, a: Attribute)
    requires i <= |source|
    ensures Guards(source, i) == [a] <==> GuardedOnlyBy(source, i, a)
  {
    if i > 0 {
      GuardsOne(source, i - 1, a);
      GuardsEmpty(source, i - 1);
      forall k: nat ensures Above(source, k, i)
                       <==> (k == i - 1 && source[k].Attr?)
                            || ((source[i - 1].Skip? || source[i - 1].Attr?) && Above(source, k, i - 1)) {
        AboveStep(source, k, i);
      }
      hide Above;
      if source[i - 1].Skip? {
        assert GuardedOnlyBy(source, i, a) <==> GuardedOnlyBy(source, i - 1, a);
      } else if source[i - 1].Attr? {
        OneAbove(source, i, a);
        OneMoreGuard(source[i - 1].attr, Guards(source, i - 1), a);
      }
    }
  }

  predicate Increasing(hits: seq<nat>) {
    forall j, k :: 0 <= j < k < |hits| ==> hits[j] < hits[k]
  }

  lemma FirstThree(hits: seq<nat>)
    requires Increasing(hits)
    ensures |hits| > 1 ==> hits[0] < hits[1]
    ensures |hits| > 2 ==> hits[1] < hits[2]
  {
  }

  /** The declaring lines are listed in order. */
  lemma {:induction false} HitsInOrder(source: Source, name: Name, ty: Type)
    ensures Increasing(Hits(source, name, ty))
  {
    if source != [] {
      var n := |source| - 1;
      HitsInOrder(source[..n], name, ty);
      var before, hits := Hits(source[..n], name, ty), Hits(source, name, ty);
      assert hits == before || hits == before + [n];
      forall j, k | 0 <= j < k < |hits| ensures hits[j] < hits[k] {
        assert hits[j] == before[j];
        if k < |before| { assert hits[k] == before[k]; }
      }
    }
  }
}
