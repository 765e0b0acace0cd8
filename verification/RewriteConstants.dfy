/**
 Rewriting constants for the armed devnet copy
 (scripts/lifecycle_devnet_soak_lib.py), and its agreement with the flag-day
 tool (scripts/arm-lifecycle-epoch.py).
 */
module RewriteConstants {

  import opened Options
  import opened SourceConstants
  import opened Arming

  type File = nat
  type Sources = map<File, Source>

  datatype Entry = Entry(file: File, name: Name, ty: Type, value: Value)

  // ── The result, line by line ─────────────────────────────────────────────

  predicate Concerns(e: Entry, f: File, line: Line) {
    e.file == f && Declares(line, e.name, e.ty)
  }

  function Edit(f: File, line: Line, armed: seq<Entry>): (r: Line)
    ensures r == line || SameDeclaration(r, line)
  {
    if armed == [] then line
    else
      var e := armed[|armed| - 1];
      var l := Edit(f, line, armed[..|armed| - 1]);
      if Concerns(e, f, l) then Decl(e.name, e.ty, e.value) else l
  }

  function EditAll(f: File, source: Source, armed: seq<Entry>): (r: Source)
    ensures SameShape(r, source)
  {
    seq(|source|, i requires 0 <= i < |source| => Edit(f, source[i], armed))
  }

  function Rewritten(sources: Sources, armed: seq<Entry>): Sources {
    map f | f in sources :: EditAll(f, sources[f], armed)
  }

  predicate DeclaredOnce(sources: Sources, e: Entry) {
    e.file in sources && |Hits(sources[e.file], e.name, e.ty)| == 1
  }

  /** Equal but for underscores. */
  predicate SameNumber(v: Value, w: Value) {
    if v.Num? && w.Num? then v.digits == w.digits else v == w
  }

  /** The digits a value is written with, wherever underscores stand between them; `u64::MAX` has none. */
  function DigitsOf(v: Value): Option<seq<nat>> {
    match v
    case Num(digits, _) => Some(digits)
    case Max => None
  }

  /** A pinned value is compared without regard to underscores, and never equals another constant's name. */
  lemma SameNumberExactly(v: Value, w: Value)
    ensures SameNumber(v, w) <==> DigitsOf(v) == DigitsOf(w)
  {
  }

  predicate Pinned(sources: Sources, e: Entry) {
    DeclaredOnce(sources, e) && SameNumber(ValueOf(sources, e), e.value)
  }

  function ValueOf(sources: Sources, e: Entry): Value
    requires DeclaredOnce(sources, e)
  {
    sources[e.file][Hits(sources[e.file], e.name, e.ty)[0]].value
  }

  predicate AllDeclaredOnce(sources: Sources, armed: seq<Entry>) {
    forall k :: 0 <= k < |armed| ==> DeclaredOnce(sources, armed[k])
  }

  predicate AllPinned(sources: Sources, pinned: seq<Entry>) {
    forall k :: 0 <= k < |pinned| ==> Pinned(sources, pinned[k])
  }

  // ── The loops ────────────────────────────────────────────────────────────

  /** One turn of the first loop. */
  function SpliceOne(sources: Sources, e: Entry): Option<Sources> {
    if !DeclaredOnce(sources, e) then None
    else
      var source := sources[e.file];
      Some(sources[e.file := source[Hits(source, e.name, e.ty)[0] := Decl(e.name, e.ty, e.value)]])
  }

  lemma EditMore(f: File, line: Line, armed: seq<Entry>, k: nat)
    requires k < |armed|
    ensures Edit(f, line, armed[..k + 1])
         == if Concerns(armed[k], f, line)
            then Decl(armed[k].name, armed[k].ty, armed[k].value) else Edit(f, line, armed[..k])
  {
    assert armed[..k + 1][..k] == armed[..k];
  }

  lemma SameCounts(sources: Sources, armed: seq<Entry>, e: Entry)
    ensures DeclaredOnce(Rewritten(sources, armed), e) <==> DeclaredOnce(sources, e)
    ensures e.file in sources
        ==> Hits(Rewritten(sources, armed)[e.file], e.name, e.ty) == Hits(sources[e.file], e.name, e.ty)
  {
    if e.file in sources {
      HitsByShape(EditAll(e.file, sources[e.file], armed), sources[e.file], e.name, e.ty);
    }
  }

  lemma UpdateFile(sources: Sources, file: File, fewer: seq<Entry>, more: seq<Entry>)
    requires file in sources
    requires forall f :: f in sources && f != file ==> EditAll(f, sources[f], more) == EditAll(f, sources[f], fewer)
    ensures Rewritten(sources, fewer)[file := EditAll(file, sources[file], more)] == Rewritten(sources, more)
  {
    hide EditAll;
  }

  /** Replacing the one declaration is rewriting every line that declares the constant. */
  lemma SpliceRewrites(sources: Sources, armed: seq<Entry>, k: nat)
    requires k < |armed|
    ensures SpliceOne(Rewritten(sources, armed[..k]), armed[k])
         == if DeclaredOnce(sources, armed[k]) then Some(Rewritten(sources, armed[..k + 1])) else None
  {
    var e := armed[k];
    SameCounts(sources, armed[..k], e);
    if DeclaredOnce(sources, e) {
      SpliceFile(sources[e.file], armed, k);
      forall f | f in sources && f != e.file
        ensures EditAll(f, sources[f], armed[..k + 1]) == EditAll(f, sources[f], armed[..k])
      {
        OtherFile(f, sources[f], armed, k);
      }
      hide EditAll, Hits, SameShape;
      UpdateFile(sources, e.file, armed[..k], armed[..k + 1]);
    }
  }

  lemma SpliceFile(source: Source, armed: seq<Entry>, k: nat)
    requires k < |armed| && |Hits(source, armed[k].name, armed[k].ty)| == 1
    ensures var e := armed[k];
            EditAll(e.file, source, armed[..k + 1])
            == EditAll(e.file, source, armed[..k])[Hits(source, e.name, e.ty)[0] := Decl(e.name, e.ty, e.value)]
  {
    var e := armed[k];
    var hits := Hits(source, e.name, e.ty);
    forall i | 0 <= i < |source|
      ensures Edit(e.file, source[i], armed[..k + 1])
           == if i == hits[0] then Decl(e.name, e.ty, e.value) else Edit(e.file, source[i], armed[..k])
    {
      EditMore(e.file, source[i], armed, k);
      assert Declares(source[i], e.name, e.ty) <==> i == hits[0];
    }
  }

  lemma OtherFile(f: File, source: Source, armed: seq<Entry>, k: nat)
    requires k < |armed| && armed[k].file != f
    ensures EditAll(f, source, armed[..k + 1]) == EditAll(f, source, armed[..k])
  {
    forall i | 0 <= i < |source| ensures Edit(f, source[i], armed[..k + 1]) == Edit(f, source[i], armed[..k]) {
      EditMore(f, source[i], armed, k);
    }
  }

  /** What is reported of one constant. */
  datatype Change = Rewrote(file: File, name: Name, was: Value, now: Value) | Held(file: File, name: Name, value: Value)

  /** The k-th armed constant went from what it read just before to what was asked for. */
  ghost predicate Reports(sources: Sources, armed: seq<Entry>, k: nat, c: Change)
    requires k < |armed|
  {
    var before, e := Rewritten(sources, armed[..k]), armed[k];
    DeclaredOnce(before, e) && c == Rewrote(e.file, e.name, ValueOf(before, e), e.value)
  }

  ghost predicate ReportsPin(out: Sources, e: Entry, c: Change) {
    DeclaredOnce(out, e) && c == Held(e.file, e.name, ValueOf(out, e))
  }

  ghost predicate AllReported(sources: Sources, armed: seq<Entry>, pinned: seq<Entry>, changes: seq<Change>) {
    && |changes| == |armed| + |pinned|
    && (forall k :: 0 <= k < |armed| ==> Reports(sources, armed, k, changes[k]))
    && forall k :: 0 <= k < |pinned| ==> ReportsPin(Rewritten(sources, armed), pinned[k], changes[|armed| + k])
  }

  /** The first loop: one armed declaration after the other, each reported. */
  method RewriteArmed(sources: Sources, armed: seq<Entry>) returns (r: Option<Sources>, changes: seq<Change>)
    ensures r.Some? <==> AllDeclaredOnce(sources, armed)
    ensures r.Some? ==> r.value == Rewritten(sources, armed) && |changes| == |armed|
    ensures r.Some? ==> forall k :: 0 <= k < |armed| ==> Reports(sources, armed, k, changes[k])
  {
    hide Rewritten, SpliceOne, Hits, ValueOf, DeclaredOnce, Reports;
    var out := sources;
    changes := [];
    NothingArmed(sources);
    assert armed[..0] == [];
    for k := 0 to |armed|
      invariant out == Rewritten(sources, armed[..k]) && |changes| == k
      invariant forall j :: 0 <= j < k ==> DeclaredOnce(sources, armed[j])
      invariant forall j :: 0 <= j < k ==> Reports(sources, armed, j, changes[j])
    {
      SpliceRewrites(sources, armed, k);
      SpliceReports(sources, armed, k);
      var next := SpliceOne(out, armed[k]);
      if next.None? {
        return None, [];
      }
      changes := changes + [Rewrote(armed[k].file, armed[k].name, ValueOf(out, armed[k]), armed[k].value)];
      out := next.value;
    }
    assert armed[..|armed|] == armed;
    r := Some(out);
  }

  lemma SpliceReports(sources: Sources, armed: seq<Entry>, k: nat)
    requires k < |armed|
    ensures var before, e := Rewritten(sources, armed[..k]), armed[k];
            && (SpliceOne(before, e).Some? <==> DeclaredOnce(before, e))
            && (DeclaredOnce(before, e) ==>
                  Reports(sources, armed, k, Rewrote(e.file, e.name, ValueOf(before, e), e.value)))
  {
    hide Rewritten;
  }

  /** Refuses, or rewrites exactly the armed declarations and finds the pinned ones as they should be. */
  method Rewrite(sources: Sources, armed: seq<Entry>, pinned: seq<Entry>)
      returns (r: Option<Sources>, changes: seq<Change>)
    ensures r.Some? <==> AllDeclaredOnce(sources, armed) && AllPinned(Rewritten(sources, armed), pinned)
    ensures r.Some? ==> r.value == Rewritten(sources, armed) && AllReported(sources, armed, pinned, changes)
  {
    hide Rewritten, DeclaredOnce, AllDeclaredOnce, ValueOf, Reports;
    r, changes := RewriteArmed(sources, armed);
    if r.None? {
      return;
    }
    ghost var first := changes;
    for k := 0 to |pinned|
      invariant AllPinned(r.value, pinned[..k]) && |changes| == |armed| + k && first <= changes
      invariant forall j :: 0 <= j < k ==> ReportsPin(r.value, pinned[j], changes[|armed| + j])
    {
      if !Pinned(r.value, pinned[k]) {
        return None, [];
      }
      changes := changes + [Held(pinned[k].file, pinned[k].name, ValueOf(r.value, pinned[k]))];
    }
    assert pinned[..|pinned|] == pinned;
    assert forall k :: 0 <= k < |armed| ==> changes[k] == first[k];
  }

  lemma NothingArmed(sources: Sources)
    ensures Rewritten(sources, []) == sources
  {
    forall f | f in sources ensures EditAll(f, sources[f], []) == sources[f] {}
  }

  // ── What the rewrite promises ────────────────────────────────────────────

  predicate SameKey(d: Entry, e: Entry) {
    d.file == e.file && d.name == e.name && d.ty == e.ty
  }

  predicate DistinctKeys(armed: seq<Entry>) {
    forall i, j :: 0 <= i < j < |armed| ==> !SameKey(armed[i], armed[j])
  }

  /** A line no entry concerns is left alone. */
  lemma {:induction false} OthersStay(f: File, line: Line, armed: seq<Entry>)
    requires forall e :: e in armed ==> !Concerns(e, f, line)
    ensures Edit(f, line, armed) == line
  {
    if armed != [] {
      var n := |armed| - 1;
      assert forall e :: e in armed[..n] ==> e in armed;
      OthersStay(f, line, armed[..n]);
      assert armed[n] in armed;
    }
  }

  /** A line an entry concerns declares that entry's value. */
  lemma {:induction false} ConcernedReads(f: File, line: Line, armed: seq<Entry>, e: Entry)
    requires DistinctKeys(armed) && e in armed && Concerns(e, f, line)
    ensures Edit(f, line, armed) == Decl(e.name, e.ty, e.value)
  {
    var n := |armed| - 1;
    var before := armed[..n];
    if armed[n] == e {
    } else {
      var i :| 0 <= i < |armed| && armed[i] == e;
      assert before[i] == e;
      assert DistinctKeys(before);
      ConcernedReads(f, line, before, e);
      assert !SameKey(armed[i], armed[n]);
    }
  }

  /** The order of the entries does not matter. */
  lemma AnyOrder(sources: Sources, armed: seq<Entry>, others: seq<Entry>)
    requires DistinctKeys(armed) && DistinctKeys(others) && forall e :: e in armed <==> e in others
    ensures Rewritten(sources, armed) == Rewritten(sources, others)
    ensures AllDeclaredOnce(sources, armed) <==> AllDeclaredOnce(sources, others)
  {
    forall f: File, line ensures Edit(f, line, armed) == Edit(f, line, others) {
      if e :| e in armed && Concerns(e, f, line) {
        ConcernedReads(f, line, armed, e);
        ConcernedReads(f, line, others, e);
      } else {
        OthersStay(f, line, armed);
        OthersStay(f, line, others);
      }
    }
    forall f | f in sources ensures EditAll(f, sources[f], armed) == EditAll(f, sources[f], others) {}
    DeclaredByElement(sources, armed);
    DeclaredByElement(sources, others);
  }

  lemma DeclaredByElement(sources: Sources, armed: seq<Entry>)
    ensures AllDeclaredOnce(sources, armed) <==> forall e :: e in armed ==> DeclaredOnce(sources, e)
  {
    hide DeclaredOnce;
    if AllDeclaredOnce(sources, armed) {
      forall e | e in armed ensures DeclaredOnce(sources, e) {
        var k :| 0 <= k < |armed| && armed[k] == e;
      }
    }
    if forall e :: e in armed ==> DeclaredOnce(sources, e) {
      forall k | 0 <= k < |armed| ensures DeclaredOnce(sources, armed[k]) {
        assert armed[k] in armed;
      }
    }
  }

  /** With distinct keys what is reported as replaced is what the source declared. */
  lemma WasOriginal(sources: Sources, armed: seq<Entry>, k: nat)
    requires DistinctKeys(armed) && k < |armed| && DeclaredOnce(sources, armed[k])
    ensures var before := Rewritten(sources, armed[..k]);
            DeclaredOnce(before, armed[k]) && ValueOf(before, armed[k]) == ValueOf(sources, armed[k])
  {
    var e := armed[k];
    SameCounts(sources, armed[..k], e);
    var i := Hits(sources[e.file], e.name, e.ty)[0];
    forall d | d in armed[..k] ensures !Concerns(d, e.file, sources[e.file][i]) {
      var j :| 0 <= j < k && armed[j] == d;
      assert !SameKey(armed[j], armed[k]);
    }
    OthersStay(e.file, sources[e.file][i], armed[..k]);
  }

  /** Rewriting again changes nothing, and is allowed again. */
  lemma Idempotent(sources: Sources, armed: seq<Entry>)
    requires DistinctKeys(armed)
    ensures Rewritten(Rewritten(sources, armed), armed) == Rewritten(sources, armed)
    ensures AllDeclaredOnce(Rewritten(sources, armed), armed) <==> AllDeclaredOnce(sources, armed)
  {
    forall f: File, line ensures Edit(f, Edit(f, line, armed), armed) == Edit(f, line, armed) {
      if e :| e in armed && Concerns(e, f, line) {
        ConcernedReads(f, line, armed, e);
        ConcernedReads(f, Edit(f, line, armed), armed, e);
      } else {
        OthersStay(f, line, armed);
      }
    }
    var once := Rewritten(sources, armed);
    forall f | f in sources ensures EditAll(f, once[f], armed) == once[f] {}
    forall k | 0 <= k < |armed| ensures DeclaredOnce(once, armed[k]) <==> DeclaredOnce(sources, armed[k]) {
      SameCounts(sources, armed, armed[k]);
    }
  }

  /** Every armed constant is still declared once and reads what was asked for. */
  lemma ReadsBack(sources: Sources, armed: seq<Entry>, e: Entry)
    requires DistinctKeys(armed) && AllDeclaredOnce(sources, armed) && e in armed
    ensures DeclaredOnce(Rewritten(sources, armed), e) && ValueOf(Rewritten(sources, armed), e) == e.value
  {
    DeclaredByElement(sources, armed);
    SameCounts(sources, armed, e);
    var i := Hits(sources[e.file], e.name, e.ty)[0];
    ConcernedReads(e.file, sources[e.file][i], armed, e);
  }

  // ── Agreement with the flag-day tool ─────────────────────────────────────

  /** One attribute-free declaration, at `u64::MAX`. */
  predicate PlainUnarmed(source: Source, name: Name) {
    var hits := Hits(source, name, U64);
    |hits| == 1 && Guards(source, hits[0]) == [] && source[hits[0]].value == Max
  }

  function GateEntries(f: File, epoch: nat): (armed: seq<Entry>)
    ensures DistinctKeys(armed)
  {
    seq(|GATES|, k requires 0 <= k < |GATES| => Entry(f, GATES[k], U64, Printed(epoch)))
  }

  lemma PlainIsMatched(source: Source, name: Name)
    requires PlainUnarmed(source, name)
    ensures Unarmed(source, name)
    ensures forall i: nat :: i < |source|
              ==> (ConstantMatch(source, name) == Some(i) <==> Declares(source[i], name, U64))
  {
    var hits := Hits(source, name, U64);
    forall i: nat | i < |source| && Declares(source[i], name, U64) ensures i == hits[0] {
      assert i in hits;
    }
  }

  lemma SameLine(f: File, source: Source, epoch: nat, i: nat)
    requires i < |source| && forall k :: 0 <= k < |GATES| ==> PlainUnarmed(source, GATES[k])
    ensures Edit(f, source[i], GateEntries(f, epoch)) == ArmedLine(source, epoch, i, |GATES|)
  {
    var armed := GateEntries(f, epoch);
    forall k | 0 <= k < |GATES|
      ensures ConstantMatch(source, GATES[k]) == Some(i) <==> Declares(source[i], GATES[k], U64)
    {
      PlainIsMatched(source, GATES[k]);
    }
    if k :| 0 <= k < |GATES| && Declares(source[i], GATES[k], U64) {
      assert armed[k] in armed;
      ConcernedReads(f, source[i], armed, armed[k]);
      assert IsGate(source, i, |GATES|);
    } else {
      OthersStay(f, source[i], armed);
    }
  }

  predicate PlainTree(source: Source) {
    (forall k :: 0 <= k < |GATES| ==> PlainUnarmed(source, GATES[k])) && PlainUnarmed(source, Deposit)
  }

  lemma NeitherRefuses(f: File, source: Source, epoch: nat)
    requires PlainTree(source)
    ensures Armable(source) && AllDeclaredOnce(map[f := source], GateEntries(f, epoch))
  {
    var armed := GateEntries(f, epoch);
    PlainIsMatched(source, Deposit);
    forall k | 0 <= k < |GATES| ensures Unarmed(source, GATES[k]) && DeclaredOnce(map[f := source], armed[k]) {
      assert PlainUnarmed(source, GATES[k]);
      PlainIsMatched(source, GATES[k]);
    }
  }

  lemma DepositStaysPinned(f: File, source: Source, epoch: nat)
    requires PlainTree(source)
    ensures Pinned(Rewritten(map[f := source], GateEntries(f, epoch)), Entry(f, Deposit, U64, Max))
  {
    SameCounts(map[f := source], GateEntries(f, epoch), Entry(f, Deposit, U64, Max));
    OthersStay(f, source[Hits(source, Deposit, U64)[0]], GateEntries(f, epoch));
  }

  /** On a plain unarmed source the two tools make the same edit, and neither refuses. */
  lemma SameAsArming(f: File, source: Source, epoch: nat)
    requires PlainTree(source)
    ensures Armable(source) && AllDeclaredOnce(map[f := source], GateEntries(f, epoch))
    ensures AllPinned(Rewritten(map[f := source], GateEntries(f, epoch)), [Entry(f, Deposit, U64, Max)])
    ensures Rewritten(map[f := source], GateEntries(f, epoch)) == map[f := Armed(source, epoch, |GATES|)]
  {
    var armed := GateEntries(f, epoch);
    NeitherRefuses(f, source, epoch);
    DepositStaysPinned(f, source, epoch);
    forall i: nat | i < |source| ensures Edit(f, source[i], armed) == ArmedLine(source, epoch, i, |GATES|) {
      SameLine(f, source, epoch, i);
    }
    hide GateEntries, Pinned, Armable, AllDeclaredOnce, PlainTree, Edit, ArmedLine;
    assert EditAll(f, source, armed) == Armed(source, epoch, |GATES|);
  }
}
