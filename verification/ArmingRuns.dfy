/**
 The flag-day tool over whole runs (scripts/arm-lifecycle-epoch.py): plan,
 write and verify on a checkout of two files, with a write that may stop
 between its two file writes.
 */
module ArmingRuns {

  import opened Options
  import opened SourceConstants
  import opened Arming
  import Clocks

  // ── The runbook line ─────────────────────────────────────────────────────

  datatype Recorded = NotArmed | At(digits: seq<nat>)
  datatype RunbookLine = Epoch(recorded: Recorded) | Text(id: nat)
  type Runbook = seq<RunbookLine>

  function RecordLines(book: Runbook): (hits: seq<nat>)
    ensures forall k :: 0 <= k < |hits| ==> hits[k] < |book| && book[hits[k]].Epoch?
  {
    if book == [] then []
    else
      var n := |book| - 1;
      RecordLines(book[..n]) + if book[n].Epoch? then [n] else []
  }

  function RunbookValue(book: Runbook): Option<Recorded> {
    var hits := RecordLines(book);
    if |hits| == 1 then Some(book[hits[0]].recorded) else None
  }

  function SetRunbookValue(book: Runbook, v: Recorded): Runbook
    requires RunbookValue(book).Some?
  {
    book[RecordLines(book)[0] := Epoch(v)]
  }

  lemma {:induction false} RecordLinesStay(book: Runbook, i: nat, v: Recorded)
    requires i < |book| && book[i].Epoch?
    ensures RecordLines(book[i := Epoch(v)]) == RecordLines(book)
  {
    var n := |book| - 1;
    if i < n {
      assert book[i := Epoch(v)][..n] == book[..n][i := Epoch(v)];
      RecordLinesStay(book[..n], i, v);
    } else {
      assert book[i := Epoch(v)][..n] == book[..n];
    }
  }

  lemma RunbookReadsBack(book: Runbook, v: Recorded)
    requires RunbookValue(book).Some?
    ensures RunbookValue(SetRunbookValue(book, v)) == Some(v)
  {
    RecordLinesStay(book, RecordLines(book)[0], v);
  }

  predicate RecordedOnlyAt(book: Runbook, i: nat) {
    i < |book| && book[i].Epoch? && forall j :: 0 <= j < |book| && book[j].Epoch? ==> j == i
  }

  lemma {:induction false} RecordLinesAre(book: Runbook)
    ensures Increasing(RecordLines(book)) && forall i :: 0 <= i < |book| && book[i].Epoch? ==> i in RecordLines(book)
  {
    if book != [] {
      var n := |book| - 1;
      RecordLinesAre(book[..n]);
      var before, hits := RecordLines(book[..n]), RecordLines(book);
      assert hits == before || hits == before + [n];
      forall j, k | 0 <= j < k < |hits| ensures hits[j] < hits[k] {
        assert hits[j] == before[j];
        if k < |before| { assert hits[k] == before[k]; }
      }
      forall i | 0 <= i < |book| && book[i].Epoch? ensures i in hits {
        if i < n { assert book[..n][i] == book[i]; }
      }
    }
  }

  lemma OneRecordLine(book: Runbook, i: nat)
    ensures RecordedOnlyAt(book, i) <==> RecordLines(book) == [i]
  {
    var hits := RecordLines(book);
    RecordLinesAre(book);
    hide RecordLines;
    if RecordedOnlyAt(book, i) {
      assert i in hits;
      forall k | 0 <= k < |hits| ensures hits[k] == i {}
      FirstThree(hits);
      assert |hits| == 1;
    }
    if hits == [i] {
      assert hits[0] == i;
      forall j | 0 <= j < |book| && book[j].Epoch? ensures j == i {
        assert j in hits;
      }
    }
  }

  /** The runbook has a value exactly when one line records one, and setting it changes that line alone. */
  lemma RunbookExactly(book: Runbook, v: Recorded)
    ensures RunbookValue(book).Some? <==> exists i: nat :: RecordedOnlyAt(book, i)
    ensures forall i: nat :: RecordedOnlyAt(book, i) ==>
              RunbookValue(book) == Some(book[i].recorded) && SetRunbookValue(book, v) == book[i := Epoch(v)]
  {
    forall i: nat ensures RecordedOnlyAt(book, i) <==> RecordLines(book) == [i] {
      OneRecordLine(book, i);
    }
    var hits := RecordLines(book);
    if |hits| == 1 {
      assert hits == [hits[0]];
    }
    hide RecordLines, RecordedOnlyAt;
  }

  // ── The checkout and its commands ────────────────────────────────────────

  datatype Tree = Tree(params: Source, runbook: Option<Runbook>)

  datatype Command =
    | Plan(epoch: int, wall: nat, lead: int)
    | Write(epoch: int, wall: nat, lead: int)
    | CrashingWrite(epoch: int, wall: nat, lead: int)  // stops after the first file is written
    | Verify(given: Option<int>, pinned: bool, stale: bool)

  predicate IsUnarmed(t: Tree) {
    Armable(t.params) && t.runbook.Some? && RunbookValue(t.runbook.value) == Some(NotArmed)
  }

  predicate CanWrite(t: Tree, epoch: int, wall: nat, lead: int) {
    epoch > 0 && Clocks.Admissible(epoch, wall, lead) && IsUnarmed(t)
  }

  function HalfWritten(t: Tree, epoch: nat): Tree {
    t.(params := Armed(t.params, epoch, |GATES|))
  }

  function Written(t: Tree, epoch: nat): Tree
    requires IsUnarmed(t)
  {
    HalfWritten(t, epoch).(runbook := Some(SetRunbookValue(t.runbook.value, At(Decimal(epoch)))))
  }

  function Step(t: Tree, c: Command): Tree {
    match c
    case Write(epoch, wall, lead) => if CanWrite(t, epoch, wall, lead) then Written(t, epoch) else t
    case CrashingWrite(epoch, wall, lead) => if CanWrite(t, epoch, wall, lead) then HalfWritten(t, epoch) else t
    case Plan(_, _, _) => t
    case Verify(_, _, _) => t
  }

  function After(t: Tree, run: seq<Command>): Tree {
    if run == [] then t else Step(After(t, run[..|run| - 1]), run[|run| - 1])
  }

  /** Did the command go as far as writing a file? */
  predicate Wrote(t: Tree, c: Command) {
    (c.Write? || c.CrashingWrite?) && CanWrite(t, c.epoch, c.wall, c.lead)
  }

  function Writes(t: Tree, run: seq<Command>): nat {
    if run == [] then 0
    else Writes(t, run[..|run| - 1]) + if Wrote(After(t, run[..|run| - 1]), run[|run| - 1]) then 1 else 0
  }

  // ── Consistency ──────────────────────────────────────────────────────────

  function AsEpoch(v: Value): Option<nat> {
    if v.Max? then None else Some(Number(v.digits))
  }

  function Expected(armed: Option<nat>): Recorded {
    if armed.None? then NotArmed else At(Decimal(armed.value))
  }

  /** The five gates read v, the deposit gate is off and the runbook records v. */
  predicate Reads(t: Tree, v: Value) {
    && (forall k :: 0 <= k < |GATES| ==> ReadConstant(t.params, GATES[k]) == Some(v))
    && ReadConstant(t.params, Deposit) == Some(Max)
    && t.runbook.Some? && RunbookValue(t.runbook.value) == Some(Expected(AsEpoch(v)))
  }

  /** What `verify` accepts, given what the tests and comments of the tree say. */
  predicate Accepts(t: Tree, given: Option<int>, pinned: bool, stale: bool) {
    var v := ReadConstant(t.params, GATES[0]);
    && (given.Some? ==> given.value > 0)
    && v.Some? && Reads(t, v.value)
    && (given.Some? ==> AsEpoch(v.value).Some? && AsEpoch(v.value).value == given.value)
    && (AsEpoch(v.value).Some? ==> !pinned)
    && !stale
  }

  // ── What every run keeps ─────────────────────────────────────────────────

  lemma ArmedIsNotArmable(source: Source, epoch: nat)
    requires Armable(source)
    ensures ReadConstant(Armed(source, epoch, |GATES|), GATES[0]) == Some(Printed(epoch))
    ensures !Armable(Armed(source, epoch, |GATES|))
  {
    assert Unarmed(source, GATES[0]);
    GatesRead(source, epoch, 0);
    assert !Unarmed(Armed(source, epoch, |GATES|), GATES[0]);
  }

  lemma WrittenReads(t: Tree, epoch: nat)
    requires IsUnarmed(t)
    ensures Reads(Written(t, epoch), Printed(epoch))
  {
    forall k | 0 <= k < |GATES| ensures ReadConstant(Written(t, epoch).params, GATES[k]) == Some(Printed(epoch)) {
      assert Unarmed(t.params, GATES[k]);
      GatesRead(t.params, epoch, k);
    }
    OthersUntouched(t.params, epoch, Deposit);
    RunbookReadsBack(t.runbook.value, At(Decimal(epoch)));
    NumberOfDecimal(epoch);
  }

  /** The unarmed tree, or that tree armed once, completely or by half. */
  ghost predicate Reached(start: Tree, t: Tree, writes: nat)
    requires IsUnarmed(start)
  {
    || (writes == 0 && t == start)
    || (writes == 1 && exists epoch: nat :: epoch > 0 && (t == Written(start, epoch) || t == HalfWritten(start, epoch)))
  }

  lemma ArmedTreesRefuse(start: Tree, epoch: nat)
    requires IsUnarmed(start)
    ensures !IsUnarmed(Written(start, epoch)) && !IsUnarmed(HalfWritten(start, epoch))
  {
    ArmedIsNotArmable(start.params, epoch);
  }

  /** From an unarmed tree at most one write ever gets through, whatever else is run or crashes. */
  lemma {:induction false} EveryRun(start: Tree, run: seq<Command>)
    requires IsUnarmed(start)
    ensures Reached(start, After(start, run), Writes(start, run))
  {
    if run != [] {
      var before := run[..|run| - 1];
      EveryRun(start, before);
      var t := After(start, before);
      if Writes(start, before) == 1 {
        var epoch: nat :| epoch > 0 && (t == Written(start, epoch) || t == HalfWritten(start, epoch));
        ArmedTreesRefuse(start, epoch);
      }
    }
  }

  predicate CrashFree(run: seq<Command>) {
    forall i :: 0 <= i < |run| ==> !run[i].CrashingWrite?
  }

  /** Without a crash the gates, the deposit gate and the runbook agree after every command. */
  lemma {:induction false} CrashFreeRunsAgree(start: Tree, run: seq<Command>)
    requires IsUnarmed(start) && CrashFree(run)
    ensures var t := After(start, run);
            || (t == start && Reads(t, Max))
            || exists epoch: nat :: epoch > 0 && t == Written(start, epoch) && Reads(t, Printed(epoch))
  {
    if run == [] {
      assert forall k :: 0 <= k < |GATES| ==> Unarmed(start.params, GATES[k]);
    } else {
      var before := run[..|run| - 1];
      CrashFreeRunsAgree(start, before);
      var t := After(start, before);
      if t == start {
        if Wrote(start, run[|run| - 1]) {
          WrittenReads(start, run[|run| - 1].epoch);
        }
      } else {
        var epoch: nat :| epoch > 0 && t == Written(start, epoch) && Reads(t, Printed(epoch));
        ArmedTreesRefuse(start, epoch);
      }
    }
  }

  /** A write that crashed between its two files leaves a tree nothing changes and no verify accepts. */
  lemma {:induction false} CrashIsFinal(start: Tree, epoch: nat, run: seq<Command>)
    requires IsUnarmed(start) && epoch > 0
    ensures After(HalfWritten(start, epoch), run) == HalfWritten(start, epoch)
    ensures Writes(HalfWritten(start, epoch), run) == 0
    ensures forall given, pinned, stale :: !Accepts(HalfWritten(start, epoch), given, pinned, stale)
  {
    ArmedTreesRefuse(start, epoch);
    ArmedIsNotArmable(start.params, epoch);
    if run != [] {
      CrashIsFinal(start, epoch, run[..|run| - 1]);
    }
  }

  /** What `verify` says of the tree before any write, and after a completed one. */
  lemma VerifySays(start: Tree, epoch: nat, given: Option<int>, pinned: bool, stale: bool)
    requires IsUnarmed(start) && epoch > 0
    ensures Accepts(start, given, pinned, stale) <==> given.None? && !stale
    ensures Accepts(Written(start, epoch), given, pinned, stale)
       <==> (given.None? || given.value == epoch) && !pinned && !stale
  {
    assert forall k :: 0 <= k < |GATES| ==> Unarmed(start.params, GATES[k]);
    WrittenReads(start, epoch);
    NumberOfDecimal(epoch);
    hide ReadConstant, Armable, Armed, SetRunbookValue, RunbookValue;
    assert ReadConstant(Written(start, epoch).params, GATES[0]) == Some(Printed(epoch));
  }

  /** A refused command changes neither file. */
  lemma RefusedChangesNothing(t: Tree, c: Command)
    ensures Step(t, c) != t ==> Wrote(t, c)
    ensures Wrote(t, c) ==> IsUnarmed(t) && c.epoch > c.wall
  {
  }

  /** A write gets through exactly when the epoch is ahead by the lead and the tree unarmed, and then arms it. */
  lemma WritesExactly(t: Tree, epoch: int, wall: nat, lead: int)
    ensures Wrote(t, Write(epoch, wall, lead)) <==> epoch > wall && epoch - wall >= lead && IsUnarmed(t)
    ensures Wrote(t, Write(epoch, wall, lead)) ==>
              IsUnarmed(t) && Reads(Step(t, Write(epoch, wall, lead)), Printed(epoch))
  {
    if Wrote(t, Write(epoch, wall, lead)) {
      WrittenReads(t, epoch);
    }
    hide Reads, IsUnarmed;
  }

  /** No verify accepts an epoch that is not positive. */
  lemma RefusesNonPositive(t: Tree, given: int, pinned: bool, stale: bool)
    requires given <= 0
    ensures !Accepts(t, Some(given), pinned, stale)
  {
  }

  // ── The tool itself ──────────────────────────────────────────────────────

  class Checkout {
    var params: Source
    var runbook: Option<Runbook>

    constructor (params: Source, runbook: Option<Runbook>)
      ensures this.params == params && this.runbook == runbook
    {
      this.params := params;
      this.runbook := runbook;
    }

    ghost function Files(): Tree
      reads this
    {
      Tree(params, runbook)
    }

    /** Everything is checked before either file is written; `crash` stops it between the two. */
    method ModeWrite(epoch: int, wall: nat, lead: int, crash: bool) returns (done: bool)
      modifies this
      ensures Files()
           == Step(old(Files()), if crash then CrashingWrite(epoch, wall, lead) else Write(epoch, wall, lead))
      ensures done <==> !crash && Wrote(old(Files()), Write(epoch, wall, lead))
      ensures !Wrote(old(Files()), Write(epoch, wall, lead)) ==> Files() == old(Files())
    {
      hide Armable, Armed, ReadConstant;
      if epoch <= 0 || !Clocks.Admissible(epoch, wall, lead)
        || runbook.None? || RunbookValue(runbook.value) != Some(NotArmed) {
        return false;
      }
      var armed := ArmSource(params, epoch);
      if armed.None? {
        return false;
      }
      params := armed.value;
      if crash {
        return false;
      }
      runbook := Some(SetRunbookValue(runbook.value, At(Decimal(epoch))));
      done := true;
    }

    /** Collects what is inconsistent; accepts when nothing is. */
    method ModeVerify(given: Option<int>, pinned: bool, stale: bool) returns (ok: bool)
      ensures ok <==> Accepts(Files(), given, pinned, stale)
    {
      hide ReadConstant;
      if given.Some? && given.value <= 0 {
        return false;
      }
      var values := {};
      for k := 0 to |GATES|
        invariant forall j :: 0 <= j < k ==> ReadConstant(params, GATES[j]).Some?
        invariant forall v :: v in values <==> exists j :: 0 <= j < k && ReadConstant(params, GATES[j]) == Some(v)
      {
        var v := ReadConstant(params, GATES[k]);
        if v.None? {
          return false;
        }
        values := values + {v.value};
      }
      var deposit := ReadConstant(params, Deposit);
      if deposit.None? || runbook.None? || RunbookValue(runbook.value).None? {
        return false;
      }
      var first := ReadConstant(params, GATES[0]).value;
      var errors := 0;
      if |values| != 1 { errors := errors + 1; }
      OneValue(values, first);
      if deposit != Some(Max) { errors := errors + 1; }
      var armed := if |values| == 1 then AsEpoch(first) else None;
      if RunbookValue(runbook.value) != Some(Expected(armed)) { errors := errors + 1; }
      if given.Some? && (armed.None? || armed.value != given.value) { errors := errors + 1; }
      if armed.Some? && pinned { errors := errors + 1; }
      if stale { errors := errors + 1; }
      ok := errors == 0;
    }
  }

  lemma OneValue(values: set<Value>, first: Value)
    requires first in values
    ensures |values| == 1 <==> values == {first}
  {
    if |values| == 1 {
      assert |values - {first}| == 0;
    }
  }
}
