/**
 Slashing protection (crates/bloch-pos-node/src/slashprot.rs): watermarks made
 durable before a signature exists, over every run of signing attempts, failed
 writes, crashes, restarts, restored backups and foreign sightings.

 Words are unsigned 64-bit; the record's digest, binding and RANDAO section are not modelled.
 */
module SlashingProtection {
  import opened Basics
  import opened Options
  import opened Finality

  /** The last-signed watermarks; `None` means nothing of that kind was signed yet. */
  datatype Marks = Marks(proposal: Option<nat>, slot: Option<nat>, source: Option<nat>, target: Option<nat>)

  const FRESH: Marks := Marks(None, None, None, None)

  datatype Signature = Block(slot: nat, root: Root) | Attestation(vote: Vote)

  // ── The record on disk ───────────────────────────────────────────────────

  type Word = w: nat | w <= U64_MAX

  /** Four 64-bit words, with the largest word standing for an absent watermark. */
  datatype Record = Record(proposal: Word, slot: Word, source: Word, target: Word)

  function ToWord(mark: Option<nat>): Word {
    if mark.None? then U64_MAX else Min(mark.value, U64_MAX)
  }

  function FromWord(word: Word): Option<nat> {
    if word == U64_MAX then None else Some(word)
  }

  function Encode(m: Marks): Record {
    Record(ToWord(m.proposal), ToWord(m.slot), ToWord(m.source), ToWord(m.target))
  }

  function Decode(r: Record): Marks {
    Marks(FromWord(r.proposal), FromWord(r.slot), FromWord(r.source), FromWord(r.target))
  }

  predicate Fits(mark: Option<nat>) {
    mark.None? || mark.value < U64_MAX
  }

  /** No watermark collides with the word that means "absent". */
  predicate Storable(m: Marks) {
    Fits(m.proposal) && Fits(m.slot) && Fits(m.source) && Fits(m.target)
  }

  /** A record reads back exactly when no watermark is the sentinel. */
  lemma RecordRoundTrip(m: Marks)
    ensures Decode(Encode(m)) == m <==> Storable(m)
  {
  }

  lemma DecodedIsStorable(r: Record)
    ensures Storable(Decode(r)) && Encode(Decode(r)) == r
  {
  }

  function Higher(a: Option<nat>, b: Option<nat>): Option<nat> {
    if a.None? then b else if b.None? then a else Some(Max(a.value, b.value))
  }

  function MaxMarks(a: Marks, b: Marks): Marks {
    Marks(Higher(a.proposal, b.proposal), Higher(a.slot, b.slot), Higher(a.source, b.source),
          Higher(a.target, b.target))
  }

  // ── The guards ───────────────────────────────────────────────────────────

  predicate Above(value: nat, mark: Option<nat>) {
    mark.None? || value > mark.value
  }

  predicate AtLeast(value: nat, mark: Option<nat>) {
    mark.None? || value >= mark.value
  }

  /** May this be signed over these watermarks? */
  predicate Admits(m: Marks, sig: Signature) {
    match sig
    case Block(slot, _) => Above(slot, m.proposal)
    case Attestation(d) => Above(d.slot, m.slot) && Above(d.target.epoch, m.target) && AtLeast(d.source.epoch, m.source)
  }

  function Raised(m: Marks, sig: Signature): Marks {
    match sig
    case Block(slot, _) => m.(proposal := Some(slot))
    case Attestation(d) => m.(slot := Some(d.slot), source := Some(d.source.epoch), target := Some(d.target.epoch))
  }

  /** No slot or no target epoch below the sentinel is left for an attestation. */
  predicate Exhausted(m: Marks) {
    (m.slot.Some? && m.slot.value + 1 >= U64_MAX) || (m.target.Some? && m.target.value + 1 >= U64_MAX)
  }

  /** The watermarks rule out everything that would be slashable together with this signature. */
  predicate Covers(m: Marks, sig: Signature) {
    match sig
    case Block(slot, _) => m.proposal.Some? && slot <= m.proposal.value
    case Attestation(d) =>
      || Exhausted(m)
      || (&& m.target.Some? && d.target.epoch <= m.target.value
          && (d.source.epoch == 0 || (m.source.Some? && d.source.epoch <= m.source.value)))
  }

  ghost predicate CoversAll(m: Marks, released: seq<Signature>) {
    forall i :: 0 <= i < |released| ==> Covers(m, released[i])
  }

  // ── The signer and everything that can happen to it ──────────────────────

  /** A durable write completes, fails with either copy old or new, or completes in a process that then dies. */
  datatype Fault = Clean | Failed(dataDirWritten: bool, anchorWritten: bool) | DiesBeforeSigning

  datatype Signer = Signer(
    running: bool,            // a process holds the record and can sign
    anchored: bool,           // this host keeps a copy of the record outside the data dir
    memory: Marks,            // the process's watermarks
    disk: Record,             // the record in the data dir
    anchor: Option<Record>,   // the host-level copy, once one exists
    released: seq<Signature>) // every signature ever produced, oldest first

  datatype Event =
    | Sign(sig: Signature, fault: Fault)
    | Restart(acceptRollback: bool, raise: Fault, mirror: Fault)
    | Crash
    | ReplaceDataDir(record: Record)
    | RaiseToPublished(seen: Signature, fault: Fault)

  function FirstBoot(anchored: bool): Signer {
    Signer(false, anchored, FRESH, Encode(FRESH), None, [])
  }

  /** Write `next` to the data dir and then to the anchor, as far as the fault lets it. */
  function Write(s: Signer, next: Marks, fault: Fault): Signer {
    var dataDir := fault.Failed? ==> fault.dataDirWritten;
    var mirrored := dataDir && s.anchor.Some? && (fault.Failed? ==> fault.anchorWritten);
    s.(disk := if dataDir then Encode(next) else s.disk, anchor := if mirrored then Some(Encode(next)) else s.anchor)
  }

  /** Check the guard, make the raised watermark durable, adopt it, and only then sign. */
  function AfterSign(s: Signer, sig: Signature, fault: Fault): Signer {
    if !s.running || !Admits(s.memory, sig) then s
    else
      var next := Raised(s.memory, sig);
      var written := Write(s, next, fault);
      match fault
      case Failed(_, _) => written
      case DiesBeforeSigning => written.(running := false)
      case Clean => written.(memory := next, released := s.released + [sig])
  }

  /** Load the data-dir record and reconcile it with the anchor; a data dir behind its anchor is refused or raised. */
  function AfterRestart(s: Signer, accept: bool, raise: Fault, mirror: Fault): Signer {
    var loaded := Decode(s.disk);
    if !s.anchored then s.(running := true, memory := loaded)
    else
      match s.anchor
      case None => Adopt(s, loaded, mirror)
      case Some(copy) => Reconcile(s, loaded, Decode(copy), accept, raise, mirror)
  }

  /** No anchor yet: it starts as a copy of the data-dir record. */
  function Adopt(s: Signer, loaded: Marks, mirror: Fault): Signer {
    if mirror.Failed? then s.(running := false, anchor := if mirror.anchorWritten then Some(Encode(loaded)) else None)
    else s.(running := true, memory := loaded, anchor := Some(Encode(loaded)))
  }

  function Reconcile(s: Signer, loaded: Marks, copy: Marks, accept: bool, raise: Fault, mirror: Fault): Signer {
    var merged := MaxMarks(loaded, copy);
    if merged != loaded && !accept then s.(running := false)
    else if merged != loaded && raise.Failed? then
      s.(running := false, disk := if raise.dataDirWritten then Encode(merged) else s.disk)
    else
      var raised := if merged != loaded then s.(disk := Encode(merged)) else s;
      if merged == copy then raised.(running := true, memory := merged)
      else if mirror.Failed? then Write(raised, merged, mirror).(running := false)
      else Write(raised, merged, mirror).(running := true, memory := merged)
  }

  function SeenMarks(seen: Signature): Marks {
    Raised(FRESH, seen)
  }

  function AfterRaise(s: Signer, seen: Signature, fault: Fault): Signer {
    var next := MaxMarks(s.memory, SeenMarks(seen));
    if !s.running || next == s.memory then s
    else if fault.Failed? then Write(s, next, fault)
    else Write(s, next, fault).(memory := next)
  }

  function Step(s: Signer, e: Event): Signer {
    match e
    case Sign(sig, fault) => AfterSign(s, sig, fault)
    case Restart(accept, raise, mirror) => AfterRestart(s, accept, raise, mirror)
    case Crash => s.(running := false)
    case ReplaceDataDir(record) => s.(disk := record)
    case RaiseToPublished(seen, fault) => AfterRaise(s, seen, fault)
  }

  function After(s: Signer, events: seq<Event>): Signer {
    if events == [] then s else Step(After(s, events[..|events| - 1]), events[|events| - 1])
  }

  // ── No slashable pair ────────────────────────────────────────────────────

  /** The two signatures together are evidence of an offence. */
  predicate Slashable(a: Signature, b: Signature) {
    match (a, b)
    case (Block(s1, r1), Block(s2, r2)) => s1 == s2 && r1 != r2
    case (Attestation(d), Attestation(e)) => d.Conflicts(e)
    case _ => false
  }

  ghost predicate NeverSlashable(released: seq<Signature>) {
    forall i, j :: 0 <= i < |released| && 0 <= j < |released| ==> !Slashable(released[i], released[j])
  }

  /** Every value the event carries is below the sentinel word. */
  predicate BelowSentinel(e: Event) {
    match e
    case Sign(sig, _) => WordsBelow(sig)
    case RaiseToPublished(seen, _) => WordsBelow(seen)
    case _ => true
  }

  predicate WordsBelow(sig: Signature) {
    match sig
    case Block(slot, _) => slot < U64_MAX
    case Attestation(d) => d.slot < U64_MAX && d.source.epoch < U64_MAX && d.target.epoch < U64_MAX
  }

  /** The signer's authoritative record covers everything in the log, through whatever comes next. */
  ghost predicate Keeps(s: Signer, log: seq<Signature>) {
    && (forall i :: 0 <= i < |log| ==> WordsBelow(log[i]))
    && Storable(s.memory)
    && (s.running ==> CoversAll(s.memory, log))
    && (s.anchor.Some? ==> s.anchored && CoversAll(Decode(s.anchor.value), log))
    && (s.running && s.anchored ==> s.anchor.Some?)
    && (s.anchored && s.anchor.None? ==> log == [])
    && (!s.anchored ==> CoversAll(Decode(s.disk), log))
  }

  /** What every step keeps: no slashable pair, and everything ever signed is covered. */
  ghost predicate Guarded(s: Signer) {
    NeverSlashable(s.released) && Keeps(s, s.released)
  }

  lemma AdmittedIsNew(m: Marks, earlier: Signature, sig: Signature)
    requires Covers(m, earlier) && Admits(m, sig) && WordsBelow(sig)
    ensures !Slashable(earlier, sig) && !Slashable(sig, earlier)
  {
  }

  lemma RaisedCovers(m: Marks, earlier: Signature, sig: Signature)
    requires Admits(m, sig)
    ensures Covers(Raised(m, sig), sig) && (Covers(m, earlier) ==> Covers(Raised(m, sig), earlier))
  {
  }

  lemma MaxCovers(a: Marks, b: Marks, sig: Signature)
    ensures Covers(a, sig) || Covers(b, sig) ==> Covers(MaxMarks(a, b), sig)
  {
  }

  /** A signature over the record is new to everything in the log, and is covered with it from then on. */
  lemma SignHolds(s: Signer, sig: Signature, fault: Fault, log: seq<Signature>)
    requires Keeps(s, log) && WordsBelow(sig)
    ensures var t := AfterSign(s, sig, fault);
            && Keeps(t, log)
            && (t.released == s.released
                || (&& t.released == s.released + [sig] && Keeps(t, log + [sig])
                    && forall i :: 0 <= i < |log| ==> !Slashable(log[i], sig) && !Slashable(sig, log[i])))
  {
    if s.running && Admits(s.memory, sig) {
      var next := Raised(s.memory, sig);
      forall i | 0 <= i < |log|
        ensures Covers(next, log[i]) && !Slashable(log[i], sig) && !Slashable(sig, log[i])
      {
        AdmittedIsNew(s.memory, log[i], sig);
        RaisedCovers(s.memory, log[i], sig);
      }
      RaisedCovers(s.memory, sig, sig);
      RecordRoundTrip(next);
    }
  }

  lemma SignKeeps(s: Signer, sig: Signature, fault: Fault)
    requires Guarded(s) && WordsBelow(sig)
    ensures Guarded(AfterSign(s, sig, fault))
  {
    SignHolds(s, sig, fault, s.released);
    assert !Slashable(sig, sig);
    hide AfterSign, Keeps;
  }

  lemma RaiseHolds(s: Signer, seen: Signature, fault: Fault, log: seq<Signature>)
    requires Keeps(s, log) && WordsBelow(seen)
    ensures Keeps(AfterRaise(s, seen, fault), log)
  {
    var next := MaxMarks(s.memory, SeenMarks(seen));
    forall i | 0 <= i < |log| ensures s.running ==> Covers(next, log[i]) {
      MaxCovers(s.memory, SeenMarks(seen), log[i]);
    }
    RecordRoundTrip(next);
  }

  lemma RaiseKeeps(s: Signer, seen: Signature, fault: Fault)
    requires Guarded(s) && WordsBelow(seen)
    ensures Guarded(AfterRaise(s, seen, fault))
  {
    RaiseHolds(s, seen, fault, s.released);
    hide Keeps;
  }

  lemma RestartHolds(s: Signer, accept: bool, raise: Fault, mirror: Fault, log: seq<Signature>)
    requires Keeps(s, log)
    ensures Keeps(AfterRestart(s, accept, raise, mirror), log)
  {
    hide Encode, Decode, Covers;
    var loaded := Decode(s.disk);
    DecodedIsStorable(s.disk);
    RecordRoundTrip(loaded);
    if s.anchor.Some? {
      var copy := Decode(s.anchor.value);
      DecodedIsStorable(s.anchor.value);
      var merged := MaxMarks(loaded, copy);
      forall i | 0 <= i < |log| ensures Covers(merged, log[i]) {
        MaxCovers(loaded, copy, log[i]);
      }
      RecordRoundTrip(merged);
    }
  }

  lemma RestartKeeps(s: Signer, accept: bool, raise: Fault, mirror: Fault)
    requires Guarded(s)
    ensures Guarded(AfterRestart(s, accept, raise, mirror))
  {
    RestartHolds(s, accept, raise, mirror, s.released);
    hide Keeps;
  }

  /** On a host without an anchor a data dir may only be replaced by one whose record covers what was signed. */
  ghost predicate Allowed(s: Signer, e: Event) {
    BelowSentinel(e) && (e.ReplaceDataDir? ==> s.anchored || CoversAll(Decode(e.record), s.released))
  }

  ghost predicate AllAllowed(s: Signer, events: seq<Event>) {
    forall i :: 0 <= i < |events| ==> Allowed(After(s, events[..i]), events[i])
  }

  lemma StepKeeps(s: Signer, e: Event)
    requires Guarded(s) && Allowed(s, e)
    ensures Guarded(Step(s, e)) && Step(s, e).anchored == s.anchored
  {
    match e
    case Sign(sig, fault) => SignKeeps(s, sig, fault);
    case Restart(accept, raise, mirror) => RestartKeeps(s, accept, raise, mirror);
    case Crash =>
    case ReplaceDataDir(record) =>
    case RaiseToPublished(seen, fault) => RaiseKeeps(s, seen, fault);
  }

  lemma {:induction false} RunKeeps(s: Signer, events: seq<Event>)
    requires Guarded(s) && AllAllowed(s, events)
    ensures Guarded(After(s, events)) && After(s, events).anchored == s.anchored
  {
    hide Guarded, Step, Allowed;
    if events != [] {
      var front := events[..|events| - 1];
      forall i | 0 <= i < |front| ensures Allowed(After(s, front[..i]), front[i]) {
        assert front[..i] == events[..i];
      }
      RunKeeps(s, front);
      StepKeeps(After(s, front), events[|events| - 1]);
    }
  }

  /**
   In every run from a first boot, whatever fails, dies, restarts or is rolled back, no two signatures ever
   released are slashable; on a host without an anchor a replaced data dir must cover what was signed.
   */
  lemma NoRunIsSlashable(anchored: bool, events: seq<Event>)
    requires AllAllowed(FirstBoot(anchored), events)
    ensures NeverSlashable(After(FirstBoot(anchored), events).released)
  {
    RunKeeps(FirstBoot(anchored), events);
  }

  // ── Signatures seen elsewhere ────────────────────────────────────────────

  /** No mark of the one is below the other's. */
  predicate Dominates(a: Marks, b: Marks) {
    MaxMarks(a, b) == a
  }

  /** What a restart will load is no lower than what the process has in memory. */
  predicate Durable(s: Signer) {
    s.running ==>
      if s.anchored then s.anchor.Some? && Dominates(Decode(s.anchor.value), s.memory)
      else Dominates(Decode(s.disk), s.memory)
  }

  /** On a host without an anchor a replaced data dir must cover the log and be no lower than the memory. */
  ghost predicate Permitted(s: Signer, e: Event, log: seq<Signature>) {
    && BelowSentinel(e)
    && (e.ReplaceDataDir? ==>
          || s.anchored
          || (CoversAll(Decode(e.record), log) && (s.running ==> Dominates(Decode(e.record), s.memory))))
  }

  ghost predicate AllPermitted(s: Signer, events: seq<Event>, log: seq<Signature>) {
    forall i :: 0 <= i < |events| ==> Permitted(After(s, events[..i]), events[i], log)
  }

  lemma DominatesCovers(a: Marks, b: Marks, sig: Signature)
    requires Dominates(a, b) && Covers(b, sig)
    ensures Covers(a, sig)
  {
    MaxCovers(a, b, sig);
  }

  lemma SignDurable(s: Signer, sig: Signature, fault: Fault)
    requires Keeps(s, []) && Durable(s) && WordsBelow(sig)
    ensures Durable(AfterSign(s, sig, fault))
  {
    RecordRoundTrip(Raised(s.memory, sig));
    hide Encode, Decode;
  }

  lemma RaiseDurable(s: Signer, seen: Signature, fault: Fault)
    requires Keeps(s, []) && Durable(s) && WordsBelow(seen)
    ensures Durable(AfterRaise(s, seen, fault))
  {
    RecordRoundTrip(MaxMarks(s.memory, SeenMarks(seen)));
    hide Encode, Decode;
  }

  lemma SameDominates(m: Marks)
    ensures Dominates(m, m)
  {
  }

  lemma RestartDurable(s: Signer, accept: bool, raise: Fault, mirror: Fault)
    requires Keeps(s, [])
    ensures Durable(AfterRestart(s, accept, raise, mirror))
  {
    hide Encode, Decode, MaxMarks, Dominates, Covers;
    var loaded := Decode(s.disk);
    DecodedIsStorable(s.disk);
    RecordRoundTrip(loaded);
    SameDominates(loaded);
    if s.anchor.Some? {
      var merged := MaxMarks(loaded, Decode(s.anchor.value));
      MergedIsStorable(s.disk, s.anchor.value);
      RecordRoundTrip(merged);
      SameDominates(merged);
    }
  }

  lemma MergedIsStorable(a: Record, b: Record)
    ensures Storable(MaxMarks(Decode(a), Decode(b)))
  {
  }

  lemma KeepsLess(s: Signer, log: seq<Signature>)
    requires Keeps(s, log)
    ensures Keeps(s, [])
  {
  }

  /** Nothing released by a step clashes with the log, and the log stays covered. */
  lemma StepHolds(s: Signer, e: Event, log: seq<Signature>)
    requires Keeps(s, log) && Durable(s) && Permitted(s, e, log)
    ensures Keeps(Step(s, e), log) && Durable(Step(s, e))
    ensures var t := Step(s, e);
            t.released == s.released || (|t.released| == |s.released| + 1 && s.released <= t.released
                                         && NoClash(log, t.released[|s.released|]))
  {
    KeepsLess(s, log);
    match e
    case Sign(sig, fault) =>
      SignHolds(s, sig, fault, log);
      SignDurable(s, sig, fault);
      hide Keeps, Durable;
    case Restart(accept, raise, mirror) =>
      RestartHolds(s, accept, raise, mirror, log);
      RestartDurable(s, accept, raise, mirror);
      hide Keeps, Durable;
    case Crash =>
    case ReplaceDataDir(record) =>
    case RaiseToPublished(seen, fault) =>
      RaiseHolds(s, seen, fault, log);
      RaiseDurable(s, seen, fault);
      hide Keeps, Durable;
  }

  ghost predicate NoClash(log: seq<Signature>, sig: Signature) {
    forall i :: 0 <= i < |log| ==> !Slashable(log[i], sig) && !Slashable(sig, log[i])
  }

  /** A raise that does not fail leaves what was seen covered, in memory and in what a restart loads. */
  lemma RaiseCovers(s: Signer, seen: Signature, fault: Fault)
    requires Keeps(s, []) && Durable(s) && s.running && WordsBelow(seen) && !fault.Failed?
    ensures var t := AfterRaise(s, seen, fault);
            && t.running && t.released == s.released && Covers(t.memory, seen) && Keeps(t, [seen])
            && Dominates(t.memory, s.memory) && (t.memory == s.memory || Decode(t.disk) == t.memory)
  {
    var t := AfterRaise(s, seen, fault);
    RaiseHolds(s, seen, fault, []);
    RaiseDurable(s, seen, fault);
    RaisedCovers(FRESH, seen, seen);
    MaxCovers(s.memory, SeenMarks(seen), seen);
    assert Covers(t.memory, seen);
    RecordRoundTrip(MaxMarks(s.memory, SeenMarks(seen)));
    if s.anchored {
      DominatesCovers(Decode(t.anchor.value), t.memory, seen);
    } else {
      DominatesCovers(Decode(t.disk), t.memory, seen);
    }
  }

  lemma {:induction false} RunHolds(s: Signer, events: seq<Event>, log: seq<Signature>)
    requires Keeps(s, log) && Durable(s) && AllPermitted(s, events, log)
    ensures var t := After(s, events);
            && Keeps(t, log) && Durable(t) && s.released <= t.released
            && forall k :: |s.released| <= k < |t.released| ==> NoClash(log, t.released[k])
  {
    hide Keeps, Durable, Step, Permitted, NoClash;
    if events != [] {
      var front := events[..|events| - 1];
      forall i | 0 <= i < |front| ensures Permitted(After(s, front[..i]), front[i], log) {
        assert front[..i] == events[..i];
      }
      RunHolds(s, front, log);
      StepHolds(After(s, front), events[|events| - 1], log);
    }
  }

  /**
   Once a running signer has been raised to a signature published elsewhere, nothing it releases in any
   continuation, whatever fails, dies, restarts or is rolled back, is slashable together with it.
   */
  lemma SeenIsNeverClashed(anchored: bool, before: seq<Event>, seen: Signature, fault: Fault, events: seq<Event>)
    requires AllPermitted(FirstBoot(anchored), before, []) && After(FirstBoot(anchored), before).running
    requires WordsBelow(seen) && !fault.Failed?
    requires AllPermitted(Step(After(FirstBoot(anchored), before), RaiseToPublished(seen, fault)), events, [seen])
    ensures var s := After(FirstBoot(anchored), before);
            var t := After(Step(s, RaiseToPublished(seen, fault)), events);
            && s.released <= t.released
            && forall k :: |s.released| <= k < |t.released| ==> NoClash([seen], t.released[k])
  {
    assert Keeps(FirstBoot(anchored), []) && Durable(FirstBoot(anchored));
    hide Keeps, Durable, AllPermitted, NoClash, After, AfterRaise;
    RunHolds(FirstBoot(anchored), before, []);
    var s := After(FirstBoot(anchored), before);
    RaiseCovers(s, seen, fault);
    RaiseDurable(s, seen, fault);
    RunHolds(AfterRaise(s, seen, fault), events, [seen]);
  }

  // ── What starting, writing and dying do ──────────────────────────────────

  /** The one record has a mark above the other's. */
  predicate Behind(a: Record, b: Record) {
    !Dominates(Decode(a), Decode(b))
  }

  /** May this start sign? A data dir behind the anchor needs leave and a write, an anchor behind a write. */
  predicate Starts(s: Signer, accept: bool, raise: Fault, mirror: Fault) {
    s.anchored ==>
      if s.anchor.None? then !mirror.Failed?
      else
        && (Behind(s.disk, s.anchor.value) ==> accept && !raise.Failed?)
        && (Behind(s.anchor.value, s.disk) ==> !mirror.Failed?)
  }

  /** Data dir, anchor and memory hold the same marks. */
  predicate InStep(s: Signer) {
    Decode(s.disk) == s.memory && (s.anchored ==> s.anchor.Some? && Decode(s.anchor.value) == s.memory)
  }

  lemma MergedIs(a: Marks, b: Marks)
    ensures Dominates(a, b) <==> MaxMarks(a, b) == a
    ensures Dominates(b, a) <==> MaxMarks(a, b) == b
    ensures Dominates(MaxMarks(a, b), a) && Dominates(MaxMarks(a, b), b)
  {
  }

  /**
   A start signs exactly when it may. It then has in step the data dir, the anchor and the memory, at the higher of
   the two marks found. It never lowers either copy, and a refused rollback changes neither.
   */
  lemma RestartExactly(s: Signer, accept: bool, raise: Fault, mirror: Fault)
    requires Keeps(s, [])
    ensures var t := AfterRestart(s, accept, raise, mirror);
            && (t.running <==> Starts(s, accept, raise, mirror)) && t.released == s.released
            && (t.running ==> InStep(t) && t.memory == if s.anchor.None? then Decode(s.disk)
                                                       else MaxMarks(Decode(s.disk), Decode(s.anchor.value)))
            && Dominates(Decode(t.disk), Decode(s.disk))
            && (s.anchor.Some? ==> t.anchor.Some? && Dominates(Decode(t.anchor.value), Decode(s.anchor.value)))
            && (s.anchor.Some? && Behind(s.disk, s.anchor.value) && !accept ==>
                  t.disk == s.disk && t.anchor == s.anchor)
  {
    hide Encode, Decode, MaxMarks, Dominates, Covers;
    var loaded := Decode(s.disk);
    DecodedIsStorable(s.disk);
    RecordRoundTrip(loaded);
    SameDominates(loaded);
    if s.anchor.Some? {
      var copy := Decode(s.anchor.value);
      var merged := MaxMarks(loaded, copy);
      MergedIsStorable(s.disk, s.anchor.value);
      RecordRoundTrip(merged);
      SameDominates(copy);
      SameDominates(merged);
      MergedIs(loaded, copy);
    }
  }

  /** A write that fails leaves each copy old or new, as the fault says, and the anchor new only if the data dir is. */
  lemma WriteOutcomes(s: Signer, next: Marks, fault: Fault)
    ensures var t := Write(s, next, fault);
            && (t.disk == if fault.Failed? && !fault.dataDirWritten then s.disk else Encode(next))
            && (t.anchor == if s.anchor.None? || (fault.Failed? && !(fault.dataDirWritten && fault.anchorWritten))
                            then s.anchor else Some(Encode(next)))
            && t == s.(disk := t.disk, anchor := t.anchor)
  {
  }

  /** A start that fails in writing leaves the copy it was writing old or new, as the fault says. */
  lemma FailedStartOutcomes(s: Signer, accept: bool, raise: Fault, mirror: Fault)
    requires s.anchored
    ensures var t := AfterRestart(s, accept, raise, mirror);
            && (s.anchor.None? && mirror.Failed? ==>
                  t.disk == s.disk && t.anchor == if mirror.anchorWritten then Some(Encode(Decode(s.disk))) else None)
            && (s.anchor.Some? && Behind(s.disk, s.anchor.value) && accept && raise.Failed? ==>
                  && t.anchor == s.anchor
                  && t.disk == if raise.dataDirWritten then Encode(MaxMarks(Decode(s.disk), Decode(s.anchor.value)))
                               else s.disk)
  {
    hide Encode, Decode;
  }

  predicate NoRestart(events: seq<Event>) {
    forall i :: 0 <= i < |events| ==> !events[i].Restart?
  }

  /** A process that has died signs nothing until it is started again. */
  lemma {:induction false} DeadUntilRestart(s: Signer, events: seq<Event>)
    requires !s.running && NoRestart(events)
    ensures !After(s, events).running && After(s, events).released == s.released
  {
    if events != [] {
      var front := events[..|events| - 1];
      forall i | 0 <= i < |front| ensures !front[i].Restart? {
        assert front[i] == events[i];
      }
      DeadUntilRestart(s, front);
    }
  }

  lemma CrashStops(s: Signer)
    ensures !Step(s, Crash).running && Step(s, Crash).released == s.released && Step(s, Crash).disk == s.disk
  {
  }

  /**
   A process that dies between the durable write and the signature has released nothing, and no later start of
   this host admits that signature again: the mark is spent.
   */
  lemma DyingSpendsTheMark(s: Signer, sig: Signature, accept: bool, raise: Fault, mirror: Fault)
    requires Keeps(s, []) && s.running && Admits(s.memory, sig) && WordsBelow(sig)
    ensures var t := AfterSign(s, sig, DiesBeforeSigning);
            && !t.running && t.released == s.released
            && var again := AfterRestart(t, accept, raise, mirror);
               again.running ==> !Admits(again.memory, sig)
  {
    var t, next := AfterSign(s, sig, DiesBeforeSigning), Raised(s.memory, sig);
    RecordRoundTrip(next);
    SignHolds(s, sig, DiesBeforeSigning, []);
    RestartExactly(t, accept, raise, mirror);
    assert !Admits(next, sig);
    if t.anchor.Some? {
      MaxRefuses(Decode(t.disk), Decode(t.anchor.value), sig);
    }
    hide AfterRestart, Encode, Decode, Covers, Keeps;
  }

  lemma MaxRefuses(a: Marks, b: Marks, sig: Signature)
    ensures !Admits(a, sig) ==> !Admits(MaxMarks(a, b), sig)
  {
  }

  // ── What the record costs an honest validator ────────────────────────────

  function Attested(votes: seq<Vote>): seq<Signature> {
    seq(|votes|, i requires 0 <= i < |votes| => Attestation(votes[i]))
  }

  /** One process that never fails asks for these signatures in turn. */
  function Signing(votes: seq<Vote>): seq<Event> {
    if votes == [] then [Restart(false, Clean, Clean)]
    else Signing(votes[..|votes| - 1]) + [Sign(Attestation(votes[|votes| - 1]), Clean)]
  }

  /** Each vote is for a later slot and target than the one before, from no earlier source. */
  predicate Rising(votes: seq<Vote>) {
    forall i :: 0 < i < |votes| ==>
      && votes[i - 1].slot < votes[i].slot && votes[i - 1].target.epoch < votes[i].target.epoch
      && votes[i - 1].source.epoch <= votes[i].source.epoch
  }

  predicate AllWordsBelow(votes: seq<Vote>) {
    forall i :: 0 <= i < |votes| ==> WordsBelow(Attestation(votes[i]))
  }

  function MarksAfter(votes: seq<Vote>): Marks {
    if votes == [] then FRESH else Raised(FRESH, Attestation(votes[|votes| - 1]))
  }

  ghost predicate HasReleased(s: Signer, votes: seq<Vote>) {
    && s.running && |s.released| <= |votes|
    && (s.released == Attested(votes) <==> Rising(votes))
    && (Rising(votes) ==> s.memory == MarksAfter(votes))
  }

  /** A signer that is asked for rising votes, and only such a one, releases every vote it is asked for. */
  lemma {:induction false} RisingIsReleased(anchored: bool, votes: seq<Vote>)
    requires AllWordsBelow(votes)
    ensures AllAllowed(FirstBoot(anchored), Signing(votes))
    ensures After(FirstBoot(anchored), Signing(votes)).released == Attested(votes) <==> Rising(votes)
    ensures HasReleased(After(FirstBoot(anchored), Signing(votes)), votes)
  {
    hide *;
    if votes == [] {
      Booted(anchored);
    } else {
      var before, last := votes[..|votes| - 1], votes[|votes| - 1];
      FrontBelow(votes);
      RisingIsReleased(anchored, before);
      SigningOneMore(anchored, votes);
      OneMoreReleased(After(FirstBoot(anchored), Signing(before)), votes);
    }
    Released(After(FirstBoot(anchored), Signing(votes)), votes);
  }

  lemma Released(s: Signer, votes: seq<Vote>)
    requires HasReleased(s, votes)
    ensures s.released == Attested(votes) <==> Rising(votes)
  {
  }

  lemma Booted(anchored: bool)
    ensures AllAllowed(FirstBoot(anchored), Signing([])) && HasReleased(After(FirstBoot(anchored), Signing([])), [])
  {
    var boot, events := FirstBoot(anchored), Signing([]);
    assert events[..0] == [] && After(boot, events[..0]) == boot;
  }

  lemma FrontBelow(votes: seq<Vote>)
    requires votes != [] && AllWordsBelow(votes)
    ensures AllWordsBelow(votes[..|votes| - 1]) && WordsBelow(Attestation(votes[|votes| - 1]))
  {
  }

  lemma SigningOneMore(anchored: bool, votes: seq<Vote>)
    requires votes != [] && WordsBelow(Attestation(votes[|votes| - 1]))
    requires AllAllowed(FirstBoot(anchored), Signing(votes[..|votes| - 1]))
    ensures AllAllowed(FirstBoot(anchored), Signing(votes))
    ensures After(FirstBoot(anchored), Signing(votes))
         == AfterSign(After(FirstBoot(anchored), Signing(votes[..|votes| - 1])), Attestation(votes[|votes| - 1]), Clean)
  {
    var boot, events := FirstBoot(anchored), Signing(votes);
    assert events[..|events| - 1] == Signing(votes[..|votes| - 1]);
    hide AfterSign, AllAllowed, Signing;
    AllowedOneMore(boot, events);
  }

  lemma OneMoreReleased(s: Signer, votes: seq<Vote>)
    requires votes != [] && HasReleased(s, votes[..|votes| - 1])
    ensures HasReleased(AfterSign(s, Attestation(votes[|votes| - 1]), Clean), votes)
  {
    var before, last := votes[..|votes| - 1], votes[|votes| - 1];
    RisingOneMore(votes);
    var x, asked := Attestation(last), Attested(before);
    assert Attested(votes) == asked + [x] && |Attested(votes)| == |votes|;
    assert s.released + [x] == asked + [x] ==> s.released == asked by {
      assert (s.released + [x])[..|s.released|] == s.released && (asked + [x])[..|asked|] == asked;
    }
    hide Rising, Write, Attested, Admits, MarksAfter;
    if Rising(before) {
      assert s.memory == MarksAfter(before);
    }
  }

  lemma AllowedOneMore(s: Signer, events: seq<Event>)
    requires events != [] && AllAllowed(s, events[..|events| - 1])
    requires Allowed(After(s, events[..|events| - 1]), events[|events| - 1])
    ensures AllAllowed(s, events)
  {
    var front := events[..|events| - 1];
    forall i | 0 <= i < |events| ensures Allowed(After(s, events[..i]), events[i]) {
      if i < |front| {
        assert front[..i] == events[..i] && Allowed(After(s, front[..i]), front[i]);
      }
    }
  }

  lemma RisingOneMore(votes: seq<Vote>)
    requires votes != []
    ensures var before, last := votes[..|votes| - 1], votes[|votes| - 1];
            Rising(votes) <==> Rising(before) && Admits(MarksAfter(before), Attestation(last))
  {
    var before := votes[..|votes| - 1];
    if Rising(before) && Admits(MarksAfter(before), Attestation(votes[|votes| - 1])) {
      forall i | 0 < i < |votes|
        ensures votes[i - 1].slot < votes[i].slot && votes[i - 1].target.epoch < votes[i].target.epoch
        ensures votes[i - 1].source.epoch <= votes[i].source.epoch
      {
        if i < |before| { assert before[i - 1] == votes[i - 1] && before[i] == votes[i]; }
      }
    }
  }

  // ── Where the guarantee ends ─────────────────────────────────────────────

  function Next(mark: Option<nat>): nat {
    if mark.None? then 0 else mark.value + 1
  }

  function Floor(mark: Option<nat>): nat {
    if mark.None? then 0 else mark.value
  }

  /** A signature these watermarks admit although it is slashable together with one they do not cover. */
  function Clash(m: Marks, sig: Signature): Signature {
    match sig
    case Block(slot, root) => Block(slot, root + 1)
    case Attestation(d) =>
      var source := Checkpoint(Floor(m.source), 0);
      Attestation(Vote(Next(m.slot), d.head + 1, source,
                       if Above(d.target.epoch, m.target) then d.target else Checkpoint(Next(m.target), 0)))
  }

  lemma ClashIsSlashable(m: Marks, sig: Signature)
    requires Storable(m) && WordsBelow(sig) && !Covers(m, sig)
    ensures Admits(m, Clash(m, sig)) && WordsBelow(Clash(m, sig)) && Slashable(sig, Clash(m, sig))
  {
  }

  /** Whatever is done from here on, with every move allowed, nothing slashable is released. */
  ghost predicate StaysUnslashable(s: Signer) {
    forall events :: AllAllowed(s, events) ==> NeverSlashable(After(s, events).released)
  }

  /** Restart on a record that does not cover a released signature, and sign the clash. */
  lemma UncoveredIsSlashable(s: Signer, i: nat)
    requires !s.anchored && i < |s.released| && WordsBelow(s.released[i]) && !Covers(Decode(s.disk), s.released[i])
    ensures !StaysUnslashable(s)
  {
    var m := Decode(s.disk);
    var clash := Clash(m, s.released[i]);
    DecodedIsStorable(s.disk);
    ClashIsSlashable(m, s.released[i]);
    var events := [Restart(false, Clean, Clean), Sign(clash, Clean)];
    assert events[..0] == [] && events[..1][..0] == [];
    assert After(s, events[..1]) == Step(s, events[0]);
    assert After(s, events) == Step(Step(s, events[0]), events[1]);
    assert AllAllowed(s, events);
    var released := After(s, events).released;
    assert released == s.released + [clash];
    assert Slashable(released[i], released[|s.released|]);
  }

  /**
   Without an anchor, replacing the data dir is survived by every continuation exactly when the new record
   stands at or above every released proposal slot, target epoch and source epoch; the attestation slot only
   matters where it leaves no slot to sign.
   */
  lemma RollbackExactly(s: Signer, record: Record)
    requires Guarded(s) && !s.anchored
    ensures StaysUnslashable(Step(s, ReplaceDataDir(record))) <==> CoversAll(Decode(record), s.released)
  {
    var replaced := Step(s, ReplaceDataDir(record));
    if CoversAll(Decode(record), s.released) {
      StepKeeps(s, ReplaceDataDir(record));
      forall events | AllAllowed(replaced, events) ensures NeverSlashable(After(replaced, events).released) {
        RunKeeps(replaced, events);
      }
    } else {
      var i :| 0 <= i < |s.released| && !Covers(Decode(record), s.released[i]);
      UncoveredIsSlashable(replaced, i);
    }
  }

  /** Without an anchor a restored older data dir signs a slot twice. */
  lemma RollbackWithoutAnchor()
    ensures
      var boot := Restart(false, Clean, Clean);
      var end := After(FirstBoot(false), [boot, Sign(Block(5, 1), Clean), ReplaceDataDir(Encode(FRESH)), boot,
                                          Sign(Block(5, 2), Clean)]);
      end.released == [Block(5, 1), Block(5, 2)] && !NeverSlashable(end.released)
  {
    var boot := Restart(false, Clean, Clean);
    var e := [boot, Sign(Block(5, 1), Clean), ReplaceDataDir(Encode(FRESH)), boot, Sign(Block(5, 2), Clean)];
    FiveSteps(FirstBoot(false), e);
    var released := After(FirstBoot(false), e).released;
    assert Slashable(released[0], released[1]);
  }

  /** A slot equal to the sentinel word is forgotten by the record, even on an anchored host. */
  lemma SentinelSlotIsForgotten()
    ensures
      var boot := Restart(false, Clean, Clean);
      var end :=
        After(FirstBoot(true), [boot, Sign(Block(U64_MAX, 1), Clean), Crash, boot, Sign(Block(U64_MAX, 2), Clean)]);
      end.released == [Block(U64_MAX, 1), Block(U64_MAX, 2)] && !NeverSlashable(end.released)
  {
    var boot := Restart(false, Clean, Clean);
    var e := [boot, Sign(Block(U64_MAX, 1), Clean), Crash, boot, Sign(Block(U64_MAX, 2), Clean)];
    FiveSteps(FirstBoot(true), e);
    var released := After(FirstBoot(true), e).released;
    assert Slashable(released[0], released[1]);
  }

  lemma FiveSteps(s: Signer, e: seq<Event>)
    requires |e| == 5
    ensures After(s, e) == Step(Step(Step(Step(Step(s, e[0]), e[1]), e[2]), e[3]), e[4])
  {
    assert e[..4][..3] == e[..3] && e[..3][..2] == e[..2] && e[..2][..1] == e[..1] && e[..1][..0] == [];
    assert After(s, e[..1]) == Step(s, e[0]);
    assert After(s, e[..2]) == Step(After(s, e[..1]), e[1]);
    assert After(s, e[..3]) == Step(After(s, e[..2]), e[2]);
    assert After(s, e[..4]) == Step(After(s, e[..3]), e[3]);
  }

  // ── The record as the node holds it ──────────────────────────────────────

  /** What a signing attempt came back with. */
  datatype Attempt =
    | Released
    | RefusedProposal(slot: nat, watermark: nat)
    | RefusedSlot(slot: nat, watermark: nat)
    | RefusedDoubleVote(target: nat, watermark: nat)
    | RefusedSurroundVote(source: nat, watermark: nat)
    | WriteFailed

  class SigningRecord {
    const anchored: bool
    var wm: Marks
    var disk: Record
    var mirror: Option<Record>
    ghost var released: seq<Signature>

    ghost function View(): Signer
      reads this
    {
      Signer(true, anchored, wm, disk, mirror, released)
    }

    /** The process over a record already loaded and reconciled with its anchor. */
    constructor (anchored: bool, wm: Marks, disk: Record, mirror: Option<Record>, ghost released: seq<Signature>)
      ensures View() == Signer(true, anchored, wm, disk, mirror, released)
    {
      this.anchored, this.wm, this.disk, this.mirror, this.released := anchored, wm, disk, mirror, released;
    }

    /** Write the record to the data dir, then to the anchor; memory moves only if both succeed. */
    method Commit(next: Marks, fault: Fault) returns (ok: bool)
      requires !fault.DiesBeforeSigning?
      modifies this`disk, this`mirror, this`wm
      ensures ok <==> fault.Clean?
      ensures View() == Write(old(View()), next, fault).(memory := if ok then next else old(wm))
    {
      if fault.Clean? || fault.dataDirWritten {
        disk := Encode(next);
        if mirror.Some? && (fault.Clean? || fault.anchorWritten) {
          mirror := Some(Encode(next));
        }
      }
      if fault.Failed? {
        return false;
      }
      wm := next;
      return true;
    }

    /** Sign a block proposal for `slot`, or refuse. */
    method GuardProposal(slot: nat, ghost root: Root, fault: Fault) returns (result: Attempt)
      requires !fault.DiesBeforeSigning?
      modifies this
      ensures View() == AfterSign(old(View()), Block(slot, root), fault)
      ensures result.Released? <==> Admits(old(wm), Block(slot, root)) && fault.Clean?
      ensures result.RefusedProposal? <==> !Admits(old(wm), Block(slot, root))
      ensures result.RefusedProposal? ==> result == RefusedProposal(slot, wm.proposal.value)
    {
      if wm.proposal.Some? && slot <= wm.proposal.value {
        return RefusedProposal(slot, wm.proposal.value);
      }
      var ok := Commit(wm.(proposal := Some(slot)), fault);
      if !ok {
        return WriteFailed;
      }
      released := released + [Block(slot, root)];
      return Released;
    }

    /** Sign an attestation, or refuse it and name the offence it would have been. */
    method GuardAttestation(vote: Vote, fault: Fault) returns (result: Attempt)
      requires !fault.DiesBeforeSigning?
      modifies this
      ensures View() == AfterSign(old(View()), Attestation(vote), fault)
      ensures result.Released? <==> Admits(old(wm), Attestation(vote)) && fault.Clean?
      ensures result.RefusedSlot? ==> !Above(vote.slot, wm.slot)
      ensures result.RefusedDoubleVote? ==> !Above(vote.target.epoch, wm.target)
      ensures result.RefusedSurroundVote? ==> !AtLeast(vote.source.epoch, wm.source)
      ensures result.WriteFailed? <==> Admits(old(wm), Attestation(vote)) && fault.Failed?
    {
      if wm.slot.Some? && vote.slot <= wm.slot.value {
        return RefusedSlot(vote.slot, wm.slot.value);
      }
      if wm.target.Some? && vote.target.epoch <= wm.target.value {
        return RefusedDoubleVote(vote.target.epoch, wm.target.value);
      }
      if wm.source.Some? && vote.source.epoch < wm.source.value {
        return RefusedSurroundVote(vote.source.epoch, wm.source.value);
      }
      var next := wm.(slot := Some(vote.slot), source := Some(vote.source.epoch), target := Some(vote.target.epoch));
      var ok := Commit(next, fault);
      if !ok {
        return WriteFailed;
      }
      released := released + [Attestation(vote)];
      return Released;
    }
  }
}
