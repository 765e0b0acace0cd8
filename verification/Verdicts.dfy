/**
 The convergence verdicts of the devnet scripts: the maps read from the logs
 and `chain_verdict` (scripts/lifecycle_devnet_soak_lib.py), and the older
 score (scripts/devnet-veredito.py).
 */
module Verdicts {

  import opened Options

  type Name = int
  type Slot = int

  /** A prefix of a block id or of a head root. */
  type Hash(==, !new)

  datatype View = View(id: Hash, root: Hash, proposer: nat)

  type Views = map<Slot, View>
  type Maps = map<Name, Views>

  // ── Reading a log ────────────────────────────────────────────────────────

  datatype Line = Line(slot: Slot, view: View)

  function LastWins(lines: seq<Line>): Views {
    if lines == [] then map[] else LastWins(lines[..|lines| - 1])[lines[|lines| - 1].slot := lines[|lines| - 1].view]
  }

  method ParseApplied(lines: seq<Line>) returns (out: Views)
    ensures out == LastWins(lines)
  {
    out := map[];
    for i := 0 to |lines|
      invariant out == LastWins(lines[..i])
    {
      out := out[lines[i].slot := lines[i].view];
      assert lines[..i + 1][..i] == lines[..i];
    }
    assert lines[..|lines|] == lines;
  }

  /** The last line of its slot. */
  predicate IsLast(lines: seq<Line>, i: nat) {
    i < |lines| && forall j :: i < j < |lines| ==> lines[j].slot != lines[i].slot
  }

  /** A slot is applied exactly when a line names it, with the view of its last line. */
  lemma {:induction false} LastLineCounts(lines: seq<Line>, slot: Slot)
    ensures slot in LastWins(lines) <==> exists i :: 0 <= i < |lines| && lines[i].slot == slot
    ensures forall i: nat :: IsLast(lines, i) && lines[i].slot == slot ==>
              slot in LastWins(lines) && LastWins(lines)[slot] == lines[i].view
  {
    if lines != [] {
      var n := |lines| - 1;
      LastLineCounts(lines[..n], slot);
      forall i: nat | IsLast(lines, i) && lines[i].slot == slot
        ensures slot in LastWins(lines) && LastWins(lines)[slot] == lines[i].view
      {
        if i < n {
          assert lines[n].slot != slot;
          assert IsLast(lines[..n], i) && lines[..n][i] == lines[i];
        }
      }
      if slot in LastWins(lines[..n]) {
        var i :| 0 <= i < n && lines[..n][i].slot == slot;
        assert lines[i].slot == slot;
      }
      if i :| 0 <= i < |lines| && lines[i].slot == slot {
        assert i < n ==> lines[..n][i].slot == slot;
      }
    }
  }

  /** Reading a log in two parts is reading each and letting the later override. */
  lemma {:induction false} ReadInParts(early: seq<Line>, later: seq<Line>)
    ensures LastWins(early + later) == LastWins(early) + LastWins(later)
  {
    if later == [] {
      assert early + later == early;
      assert LastWins(early) + map[] == LastWins(early);
    } else {
      var n := |later| - 1;
      ReadInParts(early, later[..n]);
      assert (early + later)[..|early| + n] == early + later[..n];
    }
  }

  // ── The verdict ──────────────────────────────────────────────────────────

  datatype Status = Converged | Diverged | NoData

  datatype Verdict = Verdict(
    status: Status,
    nodes: nat,
    commonSlots: nat,
    highestCommon: Option<Slot>,
    forks: map<Slot, map<Name, (Hash, Hash)>>,   // with what each node saw there
    apart: set<(Name, Name)>)

  predicate Same(v: View, w: View) {
    v.id == w.id && v.root == w.root
  }

  /** Two different nodes applied the slot. */
  predicate Shared(maps: Maps, a: Name, b: Name, slot: Slot) {
    a in maps && b in maps && a != b && slot in maps[a] && slot in maps[b]
  }

  predicate Share(maps: Maps, a: Name, b: Name)
    requires a in maps && b in maps
  {
    exists slot :: slot in maps[a] && slot in maps[b]
  }

  predicate ForkAt(maps: Maps, slot: Slot) {
    exists a, b :: a in maps && b in maps && Shared(maps, a, b, slot) && !Same(maps[a][slot], maps[b][slot])
  }

  ghost predicate AnyFork(maps: Maps) {
    exists slot :: ForkAt(maps, slot)
  }

  predicate AllShare(maps: Maps) {
    forall a, b :: a in maps && b in maps && a != b ==> Share(maps, a, b)
  }

  /** The status the docstring promises. */
  ghost function Promised(maps: Maps): Status {
    if AnyFork(maps) then Diverged
    else if |maps| >= 2 && AllShare(maps) then Converged
    else NoData
  }

  /** Two nodes applied the slot with another block or another head root. */
  predicate Differ(maps: Maps, a: Name, b: Name, slot: Slot) {
    && a in maps && b in maps && slot in maps[a] && slot in maps[b]
    && (maps[a][slot].id != maps[b][slot].id || maps[a][slot].root != maps[b][slot].root)
  }

  lemma ForkIsDifference(maps: Maps, slot: Slot)
    ensures ForkAt(maps, slot) <==> exists a, b :: a in maps && b in maps && Differ(maps, a, b, slot)
  {
    if ForkAt(maps, slot) {
      var a, b :| a in maps && b in maps && Shared(maps, a, b, slot) && !Same(maps[a][slot], maps[b][slot]);
      assert Differ(maps, a, b, slot);
    }
    if a, b :| a in maps && b in maps && Differ(maps, a, b, slot) {
      assert Shared(maps, a, b, slot) && !Same(maps[a][slot], maps[b][slot]);
    }
  }

  /** DIVERGED means that two nodes disagree about a block or its root somewhere; one of the two suffices. */
  lemma DivergedExactly(maps: Maps)
    ensures Promised(maps) == Diverged <==> exists a, b, slot :: Differ(maps, a, b, slot)
  {
    forall slot ensures ForkAt(maps, slot) <==> exists a, b :: a in maps && b in maps && Differ(maps, a, b, slot) {
      ForkIsDifference(maps, slot);
    }
    hide ForkAt;
    if a, b, slot :| Differ(maps, a, b, slot) {
      assert ForkAt(maps, slot);
    }
  }

  /** CONVERGED means two nodes at least, a slot in common for every two, and one block and root at each of them. */
  lemma ConvergedExactly(maps: Maps)
    ensures Promised(maps) == Converged
       <==> && |maps| >= 2
            && (forall a, b :: a in maps && b in maps && a != b ==> exists slot :: slot in maps[a] && slot in maps[b])
            && (forall a, b, slot :: a in maps && b in maps && slot in maps[a] && slot in maps[b] ==>
                  maps[a][slot].id == maps[b][slot].id && maps[a][slot].root == maps[b][slot].root)
  {
    DivergedExactly(maps);
    hide AnyFork;
    if AllShare(maps) {
      forall a, b | a in maps && b in maps && a != b ensures exists slot :: slot in maps[a] && slot in maps[b] {
        assert Share(maps, a, b);
      }
    }
    if Promised(maps) == Converged {
      forall a, b, slot | a in maps && b in maps && slot in maps[a] && slot in maps[b]
        ensures maps[a][slot].id == maps[b][slot].id && maps[a][slot].root == maps[b][slot].root
      {
        assert !Differ(maps, a, b, slot);
      }
    }
  }

  // ── Computing it ─────────────────────────────────────────────────────────

  /** Who applied a slot, and what they saw. */
  function At(maps: Maps, slot: Slot): map<Name, View> {
    map a | a in maps && slot in maps[a] :: maps[a][slot]
  }

  type Table = map<Slot, map<Name, View>>

  predicate Applied(maps: Maps, slot: Slot) {
    exists a :: a in maps && slot in maps[a]
  }

  /** The nodes' views, slot by slot. */
  ghost predicate IsTable(table: Table, maps: Maps) {
    && (forall slot :: slot in table <==> Applied(maps, slot))
    && (forall slot :: slot in table ==> table[slot] == At(maps, slot))
  }

  function Insert(table: Table, a: Name, slot: Slot, view: View): Table {
    table[slot := (if slot in table then table[slot] else map[])[a := view]]
  }

  lemma AddSlot(table: Table, maps: Maps, a: Name, slot: Slot, view: View)
    requires IsTable(table, maps) && a in maps
    ensures IsTable(Insert(table, a, slot, view), maps[a := maps[a][slot := view]])
  {
    var maps' := maps[a := maps[a][slot := view]];
    if slot !in table {
      assert !Applied(maps, slot);
      assert forall b :: b in maps ==> slot !in maps[b];
      assert At(maps, slot).Keys == {};
    }
    assert Insert(table, a, slot, view)[slot] == At(maps', slot);
    forall s ensures Applied(maps', s) <==> s == slot || Applied(maps, s) {
      if b :| b in maps && s in maps[b] {
        assert b in maps' && s in maps'[b];
      }
      assert slot in maps'[a];
    }
    forall s | s != slot ensures At(maps', s) == At(maps, s) {}
  }

  lemma AddNode(table: Table, maps: Maps, a: Name)
    requires IsTable(table, maps) && a !in maps
    ensures IsTable(table, maps[a := map[]])
  {
    var maps' := maps[a := map[]];
    forall s ensures Applied(maps', s) <==> Applied(maps, s) {
      if b :| b in maps && s in maps[b] {
        assert b in maps' && s in maps'[b];
      }
    }
    forall s ensures At(maps', s) == At(maps, s) {}
  }

  lemma Any<T>(s: set<T>) returns (x: T)
    requires s != {}
    ensures x in s
  {
    x :| x in s;
  }

  /** Adds one node's slots to the table. */
  method InsertNode(before: Table, ghost maps: Maps, a: Name, views: Views) returns (table: Table)
    requires IsTable(before, maps) && a !in maps
    ensures IsTable(table, maps[a := views])
  {
    hide IsTable, Insert;
    table := before;
    AddNode(table, maps, a);
    var slots := views.Keys;
    ghost var seen: Views := map[];
    while slots != {}
      invariant slots <= views.Keys
      invariant seen == map s | s in views && s !in slots :: views[s]
      invariant IsTable(table, maps[a := seen])
      decreases slots
    {
      ghost var some := Any(slots);
      var slot :| slot in slots;
      AddSlot(table, maps[a := seen], a, slot, views[slot]);
      assert maps[a := seen][a := seen[slot := views[slot]]] == maps[a := seen[slot := views[slot]]];
      table := Insert(table, a, slot, views[slot]);
      seen := seen[slot := views[slot]];
      slots := slots - {slot};
    }
    assert seen == views;
  }

  method BySlot(maps: Maps) returns (table: Table)
    ensures IsTable(table, maps)
  {
    hide At;
    table := map[];
    var names := maps.Keys;
    ghost var seen: Maps := map[];
    while names != {}
      invariant names <= maps.Keys
      invariant seen == map b | b in maps && b !in names :: maps[b]
      invariant IsTable(table, seen)
      decreases names
    {
      ghost var some := Any(names);
      var a :| a in names;
      table := InsertNode(table, seen, a, maps[a]);
      seen := seen[a := maps[a]];
      names := names - {a};
    }
    assert seen == maps;
  }

  lemma TwoOf<T>(s: set<T>) returns (x: T, y: T)
    requires |s| >= 2
    ensures x in s && y in s && x != y
  {
    x :| x in s;
    assert |s - {x}| == |s| - 1;
    y := Any(s - {x});
  }

  lemma AtLeastTwo<T>(s: set<T>, x: T, y: T)
    requires x in s && y in s && x != y
    ensures |s| >= 2
  {
    assert |s| == |s - {x} - {y}| + 2;
  }

  /** Two nodes applied the slot. */
  predicate Common(maps: Maps, slot: Slot) {
    exists a, b :: a in maps && b in maps && Shared(maps, a, b, slot)
  }

  /** The (id, root) pairs seen at a slot. */
  function Seen(row: map<Name, View>): set<(Hash, Hash)> {
    set a | a in row :: (row[a].id, row[a].root)
  }

  /** What is listed beside a fork. */
  function Pairs(row: map<Name, View>): map<Name, (Hash, Hash)> {
    map a | a in row :: (row[a].id, row[a].root)
  }

  lemma CommonRow(maps: Maps, slot: Slot)
    ensures |At(maps, slot)| >= 2 <==> Common(maps, slot)
  {
    var row := At(maps, slot);
    assert |row| == |row.Keys|;
    if Common(maps, slot) {
      var a, b :| a in maps && b in maps && Shared(maps, a, b, slot);
      AtLeastTwo(row.Keys, a, b);
    }
    if |row| >= 2 {
      var x, y := TwoOf(row.Keys);
      assert Shared(maps, x, y, slot);
    }
  }

  lemma ForkRow(maps: Maps, slot: Slot)
    ensures |Seen(At(maps, slot))| > 1 <==> ForkAt(maps, slot)
  {
    var row := At(maps, slot);
    if ForkAt(maps, slot) {
      var a, b :| a in maps && b in maps && Shared(maps, a, b, slot) && !Same(maps[a][slot], maps[b][slot]);
      assert a in row && b in row;
      AtLeastTwo(Seen(row), (row[a].id, row[a].root), (row[b].id, row[b].root));
    }
    if |Seen(row)| > 1 {
      var x, y := TwoOf(Seen(row));
      var a :| a in row && (row[a].id, row[a].root) == x;
      var b :| b in row && (row[b].id, row[b].root) == y;
      assert Shared(maps, a, b, slot);
    }
  }

  method Highest(slots: set<Slot>) returns (top: Slot)
    requires slots != {}
    ensures top in slots && forall s :: s in slots ==> s <= top
  {
    ghost var some := Any(slots);
    top :| top in slots;
    var rest := slots - {top};
    while rest != {}
      invariant rest <= slots && top in slots
      invariant forall s :: s in slots && s !in rest ==> s <= top
      decreases rest
    {
      ghost var other := Any(rest);
      var s :| s in rest;
      if s > top { top := s; }
      rest := rest - {s};
    }
  }

  ghost predicate ForksExact(maps: Maps, forks: set<Slot>) {
    forall slot :: slot in forks <==> ForkAt(maps, slot)
  }

  ghost predicate ApartExact(maps: Maps, apart: set<(Name, Name)>) {
    forall a, b :: (a, b) in apart <==> a in maps && b in maps && a < b && !Share(maps, a, b)
  }

  ghost predicate CommonExact(maps: Maps, slots: set<Slot>) {
    forall slot :: slot in slots <==> Common(maps, slot)
  }

  /** The number of common slots and the highest of them. */
  ghost predicate Summary(maps: Maps, count: nat, highest: Option<Slot>) {
    exists slots ::
      && CommonExact(maps, slots) && |slots| == count
      && (highest.None? <==> slots == {})
      && (highest.Some? ==> highest.value in slots && forall s :: s in slots ==> s <= highest.value)
  }

  lemma TwoNames(maps: Maps) returns (a: Name, b: Name)
    requires |maps| >= 2
    ensures a in maps && b in maps && a < b
  {
    assert |maps.Keys| == |maps|;
    a, b := TwoOf(maps.Keys);
    if b < a { a, b := b, a; }
  }

  /** Different nodes make two of them. */
  lemma Several(maps: Maps, a: Name, b: Name)
    requires a in maps && b in maps && a != b
    ensures |maps| >= 2
  {
    assert |maps.Keys| == |maps|;
    AtLeastTwo(maps.Keys, a, b);
  }

  lemma FewAreTogether(maps: Maps)
    requires |maps| < 2
    ensures ForksExact(maps, {}) && ApartExact(maps, {}) && CommonExact(maps, {}) && Promised(maps) == NoData
  {
    forall a, b | a in maps && b in maps ensures a == b {
      if a != b { Several(maps, a, b); }
    }
  }

  lemma StatusFollows(maps: Maps, forks: set<Slot>, apart: set<(Name, Name)>)
    requires |maps| >= 2 && ForksExact(maps, forks) && ApartExact(maps, apart)
    ensures Promised(maps) == if forks != {} then Diverged else if apart != {} then NoData else Converged
  {
    if forks != {} {
      var slot := Any(forks);
      assert ForkAt(maps, slot);
    }
    if apart != {} {
      var p := Any(apart);
      assert (p.0, p.1) in apart;
      assert !Share(maps, p.0, p.1);
    } else {
      forall a, b | a in maps && b in maps && a != b ensures Share(maps, a, b) {
        assert (a, b) !in apart && (b, a) !in apart;
        if a > b { ShareEither(maps, b, a); }
      }
    }
  }

  lemma ShareEither(maps: Maps, a: Name, b: Name)
    requires a in maps && b in maps && Share(maps, a, b)
    ensures Share(maps, b, a)
  {
    var slot :| slot in maps[a] && slot in maps[b];
  }

  lemma NoneCommon(maps: Maps)
    requires CommonExact(maps, {})
    ensures ForksExact(maps, {})
    ensures forall a, b :: a in maps && b in maps && a != b ==> !Share(maps, a, b)
  {
    forall slot ensures !ForkAt(maps, slot) {
      assert !Common(maps, slot);
    }
    forall a, b | a in maps && b in maps && a != b ensures !Share(maps, a, b) {
      if slot :| slot in maps[a] && slot in maps[b] {
        assert Shared(maps, a, b, slot);
        assert Common(maps, slot);
      }
    }
  }

  lemma RowOfNobody(maps: Maps, slot: Slot)
    ensures !Applied(maps, slot) ==> At(maps, slot) == map[]
  {
    if !Applied(maps, slot) {
      assert forall b :: b in maps ==> slot !in maps[b];
      assert At(maps, slot).Keys == {};
    }
  }

  lemma ForkIsCommon(maps: Maps, slot: Slot)
    requires ForkAt(maps, slot)
    ensures Common(maps, slot)
  {
  }

  /** The pairs of nodes sharing no slot. */
  function Strangers(maps: Maps): (apart: set<(Name, Name)>)
    ensures ApartExact(maps, apart)
  {
    var apart := set a, b | a in maps && b in maps && a < b && maps[a].Keys * maps[b].Keys == {} :: (a, b);
    StrangersExact(maps, apart);
    apart
  }

  lemma StrangersExact(maps: Maps, apart: set<(Name, Name)>)
    requires apart == set a, b | a in maps && b in maps && a < b && maps[a].Keys * maps[b].Keys == {} :: (a, b)
    ensures ApartExact(maps, apart)
  {
    forall a, b | a in maps && b in maps ensures maps[a].Keys * maps[b].Keys == {} <==> !Share(maps, a, b) {
      if maps[a].Keys * maps[b].Keys != {} {
        var slot := Any(maps[a].Keys * maps[b].Keys);
        assert slot in maps[a] && slot in maps[b];
      }
      if Share(maps, a, b) {
        var slot :| slot in maps[a] && slot in maps[b];
        assert slot in maps[a].Keys * maps[b].Keys;
      }
    }
  }

  /** Beside a fork stand exactly the nodes that applied the slot, each with the block and the root it saw. */
  ghost predicate ViewsExact(maps: Maps, forks: map<Slot, map<Name, (Hash, Hash)>>) {
    forall slot, a :: slot in forks ==>
      && (a in forks[slot] <==> a in maps && slot in maps[a])
      && (a in forks[slot] ==> forks[slot][a] == (maps[a][slot].id, maps[a][slot].root))
  }

  lemma NoViews(maps: Maps)
    ensures ViewsExact(maps, map[])
  {
  }

  lemma PairsExact(maps: Maps, slot: Slot)
    ensures forall a :: (a in Pairs(At(maps, slot)) <==> a in maps && slot in maps[a])
                     && (a in maps && slot in maps[a] ==>
                           Pairs(At(maps, slot))[a] == (maps[a][slot].id, maps[a][slot].root))
  {
  }

  /** The common slots at which more than one pair of block and root was seen. */
  method Forks(maps: Maps, common: Table) returns (forks: map<Slot, map<Name, (Hash, Hash)>>)
    requires forall slot :: slot in common <==> Common(maps, slot)
    requires forall slot :: slot in common ==> common[slot] == At(maps, slot)
    ensures ForksExact(maps, forks.Keys) && ViewsExact(maps, forks)
  {
    hide Common, ForkAt, At, Pairs, Seen;
    var slots := set slot | slot in common && |Seen(common[slot])| > 1;
    forall slot ensures slot in slots <==> ForkAt(maps, slot) {
      ForkRow(maps, slot);
      if ForkAt(maps, slot) { ForkIsCommon(maps, slot); }
    }
    forks := map slot | slot in slots :: Pairs(common[slot]);
    forall slot | slot in forks
      ensures forall a :: (a in forks[slot] <==> a in maps && slot in maps[a])
                       && (a in forks[slot] ==> forks[slot][a] == (maps[a][slot].id, maps[a][slot].root))
    {
      PairsExact(maps, slot);
    }
  }

  /** The exact verdict: its status, every fork and every pair of nodes sharing no slot. */
  method ChainVerdict(maps: Maps) returns (v: Verdict)
    ensures v.status == Promised(maps)
    ensures v.nodes == |maps|
    ensures ForksExact(maps, v.forks.Keys) && ApartExact(maps, v.apart)
    ensures ViewsExact(maps, v.forks)
    ensures Summary(maps, v.commonSlots, v.highestCommon)
  {
    hide Promised, Common, ForkAt, At, Share, ViewsExact, ForksExact;
    var none: map<Slot, map<Name, (Hash, Hash)>> := map[];
    NoViews(maps);
    assert none.Keys == {};
    if |maps| < 2 {
      FewAreTogether(maps);
      return Verdict(NoData, |maps|, 0, None, none, {});
    }
    var table := BySlot(maps);
    var common := map slot | slot in table && |table[slot]| >= 2 :: table[slot];
    forall slot ensures slot in common <==> Common(maps, slot) {
      CommonRow(maps, slot);
      RowOfNobody(maps, slot);
    }
    assert CommonExact(maps, common.Keys);
    if common == map[] {
      var all := set a, b | a in maps && b in maps && a < b :: (a, b);
      NoneCommon(maps);
      ghost var a, b := TwoNames(maps);
      assert (a, b) in all;
      StatusFollows(maps, {}, all);
      return Verdict(NoData, |maps|, 0, None, none, all);
    }
    var forks := Forks(maps, common);
    var apart := Strangers(maps);
    StatusFollows(maps, forks.Keys, apart);
    var top := Highest(common.Keys);
    assert forks.Keys != {} <==> forks != map[];
    var status := if forks != map[] then Diverged else if apart != {} then NoData else Converged;
    v := Verdict(status, |maps|, |common.Keys|, Some(top), forks, apart);
  }

  // ── Fewer nodes, fewer slots ─────────────────────────────────────────────

  predicate Restricts(few: Maps, maps: Maps) {
    forall a :: a in few
      ==> a in maps && forall slot :: slot in few[a] ==> slot in maps[a] && few[a][slot] == maps[a][slot]
  }

  /** A divergence seen on some of the nodes and slots stays one on all of them. */
  lemma DivergenceGrows(few: Maps, maps: Maps)
    requires Restricts(few, maps) && Promised(few) == Diverged
    ensures Promised(maps) == Diverged
  {
    var slot :| ForkAt(few, slot);
    var a, b :| a in few && b in few && Shared(few, a, b, slot) && !Same(few[a][slot], few[b][slot]);
    assert Shared(maps, a, b, slot);
    assert ForkAt(maps, slot);
  }

  /** Any two or more nodes of a converged network have converged. */
  lemma ConvergenceInherited(names: set<Name>, maps: Maps)
    requires names <= maps.Keys && |names| >= 2 && Promised(maps) == Converged
    ensures Promised(map a | a in maps && a in names :: maps[a]) == Converged
  {
    var few := map a | a in maps && a in names :: maps[a];
    assert few.Keys == names;
    assert |few| == |few.Keys|;
    if AnyFork(few) {
      DivergenceGrows(few, maps);
    }
    forall a, b | a in few && b in few && a != b ensures Share(few, a, b) {
      assert Share(maps, a, b);
      var slot :| slot in maps[a] && slot in maps[b];
      assert slot in few[a] && slot in few[b];
    }
  }

  // ── The older score ──────────────────────────────────────────────────────

  type Ids = map<Name, map<Slot, Hash>>

  datatype Score = FewLogs(nodes: nat) | NoCommonSlot | Scored(converged: bool, top: Slot, nodes: nat)

  function NonEmpty(logs: Ids): Ids {
    map a | a in logs && logs[a] != map[] :: logs[a]
  }

  predicate OnAll(per: Ids, slot: Slot) {
    forall a :: a in per ==> slot in per[a]
  }

  /** What the score says, whatever order it reads the logs in. */
  ghost predicate ScoreIs(logs: Ids, r: Score) {
    var per := NonEmpty(logs);
    match r
    case FewLogs(n) => n == |per| < 2
    case NoCommonSlot => |per| >= 2 && forall slot :: !OnAll(per, slot)
    case Scored(converged, top, n) =>
      && n == |per| >= 2
      && OnAll(per, top) && (forall slot :: OnAll(per, slot) ==> slot <= top)
      && (converged <==> forall a, b :: a in per && b in per ==> per[a][top] == per[b][top])
  }

  /** The slots on every log of a nonempty table. */
  method Intersection(per: Ids) returns (common: set<Slot>)
    requires |per| >= 1
    ensures forall slot :: slot in common <==> OnAll(per, slot)
  {
    var names := per.Keys;
    assert |names| == |per|;
    ghost var some := Any(names);
    var a :| a in names;
    common, names := per[a].Keys, names - {a};
    while names != {}
      invariant names <= per.Keys && a !in names && a in per
      invariant forall slot :: slot in common <==> forall b :: b in per && b !in names ==> slot in per[b]
      decreases names
    {
      ghost var other := Any(names);
      var b :| b in names;
      common, names := common * per[b].Keys, names - {b};
    }
  }

  method ScoreLogs(logs: Ids) returns (r: Score)
    ensures ScoreIs(logs, r)
  {
    var per := NonEmpty(logs);
    if |per| < 2 {
      return FewLogs(|per|);
    }
    var common := Intersection(per);
    if common == {} {
      return NoCommonSlot;
    }
    var top := Highest(common);
    var ids := set a | a in per :: per[a][top];
    OneId(per, top, ids);
    r := Scored(|ids| == 1, top, |per|);
  }

  lemma OneId(per: Ids, top: Slot, ids: set<Hash>)
    requires per.Keys != {} && OnAll(per, top) && ids == set a | a in per :: per[a][top]
    ensures |ids| == 1 <==> forall a, b :: a in per && b in per ==> per[a][top] == per[b][top]
  {
    var a := Any(per.Keys);
    assert per[a][top] in ids;
    if |ids| >= 2 {
      var x, y := TwoOf(ids);
    } else {
      forall b | b in per ensures per[b][top] == per[a][top] {
        assert per[b][top] in ids;
        if per[b][top] != per[a][top] { AtLeastTwo(ids, per[b][top], per[a][top]); }
      }
    }
  }

  // ── The two verdicts compared ────────────────────────────────────────────

  function IdsOf(views: Views): map<Slot, Hash> {
    map slot | slot in views :: views[slot].id
  }

  function AllIds(maps: Maps): Ids {
    map a | a in maps :: IdsOf(maps[a])
  }

  /** The score never cries fork where the chain verdict does not. */
  lemma ScoredForkIsFork(maps: Maps, r: Score)
    requires ScoreIs(AllIds(maps), r) && r.Scored? && !r.converged
    ensures Promised(maps) == Diverged
  {
    var per := NonEmpty(AllIds(maps));
    var a, b :| a in per && b in per && per[a][r.top] != per[b][r.top];
    assert Shared(maps, a, b, r.top);
    assert ForkAt(maps, r.top);
  }

  /** On a converged network the score says so exactly when some slot is on every log, and else finds none common. */
  lemma ConvergedScores(maps: Maps, r: Score)
    requires Promised(maps) == Converged && ScoreIs(AllIds(maps), r)
    ensures r.Scored? && r.converged <==> exists slot :: OnAll(NonEmpty(AllIds(maps)), slot)
    ensures r.NoCommonSlot? <==> !(r.Scored? && r.converged)
  {
    var per := NonEmpty(AllIds(maps));
    var a, b := TwoNames(maps);
    assert Share(maps, a, b);
    var slot :| slot in maps[a] && slot in maps[b];
    assert slot in IdsOf(maps[a]) && slot in IdsOf(maps[b]);
    assert a in per && b in per;
    AtLeastTwo(per.Keys, a, b);
    assert |per.Keys| == |per|;
    if r.Scored? && !r.converged { ScoredForkIsFork(maps, r); }
  }

  /**
   The score is the coarser: it looks at ids only, at the highest slot all
   nodes share. It calls converged a network that forked below that slot.
   */
  lemma ScoreMissesOlderFork(x: View, y: View)
    requires !Same(x, y)
    ensures var maps: Maps := map[0 := map[1 := x, 2 := x], 1 := map[1 := y, 2 := x]];
            Promised(maps) == Diverged && ScoreIs(AllIds(maps), Scored(true, 2, 2))
  {
    var maps: Maps := map[0 := map[1 := x, 2 := x], 1 := map[1 := y, 2 := x]];
    assert Shared(maps, 0, 1, 1);
    assert ForkAt(maps, 1);
    var per := NonEmpty(AllIds(maps));
    assert 1 in IdsOf(maps[0]) && 1 in IdsOf(maps[1]);
    assert per.Keys == {0, 1};
    assert per[0] == IdsOf(maps[0]) && per[1] == IdsOf(maps[1]);
    assert |per| == |per.Keys| == 2;
    assert OnAll(per, 2);
    forall slot | OnAll(per, slot) ensures slot <= 2 {
      assert slot in per[0];
    }
  }
}
