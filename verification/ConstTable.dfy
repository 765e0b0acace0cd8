/**
 The table of constants the prose guard compares comments with
 (scripts/check-comment-constants.py): a name is kept when all its literal
 declarations agree.
 */
module ConstTable {

  import opened Options

  type Name(==, !new)
  type Path(==, !new)

  datatype Val = IntVal(num: int, text: string) | Sentinel(num: int, text: string) | BoolVal(text: string)

  /** A sentinel and an integer compare by number, a bool only with a bool. */
  predicate Same(v: Val, w: Val) {
    if v.BoolVal? || w.BoolVal? then v.BoolVal? && w.BoolVal? && v.text == w.text else v.num == w.num
  }

  /** What a value stands for: a number, however it is written, or a truth value. */
  datatype Meaning = Number(num: int) | Truth(text: string)

  function MeaningOf(v: Val): Meaning {
    match v
    case IntVal(num, _) => Number(num)
    case Sentinel(num, _) => Number(num)
    case BoolVal(text) => Truth(text)
  }

  /** Values agree exactly when they stand for the same thing. */
  lemma SameExactly(v: Val, w: Val)
    ensures Same(v, w) <==> MeaningOf(v) == MeaningOf(w)
  {
  }

  /** A line declares a constant, with a value if its initialiser is a literal. */
  datatype Line = Declares(name: Name, val: Option<Val>) | Other

  datatype File = File(path: Path, lines: seq<Line>)
  datatype Item = Item(name: Name, val: Option<Val>, path: Path, line: nat)

  // ── The declarations in the order they are met ───────────────────────────

  function FileItems(f: File, k: nat): seq<Item>
    requires k <= |f.lines|
  {
    if k == 0 then []
    else
      FileItems(f, k - 1) +
      match f.lines[k - 1]
      case Declares(name, val) => [Item(name, val, f.path, k)]
      case Other => []
  }

  function Items(files: seq<File>): seq<Item> {
    if files == [] then []
    else Items(files[..|files| - 1]) + FileItems(files[|files| - 1], |files[|files| - 1].lines|)
  }

  predicate Literal(items: seq<Item>, name: Name, i: nat) {
    i < |items| && items[i].name == name && items[i].val.Some?
  }

  predicate HasLiteral(items: seq<Item>, name: Name) {
    exists i :: 0 <= i < |items| && Literal(items, name, i)
  }

  /** All literal declarations of the name agree. */
  predicate Agrees(items: seq<Item>, name: Name) {
    forall i, j :: 0 <= i < |items| && 0 <= j < |items| && Literal(items, name, i) && Literal(items, name, j)
      ==> Same(items[i].val.value, items[j].val.value)
  }

  function Unresolved(items: seq<Item>): nat {
    if items == [] then 0
    else Unresolved(items[..|items| - 1]) + if items[|items| - 1].val.None? then 1 else 0
  }

  // ── What the loop keeps ──────────────────────────────────────────────────

  datatype Entry = Entry(val: Val, path: Path, line: nat)
  datatype Work = Work(table: map<Name, Entry>, ambiguous: set<Name>, unresolved: nat)

  function Added(w: Work, x: Item): Work {
    if x.val.None? then w.(unresolved := w.unresolved + 1)
    else if x.name !in w.table then w.(table := w.table[x.name := Entry(x.val.value, x.path, x.line)])
    else if Same(w.table[x.name].val, x.val.value) then w
    else w.(ambiguous := w.ambiguous + {x.name})
  }

  predicate IsFirst(items: seq<Item>, name: Name, i: nat) {
    Literal(items, name, i) && forall j :: 0 <= j < i ==> !Literal(items, name, j)
  }

  predicate FromFirst(items: seq<Item>, name: Name, e: Entry) {
    exists i :: 0 <= i < |items| && IsFirst(items, name, i) && items[i].val == Some(e.val)
             && items[i].path == e.path && items[i].line == e.line
  }

  predicate Conflicts(items: seq<Item>, name: Name, e: Entry) {
    exists i :: 0 <= i < |items| && Literal(items, name, i) && !Same(e.val, items[i].val.value)
  }

  /** Every name's first literal declaration, and the names with one that differs from it. */
  ghost predicate Keeps(items: seq<Item>, w: Work) {
    && (forall name :: name in w.table <==> HasLiteral(items, name))
    && (forall name :: name in w.table ==> FromFirst(items, name, w.table[name]))
    && (forall name :: name in w.ambiguous <==> name in w.table && Conflicts(items, name, w.table[name]))
    && w.unresolved == Unresolved(items)
  }

  lemma MoreLiterals(items: seq<Item>, x: Item, name: Name)
    ensures HasLiteral(items + [x], name) <==> HasLiteral(items, name) || (x.name == name && x.val.Some?)
  {
    var more := items + [x];
    if HasLiteral(items, name) {
      var i :| 0 <= i < |items| && Literal(items, name, i);
      assert Literal(more, name, i);
    }
    if x.name == name && x.val.Some? {
      assert Literal(more, name, |items|);
    }
    if HasLiteral(more, name) {
      var i :| 0 <= i < |more| && Literal(more, name, i);
      if i < |items| { assert Literal(items, name, i); }
    }
  }

  lemma StaysFirst(items: seq<Item>, x: Item, name: Name, e: Entry)
    requires FromFirst(items, name, e)
    ensures FromFirst(items + [x], name, e)
    ensures Conflicts(items + [x], name, e) <==>
      Conflicts(items, name, e) || (x.name == name && x.val.Some? && !Same(e.val, x.val.value))
  {
    var more := items + [x];
    var i :| 0 <= i < |items| && IsFirst(items, name, i) && items[i].val == Some(e.val)
             && items[i].path == e.path && items[i].line == e.line;
    assert more[i] == items[i];
    forall j | 0 <= j < i ensures !Literal(more, name, j) {
      assert !Literal(items, name, j);
    }
    assert IsFirst(more, name, i);
    forall j | 0 <= j < |items| ensures Literal(items, name, j) <==> Literal(more, name, j) {}
    if Conflicts(items, name, e) {
      var j :| 0 <= j < |items| && Literal(items, name, j) && !Same(e.val, items[j].val.value);
      assert Literal(more, name, j) && !Same(e.val, more[j].val.value);
    }
    if x.name == name && x.val.Some? {
      assert Literal(more, name, |items|);
    }
  }

  lemma BecomesFirst(items: seq<Item>, x: Item)
    requires !HasLiteral(items, x.name) && x.val.Some?
    ensures FromFirst(items + [x], x.name, Entry(x.val.value, x.path, x.line))
    ensures !Conflicts(items + [x], x.name, Entry(x.val.value, x.path, x.line))
  {
    var more := items + [x];
    forall j | 0 <= j < |items| ensures !Literal(more, x.name, j) {
      assert !Literal(items, x.name, j);
    }
    assert IsFirst(more, x.name, |items|);
  }

  lemma AddKeeps(items: seq<Item>, w: Work, x: Item)
    requires Keeps(items, w)
    ensures Keeps(items + [x], Added(w, x))
  {
    hide HasLiteral, FromFirst, Conflicts;
    var w' := Added(w, x);
    assert (items + [x])[..|items|] == items;
    forall name ensures HasLiteral(items + [x], name) <==> HasLiteral(items, name) || (x.name == name && x.val.Some?) {
      MoreLiterals(items, x, name);
    }
    forall name | name in w.table
      ensures FromFirst(items + [x], name, w.table[name])
      ensures Conflicts(items + [x], name, w.table[name]) <==>
        Conflicts(items, name, w.table[name])
        || (x.name == name && x.val.Some? && !Same(w.table[name].val, x.val.value))
    {
      StaysFirst(items, x, name, w.table[name]);
    }
    if x.val.Some? && x.name !in w.table {
      BecomesFirst(items, x);
    }
  }

  // ── The loops ────────────────────────────────────────────────────────────

  method ReadFile(f: File, ghost before: seq<Item>, start: Work) returns (w: Work)
    requires Keeps(before, start)
    ensures Keeps(before + FileItems(f, |f.lines|), w)
  {
    hide Keeps, Added;
    w := start;
    assert before + [] == before;
    for i := 0 to |f.lines|
      invariant Keeps(before + FileItems(f, i), w)
    {
      var line := f.lines[i];
      if line.Declares? {
        var x := Item(line.name, line.val, f.path, i + 1);
        AddKeeps(before + FileItems(f, i), w, x);
        assert (before + FileItems(f, i)) + [x] == before + FileItems(f, i + 1);
        w := Added(w, x);
      } else {
        assert FileItems(f, i + 1) == FileItems(f, i);
      }
    }
  }

  /** A name is in the table exactly when it has a literal declaration and all of them agree. */
  method BuildConstTable(files: seq<File>) returns (table: map<Name, Entry>, ambiguous: set<Name>, unresolved: nat)
    ensures forall name :: name in table <==> HasLiteral(Items(files), name) && Agrees(Items(files), name)
    ensures forall name :: name in table ==> FromFirst(Items(files), name, table[name])
    ensures forall name :: name in ambiguous <==> HasLiteral(Items(files), name) && !Agrees(Items(files), name)
    ensures unresolved == Unresolved(Items(files))
  {
    var w := Work(map[], {}, 0);
    for i := 0 to |files|
      invariant Keeps(Items(files[..i]), w)
    {
      assert files[..i + 1][..i] == files[..i];
      w := ReadFile(files[i], Items(files[..i]), w);
    }
    assert files[..|files|] == files;
    ghost var items := Items(files);
    hide HasLiteral, FromFirst, Conflicts, Agrees, Items;
    forall name | name in w.table ensures Conflicts(items, name, w.table[name]) <==> !Agrees(items, name) {
      ConflictMeansDisagreement(items, name, w.table[name]);
    }
    table := w.table - w.ambiguous;
    ambiguous, unresolved := w.ambiguous, w.unresolved;
  }

  lemma ConflictMeansDisagreement(items: seq<Item>, name: Name, e: Entry)
    requires FromFirst(items, name, e)
    ensures Conflicts(items, name, e) <==> !Agrees(items, name)
  {
  }

  // ── Order does not matter ────────────────────────────────────────────────

  /** Two readings of the same declarations keep the same names, with equal values. */
  lemma AnyOrder(items: seq<Item>, others: seq<Item>, name: Name)
    requires forall x :: x in items <==> x in others
    ensures HasLiteral(items, name) <==> HasLiteral(others, name)
    ensures Agrees(items, name) <==> Agrees(others, name)
    ensures forall e, d :: FromFirst(items, name, e) && FromFirst(others, name, d) && Agrees(items, name)
              ==> Same(e.val, d.val)
  {
    Transfers(items, others, name);
    Transfers(others, items, name);
    forall e, d | FromFirst(items, name, e) && FromFirst(others, name, d) && Agrees(items, name)
      ensures Same(e.val, d.val)
    {
      var i :| 0 <= i < |items| && IsFirst(items, name, i) && items[i].val == Some(e.val)
               && items[i].path == e.path && items[i].line == e.line;
      var j :| 0 <= j < |others| && IsFirst(others, name, j) && others[j].val == Some(d.val)
               && others[j].path == d.path && others[j].line == d.line;
      assert others[j] in items;
      var k :| 0 <= k < |items| && items[k] == others[j];
      assert Literal(items, name, k);
    }
  }

  lemma Transfers(items: seq<Item>, others: seq<Item>, name: Name)
    requires forall x :: x in items <==> x in others
    ensures HasLiteral(items, name) ==> HasLiteral(others, name)
    ensures Agrees(items, name) ==> Agrees(others, name)
  {
    if HasLiteral(items, name) {
      var i :| 0 <= i < |items| && Literal(items, name, i);
      assert items[i] in others;
      var j :| 0 <= j < |others| && others[j] == items[i];
      assert Literal(others, name, j);
    }
    if Agrees(items, name) {
      forall i, j | 0 <= i < |others| && 0 <= j < |others| && Literal(others, name, i) && Literal(others, name, j)
        ensures Same(others[i].val.value, others[j].val.value)
      {
        assert others[i] in items && others[j] in items;
        var a :| 0 <= a < |items| && items[a] == others[i];
        var b :| 0 <= b < |items| && items[b] == others[j];
        assert Literal(items, name, a) && Literal(items, name, b);
      }
    }
  }
}
