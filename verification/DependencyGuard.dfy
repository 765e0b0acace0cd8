/**
 The retired-crate isolation guard (scripts/check-live-node-retired-isolation.py):
 a stack reader of a depth-prefixed dependency listing.

 The listing is the printer's depth-first unfolding of the dependency graph, in
 which a package already printed is printed again but not expanded again.
 */
module DependencyGuard {

  /** A package name; only equality matters. */
  type Name(==, !new)

  /** A line of the listing as the line pattern classifies it. */
  datatype Line = Blank | Entry(depth: nat, name: Name) | Unrecognised

  datatype Result = Found(path: seq<Name>) | Clear | Malformed

  // ── The reader ───────────────────────────────────────────────────────────

  /** What reading the remaining lines with this stack comes to. */
  function Scan(lines: seq<Line>, live: Name, forbidden: set<Name>, stack: seq<Name>, sawRoot: bool): Result {
    if lines == [] then if sawRoot then Clear else Malformed
    else
      match lines[0]
      case Blank => Scan(lines[1..], live, forbidden, stack, sawRoot)
      case Unrecognised => Malformed
      case Entry(depth, name) =>
        if depth == 0 then
          if sawRoot || name != live then Malformed else Scan(lines[1..], live, forbidden, [name], true)
        else if !sawRoot || depth > |stack| then Malformed
        else if name in forbidden then Found(stack[..depth] + [name])
        else Scan(lines[1..], live, forbidden, stack[..depth] + [name], sawRoot)
  }

  /** The guard's verdict on a listing. */
  method DependencyPath(lines: seq<Line>, live: Name, forbidden: set<Name>) returns (result: Result)
    ensures result == Scan(lines, live, forbidden, [], false)
  {
    var stack: seq<Name> := [];
    var sawRoot := false;
    var i := 0;
    while i < |lines|
      invariant 0 <= i <= |lines|
      invariant Scan(lines, live, forbidden, [], false) == Scan(lines[i..], live, forbidden, stack, sawRoot)
    {
      assert lines[i..][0] == lines[i] && lines[i..][1..] == lines[i + 1..];
      match lines[i] {
        case Blank =>
        case Unrecognised =>
          return Malformed;
        case Entry(depth, name) =>
          if depth == 0 {
            if sawRoot || name != live {
              return Malformed;
            }
            sawRoot := true;
            stack := [name];
          } else {
            if !sawRoot || depth > |stack| {
              return Malformed;
            }
            stack := stack[..depth] + [name];
            if name in forbidden {
              return Found(stack);
            }
          }
      }
      i := i + 1;
    }
    return if sawRoot then Clear else Malformed;
  }

  // ── Trees and their listings ─────────────────────────────────────────────

  /** A row of siblings, each with its own children. */
  datatype Forest = Nil | Cons(name: Name, kids: Forest, rest: Forest)

  function ListAll(f: Forest, depth: nat): seq<Line> {
    match f
    case Nil => []
    case Cons(name, kids, rest) => [Entry(depth, name)] + ListAll(kids, depth + 1) + ListAll(rest, depth)
  }

  /** The preorder listing of the tree with this root. */
  function Listing(root: Name, kids: Forest): seq<Line> {
    [Entry(0, root)] + ListAll(kids, 1)
  }

  /** The path to the first forbidden node of the forest in preorder, below `path`. */
  function First(f: Forest, forbidden: set<Name>, path: seq<Name>): (first: Result)
    ensures first.Found? || first == Clear
  {
    match f
    case Nil => Clear
    case Cons(name, kids, rest) =>
      if name in forbidden then Found(path + [name])
      else if First(kids, forbidden, path + [name]).Found? then First(kids, forbidden, path + [name])
      else First(rest, forbidden, path)
  }

  /** The stack left behind by reading a forest without a forbidden node. */
  function StackAfter(f: Forest, path: seq<Name>, stack: seq<Name>): seq<Name> {
    match f
    case Nil => stack
    case Cons(name, kids, rest) => StackAfter(rest, path, StackAfter(kids, path + [name], path + [name]))
  }

  /** Reading a forest's listing finds its first forbidden node, or leaves the path to its parent on the stack. */
  lemma {:induction false} ScanForest(f: Forest, path: seq<Name>, stack: seq<Name>, tail: seq<Line>, live: Name,
                                      forbidden: set<Name>)
    requires path != [] && path <= stack
    ensures path <= StackAfter(f, path, stack)
    ensures Scan(ListAll(f, |path|) + tail, live, forbidden, stack, true)
         == if First(f, forbidden, path).Found? then First(f, forbidden, path)
            else Scan(tail, live, forbidden, StackAfter(f, path, stack), true)
    decreases f
  {
    match f
    case Nil =>
      assert ListAll(f, |path|) + tail == tail;
    case Cons(name, kids, rest) =>
      var below := path + [name];
      assert stack[..|path|] + [name] == below;
      var after := ListAll(rest, |path|) + tail;
      assert ListAll(f, |path|) + tail == [Entry(|path|, name)] + (ListAll(kids, |below|) + after);
      ScanForest(kids, below, below, after, live, forbidden);
      ScanForest(rest, path, StackAfter(kids, below, below), tail, live, forbidden);
  }

  /**
    * On the listing of any tree with the live root the reader never fails and finds the first
    * forbidden node below it.
    */
  lemma ReadsEveryTree(kids: Forest, live: Name, forbidden: set<Name>)
    ensures Scan(Listing(live, kids), live, forbidden, [], false) == First(kids, forbidden, [live])
  {
    ScanForest(kids, [live], [live], [], live, forbidden);
    assert ListAll(kids, 1) + [] == ListAll(kids, 1);
    assert Listing(live, kids)[1..] == ListAll(kids, 1);
  }

  // ── Every accepted listing is the listing of one tree ────────────────────

  function Entries(lines: seq<Line>): seq<Line> {
    if lines == [] then []
    else if lines[0] == Blank then Entries(lines[1..])
    else [lines[0]] + Entries(lines[1..])
  }

  lemma {:induction false} BlanksDoNotMatter(lines: seq<Line>, live: Name, forbidden: set<Name>, stack: seq<Name>,
                                             sawRoot: bool)
    ensures Scan(lines, live, forbidden, stack, sawRoot) == Scan(Entries(lines), live, forbidden, stack, sawRoot)
    decreases |lines|
  {
    if lines != [] {
      var rest := lines[1..];
      assert lines[0] != Blank ==> Entries(lines)[1..] == Entries(rest);
      BlanksDoNotMatter(rest, live, forbidden, stack, sawRoot);
      if lines[0].Entry? {
        BlanksDoNotMatter(rest, live, forbidden, [lines[0].name], true);
        if 0 < lines[0].depth <= |stack| {
          BlanksDoNotMatter(rest, live, forbidden, stack[..lines[0].depth] + [lines[0].name], sawRoot);
        }
      }
    }
  }

  /** The lines of the subtree rows at `depth` and below, up to the first line above them. */
  function SpanOf(lines: seq<Line>, depth: nat): (n: nat)
    ensures n <= |lines|
  {
    if lines == [] || !lines[0].Entry? || lines[0].depth < depth then 0 else 1 + SpanOf(lines[1..], depth)
  }

  /** Rebuild the siblings at `depth` from their listing. */
  function Grow(lines: seq<Line>, depth: nat): Forest
    decreases |lines|
  {
    if lines == [] || !lines[0].Entry? then Nil
    else
      var rest := lines[1..];
      var n := SpanOf(rest, depth + 1);
      Cons(lines[0].name, Grow(rest[..n], depth + 1), Grow(rest[n..], depth))
  }

  /** Rebuilding undoes listing. */
  lemma {:induction false} GrowUndoesList(f: Forest, depth: nat)
    ensures Grow(ListAll(f, depth), depth) == f
    decreases f
  {
    match f
    case Nil =>
    case Cons(name, kids, rest) =>
      var ks, rs := ListAll(kids, depth + 1), ListAll(rest, depth);
      assert ListAll(f, depth)[1..] == ks + rs;
      SpanOfForest(kids, depth + 1, rs);
      RestStartsAt(rest, depth);
      assert (ks + rs)[..|ks|] == ks && (ks + rs)[|ks|..] == rs;
      GrowUndoesList(kids, depth + 1);
      GrowUndoesList(rest, depth);
  }

  lemma RestStartsAt(f: Forest, depth: nat)
    ensures ListAll(f, depth) != [] ==> ListAll(f, depth)[0].Entry? && ListAll(f, depth)[0].depth == depth
  {
  }

  lemma {:induction false} SpanOfForest(f: Forest, depth: nat, tail: seq<Line>)
    requires tail != [] ==> tail[0].Entry? && tail[0].depth < depth
    ensures SpanOf(ListAll(f, depth) + tail, depth) == |ListAll(f, depth)|
  {
    AllAtLeast(f, depth);
    SpanOfBlock(ListAll(f, depth), tail, depth);
  }

  lemma {:induction false} AllAtLeast(f: Forest, depth: nat)
    ensures forall i :: 0 <= i < |ListAll(f, depth)|
              ==> ListAll(f, depth)[i].Entry? && ListAll(f, depth)[i].depth >= depth
    decreases f
  {
    match f
    case Nil =>
    case Cons(name, kids, rest) =>
      AllAtLeast(kids, depth + 1);
      AllAtLeast(rest, depth);
  }

  lemma {:induction false} SpanOfBlock(block: seq<Line>, tail: seq<Line>, depth: nat)
    requires forall i :: 0 <= i < |block| ==> block[i].Entry? && block[i].depth >= depth
    requires tail != [] ==> tail[0].Entry? && tail[0].depth < depth
    ensures SpanOf(block + tail, depth) == |block|
    decreases |block|
  {
    if block == [] {
      assert block + tail == tail;
    } else {
      assert (block + tail)[1..] == block[1..] + tail;
      SpanOfBlock(block[1..], tail, depth);
    }
  }

  /** Depths that a reader with a stack of `top` names accepts, all of them at `depth` or below. */
  ghost predicate Steps(lines: seq<Line>, depth: nat, top: nat) {
    lines == [] || (
      && lines[0].Entry? && depth <= lines[0].depth <= top
      && Steps(lines[1..], depth, lines[0].depth + 1))
  }

  lemma {:induction false} StepsSplit(lines: seq<Line>, depth: nat, top: nat)
    requires depth < top && Steps(lines, depth, top)
    ensures var n := SpanOf(lines, depth + 1); Steps(lines[..n], depth + 1, top) && Steps(lines[n..], depth, depth)
    decreases |lines|
  {
    if lines != [] && lines[0].depth > depth {
      var n := SpanOf(lines, depth + 1);
      StepsSplit(lines[1..], depth, lines[0].depth + 1);
      assert lines[..n][1..] == lines[1..][..n - 1] && lines[n..] == lines[1..][n - 1..];
    }
  }

  /** Listing undoes rebuilding, for every run of depths the reader accepts. */
  lemma {:induction false} ListUndoesGrow(lines: seq<Line>, depth: nat)
    requires Steps(lines, depth, depth)
    ensures ListAll(Grow(lines, depth), depth) == lines
    decreases |lines|
  {
    if lines != [] {
      var rest := lines[1..];
      var n := SpanOf(rest, depth + 1);
      StepsSplit(rest, depth, depth + 1);
      hide Steps, SpanOf;
      ListUndoesGrow(rest[..n], depth + 1);
      ListUndoesGrow(rest[n..], depth);
      Reassemble(lines, n);
      assert lines[0] == Entry(depth, lines[0].name);
      assert Grow(lines, depth) == Cons(lines[0].name, Grow(rest[..n], depth + 1), Grow(rest[n..], depth));
    }
  }

  lemma Reassemble(lines: seq<Line>, n: nat)
    requires lines != [] && n < |lines|
    ensures [lines[0]] + lines[1..][..n] + lines[1..][n..] == lines
  {
  }

  lemma {:induction false} ClearSteps(lines: seq<Line>, live: Name, forbidden: set<Name>, stack: seq<Name>)
    requires stack != [] && Entries(lines) == lines && Scan(lines, live, forbidden, stack, true) == Clear
    ensures Steps(lines, 1, |stack|)
    decreases |lines|
  {
    if lines != [] {
      EntriesTail(lines);
      ClearSteps(lines[1..], live, forbidden, stack[..lines[0].depth] + [lines[0].name]);
    }
  }

  lemma {:induction false} EntriesTail(lines: seq<Line>)
    requires lines != [] && Entries(lines) == lines
    ensures lines[0] != Blank && Entries(lines[1..]) == lines[1..]
    decreases |lines|
  {
    EntriesShorter(lines[1..]);
    assert lines[0] != Blank ==> Entries(lines)[1..] == Entries(lines[1..]);
  }

  lemma {:induction false} EntriesShorter(lines: seq<Line>)
    ensures |Entries(lines)| <= |lines|
  {
    if lines != [] {
      EntriesShorter(lines[1..]);
    }
  }

  lemma {:induction false} EntriesTwice(lines: seq<Line>)
    ensures Entries(Entries(lines)) == Entries(lines)
  {
    if lines != [] {
      EntriesTwice(lines[1..]);
      if lines[0] != Blank {
        assert Entries(lines)[1..] == Entries(lines[1..]);
      }
    }
  }

  /**
    * Every listing read to its end is, blank lines aside, the listing of exactly one tree, whose
    * root is the live package.
    */
  lemma AcceptedIsOneTree(lines: seq<Line>, live: Name, forbidden: set<Name>)
    requires Scan(lines, live, forbidden, [], false) == Clear
    ensures exists kids :: Entries(lines) == Listing(live, kids)
    ensures forall kids, others, root ::
      Entries(lines) == Listing(live, kids) && Entries(lines) == Listing(root, others)
      ==> kids == others && root == live
  {
    var es := Entries(lines);
    BlanksDoNotMatter(lines, live, forbidden, [], false);
    EntriesTwice(lines);
    EntriesTail(es);
    var rest := es[1..];
    ClearSteps(rest, live, forbidden, [live]);
    ListUndoesGrow(rest, 1);
    assert es == Listing(live, Grow(rest, 1));
    forall kids, others, root | es == Listing(live, kids) && es == Listing(root, others)
      ensures kids == others && root == live
    {
      assert Listing(live, kids)[1..] == ListAll(kids, 1) && Listing(root, others)[1..] == ListAll(others, 1);
      assert Listing(live, kids)[0] == Listing(root, others)[0];
      GrowUndoesList(kids, 1);
      GrowUndoesList(others, 1);
    }
  }
}
