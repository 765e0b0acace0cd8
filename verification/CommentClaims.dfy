/**
 Where the prose guard says a stale claim is (scripts/check-comment-constants.py).
 Comment lines are joined into one block, claims are found at positions of the
 block, and a position is turned back into a line of the file.
 */
module CommentClaims {

  /** The body of a line: no line break in it. */
  type Body = s: string | forall k :: 0 <= k < |s| ==> s[k] != '\n'

  datatype Line = Comment(body: Body, allow: bool) | Attribute(allow: bool) | Declaration | Code

  /** What the patterns find in a block and what is left of it after filtering; the patterns are not modelled. */
  type Finder = string -> seq<nat>

  function Text(l: Line): Body {
    if l.Comment? then l.body else ""
  }

  // ── Blocks as one text ───────────────────────────────────────────────────

  function Join(bodies: seq<Body>): string {
    if bodies == [] then "" else if |bodies| == 1 then bodies[0] else bodies[0] + "\n" + Join(bodies[1..])
  }

  function Bodies(lines: seq<Line>): seq<Body> {
    seq(|lines|, k requires 0 <= k < |lines| => Text(lines[k]))
  }

  function Block(lines: seq<Line>, i: nat, j: nat): string
    requires i <= j <= |lines|
  {
    Join(Bodies(lines[i..j]))
  }

  function Newlines(s: string): nat {
    if s == "" then 0 else Newlines(s[..|s| - 1]) + if s[|s| - 1] == '\n' then 1 else 0
  }

  /** Python's slice: past the end it is the whole text. */
  function Before(s: string, pos: nat): string {
    if pos <= |s| then s[..pos] else s
  }

  /** The line reported for a claim at a position of the block starting at line i, counted from one. */
  function Reported(i: nat, block: string, pos: nat): nat {
    i + Newlines(Before(block, pos)) + 1
  }

  // ── The position is in the reported line ─────────────────────────────────

  /** Where a line of the block begins in the joined text. */
  function Offset(bodies: seq<Body>, k: nat): nat
    requires k <= |bodies|
  {
    if k == 0 then 0 else |bodies[0]| + 1 + Offset(bodies[1..], k - 1)
  }

  predicate HeldBy(bodies: seq<Body>, k: nat, pos: nat) {
    && k < |bodies|
    && Offset(bodies, k) <= pos < Offset(bodies, k) + |bodies[k]|
    && pos < |Join(bodies)| && Join(bodies)[pos] == bodies[k][pos - Offset(bodies, k)]
  }

  lemma {:induction false} NewlinesAdd(s: string, t: string)
    ensures Newlines(s + t) == Newlines(s) + Newlines(t)
  {
    if t == "" {
      assert s + t == s;
    } else {
      assert (s + t)[..|s + t| - 1] == s + t[..|t| - 1];
      NewlinesAdd(s, t[..|t| - 1]);
    }
  }

  lemma {:induction false} NoneInside(s: Body, k: nat)
    requires k <= |s|
    ensures Newlines(s[..k]) == 0
  {
    if k > 0 {
      assert s[..k][..k - 1] == s[..k - 1];
      NoneInside(s, k - 1);
    }
  }

  lemma {:induction false} LineOf(bodies: seq<Body>, pos: nat)
    requires pos < |Join(bodies)| && Join(bodies)[pos] != '\n'
    ensures HeldBy(bodies, Newlines(Join(bodies)[..pos]), pos)
  {
    var all := Join(bodies);
    var first := bodies[0];
    if pos < |first| {
      assert all[..pos] == first[..pos];
      NoneInside(first, pos);
    } else {
      var rest := Join(bodies[1..]);
      assert all == first + "\n" + rest;
      assert pos > |first|;
      var q := pos - |first| - 1;
      assert all[..pos] == first + ("\n" + rest[..q]);
      assert first[..|first|] == first;
      NoneInside(first, |first|);
      NewlinesAdd(first, "\n" + rest[..q]);
      NewlinesAdd("\n", rest[..q]);
      assert Newlines("\n") == 1;
      assert all[pos] == rest[q];
      LineOf(bodies[1..], q);
    }
  }

  /** A claim at a position of the block of lines i to j is in the line reported for it. */
  lemma ReportedLineHoldsClaim(lines: seq<Line>, i: nat, j: nat, pos: nat)
    requires i <= j <= |lines| && pos < |Block(lines, i, j)| && Block(lines, i, j)[pos] != '\n'
    ensures var n := Reported(i, Block(lines, i, j), pos);
            && i < n <= j && lines[n - 1].Comment?
            && HeldBy(Bodies(lines[i..j]), n - 1 - i, pos)
            && Block(lines, i, j)[pos] in lines[n - 1].body
  {
    LineOf(Bodies(lines[i..j]), pos);
  }

  // ── Every comment is searched, and found where it stands ─────────────────

  lemma {:induction false} JoinHolds(bodies: seq<Body>, k: nat, p: nat)
    requires k < |bodies| && p < |bodies[k]|
    ensures HeldBy(bodies, k, Offset(bodies, k) + p)
  {
    if k > 0 {
      JoinHolds(bodies[1..], k - 1, p);
      var first, rest := bodies[0], Join(bodies[1..]);
      assert Join(bodies) == first + "\n" + rest;
      assert (first + "\n" + rest)[|first| + 1..] == rest;
    } else if |bodies| > 1 {
      assert Join(bodies) == bodies[0] + ("\n" + Join(bodies[1..]));
    }
  }

  lemma {:induction false} OffsetGrows(bodies: seq<Body>, k: nat, m: nat)
    requires k < m < |bodies|
    ensures Offset(bodies, k) + |bodies[k]| < Offset(bodies, m)
  {
    if k > 0 {
      OffsetGrows(bodies[1..], k - 1, m - 1);
    }
  }

  lemma OneHolder(bodies: seq<Body>, k: nat, m: nat, pos: nat)
    requires HeldBy(bodies, k, pos) && HeldBy(bodies, m, pos)
    ensures k == m
  {
    if k < m {
      OffsetGrows(bodies, k, m);
    } else if m < k {
      OffsetGrows(bodies, m, k);
    }
  }

  /** Every character of the block's comments is in the searched text, and what is found there is reported here. */
  lemma EveryCharacterIsSearched(lines: seq<Line>, i: nat, j: nat, k: nat, p: nat) returns (pos: nat)
    requires i <= k < j <= |lines| && lines[k].Comment? && p < |lines[k].body|
    ensures pos < |Block(lines, i, j)| && Block(lines, i, j)[pos] == lines[k].body[p]
    ensures Reported(i, Block(lines, i, j), pos) == k + 1
  {
    var bodies := Bodies(lines[i..j]);
    assert bodies[k - i] == lines[k].body;
    pos := Offset(bodies, k - i) + p;
    JoinHolds(bodies, k - i, p);
    assert Join(bodies)[pos] == lines[k].body[p];
    LineOf(bodies, pos);
    OneHolder(bodies, k - i, Newlines(Join(bodies)[..pos]), pos);
  }

  // ── The passes ───────────────────────────────────────────────────────────

  predicate AnyAllow(lines: seq<Line>, i: nat, j: nat)
    requires i <= j <= |lines|
  {
    exists k :: i <= k < j && AboveItem(lines[k]) && lines[k].allow
  }

  predicate AboveItem(l: Line) {
    l.Comment? || l.Attribute?
  }

  /** The contiguous run of comments and attributes that ends above line i. */
  predicate IsBlockAbove(lines: seq<Line>, start: nat, i: nat) {
    && start <= i <= |lines|
    && (forall k :: start <= k < i ==> AboveItem(lines[k]))
    && (start > 0 ==> !AboveItem(lines[start - 1]))
  }

  /** A contiguous run of comment lines, as long as it gets. */
  predicate IsRun(lines: seq<Line>, i: nat, j: nat) {
    && i < j <= |lines|
    && (forall k :: i <= k < j ==> lines[k].Comment?)
    && (i > 0 ==> !lines[i - 1].Comment?)
    && (j < |lines| ==> !lines[j].Comment?)
  }

  /** Line n is reported for a claim in the block of lines i to j. */
  predicate ReportedIn(lines: seq<Line>, find: Finder, i: nat, j: nat, n: nat) {
    && i <= j <= |lines| && !AnyAllow(lines, i, j)
    && exists k :: 0 <= k < |find(Block(lines, i, j))|
                && Reported(i, Block(lines, i, j), find(Block(lines, i, j))[k]) == n
  }

  /** The finder only finds positions inside the block, and never a line break. */
  ghost predicate FindsText(find: Finder) {
    forall block, k :: 0 <= k < |find(block)| ==> find(block)[k] < |block| && block[find(block)[k]] != '\n'
  }

  /** Line n is a comment of the block of lines i to j and holds the first character of one of its claims. */
  predicate HoldsClaim(lines: seq<Line>, find: Finder, i: nat, j: nat, n: nat) {
    && i < n <= j <= |lines| && lines[n - 1].Comment?
    && exists k :: 0 <= k < |find(Block(lines, i, j))|
                && HeldBy(Bodies(lines[i..j]), n - 1 - i, find(Block(lines, i, j))[k])
  }

  lemma ReportedHoldsClaim(lines: seq<Line>, find: Finder, i: nat, j: nat, n: nat)
    requires FindsText(find) && ReportedIn(lines, find, i, j, n)
    ensures HoldsClaim(lines, find, i, j, n)
  {
    hide Block, Bodies, Reported, HeldBy, AnyAllow;
    var block := Block(lines, i, j);
    var k :| 0 <= k < |find(block)| && Reported(i, block, find(block)[k]) == n;
    ReportedLineHoldsClaim(lines, i, j, find(block)[k]);
  }

  /** A block is reported on, find by find, unless one of its comments or attributes carries an allow mark. */
  lemma ReportedExactly(lines: seq<Line>, find: Finder, i: nat, j: nat, n: nat)
    requires i <= j <= |lines|
    ensures ReportedIn(lines, find, i, j, n)
       <==> && (exists pos :: pos in find(Block(lines, i, j)) && Reported(i, Block(lines, i, j), pos) == n)
            && forall k :: i <= k < j && (lines[k].Comment? || lines[k].Attribute?) ==> !lines[k].allow
  {
    hide Block, Reported;
  }

  /** The lines reported for one block. */
  method CheckBlock(lines: seq<Line>, find: Finder, i: nat, j: nat) returns (found: seq<nat>)
    requires i <= j <= |lines|
    ensures forall n :: n in found <==> ReportedIn(lines, find, i, j, n)
  {
    if AnyAllow(lines, i, j) {
      return [];
    }
    var block := Block(lines, i, j);
    var claims := find(block);
    found := [];
    for k := 0 to |claims|
      invariant forall n :: n in found <==> exists c :: 0 <= c < k && Reported(i, block, claims[c]) == n
    {
      found := found + [Reported(i, block, claims[k])];
    }
  }

  method CommentBlockAbove(lines: seq<Line>, idx: nat) returns (start: nat)
    requires idx <= |lines|
    ensures IsBlockAbove(lines, start, idx)
    ensures start <= idx && forall k :: start <= k < idx ==> lines[k].Comment? || lines[k].Attribute?
    ensures start > 0 ==> !lines[start - 1].Comment? && !lines[start - 1].Attribute?
  {
    start := idx;
    while start > 0 && AboveItem(lines[start - 1])
      invariant start <= idx
      invariant forall k :: start <= k < idx ==> AboveItem(lines[k])
    {
      start := start - 1;
    }
  }

  predicate AttachedReport(lines: seq<Line>, finds: nat -> Finder, i: nat, n: nat) {
    i < |lines| && lines[i].Declaration? &&
    exists start :: 0 <= start < i && IsBlockAbove(lines, start, i) && ReportedIn(lines, finds(i), start, i, n)
  }

  predicate AttachedBefore(lines: seq<Line>, finds: nat -> Finder, k: nat, n: nat) {
    exists i :: 0 <= i < k && AttachedReport(lines, finds, i, n)
  }

  lemma NextAttached(lines: seq<Line>, finds: nat -> Finder, k: nat, n: nat)
    ensures AttachedBefore(lines, finds, k + 1, n)
       <==> AttachedBefore(lines, finds, k, n) || AttachedReport(lines, finds, k, n)
  {
  }

  /** Line n holds a claim of the block attached to some declaration. */
  ghost predicate AttachedClaim(lines: seq<Line>, finds: nat -> Finder, n: nat) {
    exists i: nat, start: nat :: IsBlockAbove(lines, start, i) && HoldsClaim(lines, finds(i), start, i, n)
  }

  lemma AttachedHolds(lines: seq<Line>, finds: nat -> Finder, n: nat)
    requires AttachedBefore(lines, finds, |lines|, n) && forall i: nat :: FindsText(finds(i))
    ensures AttachedClaim(lines, finds, n)
  {
    hide FindsText, HoldsClaim, ReportedIn;
    var i: nat :| 0 <= i < |lines| && AttachedReport(lines, finds, i, n);
    var start: nat :| 0 <= start < i && IsBlockAbove(lines, start, i) && ReportedIn(lines, finds(i), start, i, n);
    ReportedHoldsClaim(lines, finds(i), start, i, n);
  }

  /** Claims in the block attached to a declaration; what is found depends on the declaration. */
  method AttachedPass(lines: seq<Line>, finds: nat -> Finder) returns (found: seq<nat>)
    ensures forall n: nat :: n in found <==> AttachedBefore(lines, finds, |lines|, n)
    ensures (forall i: nat :: FindsText(finds(i))) ==> forall n: nat :: n in found ==> AttachedClaim(lines, finds, n)
  {
    found := [];
    for i := 0 to |lines|
      invariant forall n: nat :: n in found <==> AttachedBefore(lines, finds, i, n)
    {
      hide ReportedIn, AttachedBefore;
      var more: seq<nat> := [];
      if lines[i].Declaration? {
        var start := CommentBlockAbove(lines, i);
        OnlyBlock(lines, i, start);
        if start != i {
          more := CheckBlock(lines, finds(i), start, i);
        }
      }
      forall n: nat ensures AttachedBefore(lines, finds, i + 1, n) <==> n in found + more {
        NextAttached(lines, finds, i, n);
      }
      found := found + more;
    }
    if forall i: nat :: FindsText(finds(i)) {
      forall n: nat | n in found ensures AttachedClaim(lines, finds, n) {
        AttachedHolds(lines, finds, n);
      }
    }
  }

  lemma OnlyBlock(lines: seq<Line>, i: nat, start: nat)
    requires IsBlockAbove(lines, start, i)
    ensures forall other: nat :: IsBlockAbove(lines, other, i) ==> other == start
  {
  }

  predicate NamedReport(lines: seq<Line>, find: Finder, i: nat, n: nat) {
    exists j :: i < j <= |lines| && IsRun(lines, i, j) && ReportedIn(lines, find, i, j, n)
  }

  predicate NamedBefore(lines: seq<Line>, find: Finder, k: nat, n: nat) {
    exists i :: 0 <= i < k && NamedReport(lines, find, i, n)
  }

  lemma NextRun(lines: seq<Line>, find: Finder, i: nat, j: nat, n: nat)
    requires IsRun(lines, i, j)
    ensures NamedBefore(lines, find, j, n) <==> NamedBefore(lines, find, i, n) || ReportedIn(lines, find, i, j, n)
  {
    hide ReportedIn;
    OnlyRun(lines, i, j);
    if NamedBefore(lines, find, j, n) {
      var c: nat :| 0 <= c < j && NamedReport(lines, find, c, n);
    }
    if ReportedIn(lines, find, i, j, n) {
      assert NamedReport(lines, find, i, n);
    }
  }

  lemma NextCode(lines: seq<Line>, find: Finder, i: nat, n: nat)
    requires i < |lines| && !lines[i].Comment?
    ensures NamedBefore(lines, find, i + 1, n) <==> NamedBefore(lines, find, i, n)
  {
    hide ReportedIn;
  }

  /** Line n holds a claim of some run of comments. */
  ghost predicate NamedClaim(lines: seq<Line>, find: Finder, n: nat) {
    exists i: nat, j: nat :: IsRun(lines, i, j) && HoldsClaim(lines, find, i, j, n)
  }

  lemma NamedHolds(lines: seq<Line>, find: Finder, n: nat)
    requires NamedBefore(lines, find, |lines|, n) && FindsText(find)
    ensures NamedClaim(lines, find, n)
  {
    hide FindsText, HoldsClaim, ReportedIn;
    var i: nat :| 0 <= i < |lines| && NamedReport(lines, find, i, n);
    var j: nat :| i < j <= |lines| && IsRun(lines, i, j) && ReportedIn(lines, find, i, j, n);
    ReportedHoldsClaim(lines, find, i, j, n);
  }

  /** Claims naming their constant, over every run of comments. */
  method NamedPass(lines: seq<Line>, find: Finder) returns (found: seq<nat>)
    ensures forall n: nat :: n in found <==> NamedBefore(lines, find, |lines|, n)
    ensures FindsText(find) ==> forall n: nat :: n in found ==> NamedClaim(lines, find, n)
  {
    found := [];
    var i := 0;
    while i < |lines|
      invariant i <= |lines|
      invariant 0 < i < |lines| && lines[i].Comment? ==> !lines[i - 1].Comment?
      invariant forall n: nat :: n in found <==> NamedBefore(lines, find, i, n)
      decreases |lines| - i
    {
      hide ReportedIn, NamedBefore;
      if !lines[i].Comment? {
        forall n: nat ensures NamedBefore(lines, find, i + 1, n) <==> NamedBefore(lines, find, i, n) {
          NextCode(lines, find, i, n);
        }
        i := i + 1;
        continue;
      }
      var j := RunEnd(lines, i);
      var more := CheckBlock(lines, find, i, j);
      forall n: nat ensures NamedBefore(lines, find, j, n) <==> n in found + more {
        NextRun(lines, find, i, j, n);
      }
      found := found + more;
      i := j;
    }
    if FindsText(find) {
      forall n: nat | n in found ensures NamedClaim(lines, find, n) {
        NamedHolds(lines, find, n);
      }
    }
  }

  method RunEnd(lines: seq<Line>, i: nat) returns (j: nat)
    requires i < |lines| && lines[i].Comment? && (i > 0 ==> !lines[i - 1].Comment?)
    ensures IsRun(lines, i, j)
  {
    j := i;
    while j < |lines| && lines[j].Comment?
      invariant i <= j <= |lines|
      invariant forall k :: i <= k < j ==> lines[k].Comment?
      decreases |lines| - j
    {
      j := j + 1;
    }
  }

  /** No other run begins in the run from i to j, and none but it begins at i. */
  lemma OnlyRun(lines: seq<Line>, i: nat, j: nat)
    requires IsRun(lines, i, j)
    ensures forall other: nat :: IsRun(lines, i, other) ==> other == j
    ensures forall c: nat, other: nat :: i < c < j ==> !IsRun(lines, c, other)
  {
  }

  // ── Nothing is missed ────────────────────────────────────────────────────

  /** Where a character of line k stands in the text of the block from line i on. */
  function PositionOf(lines: seq<Line>, i: nat, j: nat, k: nat, p: nat): nat
    requires i <= k < j <= |lines|
  {
    Offset(Bodies(lines[i..j]), k - i) + p
  }

  predicate Unmarked(lines: seq<Line>, i: nat, j: nat) {
    forall k :: i <= k < j && k < |lines| && (lines[k].Comment? || lines[k].Attribute?) ==> !lines[k].allow
  }

  /** A claim found in a comment of an unmarked block is reported at that comment. */
  lemma FoundIsReported(lines: seq<Line>, find: Finder, i: nat, j: nat, k: nat, p: nat)
    requires i <= k < j <= |lines| && lines[k].Comment? && p < |lines[k].body| && Unmarked(lines, i, j)
    requires PositionOf(lines, i, j, k, p) in find(Block(lines, i, j))
    ensures ReportedIn(lines, find, i, j, k + 1)
  {
    var bodies := Bodies(lines[i..j]);
    assert bodies[k - i] == lines[k].body;
    var pos := PositionOf(lines, i, j, k, p);
    JoinHolds(bodies, k - i, p);
    assert Join(bodies)[pos] == lines[k].body[p];
    LineOf(bodies, pos);
    OneHolder(bodies, k - i, Newlines(Join(bodies)[..pos]), pos);
    ReportedExactly(lines, find, i, j, k + 1);
  }

  /** So no claim above a declaration is missed, not in the first line of a file either. */
  lemma AttachedIsReported(lines: seq<Line>, finds: nat -> Finder, start: nat, i: nat, k: nat, p: nat)
    requires start <= k < i < |lines| && lines[i].Declaration? && lines[k].Comment? && p < |lines[k].body|
    requires forall m :: start <= m < i ==> lines[m].Comment? || lines[m].Attribute?
    requires start == 0 || (!lines[start - 1].Comment? && !lines[start - 1].Attribute?)
    requires Unmarked(lines, start, i) && PositionOf(lines, start, i, k, p) in finds(i)(Block(lines, start, i))
    ensures AttachedBefore(lines, finds, |lines|, k + 1)
  {
    FoundIsReported(lines, finds(i), start, i, k, p);
    hide ReportedIn;
    assert IsBlockAbove(lines, start, i);
    assert AttachedReport(lines, finds, i, k + 1);
  }

  /** And none in a run of comments. */
  lemma NamedIsReported(lines: seq<Line>, find: Finder, i: nat, j: nat, k: nat, p: nat)
    requires i <= k < j <= |lines| && p < |Text(lines[k])|
    requires forall m :: i <= m < j ==> lines[m].Comment?
    requires (i == 0 || !lines[i - 1].Comment?) && (j == |lines| || !lines[j].Comment?)
    requires Unmarked(lines, i, j) && PositionOf(lines, i, j, k, p) in find(Block(lines, i, j))
    ensures NamedBefore(lines, find, |lines|, k + 1)
  {
    FoundIsReported(lines, find, i, j, k, p);
    hide ReportedIn;
    assert IsRun(lines, i, j);
    assert NamedReport(lines, find, i, k + 1);
  }
}
