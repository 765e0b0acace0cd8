/**
 The mesh of relays (scripts/lifecycle_devnet_soak_lib.py): one relay per
 ordered pair of nodes, each in a state of Relay and all of them interleaved.
 One caller at a time cuts and heals; a call that times out stops it.
 */
module RelayMesh {

  import Relay

  type Pair = (nat, nat)

  predicate Ascending(s: seq<nat>) {
    forall i, j :: 0 <= i < j < |s| ==> s[i] < s[j]
  }

  /** A set of nodes, listed as `sorted` lists it. */
  type Side = s: seq<nat> | Ascending(s)

  predicate Crosses(p: Pair, a: seq<nat>, b: seq<nat>) {
    (p.0 in a && p.1 in b) || (p.0 in b && p.1 in a)
  }

  function RelayPort(base: nat, i: nat, j: nat): nat {
    base + i * 16 + j
  }

  function Row(i: nat, b: seq<nat>): seq<Pair> {
    seq(|b|, j requires 0 <= j < |b| => (i, b[j]))
  }

  function Product(a: seq<nat>, b: seq<nat>): seq<Pair> {
    if a == [] then [] else Row(a[0], b) + Product(a[1..], b)
  }

  function Turned(pairs: seq<Pair>): seq<Pair> {
    seq(|pairs|, k requires 0 <= k < |pairs| => (pairs[k].1, pairs[k].0))
  }

  /** Every relay between the two sides, in both directions. */
  function CrossPairs(a: Side, b: Side): seq<Pair> {
    Product(a, b) + Turned(Product(a, b))
  }

  lemma {:induction false} ProductExact(a: seq<nat>, b: seq<nat>, p: Pair)
    ensures p in Product(a, b) <==> p.0 in a && p.1 in b
  {
    if a != [] {
      ProductExact(a[1..], b, p);
      assert a == [a[0]] + a[1..];
      assert p in Row(a[0], b) <==> p.0 == a[0] && p.1 in b by {
        if p.0 == a[0] && p.1 in b {
          var j :| 0 <= j < |b| && b[j] == p.1;
          assert Row(a[0], b)[j] == p;
        }
      }
    }
  }

  lemma TurnedExact(pairs: seq<Pair>, p: Pair)
    ensures p in Turned(pairs) <==> (p.1, p.0) in pairs
  {
    if (p.1, p.0) in pairs {
      var k :| 0 <= k < |pairs| && pairs[k] == (p.1, p.0);
      assert Turned(pairs)[k] == p;
    }
  }

  lemma CrossPairsExact(a: Side, b: Side)
    ensures forall p :: p in CrossPairs(a, b) <==> Crosses(p, a, b)
  {
    forall p ensures p in CrossPairs(a, b) <==> Crosses(p, a, b) {
      ProductExact(a, b, p);
      ProductExact(a, b, (p.1, p.0));
      TurnedExact(Product(a, b), p);
    }
  }

  // ── Paths through the mesh ───────────────────────────────────────────────

  type Relays = map<Pair, Relay.State>

  /** Data gets through a relay that listens or still holds a connection. */
  predicate Carries(s: Relay.State) {
    s.open != {} || s.conns != {}
  }

  /** Two nodes exchange data when a relay in either direction carries it. */
  predicate Linked(relays: Relays, u: nat, v: nat) {
    ((u, v) in relays && Carries(relays[(u, v)])) || ((v, u) in relays && Carries(relays[(v, u)]))
  }

  predicate IsPath(relays: Relays, path: seq<nat>) {
    |path| > 0 && forall i :: 0 < i < |path| ==> Linked(relays, path[i - 1], path[i])
  }

  predicate StaysOn(path: seq<nat>, a: seq<nat>) {
    forall i :: 0 <= i < |path| ==> path[i] in a
  }

  /** Every path that starts on the side stays on it, however long it is. */
  ghost predicate Separated(relays: Relays, a: seq<nat>) {
    forall path :: IsPath(relays, path) && path[0] in a ==> StaysOn(path, a)
  }

  /** The relays of n nodes: one per ordered pair of different ones. */
  ghost predicate MeshOf(relays: Relays, n: nat) {
    forall p: Pair :: p in relays <==> p.0 < n && p.1 < n && p.0 != p.1
  }

  predicate Within(a: seq<nat>, n: nat) {
    forall u :: u in a ==> u < n
  }

  predicate Covers(a: seq<nat>, b: seq<nat>, n: nat) {
    && Within(a, n) && Within(b, n)
    && (forall u: nat :: u < n ==> u in a || u in b)
  }

  predicate Apart(a: seq<nat>, b: seq<nat>) {
    forall u :: u in a ==> u !in b
  }

  /** The sides are different nodes and between them all of the mesh. */
  ghost predicate Halves(relays: Relays, n: nat, a: seq<nat>, b: seq<nat>) {
    MeshOf(relays, n) && Covers(a, b, n) && Apart(a, b)
  }

  ghost predicate NothingCrosses(relays: Relays, a: seq<nat>, b: seq<nat>) {
    forall p :: p in relays && Crosses(p, a, b) ==> !Carries(relays[p])
  }

  lemma {:induction false} StaysOnSide(relays: Relays, n: nat, a: Side, b: Side, path: seq<nat>)
    requires Halves(relays, n, a, b) && NothingCrosses(relays, a, b) && IsPath(relays, path) && path[0] in a
    ensures StaysOn(path, a)
  {
    if |path| > 1 {
      var last := |path| - 1;
      var shorter := path[..last];
      assert IsPath(relays, shorter) by {
        forall i | 0 < i < |shorter| ensures Linked(relays, shorter[i - 1], shorter[i]) {
          assert Linked(relays, path[i - 1], path[i]);
        }
      }
      StaysOnSide(relays, n, a, b, shorter);
      assert shorter[last - 1] == path[last - 1];
      assert Linked(relays, path[last - 1], path[last]);
      forall i | 0 <= i < |path| ensures path[i] in a {
        assert i < last ==> path[i] == shorter[i];
      }
    }
  }

  /** The side is cut off exactly when no crossing relay carries anything. */
  lemma SeparatedExactly(relays: Relays, n: nat, a: Side, b: Side)
    requires Halves(relays, n, a, b)
    ensures Separated(relays, a) <==> NothingCrosses(relays, a, b)
  {
    if NothingCrosses(relays, a, b) {
      forall path | IsPath(relays, path) && path[0] in a ensures StaysOn(path, a) {
        StaysOnSide(relays, n, a, b, path);
      }
    } else {
      var p :| p in relays && Crosses(p, a, b) && Carries(relays[p]);
      var path := if p.0 in a then [p.0, p.1] else [p.1, p.0];
      assert Linked(relays, path[0], path[1]);
      assert IsPath(relays, path) && path[0] in a && path[1] !in a;
      assert !StaysOn(path, a);
    }
  }

  // ── Every relay at once ──────────────────────────────────────────────────

  /** One atomic step of one relay. */
  datatype Turn = Turn(pair: Pair, action: Relay.Action)

  function Step(relays: Relays, t: Turn): Relays {
    if t.pair in relays then relays[t.pair := Relay.Step(relays[t.pair], t.action)] else relays
  }

  function After(relays: Relays, run: seq<Turn>): Relays {
    if run == [] then relays else Step(After(relays, run[..|run| - 1]), run[|run| - 1])
  }

  /** What one relay sees of an interleaving. */
  function Only(run: seq<Turn>, p: Pair): seq<Relay.Action> {
    if run == [] then []
    else
      var last := run[|run| - 1];
      Only(run[..|run| - 1], p) + if last.pair == p then [last.action] else []
  }

  lemma {:induction false} ProjectedAt(relays: Relays, run: seq<Turn>, p: Pair)
    requires p in relays
    ensures p in After(relays, run) && After(relays, run)[p] == Relay.After(relays[p], Only(run, p))
  {
    hide Relay.Step;
    if run != [] {
      var before, last := run[..|run| - 1], run[|run| - 1];
      ProjectedAt(relays, before, p);
      if last.pair == p {
        assert Only(run, p) == Only(before, p) + [last.action];
        assert Only(run, p)[..|Only(run, p)| - 1] == Only(before, p);
      } else {
        assert Only(run, p) == Only(before, p);
      }
    }
  }

  lemma {:induction false} SameRelays(relays: Relays, run: seq<Turn>)
    ensures After(relays, run).Keys == relays.Keys
  {
    if run != [] {
      SameRelays(relays, run[..|run| - 1]);
    }
  }

  lemma Projected(relays: Relays, run: seq<Turn>)
    ensures After(relays, run).Keys == relays.Keys
    ensures forall p :: p in relays ==> After(relays, run)[p] == Relay.After(relays[p], Only(run, p))
  {
    SameRelays(relays, run);
    forall p | p in relays ensures After(relays, run)[p] == Relay.After(relays[p], Only(run, p)) {
      ProjectedAt(relays, run, p);
    }
  }

  /** A state one relay can get into. */
  ghost predicate Reached(s: Relay.State) {
    exists run :: s == Relay.After(Relay.Started(), run)
  }

  ghost predicate AllReached(relays: Relays) {
    forall p :: p in relays ==> Reached(relays[p])
  }

  lemma {:induction false} AfterAppend(s: Relay.State, run: seq<Relay.Action>, more: seq<Relay.Action>)
    ensures Relay.After(s, run + more) == Relay.After(Relay.After(s, run), more)
    decreases |more|
  {
    hide Relay.Step;
    if more == [] {
      assert run + more == run;
    } else {
      var front := more[..|more| - 1];
      AfterAppend(s, run, front);
      assert (run + more)[..|run + more| - 1] == run + front;
    }
  }

  lemma ReachedKeeps(relays: Relays, run: seq<Turn>)
    requires AllReached(relays)
    ensures AllReached(After(relays, run)) && After(relays, run).Keys == relays.Keys
  {
    Projected(relays, run);
    forall p | p in relays ensures Reached(After(relays, run)[p]) {
      var so :| relays[p] == Relay.After(Relay.Started(), so);
      AfterAppend(Relay.Started(), so, Only(run, p));
      assert After(relays, run)[p] == Relay.After(Relay.Started(), so + Only(run, p));
    }
  }

  // ── What returned cuts separate ──────────────────────────────────────────

  /** A cut has returned on every crossing relay, and none of them had a client past the enabled check. */
  ghost predicate CleanlyCut(relays: Relays, a: seq<nat>, b: seq<nat>) {
    forall p :: p in relays && Crosses(p, a, b) ==> relays[p].controller.Down? && !relays[p].inFlight
  }

  ghost predicate HealsNone(run: seq<Turn>, a: seq<nat>, b: seq<nat>) {
    forall i :: 0 <= i < |run| && Crosses(run[i].pair, a, b) ==> run[i].action != Relay.Control(Relay.Heal)
  }

  lemma {:induction false} OnlyHasNoHeal(run: seq<Turn>, a: seq<nat>, b: seq<nat>, p: Pair)
    requires HealsNone(run, a, b) && Crosses(p, a, b)
    ensures !Relay.Has(Only(run, p), Relay.Heal)
  {
    if run != [] {
      OnlyHasNoHeal(run[..|run| - 1], a, b, p);
    }
  }

  lemma CutRelayIsSilent(s: Relay.State, more: seq<Relay.Action>)
    requires Reached(s) && s.controller.Down? && !s.inFlight && !Relay.Has(more, Relay.Heal)
    ensures !Carries(Relay.After(s, more))
  {
    var run :| s == Relay.After(Relay.Started(), run);
    Relay.CutReturned(run);
    Relay.PartitionHolds(run, more);
  }

  /** Cleanly cut sides are separated, and stay so over every interleaving until a crossing relay is healed. */
  lemma CutSeparates(relays: Relays, n: nat, a: Side, b: Side, more: seq<Turn>)
    requires Halves(relays, n, a, b) && AllReached(relays) && CleanlyCut(relays, a, b) && HealsNone(more, a, b)
    ensures Separated(After(relays, more), a) && Separated(After(relays, more), b)
  {
    var later := After(relays, more);
    Projected(relays, more);
    forall p | p in later && Crosses(p, a, b) ensures !Carries(later[p]) {
      OnlyHasNoHeal(more, a, b, p);
      CutRelayIsSilent(relays[p], Only(more, p));
    }
    SeparatedExactly(later, n, a, b);
    SeparatedExactly(later, n, b, a);
  }

  // ── Exactly when they do ─────────────────────────────────────────────────

  /** How each crossing cut, begun in these states, is interleaved until it returns. */
  type Rests = map<Pair, seq<Relay.Action>>

  function Begun(s: Relay.State): Relay.State {
    Relay.Step(s, Relay.Control(Relay.Cut))
  }

  ghost predicate AllReturn(starts: Relays, a: seq<nat>, b: seq<nat>, rests: Rests) {
    forall p :: p in starts && Crosses(p, a, b) ==> p in rests && Relay.Returns(Begun(starts[p]), rests[p])
  }

  ghost function Ended(starts: Relays, a: seq<nat>, b: seq<nat>, rests: Rests): Relays
    requires AllReturn(starts, a, b, rests)
  {
    map p | p in starts :: if Crosses(p, a, b) then Relay.After(Begun(starts[p]), rests[p]) else starts[p]
  }

  /** However the crossing cuts are interleaved with the accept threads, once all have returned the side is cut off. */
  ghost predicate AlwaysSeparates(starts: Relays, a: seq<nat>, b: seq<nat>) {
    forall rests :: AllReturn(starts, a, b, rests) ==> Separated(Ended(starts, a, b, rests), a)
  }

  predicate Idle(s: Relay.State) {
    s.controller.Up? || s.controller.Down?
  }

  lemma CleanCutIsSilent(s: Relay.State, rest: seq<Relay.Action>)
    requires Reached(s) && Idle(s) && !Relay.PastCheck(s.thread) && Relay.Returns(Begun(s), rest)
    ensures !Carries(Relay.After(Begun(s), rest))
  {
    var run :| s == Relay.After(Relay.Started(), run);
    Relay.EveryRun(Relay.Started(), run);
    Relay.StepKeeps(s, Relay.Control(Relay.Cut));
    Relay.EveryRun(Begun(s), rest);
    Relay.InFlightFixed(Begun(s), rest);
    Relay.NothingLate(Relay.After(Begun(s), rest));
  }

  lemma SomeReturn(s: Relay.State) returns (rest: seq<Relay.Action>)
    requires Reached(s) && Idle(s)
    ensures Relay.Returns(Begun(s), rest)
    ensures Relay.PastCheck(s.thread) ==> Carries(Relay.After(Begun(s), rest))
  {
    var run :| s == Relay.After(Relay.Started(), run);
    if Relay.PastCheck(s.thread) {
      Relay.CutLeavesOneExactly(run);
      rest :| Relay.LeavesOne(Begun(s), rest);
    } else {
      rest := Relay.CutCanReturn(run);
    }
  }

  ghost predicate Leaves(s: Relay.State, rest: seq<Relay.Action>) {
    Relay.Returns(Begun(s), rest) && (Relay.PastCheck(s.thread) ==> Carries(Relay.After(Begun(s), rest)))
  }

  lemma ReturnsForAll(starts: Relays, a: seq<nat>, b: seq<nat>) returns (rests: Rests)
    requires AllReached(starts) && forall p :: p in starts && Crosses(p, a, b) ==> Idle(starts[p])
    ensures forall p :: p in starts && Crosses(p, a, b) ==> p in rests && Leaves(starts[p], rests[p])
  {
    forall p | p in starts && Crosses(p, a, b) ensures exists rest :: Leaves(starts[p], rest) {
      var rest := SomeReturn(starts[p]);
      assert Leaves(starts[p], rest);
    }
    rests := map p | p in starts && Crosses(p, a, b) :: var rest :| Leaves(starts[p], rest); rest;
  }

  /**
   Once every crossing cut has returned, the halves are separated in every
   interleaving if and only if no crossing relay had a client past the
   enabled check when its cut began.
   */
  lemma CutSeparatesExactly(starts: Relays, n: nat, a: Side, b: Side)
    requires Halves(starts, n, a, b) && AllReached(starts)
    requires forall p :: p in starts && Crosses(p, a, b) ==> Idle(starts[p])
    ensures AlwaysSeparates(starts, a, b)
       <==> forall p :: p in starts && Crosses(p, a, b) ==> !Relay.PastCheck(starts[p].thread)
  {
    hide Carries, Relay.PastCheck, Begun, Relay.Returns;
    if p :| p in starts && Crosses(p, a, b) && Relay.PastCheck(starts[p].thread) {
      var rests := ReturnsForAll(starts, a, b);
      var end := Ended(starts, a, b, rests);
      assert Leaves(starts[p], rests[p]);
      assert Carries(end[p]);
      SeparatedExactly(end, n, a, b);
    } else {
      forall rests | AllReturn(starts, a, b, rests) ensures Separated(Ended(starts, a, b, rests), a) {
        var end := Ended(starts, a, b, rests);
        forall q | q in end && Crosses(q, a, b) ensures !Carries(end[q]) {
          CleanCutIsSilent(starts[q], rests[q]);
        }
        SeparatedExactly(end, n, a, b);
      }
    }
  }

  // ── Ports ────────────────────────────────────────────────────────────────

  /** Distinct relays listen on distinct ports exactly in meshes of at most 16 nodes. */
  lemma PortsDistinct(base: nat, n: nat)
    ensures (forall i: nat, j: nat, k: nat, l: nat ::
               i < n && j < n && i != j && k < n && l < n && k != l && (i, j) != (k, l)
               ==> RelayPort(base, i, j) != RelayPort(base, k, l))
       <==> n <= 16
  {
    if n > 16 {
      assert RelayPort(base, 0, 16) == RelayPort(base, 1, 0);
    }
  }

  // ── The mesh itself ──────────────────────────────────────────────────────

  datatype Outcome = Done(pairs: seq<Pair>) | MissingRelay(pair: Pair) | TimedOut(pair: Pair)

  predicate AllPresent(pairs: seq<Pair>, relays: Relays) {
    forall k :: 0 <= k < |pairs| ==> pairs[k] in relays
  }

  /** Every crossing pair has a relay exactly when the sides are different nodes of the mesh, or one is empty. */
  lemma PresentExactly(relays: Relays, n: nat, a: Side, b: Side)
    requires MeshOf(relays, n)
    ensures AllPresent(CrossPairs(a, b), relays)
       <==> a == [] || b == [] || (Within(a, n) && Within(b, n) && Apart(a, b))
  {
    var pairs := CrossPairs(a, b);
    CrossPairsExact(a, b);
    hide CrossPairs;
    if AllPresent(pairs, relays) && a != [] && b != [] {
      forall u, v | u in a && v in b ensures u < n && v < n && u != v {
        assert Crosses((u, v), a, b);
        var k :| 0 <= k < |pairs| && pairs[k] == (u, v);
      }
      assert a[0] in a && b[0] in b;
    }
    if a == [] || b == [] || (Within(a, n) && Within(b, n) && Apart(a, b)) {
      forall k | 0 <= k < |pairs| ensures pairs[k] in relays {
        assert Crosses(pairs[k], a, b);
      }
    }
  }

  /** What threads do while one call runs: anything but another call. */
  predicate Background(run: seq<Turn>) {
    forall i :: 0 <= i < |run| ==>
      run[i].action != Relay.Control(Relay.Cut) && run[i].action != Relay.Control(Relay.Heal)
  }

  /** The relays that are up. */
  function UpPairs(relays: Relays): set<Pair> {
    set p | p in relays && relays[p].controller.Up?
  }

  ghost predicate AllIdle(relays: Relays) {
    forall p :: p in relays ==> Idle(relays[p])
  }

  function Crossing(relays: Relays, a: seq<nat>, b: seq<nat>): set<Pair> {
    set p | p in relays && Crosses(p, a, b)
  }

  /** Cutting and then healing the crossing relays leaves the same relays up exactly when all of those were. */
  lemma HealUndoesCut(before: Relays, cut: Relays, healed: Relays, a: Side, b: Side)
    requires UpPairs(cut) == UpPairs(before) - Crossing(before, a, b)
    requires UpPairs(healed) == UpPairs(cut) + Crossing(before, a, b)
    ensures UpPairs(healed) == UpPairs(before)
       <==> forall p :: p in before && Crosses(p, a, b) ==> before[p].controller.Up?
  {
    if UpPairs(healed) == UpPairs(before) {
      forall p | p in before && Crosses(p, a, b) ensures before[p].controller.Up? {
        assert p in Crossing(before, a, b);
      }
    } else {
      assert !(Crossing(before, a, b) <= UpPairs(before));
    }
  }

  predicate UpBetween(relays: Relays, u: nat, v: nat) {
    (u, v) in UpPairs(relays) || (v, u) in UpPairs(relays)
  }

  /** Within a side, every path over relays that are up survives the cut. */
  lemma CutKeepsSides(before: Relays, cut: Relays, a: Side, b: Side, path: seq<nat>)
    requires UpPairs(cut) == UpPairs(before) - Crossing(before, a, b) && AllReached(cut)
    requires Apart(a, b) && |path| > 0 && StaysOn(path, a)
    requires forall i :: 0 < i < |path| ==> UpBetween(before, path[i - 1], path[i])
    ensures IsPath(cut, path)
  {
    forall i | 0 < i < |path| ensures Linked(cut, path[i - 1], path[i]) {
      assert UpBetween(before, path[i - 1], path[i]);
      var p := if (path[i - 1], path[i]) in UpPairs(before) then (path[i - 1], path[i]) else (path[i], path[i - 1]);
      assert p in UpPairs(cut);
      UpCarries(cut[p]);
    }
  }

  lemma UpCarries(s: Relay.State)
    requires Reached(s) && s.controller.Up?
    ensures Carries(s)
  {
    var run :| s == Relay.After(Relay.Started(), run);
    Relay.EveryRun(Relay.Started(), run);
  }

  lemma {:induction false} IdleStays(s: Relay.State, run: seq<Relay.Action>)
    requires Idle(s) && !Relay.Has(run, Relay.Cut) && !Relay.Has(run, Relay.Heal)
    ensures Relay.After(s, run).controller == s.controller
  {
    if run != [] {
      var before := run[..|run| - 1];
      assert !Relay.Has(before, Relay.Cut) && !Relay.Has(before, Relay.Heal) by {
        forall i | 0 <= i < |before|
          ensures before[i] != Relay.Control(Relay.Cut) && before[i] != Relay.Control(Relay.Heal)
        {
          assert before[i] == run[i];
        }
      }
      IdleStays(s, before);
    }
  }

  lemma {:induction false} OnlyBackground(run: seq<Turn>, p: Pair)
    requires Background(run)
    ensures !Relay.Has(Only(run, p), Relay.Cut) && !Relay.Has(Only(run, p), Relay.Heal)
  {
    if run != [] {
      OnlyBackground(run[..|run| - 1], p);
    }
  }

  /** During a call on one relay every other relay keeps its standing. */
  lemma OthersStand(relays: Relays, pair: Pair, call: Relay.Call, run: seq<Turn>)
    requires pair in relays && Background(run) && AllReached(relays)
    ensures var later := After(Step(relays, Turn(pair, Relay.Control(call))), run);
            && later.Keys == relays.Keys && AllReached(later)
            && forall q :: q in relays && q != pair && Idle(relays[q]) ==> later[q].controller == relays[q].controller
  {
    var begun := Step(relays, Turn(pair, Relay.Control(call)));
    var one := [Turn(pair, Relay.Control(call))];
    assert one[..0] == [] && After(relays, one) == begun;
    ReachedKeeps(relays, one);
    ReachedKeeps(begun, run);
    Projected(begun, run);
    forall q | q in relays && q != pair && Idle(relays[q])
      ensures After(begun, run)[q].controller == relays[q].controller
    {
      OnlyBackground(run, q);
      IdleStays(relays[q], Only(run, q));
    }
  }

  /** The sides are different nodes of the mesh, and under this schedule every cut and then every heal returns. */
  predicate CanPartition(relays: Relays, n: nat, a: Side, b: Side, cuts: seq<seq<Turn>>, heals: seq<seq<Turn>>)
    requires |cuts| == |heals| == |CrossPairs(a, b)|
  {
    var pairs := CrossPairs(a, b);
    && (a == [] || b == [] || (Within(a, n) && Within(b, n) && Apart(a, b)))
    && AllReturned(relays, pairs, false, cuts)
    && AllReturned(CalledRun(relays, pairs, false, cuts, |pairs|), pairs, true, heals)
  }

  /** The standing a returned `heal` or `cut` leaves a relay in. */
  predicate Switched(s: Relay.State, up: bool) {
    if up then s.controller.Up? else s.controller.Down?
  }

  /** The first k of the listed relays stand as the call leaves them, the others as before. */
  ghost predicate CalledFirst(before: Relays, after: Relays, pairs: seq<Pair>, k: nat, up: bool)
    requires k <= |pairs|
  {
    && after.Keys == before.Keys && AllReached(after)
    && (forall p :: p in before && p in pairs[..k] ==> Switched(after[p], up))
    && (forall p :: p in before && p !in pairs[..k] ==> after[p].controller == before[p].controller)
  }

  /** The first listed pair without a relay stopped the calls; the earlier ones are done. */
  ghost predicate StoppedAtMissing(before: Relays, after: Relays, pairs: seq<Pair>, k: nat, up: bool) {
    && k < |pairs| && pairs[k] !in before && AllPresent(pairs[..k], before)
    && CalledFirst(before, after, pairs, k, up)
  }

  /** A call that did not return stopped the calls: its relay is neither up nor down as asked, the earlier are done. */
  ghost predicate StoppedAtTimeOut(before: Relays, after: Relays, pairs: seq<Pair>, k: nat, up: bool) {
    && k < |pairs| && AllPresent(pairs[..k + 1], before)
    && after.Keys == before.Keys && AllReached(after) && !Switched(after[pairs[k]], up)
    && (forall p :: p in before && p != pairs[k] && p in pairs[..k] ==> Switched(after[p], up))
    && (forall p :: p in before && p !in pairs[..k + 1] ==> after[p].controller == before[p].controller)
  }

  /** The relays after a call on one pair, with what all threads do from its beginning on. */
  function Called(relays: Relays, pair: Pair, up: bool, run: seq<Turn>): Relays {
    After(Step(relays, Turn(pair, Relay.Control(if up then Relay.Heal else Relay.Cut))), run)
  }

  lemma CalledNext(before: Relays, relays: Relays, pairs: seq<Pair>, k: nat, up: bool, run: seq<Turn>)
    requires k < |pairs| && AllIdle(before) && AllPresent(pairs[..k], before) && pairs[k] in before && Background(run)
    requires CalledFirst(before, relays, pairs, k, up)
    ensures var later := Called(relays, pairs[k], up, run);
            && pairs[k] in later && AllPresent(pairs[..k + 1], before)
            && if Switched(later[pairs[k]], up) then CalledFirst(before, later, pairs, k + 1, up)
               else StoppedAtTimeOut(before, later, pairs, k, up)
  {
    hide AllReached, After, Step, Relay.Step, Relay.Started;
    var more := pairs[..k + 1];
    assert more == pairs[..k] + [pairs[k]];
    OthersStand(relays, pairs[k], if up then Relay.Heal else Relay.Cut, run);
    var later := Called(relays, pairs[k], up, run);
    forall p | p in before && p != pairs[k] ensures later[p].controller == relays[p].controller {
      assert Idle(relays[p]);
    }
    forall i | 0 <= i < |more| ensures more[i] in before {
      if i < k { assert more[i] == pairs[..k][i]; }
    }
  }

  lemma CalledAll(before: Relays, after: Relays, a: Side, b: Side, up: bool)
    requires AllIdle(before) && CalledFirst(before, after, CrossPairs(a, b), |CrossPairs(a, b)|, up)
    ensures AllIdle(after)
    ensures UpPairs(after)
         == if up then UpPairs(before) + Crossing(before, a, b) else UpPairs(before) - Crossing(before, a, b)
  {
    var pairs := CrossPairs(a, b);
    assert pairs[..|pairs|] == pairs;
    CrossPairsExact(a, b);
    hide CrossPairs, AllReached;
  }

  // ── A schedule under which every call returns ────────────────────────────

  /** The relays after the first k calls. */
  function CalledRun(relays: Relays, pairs: seq<Pair>, up: bool, turns: seq<seq<Turn>>, k: nat): Relays
    requires k <= |pairs| == |turns|
  {
    if k == 0 then relays else Called(CalledRun(relays, pairs, up, turns, k - 1), pairs[k - 1], up, turns[k - 1])
  }

  /** The call on the k-th pair returns. */
  predicate ReturnsAt(relays: Relays, pairs: seq<Pair>, up: bool, turns: seq<seq<Turn>>, k: nat)
    requires k < |pairs| == |turns|
  {
    var later := CalledRun(relays, pairs, up, turns, k + 1);
    pairs[k] in later && Switched(later[pairs[k]], up)
  }

  predicate AllReturned(relays: Relays, pairs: seq<Pair>, up: bool, turns: seq<seq<Turn>>)
    requires |pairs| == |turns|
  {
    forall k :: 0 <= k < |pairs| ==> ReturnsAt(relays, pairs, up, turns, k)
  }

  /** All that happens is what this one relay does. */
  function On(pair: Pair, run: seq<Relay.Action>): seq<Turn> {
    seq(|run|, i requires 0 <= i < |run| => Turn(pair, run[i]))
  }

  lemma {:induction false} OnlyOn(pair: Pair, run: seq<Relay.Action>)
    ensures Only(On(pair, run), pair) == run
  {
    if run != [] {
      var turns := On(pair, run);
      assert turns[..|turns| - 1] == On(pair, run[..|run| - 1]);
      OnlyOn(pair, run[..|run| - 1]);
    }
  }

  lemma OnIsBackground(pair: Pair, run: seq<Relay.Action>)
    requires Relay.Calm(run)
    ensures Background(On(pair, run))
  {
    forall i | 0 <= i < |run|
      ensures run[i] != Relay.Control(Relay.Cut) && run[i] != Relay.Control(Relay.Heal)
    {
    }
  }

  /** One call on one relay can return. */
  lemma OneCanReturn(relays: Relays, pair: Pair, up: bool) returns (turns: seq<Turn>)
    requires pair in relays && Reached(relays[pair]) && Idle(relays[pair])
    ensures Background(turns)
    ensures pair in Called(relays, pair, up, turns) && Switched(Called(relays, pair, up, turns)[pair], up)
  {
    hide Relay.Step, Relay.Started;
    var run :| relays[pair] == Relay.After(Relay.Started(), run);
    var rest;
    if up {
      rest := Relay.HealCanReturn(run);
    } else {
      rest := Relay.CutCanReturn(run);
    }
    turns := On(pair, rest);
    OnIsBackground(pair, rest);
    OnlyOn(pair, rest);
    var begun := Step(relays, Turn(pair, Relay.Control(if up then Relay.Heal else Relay.Cut)));
    ProjectedAt(begun, turns, pair);
  }

  lemma CalledRunFirst(relays: Relays, pairs: seq<Pair>, up: bool, turns: seq<seq<Turn>>, more: seq<Turn>, k: nat)
    requires k <= |turns| < |pairs|
    ensures CalledRun(relays, pairs[..|turns|], up, turns, k)
         == CalledRun(relays, pairs[..|turns| + 1], up, turns + [more], k)
  {
    hide Called;
    if k > 0 {
      CalledRunFirst(relays, pairs, up, turns, more, k - 1);
    }
  }

  /** Some interleaving lets all the calls on these pairs return, one after the other. */
  lemma {:induction false} ScheduleFirst(relays: Relays, pairs: seq<Pair>, up: bool, n: nat)
    returns (turns: seq<seq<Turn>>)
    requires AllIdle(relays) && AllReached(relays) && AllPresent(pairs, relays) && n <= |pairs|
    ensures |turns| == n && (forall k :: 0 <= k < n ==> Background(turns[k]))
    ensures AllReturned(relays, pairs[..n], up, turns)
    ensures CalledFirst(relays, CalledRun(relays, pairs[..n], up, turns, n), pairs, n, up)
  {
    hide *;
    if n == 0 {
      turns := [];
      Unscheduled(relays, pairs, up);
    } else {
      var before := ScheduleFirst(relays, pairs, up, n - 1);
      var now := CalledRun(relays, pairs[..n - 1], up, before, n - 1);
      turns := OneMoreCall(relays, pairs, up, before, now, n - 1);
    }
  }

  lemma Unscheduled(relays: Relays, pairs: seq<Pair>, up: bool)
    requires AllReached(relays)
    ensures AllReturned(relays, pairs[..0], up, [])
    ensures CalledFirst(relays, CalledRun(relays, pairs[..0], up, [], 0), pairs, 0, up)
  {
    hide AllReached;
  }

  lemma OneMoreCall(relays: Relays, pairs: seq<Pair>, up: bool, before: seq<seq<Turn>>, now: Relays, n: nat)
    returns (turns: seq<seq<Turn>>)
    requires AllIdle(relays) && AllPresent(pairs, relays) && n < |pairs| && |before| == n
    requires forall k :: 0 <= k < n ==> Background(before[k])
    requires AllReturned(relays, pairs[..n], up, before) && now == CalledRun(relays, pairs[..n], up, before, n)
    requires CalledFirst(relays, now, pairs, n, up)
    ensures |turns| == n + 1 && (forall k :: 0 <= k < n + 1 ==> Background(turns[k]))
    ensures AllReturned(relays, pairs[..n + 1], up, turns)
    ensures CalledFirst(relays, CalledRun(relays, pairs[..n + 1], up, turns, n + 1), pairs, n + 1, up)
  {
    hide Called, Background, Reached, Idle, CalledRun, CalledFirst;
    var pair := pairs[n];
    CalledIsIdle(relays, now, pairs, n, up, pair);
    var more := OneCanReturn(now, pair, up);
    turns := before + [more];
    CalledNext(relays, now, pairs, n, up, more);
    forall k | 0 <= k <= n
      ensures CalledRun(relays, pairs[..n], up, before, k) == CalledRun(relays, pairs[..n + 1], up, turns, k)
    {
      CalledRunFirst(relays, pairs, up, before, more, k);
    }
    var all := pairs[..n + 1];
    LastCall(relays, all, up, turns);
    forall k | 0 <= k < n + 1 ensures ReturnsAt(relays, all, up, turns, k) {
      if k < n { assert ReturnsAt(relays, pairs[..n], up, before, k); }
    }
  }

  /** There is a schedule under which a partition and its end both succeed, from every standing of the mesh. */
  lemma PartitionCanSucceed(relays: Relays, n: nat, a: Side, b: Side)
    returns (cuts: seq<seq<Turn>>, heals: seq<seq<Turn>>)
    requires MeshOf(relays, n) && AllIdle(relays) && AllReached(relays)
    requires a == [] || b == [] || (Within(a, n) && Within(b, n) && Apart(a, b))
    ensures |cuts| == |CrossPairs(a, b)| && forall k :: 0 <= k < |cuts| ==> Background(cuts[k])
    ensures |heals| == |CrossPairs(a, b)| && forall k :: 0 <= k < |heals| ==> Background(heals[k])
    ensures CanPartition(relays, n, a, b, cuts, heals)
  {
    var pairs := CrossPairs(a, b);
    PresentExactly(relays, n, a, b);
    hide CrossPairs, AllReturned, CalledRun, Reached, Background;
    assert pairs[..|pairs|] == pairs;
    cuts := ScheduleFirst(relays, pairs, false, |pairs|);
    var cut := CalledRun(relays, pairs, false, cuts, |pairs|);
    CalledAll(relays, cut, a, b, false);
    assert AllPresent(pairs, cut);
    heals := ScheduleFirst(cut, pairs, true, |pairs|);
  }

  lemma LastCall(relays: Relays, pairs: seq<Pair>, up: bool, turns: seq<seq<Turn>>)
    requires |pairs| == |turns| > 0
    ensures CalledRun(relays, pairs, up, turns, |pairs|)
         == Called(CalledRun(relays, pairs, up, turns, |pairs| - 1), pairs[|pairs| - 1], up, turns[|pairs| - 1])
  {
    hide Called;
  }

  lemma CalledIsIdle(before: Relays, after: Relays, pairs: seq<Pair>, k: nat, up: bool, pair: Pair)
    requires k <= |pairs| && AllIdle(before) && CalledFirst(before, after, pairs, k, up) && pair in before
    ensures pair in after && Idle(after[pair]) && Reached(after[pair])
  {
  }

  lemma Uncalled(relays: Relays, pairs: seq<Pair>, up: bool)
    requires AllReached(relays)
    ensures AllPresent(pairs[..0], relays) && CalledFirst(relays, relays, pairs, 0, up)
  {
  }

  lemma NoCalls(relays: Relays, pairs: seq<Pair>, up: bool, turns: seq<seq<Turn>>)
    requires |pairs| == |turns|
    ensures CalledRun(relays, pairs, up, turns, 0) == relays
  {
  }

  lemma ReturnsIfSwitched(relays: Relays, pairs: seq<Pair>, up: bool, turns: seq<seq<Turn>>, k: nat)
    requires k < |pairs| == |turns|
    ensures var later := Called(CalledRun(relays, pairs, up, turns, k), pairs[k], up, turns[k]);
            && CalledRun(relays, pairs, up, turns, k + 1) == later
            && (ReturnsAt(relays, pairs, up, turns, k) <==> pairs[k] in later && Switched(later[pairs[k]], up))
  {
    hide Called, Switched;
  }

  lemma NotAllReturned(relays: Relays, pairs: seq<Pair>, up: bool, turns: seq<seq<Turn>>, k: nat)
    requires k < |pairs| == |turns| && !ReturnsAt(relays, pairs, up, turns, k)
    ensures !AllReturned(relays, pairs, up, turns)
  {
    hide ReturnsAt;
  }

  lemma AllReturnedIs(relays: Relays, pairs: seq<Pair>, up: bool, turns: seq<seq<Turn>>)
    requires |pairs| == |turns|
    ensures AllReturned(relays, pairs, up, turns)
       <==> forall k :: 0 <= k < |pairs| ==> ReturnsAt(relays, pairs, up, turns, k)
  {
    hide ReturnsAt;
  }

  lemma CalledKeys(before: Relays, after: Relays, pairs: seq<Pair>, k: nat, up: bool)
    requires k <= |pairs| && CalledFirst(before, after, pairs, k, up)
    ensures after.Keys == before.Keys && AllReached(after)
  {
  }

  lemma StoppedKeys(before: Relays, after: Relays, pairs: seq<Pair>, k: nat, up: bool)
    requires StoppedAtTimeOut(before, after, pairs, k, up)
    ensures after.Keys == before.Keys && AllReached(after)
  {
  }

  lemma Missing(before: Relays, after: Relays, pairs: seq<Pair>, k: nat, up: bool)
    requires k < |pairs| && AllPresent(pairs[..k], before) && CalledFirst(before, after, pairs, k, up)
    requires pairs[k] !in before
    ensures StoppedAtMissing(before, after, pairs, k, up) && !AllPresent(pairs, before)
  {
  }

  lemma SameMesh(before: Relays, after: Relays, n: nat)
    requires MeshOf(before, n) && after.Keys == before.Keys
    ensures MeshOf(after, n)
  {
    forall p ensures p in after <==> p in before {
      assert p in after.Keys <==> p in before.Keys;
    }
  }

  lemma SameCrossing(before: Relays, after: Relays, n: nat, a: Side, b: Side)
    requires MeshOf(before, n) && MeshOf(after, n)
    ensures Crossing(before, a, b) == Crossing(after, a, b)
  {
    forall p ensures p in before <==> p in after {
    }
  }

  class Mesh {
    const n: nat
    var relays: Relays

    ghost predicate Valid()
      reads this
    {
      MeshOf(relays, n) && AllReached(relays) && AllIdle(relays)
    }

    /** Every relay started. */
    constructor (n: nat)
      ensures Valid() && this.n == n && UpPairs(relays) == relays.Keys
    {
      this.n := n;
      relays := map i, j | 0 <= i < n && 0 <= j < n && i != j :: (i, j) := Relay.Started();
      new;
      assert Relay.Started() == Relay.After(Relay.Started(), []);
    }

    lemma Standing()
      requires Valid()
      ensures MeshOf(relays, n) && AllReached(relays) && AllIdle(relays)
    {
    }

    /**
     Cuts or heals every crossing relay, in order, each call returning before the next begins; `turns` is what
     all threads do from the beginning of each call on. A pair without a relay (a node outside the mesh, or on
     both sides) or a call that does not return stops it.
     */
    method CallBetween(a: Side, b: Side, up: bool, turns: seq<seq<Turn>>) returns (r: Outcome)
      requires Valid() && |turns| == |CrossPairs(a, b)| && forall k :: 0 <= k < |turns| ==> Background(turns[k])
      modifies this`relays
      ensures MeshOf(relays, n) && AllReached(relays)
      ensures r.Done? <==> AllPresent(CrossPairs(a, b), old(relays))
                           && AllReturned(old(relays), CrossPairs(a, b), up, turns)
      ensures r.Done? ==> r.pairs == CrossPairs(a, b)
      ensures r.Done? ==> relays == CalledRun(old(relays), CrossPairs(a, b), up, turns, |CrossPairs(a, b)|)
      ensures r.Done? ==> CalledFirst(old(relays), relays, CrossPairs(a, b), |CrossPairs(a, b)|, up)
      ensures r.MissingRelay? ==> !AllPresent(CrossPairs(a, b), old(relays))
      ensures r.MissingRelay? ==> exists k: nat :: StoppedAtMissing(old(relays), relays, CrossPairs(a, b), k, up)
                                           && CrossPairs(a, b)[k] == r.pair
      ensures r.TimedOut? ==> exists k: nat :: StoppedAtTimeOut(old(relays), relays, CrossPairs(a, b), k, up)
                                       && CrossPairs(a, b)[k] == r.pair
    {
      var pairs := CrossPairs(a, b);
      hide *;
      Standing();
      Uncalled(relays, pairs, up);
      NoCalls(relays, pairs, up, turns);
      for k := 0 to |pairs|
        invariant AllPresent(pairs[..k], old(relays))
        invariant relays == CalledRun(old(relays), pairs, up, turns, k)
        invariant forall j :: 0 <= j < k ==> ReturnsAt(old(relays), pairs, up, turns, j)
        invariant CalledFirst(old(relays), relays, pairs, k, up)
      {
        CalledKeys(old(relays), relays, pairs, k, up);
        if pairs[k] !in relays {
          Missing(old(relays), relays, pairs, k, up);
          SameMesh(old(relays), relays, n);
          return MissingRelay(pairs[k]);
        }
        CalledNext(old(relays), relays, pairs, k, up, turns[k]);
        ReturnsIfSwitched(old(relays), pairs, up, turns, k);
        relays := Called(relays, pairs[k], up, turns[k]);
        if !Switched(relays[pairs[k]], up) {
          NotAllReturned(old(relays), pairs, up, turns, k);
          StoppedKeys(old(relays), relays, pairs, k, up);
          SameMesh(old(relays), relays, n);
          return TimedOut(pairs[k]);
        }
      }
      assert pairs[..|pairs|] == pairs;
      CalledKeys(old(relays), relays, pairs, |pairs|, up);
      SameMesh(old(relays), relays, n);
      AllReturnedIs(old(relays), pairs, up, turns);
      r := Done(pairs);
    }

    method CutBetween(a: Side, b: Side, turns: seq<seq<Turn>>) returns (r: Outcome)
      requires Valid() && |turns| == |CrossPairs(a, b)| && forall k :: 0 <= k < |turns| ==> Background(turns[k])
      modifies this`relays
      ensures r.Done? <==> (a == [] || b == [] || (Within(a, n) && Within(b, n) && Apart(a, b)))
                           && AllReturned(old(relays), CrossPairs(a, b), false, turns)
      ensures r.Done? ==> relays == CalledRun(old(relays), CrossPairs(a, b), false, turns, |CrossPairs(a, b)|)
      ensures r.Done? ==> Valid() && UpPairs(relays) == old(UpPairs(relays) - Crossing(relays, a, b))
      ensures MeshOf(relays, n) && AllReached(relays)
      ensures r.MissingRelay? ==> a != [] && b != [] && !(Within(a, n) && Within(b, n) && Apart(a, b))
      ensures r.Done? && Covers(a, b, n) && Apart(a, b) && CleanlyCut(relays, a, b)
          ==> Separated(relays, a) && Separated(relays, b)
    {
      hide Separated, CrossPairs, CalledFirst, AllReached, AllReturned, CalledRun;
      PresentExactly(relays, n, a, b);
      r := CallBetween(a, b, false, turns);
      if r.Done? {
        CalledAll(old(relays), relays, a, b, false);
        if Covers(a, b, n) && Apart(a, b) && CleanlyCut(relays, a, b) {
          CutSeparates(relays, n, a, b, []);
        }
      }
    }

    method HealBetween(a: Side, b: Side, turns: seq<seq<Turn>>) returns (r: Outcome)
      requires Valid() && |turns| == |CrossPairs(a, b)| && forall k :: 0 <= k < |turns| ==> Background(turns[k])
      modifies this`relays
      ensures r.Done? <==> (a == [] || b == [] || (Within(a, n) && Within(b, n) && Apart(a, b)))
                           && AllReturned(old(relays), CrossPairs(a, b), true, turns)
      ensures r.Done? ==> relays == CalledRun(old(relays), CrossPairs(a, b), true, turns, |CrossPairs(a, b)|)
      ensures r.Done? ==> Valid() && UpPairs(relays) == old(UpPairs(relays) + Crossing(relays, a, b))
      ensures MeshOf(relays, n) && AllReached(relays)
      ensures r.MissingRelay? ==> a != [] && b != [] && !(Within(a, n) && Within(b, n) && Apart(a, b))
    {
      hide CrossPairs, CalledFirst, AllReached, AllReturned, CalledRun;
      PresentExactly(relays, n, a, b);
      r := CallBetween(a, b, true, turns);
      if r.Done? {
        CalledAll(old(relays), relays, a, b, true);
      }
    }

    /** A partition and its end: the same relays are up as before exactly when every crossing one was. */
    method CutThenHeal(a: Side, b: Side, cuts: seq<seq<Turn>>, heals: seq<seq<Turn>>) returns (r: Outcome)
      requires Valid()
      requires |cuts| == |CrossPairs(a, b)| && forall k :: 0 <= k < |cuts| ==> Background(cuts[k])
      requires |heals| == |CrossPairs(a, b)| && forall k :: 0 <= k < |heals| ==> Background(heals[k])
      modifies this`relays
      ensures MeshOf(relays, n) && AllReached(relays)
      ensures r.Done? <==> CanPartition(old(relays), n, a, b, cuts, heals)
      ensures r.Done? ==> Valid()
      ensures r.Done? ==> (UpPairs(relays) == old(UpPairs(relays))
                           <==> forall p :: p in old(relays) && Crosses(p, a, b) ==> old(relays)[p].controller.Up?)
    {
      hide CrossPairs, AllReached, AllReturned, CalledRun;
      r := CutBetween(a, b, cuts);
      if r.Done? {
        ghost var cut := relays;
        SameCrossing(old(relays), cut, n, a, b);
        r := HealBetween(a, b, heals);
        if r.Done? {
          HealUndoesCut(old(relays), cut, relays, a, b);
        }
      }
    }
  }
}
