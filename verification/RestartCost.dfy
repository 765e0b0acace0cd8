/**
 The restart projection (scripts/project-restart-recovery.py), over reals: its
 closed forms against the block-by-block sums they stand for.
 */
module RestartCost {

  datatype Model = Model(base: real, growth: real, overhead: real, metadata: real, stateLoad: real)

  datatype Projection = Projection(blocks: nat, tailBlocks: nat, full: real, cached: real)

  /** Executing the first n blocks. */
  function PrefixForm(m: Model, n: real): real {
    m.base * n + m.growth * n * (n - 1.0) / 2.0
  }

  /** Executing the last k of n blocks. */
  function TailForm(m: Model, n: real, k: real): real {
    m.base * k + m.growth * k * (2.0 * n - k - 1.0) / 2.0
  }

  function Project(m: Model, blocks: nat, tail: nat): Projection {
    var n := blocks as real;
    var full := m.overhead + m.metadata * n + PrefixForm(m, n);
    var t := if tail < blocks then tail else blocks;
    var cached := m.overhead + m.metadata * n + m.stateLoad + TailForm(m, n, t as real);
    Projection(blocks, t, full, cached)
  }

  /** The assumed cost of executing historical block k. */
  function BlockCost(m: Model, k: nat): real {
    m.base + m.growth * (k as real)
  }

  /** The cost of executing the blocks from one up to another. */
  function Replay(m: Model, from: nat, to: nat): real
    requires from <= to
  {
    if from == to then 0.0 else Replay(m, from, to - 1) + BlockCost(m, to - 1)
  }

  lemma {:induction false} ReplaySplits(m: Model, from: nat, mid: nat, to: nat)
    requires from <= mid <= to
    ensures Replay(m, from, to) == Replay(m, from, mid) + Replay(m, mid, to)
  {
    if mid < to {
      ReplaySplits(m, from, mid, to - 1);
    }
  }

  lemma {:induction false} ReplayFromStart(m: Model, n: nat)
    ensures Replay(m, 0, n) == PrefixForm(m, n as real)
  {
    if n > 0 {
      ReplayFromStart(m, n - 1);
      var x := n as real;
      assert (n - 1) as real == x - 1.0;
      assert m.growth * (x - 1.0) * (x - 1.0 - 1.0) / 2.0 + m.growth * (x - 1.0) == m.growth * x * (x - 1.0) / 2.0;
    }
  }

  lemma TailIsDifference(m: Model, n: real, k: real)
    ensures PrefixForm(m, n) - PrefixForm(m, n - k) == TailForm(m, n, k)
  {
    assert n * (n - 1.0) - (n - k) * (n - k - 1.0) == k * (2.0 * n - k - 1.0);
    assert m.growth * (n * (n - 1.0)) - m.growth * ((n - k) * (n - k - 1.0)) == m.growth * (k * (2.0 * n - k - 1.0));
  }

  /** The closed forms are the sums: everything, and the bounded tail after a state load. */
  lemma ClosedFormsAreSums(m: Model, blocks: nat, tail: nat)
    ensures var p := Project(m, blocks, tail);
            && p.tailBlocks <= blocks && p.tailBlocks <= tail && (p.tailBlocks == blocks || p.tailBlocks == tail)
            && p.full == m.overhead + m.metadata * (blocks as real) + Replay(m, 0, blocks)
            && p.cached
               == m.overhead + m.metadata * (blocks as real) + m.stateLoad + Replay(m, blocks - p.tailBlocks, blocks)
  {
    var t := Project(m, blocks, tail).tailBlocks;
    ReplayFromStart(m, blocks);
    ReplayFromStart(m, blocks - t);
    ReplaySplits(m, 0, blocks - t, blocks);
    TailIsDifference(m, blocks as real, t as real);
    hide PrefixForm, TailForm, Replay;
    assert (blocks - t) as real == blocks as real - t as real;
  }

  /** What caching saves is the skipped prefix less the state load; it pays exactly when that is not negative. */
  lemma CachingSaves(m: Model, blocks: nat, tail: nat)
    ensures var p := Project(m, blocks, tail);
            && p.full - p.cached == Replay(m, 0, blocks - p.tailBlocks) - m.stateLoad
            && (p.cached <= p.full <==> m.stateLoad <= Replay(m, 0, blocks - p.tailBlocks))
  {
    var t := Project(m, blocks, tail).tailBlocks;
    ClosedFormsAreSums(m, blocks, tail);
    ReplaySplits(m, 0, blocks - t, blocks);
  }
}
