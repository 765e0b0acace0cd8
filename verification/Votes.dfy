/**
 How the fork-choice store judges one validator's votes: each against the
 single vote it retains, so the verdict can depend on the order of arrival.
 */
module Votes {
  import opened Basics
  import opened ForkChoice

  /** One validator's entry in the store. */
  datatype Record = Unseen | Retained(msg: LatestMessage) | Barred

  /** Judge one vote against the single retained one. */
  function Observe(r: Record, msg: LatestMessage): Record {
    match r
    case Barred => Barred
    case Unseen => Retained(msg)
    case Retained(prev) =>
      if prev.slot == msg.slot && prev.root != msg.root then Barred
      else if prev.slot >= msg.slot then r
      else Retained(msg)
  }

  function ObserveAll(msgs: seq<LatestMessage>): Record {
    if msgs == [] then Unseen else Observe(ObserveAll(msgs[..|msgs| - 1]), msgs[|msgs| - 1])
  }

  /** Votes `i` and `j` are for one slot and different blocks, and nothing later was seen before `j`. */
  ghost predicate Exposed(msgs: seq<LatestMessage>, i: nat, j: nat) {
    && i < j < |msgs|
    && msgs[i].slot == msgs[j].slot && msgs[i].root != msgs[j].root
    && forall k :: 0 <= k < j ==> msgs[k].slot <= msgs[i].slot
  }

  lemma {:induction false} RetainedIsFirstLatest(msgs: seq<LatestMessage>)
    ensures msgs == [] <==> ObserveAll(msgs) == Unseen
    ensures ObserveAll(msgs).Retained? ==>
      var m := ObserveAll(msgs).msg;
      && m in msgs
      && (forall k :: 0 <= k < |msgs| ==> msgs[k].slot <= m.slot)
      && (forall k :: 0 <= k < |msgs| && msgs[k].slot == m.slot ==> msgs[k].root == m.root)
  {
    if msgs != [] {
      var front, last := msgs[..|msgs| - 1], msgs[|msgs| - 1];
      RetainedIsFirstLatest(front);
      assert msgs == front + [last];
    }
  }

  /** A validator is barred exactly when two of its votes for one slot conflict and no later vote came between. */
  lemma {:induction false} BarredExactly(msgs: seq<LatestMessage>)
    ensures ObserveAll(msgs) == Barred <==> exists i: nat, j: nat :: Exposed(msgs, i, j)
  {
    if msgs != [] {
      var front, last := msgs[..|msgs| - 1], |msgs| - 1;
      BarredExactly(front);
      RetainedIsFirstLatest(front);
      if ObserveAll(front) == Barred {
        var i: nat, j: nat :| Exposed(front, i, j);
        assert Exposed(msgs, i, j);
      } else if ObserveAll(msgs) == Barred {
        var m := ObserveAll(front).msg;
        var i: nat :| i < last && front[i] == m;
        assert Exposed(msgs, i, last);
      }
      if i: nat, j: nat :| Exposed(msgs, i, j) {
        if j < last {
          assert Exposed(front, i, j);
        } else {
          assert front[i] == msgs[i];
        }
      }
    }
  }

  /** Votes all cast for one slot are judged the same in every order: barred exactly when two of them differ. */
  lemma OneSlotAnyOrder(msgs: seq<LatestMessage>)
    requires forall i, j :: 0 <= i < |msgs| && 0 <= j < |msgs| ==> msgs[i].slot == msgs[j].slot
    ensures ObserveAll(msgs) == Barred
       <==> exists i, j :: 0 <= i < |msgs| && 0 <= j < |msgs| && msgs[i].root != msgs[j].root
  {
    BarredExactly(msgs);
    if i, j :| 0 <= i < |msgs| && 0 <= j < |msgs| && msgs[i].root != msgs[j].root {
      assert Exposed(msgs, i, j) || Exposed(msgs, j, i);
    }
  }

  /** Of the six orders of a conflicting pair and one later vote, only two bar the validator. */
  lemma SixOrders(s: nat, x: Root, y: Root, z: Root)
    requires x != y
    ensures
      var a, b, c := LatestMessage(s, x), LatestMessage(s, y), LatestMessage(s + 1, z);
      && ObserveAll([a, b, c]) == Barred && ObserveAll([b, a, c]) == Barred
      && ObserveAll([a, c, b]) == Retained(c) && ObserveAll([b, c, a]) == Retained(c)
      && ObserveAll([c, a, b]) == Retained(c) && ObserveAll([c, b, a]) == Retained(c)
  {
    var a, b, c := LatestMessage(s, x), LatestMessage(s, y), LatestMessage(s + 1, z);
    Three(a, b, c);
    Three(b, a, c);
    Three(a, c, b);
    Three(b, c, a);
    Three(c, a, b);
    Three(c, b, a);
  }

  lemma Three(a: LatestMessage, b: LatestMessage, c: LatestMessage)
    ensures ObserveAll([a, b, c]) == Observe(Observe(Retained(a), b), c)
  {
    assert [a, b, c][..2] == [a, b] && [a, b][..1] == [a] && [a][..0] == [];
    assert ObserveAll([a]) == Retained(a);
    assert ObserveAll([a, b]) == Observe(Retained(a), b);
  }
}
