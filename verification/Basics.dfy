/** What several of the consensus modules name or compute alike. */
module Basics {

  /** A block root, ordered as the big-endian number it is. */
  type Root = nat

  type Validator = nat

  function Get(m: map<nat, nat>, k: nat): nat {
    if k in m then m[k] else 0
  }

  function Max(a: int, b: int): int {
    if a < b then b else a
  }

  lemma {:induction false} SubsetAtMost<T>(a: set<T>, b: set<T>)
    ensures a <= b ==> |a| <= |b|
    decreases |a|
  {
    if a <= b && a != {} {
      var x :| x in a;
      SubsetAtMost(a - {x}, b - {x});
    }
  }
}
