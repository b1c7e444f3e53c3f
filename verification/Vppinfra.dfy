/** The bits of vppinfra that several components use. */
module Vppinfra {

  datatype Option<+T> = None | Some(value: T)

  lemma {:induction false} SubsetCard<T>(a: set<T>, b: set<T>)
    requires a <= b
    ensures |a| <= |b|
  {
    if a != {} {
      var x :| x in a;
      SubsetCard(a - {x}, b - {x});
    }
  }

  /** A free index of a pool; on a pool that never freed an element, the next one. */
  method PoolGet(used: set<nat>) returns (i: nat)
    ensures i !in used && i <= |used|
  {
    i := 0;
    ghost var below: set<nat> := {};
    while i in used
      invariant below <= used && |below| == i
      invariant forall x :: x in below ==> x < i
      decreases |used| - i
    {
      below := below + {i};
      i := i + 1;
      SubsetCard(below, used);
    }
    SubsetCard(below, used);
  }
}
