/** Addresses of nodes, and pointers that carry a tag. */
module Pointers {
  type Addr = nat
  const NULL: Addr := 0

  /** tagged_ptr: compared and swapped as one value. */
  datatype Tagged = Tagged(ptr: Addr, tag: nat)

  /** tagged_ptr::cas: succeeds only on an equal pointer and tag, and bumps the tag. */
  function Cas(cur: Tagged, old_: Tagged, ptr: Addr): Tagged {
    if cur == old_ then Tagged(ptr, old_.tag + 1) else cur
  }

  /** `p` was read from a location that now holds `cur`, and tags there only grow. */
  predicate Stale(p: Tagged, cur: Tagged) {
    p.tag <= cur.tag && (p.tag == cur.tag ==> p == cur)
  }

  /** The i-th address of a list, NULL beyond its end. */
  function Nth(xs: seq<Addr>, i: nat): Addr {
    if i < |xs| then xs[i] else NULL
  }

  /** There is always an address that is not in use. */
  lemma {:induction false} Unused(used: set<Addr>) returns (n: Addr)
    ensures n != NULL && n !in used && forall a :: a in used ==> a < n
    decreases |used|
  {
    n := 1;
    if a :| a in used {
      var m := Unused(used - {a});
      n := if m > a then m else a + 1;
      assert forall b :: b in used ==> b == a || b in used - {a};
    }
  }
}
