/** Adding up a measure over all threads. */
module Sums {
  ghost function Sum(keys: set<nat>, f: nat -> nat): nat {
    if keys == {} then 0 else var k :| k in keys; f(k) + Sum(keys - {k}, f)
  }

  lemma NoTerms(f: nat -> nat)
    ensures Sum({}, f) == 0
  {
  }

  /** The order does not matter. */
  lemma {:induction false} SumRemove(keys: set<nat>, f: nat -> nat, k: nat)
    requires k in keys
    ensures Sum(keys, f) == f(k) + Sum(keys - {k}, f)
    decreases |keys|
  {
    var first :| first in keys && Sum(keys, f) == f(first) + Sum(keys - {first}, f);
    if first != k {
      SumRemove(keys - {first}, f, k);
      SumRemove(keys - {k}, f, first);
      assert keys - {first} - {k} == keys - {k} - {first};
    }
  }

  lemma OneMore(keys: set<nat>, k: nat, m: nat)
    requires k in keys
    ensures m * |keys| == m * |keys - {k}| + m
  {
    assert |keys| == |keys - {k}| + 1;
    assert m * (|keys - {k}| + 1) == m * |keys - {k}| + m;
  }

  /** Each term grows by at most `m`. */
  lemma {:induction false} SumGrows(keys: set<nat>, f: nat -> nat, f': nat -> nat, m: nat)
    requires forall k :: k in keys ==> f'(k) <= f(k) + m
    ensures Sum(keys, f') <= Sum(keys, f) + m * |keys|
    decreases |keys|
  {
    hide Sum;
    if keys == {} {
      NoTerms(f);
      NoTerms(f');
    }
    if k :| k in keys {
      SumRemove(keys, f, k);
      SumRemove(keys, f', k);
      SumGrows(keys - {k}, f, f', m);
      OneMore(keys, k, m);
    }
  }

  /** One term changes and the others grow by at most `m`. */
  lemma SumStep(keys: set<nat>, f: nat -> nat, f': nat -> nat, t: nat, m: nat)
    requires t in keys && forall k :: k in keys && k != t ==> f'(k) <= f(k) + m
    ensures Sum(keys, f') + f(t) <= Sum(keys, f) + f'(t) + m * |keys|
  {
    hide Sum;
    SumRemove(keys, f, t);
    SumRemove(keys, f', t);
    SumGrows(keys - {t}, f, f', m);
    OneMore(keys, t, m);
  }

  lemma {:induction false} SumBound(keys: set<nat>, f: nat -> nat, b: nat)
    requires forall k :: k in keys ==> f(k) <= b
    ensures Sum(keys, f) <= b * |keys|
    decreases |keys|
  {
    hide Sum;
    if keys == {} {
      NoTerms(f);
    }
    if k :| k in keys {
      SumRemove(keys, f, k);
      SumBound(keys - {k}, f, b);
      OneMore(keys, k, b);
    }
  }
}
