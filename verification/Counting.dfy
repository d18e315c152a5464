/** Elements and cardinalities of sets. */
module Counting {

  lemma {:induction false} SomeElement<T>(s: set<T>) returns (x: T)
    requires s != {}
    ensures x in s
  {
    x :| x in s;
  }

  lemma {:induction false} CountWithout<T>(a: set<T>, b: set<T>, c: T)
    requires a - {c} == b - {c}
    ensures |a| - (if c in a then 1 else 0) == |b| - (if c in b then 1 else 0)
  {
    assert |a - {c}| == |a| - if c in a then 1 else 0;
    assert |b - {c}| == |b| - if c in b then 1 else 0;
  }
}
