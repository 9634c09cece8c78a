/** What the scanners' `Set` loops compute. */
module Sequences {
  /** Each element once, where it first occurs. */
  function Unique<T(==, !new)>(ts: seq<T>): (r: seq<T>)
    ensures forall x :: x in r <==> x in ts
    ensures forall j, k :: 0 <= j < k < |r| ==> r[j] != r[k]
    decreases |ts|
  {
    if ts == [] then []
    else
      var before := Unique(ts[..|ts| - 1]);
      var last := ts[|ts| - 1];
      assert ts == ts[..|ts| - 1] + [last];
      if last in before then before else before + [last]
  }

  /** What comes later changes nothing of the order: new elements go to the end. */
  lemma {:induction false} UniqueGrows<T(!new)>(a: seq<T>, b: seq<T>)
    ensures Unique(a) <= Unique(a + b)
    decreases |b|
  {
    if b == [] {
      assert a + b == a;
    } else {
      UniqueGrows(a, b[..|b| - 1]);
      assert (a + b)[..|a + b| - 1] == a + b[..|b| - 1];
    }
  }
}
