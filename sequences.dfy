/** Facts about sequences of strings shared by the other modules: distinct
    elements and the position of an element's first occurrence (what list
    lookup, dict insertion order and pandas column lookup rely on). */
module Sequences {

  predicate Distinct(s: seq<string>) {
    forall i, j :: 0 <= i < j < |s| ==> s[i] != s[j]
  }

  /** Index of the first occurrence of `k` in `xs`. */
  function FirstIndex(xs: seq<string>, k: string): (i: nat)
    requires k in xs
    ensures i < |xs| && xs[i] == k
    ensures forall j :: 0 <= j < i ==> xs[j] != k
  {
    if xs[0] == k then 0 else 1 + FirstIndex(xs[1..], k)
  }

  /** Appending an element does not move the first occurrence of anything
      already present, and a new element is first seen at the end. */
  lemma FirstIndexAppend(xs: seq<string>, x: string, k: string)
    requires k in xs + [x]
    ensures k in xs ==> FirstIndex(xs + [x], k) == FirstIndex(xs, k)
    ensures k !in xs ==> FirstIndex(xs + [x], k) == |xs|
  {
    var ys := xs + [x];
    var i := FirstIndex(ys, k);
    assert forall j :: 0 <= j < |xs| ==> ys[j] == xs[j];
    if k in xs {
      var j := FirstIndex(xs, k);
      assert ys[j] == k;
    }
  }
}
