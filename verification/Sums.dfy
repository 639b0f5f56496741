/** Adding up a sequence of numbers. */
module Sums {

  function Sum(values: seq<nat>): nat {
    if values == [] then 0 else Sum(values[..|values| - 1]) + values[|values| - 1]
  }

  lemma SumExtend(values: seq<nat>, v: nat)
    ensures Sum(values + [v]) == Sum(values) + v
  {
    assert (values + [v])[..|values|] == values;
  }

  lemma {:induction false} SumConcat(a: seq<nat>, b: seq<nat>)
    ensures Sum(a + b) == Sum(a) + Sum(b)
  {
    if b == [] {
      assert a + b == a;
    } else {
      SumConcat(a, b[..|b| - 1]);
      assert (a + b)[..|a + b| - 1] == a + b[..|b| - 1];
    }
  }

  lemma {:induction false} SumUpdate(values: seq<nat>, i: nat, v: nat)
    requires i < |values|
    ensures Sum(values[i := v]) + values[i] == Sum(values) + v
  {
    var last := |values| - 1;
    if i < last {
      SumUpdate(values[..last], i, v);
      assert values[i := v][..last] == values[..last][i := v];
    } else {
      assert values[i := v][..last] == values[..last];
    }
  }

  lemma {:induction false} SumBound(values: seq<nat>, most: nat)
    requires forall i :: 0 <= i < |values| ==> values[i] <= most
    ensures Sum(values) <= most * |values|
  {
    if values != [] {
      SumBound(values[..|values| - 1], most);
    }
  }
}
