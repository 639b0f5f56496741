/** Counting the true flags of a sequence, one flag per worker thread. */
module Counting {

  function Bit(b: bool): nat {
    if b then 1 else 0
  }

  function Count(flags: seq<bool>): nat {
    if flags == [] then 0 else Count(flags[..|flags| - 1]) + Bit(flags[|flags| - 1])
  }

  lemma {:induction false} CountUpdate(flags: seq<bool>, i: nat, b: bool)
    requires i < |flags|
    ensures Count(flags[i := b]) + Bit(flags[i]) == Count(flags) + Bit(b)
  {
    var last := |flags| - 1;
    if i < last {
      CountUpdate(flags[..last], i, b);
      assert flags[i := b][..last] == flags[..last][i := b];
    } else {
      assert flags[i := b][..last] == flags[..last];
    }
  }

  /** The count ranges from "none" to "all", and reaches either end only there. */
  lemma {:induction false} CountBounds(flags: seq<bool>)
    ensures Count(flags) <= |flags|
    ensures Count(flags) == 0 <==> forall i :: 0 <= i < |flags| ==> !flags[i]
    ensures Count(flags) == |flags| <==> forall i :: 0 <= i < |flags| ==> flags[i]
  {
    if flags != [] {
      var rest := flags[..|flags| - 1];
      CountBounds(rest);
      assert forall i :: 0 <= i < |rest| ==> rest[i] == flags[i];
      if forall i :: 0 <= i < |rest| ==> !rest[i] {
        assert !flags[|flags| - 1] ==> forall i :: 0 <= i < |flags| ==> !flags[i];
      }
    }
  }
}
