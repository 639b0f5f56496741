/** Case-insensitive substring search (`ci_find_substr` in common/utils.h) and its use on addresses. */
module Substring {

  /** `needle` stands in `text` at index `k`. */
  predicate OccursAt(text: string, needle: string, k: int) {
    0 <= k && k + |needle| <= |text| && text[k..k + |needle|] == needle
  }

  function MapString(text: string, upper: char -> char): string {
    seq(|text|, i requires 0 <= i < |text| => upper(text[i]))
  }

  /** The comparison `my_equal` makes, character by character from `k`. */
  predicate EqualAt(text: string, needle: string, upper: char -> char, k: nat) {
    k + |needle| <= |text| && forall j :: 0 <= j < |needle| ==> upper(text[k + j]) == upper(needle[j])
  }

  /** `std::search` from `from` on: the first match, or the end of the text. */
  function Search(text: string, needle: string, upper: char -> char, from: nat): (it: nat)
    requires from <= |text|
    ensures from <= it <= |text|
    ensures it < |text| ==> EqualAt(text, needle, upper, it)
    ensures forall k :: from <= k < it ==> !EqualAt(text, needle, upper, k)
    decreases |text| - from
  {
    if from == |text| || EqualAt(text, needle, upper, from) then from else Search(text, needle, upper, from + 1)
  }

  function CiFindSubstr(text: string, needle: string, upper: char -> char): (r: int) {
    var it := Search(text, needle, upper, 0);
    if it != |text| then it else -1
  }

  lemma EqualAtIsOccursAt(text: string, needle: string, upper: char -> char, k: nat)
    ensures EqualAt(text, needle, upper, k) <==> OccursAt(MapString(text, upper), MapString(needle, upper), k)
  {
    var t, n := MapString(text, upper), MapString(needle, upper);
    if EqualAt(text, needle, upper, k) {
      assert t[k..k + |n|] == n;
    }
    if OccursAt(t, n, k) {
      forall j | 0 <= j < |needle|
        ensures upper(text[k + j]) == upper(needle[j])
      {
        assert n[j] == t[k..k + |n|][j] == t[k + j];
      }
    }
  }

  /**
   The result is the least index at which the upper-cased needle occurs in the upper-cased
   text, and -1 exactly when there is none or the text is empty.
   */
  lemma CiFindSubstrIsLeftmost(text: string, needle: string, upper: char -> char)
    ensures var r := CiFindSubstr(text, needle, upper);
            var t, n := MapString(text, upper), MapString(needle, upper);
            && (r == -1 <==> text == "" || forall k :: !OccursAt(t, n, k))
            && (r != -1 ==> OccursAt(t, n, r) && forall k :: 0 <= k < r ==> !OccursAt(t, n, k))
  {
    var it := Search(text, needle, upper, 0);
    var t, n := MapString(text, upper), MapString(needle, upper);
    forall k: int
      ensures 0 <= k ==> (EqualAt(text, needle, upper, k) <==> OccursAt(t, n, k))
    {
      if 0 <= k {
        EqualAtIsOccursAt(text, needle, upper, k);
      }
    }
    if needle == "" {
      assert EqualAt(text, needle, upper, 0);
    }
  }

  /** Standing at `k` means that the text is something of length `k`, the needle, and something more. */
  lemma OccursAtIff(text: string, needle: string, k: nat)
    ensures OccursAt(text, needle, k)
       <==> exists before: string, after: string :: |before| == k && text == before + needle + after
  {
    if OccursAt(text, needle, k) {
      var before, after := text[..k], text[k + |needle|..];
      assert text == before + text[k..k + |needle|] + after;
      assert |before| == k && text == before + needle + after;
    }
    if before: string, after: string :| |before| == k && text == before + needle + after {
      assert text[k..k + |needle|] == needle;
    }
  }

  // ---------- the address test ----------

  /** `std::string::find` finds the needle. */
  predicate Finds(text: string, needle: string) {
    exists k :: 0 <= k <= |text| && OccursAt(text, needle, k)
  }

  /** The address contains the target under the chosen case mode. */
  predicate Contains(address: string, target: string, isCase: bool, upper: char -> char) {
    if isCase then Finds(address, target) else CiFindSubstr(address, target, upper) != -1
  }

  /**
   Case-sensitively, the target stands somewhere in the address. Otherwise it does so once
   both are upper-cased, except that an empty address contains nothing.
   */
  lemma ContainsIff(address: string, target: string, isCase: bool, upper: char -> char)
    ensures isCase ==>
              (Contains(address, target, isCase, upper)
               <==> exists before: string, after: string :: address == before + target + after)
    ensures !isCase ==>
              (Contains(address, target, isCase, upper)
               <==> address != "" && exists before: string, after: string ::
                      MapString(address, upper) == before + MapString(target, upper) + after)
  {
    if isCase {
      OccursSomewhereIff(address, target);
    } else {
      CiFindSubstrIsLeftmost(address, target, upper);
      OccursSomewhereIff(MapString(address, upper), MapString(target, upper));
    }
  }

  lemma OccursSomewhereIff(text: string, needle: string)
    ensures (exists k :: 0 <= k <= |text| && OccursAt(text, needle, k))
       <==> exists before: string, after: string :: text == before + needle + after
  {
    if k :| 0 <= k <= |text| && OccursAt(text, needle, k) {
      OccursAtIff(text, needle, k);
    }
    if before: string, after: string :| text == before + needle + after {
      OccursAtIff(text, needle, |before|);
    }
  }

  predicate Accepts(address: string, targets: seq<string>, isCase: bool, upper: char -> char) {
    targets != [] && forall target :: target in targets ==> Contains(address, target, isCase, upper)
  }

  lemma AcceptsIff(address: string, targets: seq<string>, isCase: bool, upper: char -> char)
    ensures isCase ==>
              (Accepts(address, targets, isCase, upper)
               <==> targets != [] && forall target :: target in targets ==>
                      exists before: string, after: string :: address == before + target + after)
    ensures !isCase ==>
              (Accepts(address, targets, isCase, upper)
               <==> targets != [] && address != "" && forall target :: target in targets ==>
                      exists before: string, after: string ::
                        MapString(address, upper) == before + MapString(target, upper) + after)
  {
    if targets != [] {
      assert targets[0] in targets;
      ContainsIff(address, targets[0], isCase, upper);
    }
    forall target | target in targets
      ensures isCase ==>
                (Contains(address, target, isCase, upper)
                 <==> exists before: string, after: string :: address == before + target + after)
      ensures !isCase ==>
                (Contains(address, target, isCase, upper)
                 <==> address != "" && exists before: string, after: string ::
                        MapString(address, upper) == before + MapString(target, upper) + after)
    {
      ContainsIff(address, target, isCase, upper);
    }
  }

  /** The matching loop of `_getaddress`: it reports once the count reaches the number of targets. */
  method MatchTargets(address: string, targets: seq<string>, isCase: bool, upper: char -> char)
    returns (report: bool)
    ensures report <==> Accepts(address, targets, isCase, upper)
    ensures isCase ==>
              (report <==> targets != [] && forall target :: target in targets ==>
                 exists before: string, after: string :: address == before + target + after)
    ensures !isCase ==>
              (report <==> targets != [] && address != "" && forall target :: target in targets ==>
                 exists before: string, after: string ::
                   MapString(address, upper) == before + MapString(target, upper) + after)
  {
    AcceptsIff(address, targets, isCase, upper);
    var imatch := 0;
    report := false;
    for n := 0 to |targets|
      invariant imatch == n && !report
      invariant n > 0 ==> n < |targets|
      invariant forall m :: 0 <= m < n ==> Contains(address, targets[m], isCase, upper)
    {
      if Contains(address, targets[n], isCase, upper) {
        imatch := imatch + 1;
        if |targets| == imatch {
          return true;
        }
      } else {
        assert targets[n] in targets;
        return false;
      }
    }
  }

  lemma SensitiveMatchIsInsensitiveMatch(address: string, target: string, upper: char -> char)
    requires address != "" && Contains(address, target, true, upper)
    ensures Contains(address, target, false, upper)
  {
    var k :| 0 <= k <= |address| && OccursAt(address, target, k);
    var a, t := MapString(address, upper), MapString(target, upper);
    assert a[k..k + |t|] == t by {
      forall j | 0 <= j < |target|
        ensures a[k..k + |t|][j] == t[j]
      {
        assert target[j] == address[k..k + |target|][j] == address[k + j];
      }
    }
    assert OccursAt(a, t, k);
    CiFindSubstrIsLeftmost(address, target, upper);
  }

  /**
   Switching to case-insensitive mode keeps an accepted address accepted, except in one
   case: an empty address against targets that are all empty.
   */
  lemma InsensitiveModeAcceptsMore(address: string, targets: seq<string>, upper: char -> char)
    ensures (Accepts(address, targets, true, upper) ==> Accepts(address, targets, false, upper))
       <==> !(address == "" && targets != [] && forall target :: target in targets ==> target == "")
  {
    if address != "" {
      forall target | target in targets && Contains(address, target, true, upper)
        ensures Contains(address, target, false, upper)
      {
        SensitiveMatchIsInsensitiveMatch(address, target, upper);
      }
    } else {
      forall target | target in targets
        ensures Contains(address, target, true, upper) <==> target == ""
      {
        assert OccursAt(address, "", 0);
      }
      if targets != [] {
        assert targets[0] in targets;
        assert !Contains(address, targets[0], false, upper);
      }
    }
  }
}
