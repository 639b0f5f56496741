/** What the argument parser promises: last occurrences, no argument twice, and a round trip. */
module ParseTheorems {
  import opened ParseArguments

  // ---------- the last occurrence decides ----------

  /** The last index at which `name` occurs, or -1. */
  function LastAt(args: seq<string>, name: string): (i: int)
    ensures -1 <= i < |args|
    ensures i >= 0 ==> args[i] == name
  {
    if args == [] then -1
    else if args[|args| - 1] == name then |args| - 1
    else LastAt(args[..|args| - 1], name)
  }

  lemma {:induction false} LastAtIsLast(args: seq<string>, name: string, j: nat)
    requires LastAt(args, name) < j < |args|
    ensures args[j] != name
  {
    if j < |args| - 1 {
      LastAtIsLast(args[..|args| - 1], name, j);
    }
  }

  /** The end of the run of non-keywords that starts at `i`. */
  function RunEnd(k: Keywords, args: seq<string>, i: nat): (e: nat)
    requires i <= |args|
    ensures i <= e <= |args|
    ensures forall j :: i <= j < e ==> KindOf(k, args[j]).Value?
    ensures e < |args| ==> !KindOf(k, args[e]).Value?
    decreases |args| - i
  {
    if i < |args| && KindOf(k, args[i]).Value? then RunEnd(k, args, i + 1) else i
  }

  /** The maximal run of non-keywords after the last occurrence of `name`. */
  function LastRun(k: Keywords, args: seq<string>, name: string): seq<string> {
    var i := LastAt(args, name);
    if i < 0 then [] else args[i + 1..RunEnd(k, args, i + 1)]
  }

  /** The values that the last occurrence of `name` leaves in its variable. */
  function Expected(k: Keywords, args: seq<string>, name: string): seq<string> {
    var i := LastAt(args, name);
    match KindOf(k, name)
    case Option => if name in args then TRUE else FALSE
    case Single => if 0 <= i && i + 1 < |args| && KindOf(k, args[i + 1]).Value? then [args[i + 1]] else []
    case Multi => LastRun(k, args, name)
    case Value => []
  }

  lemma OpenSingleIff(k: Keywords, args: seq<string>, name: string)
    requires KindOf(k, name).Single?
    ensures OpenAfter(k, args) == OpenSingle(name) <==> args != [] && args[|args| - 1] == name
  {
  }

  lemma RunEndExtend(k: Keywords, args: seq<string>, arg: string, i: nat)
    requires i <= |args|
    ensures RunEnd(k, args + [arg], i)
         == if RunEnd(k, args, i) == |args| && KindOf(k, arg).Value? then |args| + 1 else RunEnd(k, args, i)
    decreases |args| - i
  {
    if i < |args| && KindOf(k, args[i]).Value? {
      RunEndExtend(k, args, arg, i + 1);
    } else if i == |args| && KindOf(k, arg).Value? {
      assert RunEnd(k, args + [arg], i) == RunEnd(k, args + [arg], i + 1);
    }
  }

  /** A multi-value keyword is open as long as only values follow its last occurrence. */
  ghost predicate RunReachesEnd(k: Keywords, args: seq<string>, name: string) {
    LastAt(args, name) >= 0 && RunEnd(k, args, LastAt(args, name) + 1) == |args|
  }

  lemma LastAtExtend(args: seq<string>, arg: string, name: string)
    ensures LastAt(args + [arg], name) == if arg == name then |args| else LastAt(args, name)
  {
    assert (args + [arg])[..|args|] == args;
  }

  lemma RunReachesEndExtend(k: Keywords, args: seq<string>, arg: string, name: string)
    ensures RunReachesEnd(k, args + [arg], name)
       <==> arg == name || (KindOf(k, arg).Value? && RunReachesEnd(k, args, name))
  {
    LastAtExtend(args, arg, name);
    if arg != name && LastAt(args, name) >= 0 {
      RunEndExtend(k, args, arg, LastAt(args, name) + 1);
    }
  }

  lemma {:induction false} OpenMultiIff(k: Keywords, args: seq<string>, name: string)
    requires KindOf(k, name).Multi?
    ensures OpenAfter(k, args) == OpenMulti(name) <==> RunReachesEnd(k, args, name)
  {
    if args != [] {
      var init, arg := args[..|args| - 1], args[|args| - 1];
      assert init + [arg] == args;
      OpenMultiIff(k, init, name);
      RunReachesEndExtend(k, init, arg, name);
    }
  }

  lemma RunSliceExtend(k: Keywords, args: seq<string>, arg: string, i: nat)
    requires i <= |args|
    ensures var e := RunEnd(k, args, i);
            (args + [arg])[i..RunEnd(k, args + [arg], i)]
            == args[i..e] + (if KindOf(k, arg).Value? && e == |args| then [arg] else [])
  {
    var e := RunEnd(k, args, i);
    RunEndExtend(k, args, arg, i);
    if e == |args| {
      assert (args + [arg])[i..e + 1] == args[i..e] + [arg];
    }
    assert (args + [arg])[i..e] == args[i..e] == args[i..e] + [];
  }

  lemma LastRunExtend(k: Keywords, args: seq<string>, arg: string, name: string)
    requires arg != name
    ensures LastRun(k, args + [arg], name)
         == LastRun(k, args, name) + (if KindOf(k, arg).Value? && RunReachesEnd(k, args, name) then [arg] else [])
  {
    LastAtExtend(args, arg, name);
    if LastAt(args, name) >= 0 {
      RunSliceExtend(k, args, arg, LastAt(args, name) + 1);
    } else {
      assert LastRun(k, args + [arg], name) == [] && LastRun(k, args, name) == [];
    }
  }

  lemma {:induction false} LastMultiDecides(k: Keywords, args: seq<string>, name: string)
    requires KindOf(k, name).Multi?
    ensures VarAfter(k, args, name) == LastRun(k, args, name)
  {
    if args != [] {
      var init, arg := args[..|args| - 1], args[|args| - 1];
      assert init + [arg] == args;
      LastMultiDecides(k, init, name);
      OpenMultiIff(k, init, name);
      if arg != name {
        LastRunExtend(k, init, arg, name);
      }
    }
  }

  lemma {:induction false} LastSingleDecides(k: Keywords, args: seq<string>, name: string)
    requires KindOf(k, name).Single?
    ensures VarAfter(k, args, name) == Expected(k, args, name)
  {
    if args != [] {
      var init, arg := args[..|args| - 1], args[|args| - 1];
      assert init + [arg] == args;
      LastSingleDecides(k, init, name);
      OpenSingleIff(k, init, name);
      LastAtExtend(init, arg, name);
    }
  }

  lemma {:induction false} OptionDecides(k: Keywords, args: seq<string>, name: string)
    requires KindOf(k, name).Option?
    ensures VarAfter(k, args, name) == Expected(k, args, name)
    ensures OpenAfter(k, args) != OpenSingle(name) && OpenAfter(k, args) != OpenMulti(name)
  {
    if args != [] {
      var init, arg := args[..|args| - 1], args[|args| - 1];
      assert init + [arg] == args;
      OptionDecides(k, init, name);
    }
  }

  /**
   A multi-value keyword gets the maximal run of non-keywords after its last occurrence, a
   one-value keyword at most the argument right after its last occurrence, and an option is
   TRUE exactly when it occurs.
   */
  lemma LastOccurrenceDecides(k: Keywords, args: seq<string>, name: string)
    requires !KindOf(k, name).Value?
    ensures VarAfter(k, args, name) == Expected(k, args, name)
  {
    match KindOf(k, name)
    case Option => OptionDecides(k, args, name);
    case Single => LastSingleDecides(k, args, name);
    case Multi => LastMultiDecides(k, args, name);
  }

  /**
   The example of the file's own comment: a one-value keyword right before an option is left
   empty, and the option is TRUE.
   */
  lemma OptionEndsSingle(k: Keywords, targets: string, foo: string, destination: string, optional: string)
    requires KindOf(k, targets).Multi? && KindOf(k, foo).Value?
    requires KindOf(k, destination).Single? && KindOf(k, optional).Option?
    ensures var args := [targets, foo, destination, optional];
            && VarAfter(k, args, destination) == []
            && VarAfter(k, args, optional) == TRUE
            && VarAfter(k, args, targets) == [foo]
  {
    var args := [targets, foo, destination, optional];
    LastOccurrenceDecides(k, args, destination);
    LastOccurrenceDecides(k, args, optional);
    LastOccurrenceDecides(k, args, targets);
    LastAtIs(args, destination, 2);
    LastAtIs(args, targets, 0);
    assert RunEnd(k, args, 2) == 2 && RunEnd(k, args, 1) == 2;
    assert args[1..2] == [foo];
  }

  lemma LastAtIs(args: seq<string>, name: string, i: nat)
    requires i < |args| && args[i] == name && forall j :: i < j < |args| ==> args[j] != name
    ensures LastAt(args, name) == i
  {
    if LastAt(args, name) < i {
      LastAtIsLast(args, name, i);
    }
  }

  // ---------- every argument is accounted for ----------

  /** The index of the keyword that is open after `args`, or -1. */
  function OpenIndex(k: Keywords, args: seq<string>): (o: int)
    ensures -1 <= o < |args|
    ensures o >= 0 ==> KindOf(k, args[o]).Single? || KindOf(k, args[o]).Multi?
  {
    if args == [] then -1
    else
      var o := OpenIndex(k, args[..|args| - 1]);
      match KindOf(k, args[|args| - 1])
      case Option => -1
      case Single => |args| - 1
      case Multi => |args| - 1
      case Value => if o >= 0 && KindOf(k, args[o]).Multi? then o else -1
  }

  /** What becomes of a value: left unparsed, kept under a keyword, or lost to a later repeat of it. */
  datatype Fate = Leftover | In(name: string) | Dropped

  function FateOf(k: Keywords, args: seq<string>, j: nat): Fate
    requires j < |args|
  {
    var o := OpenIndex(k, args[..j]);
    if o < 0 then Leftover
    else if LastAt(args, args[o]) == o then In(args[o])
    else Dropped
  }

  /** The values among the first `n` arguments that meet a given fate, in order. */
  function Select(k: Keywords, args: seq<string>, fate: Fate, n: nat): seq<string>
    requires n <= |args|
  {
    if n == 0 then []
    else Select(k, args, fate, n - 1)
         + (if KindOf(k, args[n - 1]).Value? && FateOf(k, args, n - 1) == fate then [args[n - 1]] else [])
  }

  lemma {:induction false} OpenIndexIsOpen(k: Keywords, args: seq<string>)
    ensures var o := OpenIndex(k, args);
            && OpenAfter(k, args) == (if o < 0 then Closed
                                      else if KindOf(k, args[o]).Single? then OpenSingle(args[o])
                                      else OpenMulti(args[o]))
            && (o >= 0 ==> LastAt(args, args[o]) == o)
  {
    if args != [] {
      OpenIndexIsOpen(k, args[..|args| - 1]);
    }
  }

  lemma FateExtend(k: Keywords, args: seq<string>, arg: string, j: nat)
    requires j < |args|
    ensures FateOf(k, args + [arg], j)
         == if FateOf(k, args, j) == In(arg) then Dropped else FateOf(k, args, j)
  {
    assert (args + [arg])[..j] == args[..j];
    var o := OpenIndex(k, args[..j]);
    if o >= 0 {
      LastAtExtend(args, arg, args[o]);
    }
  }

  lemma {:induction false} SelectExtend(k: Keywords, args: seq<string>, arg: string, fate: Fate, n: nat)
    requires n <= |args| && !fate.Dropped?
    ensures Select(k, args + [arg], fate, n) == if fate == In(arg) then [] else Select(k, args, fate, n)
  {
    if n > 0 {
      var longer, met := args + [arg], KindOf(k, args[n - 1]).Value? && FateOf(k, args, n - 1) == fate;
      SelectExtend(k, args, arg, fate, n - 1);
      FateExtend(k, args, arg, n - 1);
      assert longer[n - 1] == args[n - 1];
      assert KindOf(k, longer[n - 1]).Value? && FateOf(k, longer, n - 1) == fate <==> met && fate != In(arg);
    }
  }

  lemma LastFate(k: Keywords, args: seq<string>, arg: string)
    requires KindOf(k, arg).Value?
    ensures FateOf(k, args + [arg], |args|)
         == match OpenAfter(k, args) case Closed => Leftover case OpenSingle(n) => In(n) case OpenMulti(n) => In(n)
  {
    OpenIndexIsOpen(k, args);
    assert (args + [arg])[..|args|] == args;
    var o := OpenIndex(k, args);
    if o >= 0 {
      LastAtExtend(args, arg, args[o]);
    }
  }

  /** The unparsed list is exactly the values that no keyword was open for. */
  lemma {:induction false} UnparsedIsLeftover(k: Keywords, args: seq<string>)
    ensures UnparsedAfter(k, args) == Select(k, args, Leftover, |args|)
  {
    if args != [] {
      var init, arg := args[..|args| - 1], args[|args| - 1];
      assert init + [arg] == args;
      UnparsedIsLeftover(k, init);
      SelectExtend(k, init, arg, Leftover, |init|);
      if KindOf(k, arg).Value? {
        LastFate(k, init, arg);
      }
    }
  }

  /** A one-value keyword that has its value is no longer open. */
  lemma {:induction false} OpenSingleIsEmpty(k: Keywords, args: seq<string>, name: string)
    requires KindOf(k, name).Single? && OpenAfter(k, args) == OpenSingle(name)
    ensures VarAfter(k, args, name) == []
  {
  }

  /** The keyword that is open after `args`, if any, is this one. */
  predicate IsOpen(k: Keywords, args: seq<string>, name: string) {
    OpenAfter(k, args) == OpenSingle(name) || OpenAfter(k, args) == OpenMulti(name)
  }

  lemma VarExtend(k: Keywords, args: seq<string>, arg: string, name: string)
    requires KindOf(k, name).Single? || KindOf(k, name).Multi?
    ensures VarAfter(k, args + [arg], name)
         == if arg == name then []
            else VarAfter(k, args, name) + if KindOf(k, arg).Value? && IsOpen(k, args, name) then [arg] else []
  {
    assert (args + [arg])[..|args|] == args;
    assert VarAfter(k, args, name) + [] == VarAfter(k, args, name);
    OpenIndexIsOpen(k, args);
    if OpenAfter(k, args) == OpenSingle(name) {
      OpenSingleIsEmpty(k, args, name);
    }
  }

  /** The last argument is kept under the keyword that is open before it. */
  lemma SelectLast(k: Keywords, args: seq<string>, arg: string, name: string)
    requires KindOf(k, name).Single? || KindOf(k, name).Multi?
    ensures Select(k, args + [arg], In(name), |args| + 1)
         == Select(k, args + [arg], In(name), |args|)
            + if KindOf(k, arg).Value? && IsOpen(k, args, name) then [arg] else []
  {
    if KindOf(k, arg).Value? {
      LastFate(k, args, arg);
    }
  }

  /** A keyword's variable is exactly the values that were kept under it. */
  lemma {:induction false} VarIsKept(k: Keywords, args: seq<string>, name: string)
    requires KindOf(k, name).Single? || KindOf(k, name).Multi?
    ensures VarAfter(k, args, name) == Select(k, args, In(name), |args|)
  {
    if args != [] {
      var init, arg := args[..|args| - 1], args[|args| - 1];
      assert init + [arg] == args;
      VarIsKept(k, init, name);
      VarExtend(k, init, arg, name);
      SelectExtend(k, init, arg, In(name), |init|);
      SelectLast(k, init, arg, name);
    }
  }

  lemma {:induction false} OwnerIsFollowedByValue(k: Keywords, args: seq<string>, j: nat)
    requires j < |args| && KindOf(k, args[j]).Value? && OpenIndex(k, args[..j]) >= 0
    ensures KindOf(k, args[OpenIndex(k, args[..j]) + 1]).Value?
  {
    var o := OpenIndex(k, args[..j]);
    if o < j - 1 {
      assert args[..j][..j - 1] == args[..j - 1];
      OwnerIsFollowedByValue(k, args, j - 1);
    }
  }

  /** Each occurrence of a keyword that takes a value is its keyword's last. */
  ghost predicate NoRepeats(k: Keywords, args: seq<string>) {
    forall i :: 0 <= i < |args| - 1 && TakesValue(k, args, i) ==> LastAt(args, args[i]) == i
  }

  lemma NoRepeatsKeepsAll(k: Keywords, args: seq<string>, j: nat)
    requires NoRepeats(k, args) && j < |args| && KindOf(k, args[j]).Value?
    ensures !FateOf(k, args, j).Dropped?
  {
    var o := OpenIndex(k, args[..j]);
    if o >= 0 {
      OwnerIsFollowedByValue(k, args, j);
      assert TakesValue(k, args, o);
    }
  }

  /** The value right after a keyword that takes it is dropped if the keyword comes again. */
  lemma RepeatDrops(k: Keywords, args: seq<string>, i: nat)
    requires i < |args| - 1 && TakesValue(k, args, i) && !FateOf(k, args, i + 1).Dropped?
    ensures LastAt(args, args[i]) == i
  {
    var seen := args[..i + 1];
    assert seen[|seen| - 1] == args[i];
    assert OpenIndex(k, seen) == i;
  }

  /** No value is dropped exactly when no keyword that took one is repeated. */
  lemma NothingDroppedIff(k: Keywords, args: seq<string>)
    ensures (forall j :: 0 <= j < |args| && KindOf(k, args[j]).Value? ==> !FateOf(k, args, j).Dropped?)
       <==> NoRepeats(k, args)
  {
    if NoRepeats(k, args) {
      forall j | 0 <= j < |args| && KindOf(k, args[j]).Value?
        ensures !FateOf(k, args, j).Dropped?
      {
        NoRepeatsKeepsAll(k, args, j);
      }
    }
    if forall j :: 0 <= j < |args| && KindOf(k, args[j]).Value? ==> !FateOf(k, args, j).Dropped? {
      forall i | 0 <= i < |args| - 1 && TakesValue(k, args, i)
        ensures LastAt(args, args[i]) == i
      {
        RepeatDrops(k, args, i);
      }
    }
  }

  /** Argument `i` is a value keyword with a value right after it. */
  predicate TakesValue(k: Keywords, args: seq<string>, i: int)
    requires 0 <= i < |args| - 1
  {
    (KindOf(k, args[i]).Single? || KindOf(k, args[i]).Multi?) && KindOf(k, args[i + 1]).Value?
  }
}
