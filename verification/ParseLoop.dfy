/**
 The parser's loop over the arguments, with its mode and current keyword, proved against the
 fold and against the caller's lists.
 */
module ParseLoop {
  import opened ParseArguments
  import opened ParseLists

  datatype InsideValues = No | InSingle | InMulti

  ghost predicate ModeIs(mode: InsideValues, name: string, open: Open) {
    match mode
    case No => open == Closed
    case InSingle => open == OpenSingle(name)
    case InMulti => open == OpenMulti(name)
  }

  /** The initial loops: value keywords empty, options FALSE, nothing unparsed. */
  method InitialVars(k: Keywords) returns (vars: map<string, seq<string>>)
    requires Reserved(k)
    ensures VarsAfter(k, [], vars)
  {
    vars := map[];
    var names := k.singles + k.multis;
    for n := 0 to |names|
      invariant forall name :: name in vars <==> name in names[..n]
      invariant forall name :: name in vars ==> vars[name] == []
    {
      vars := vars[names[n] := []];
    }
    assert names[..|names|] == names;
    ghost var valueKeys := vars.Keys;
    for n := 0 to |k.options|
      invariant forall name :: name in vars <==> name in valueKeys || name in k.options[..n]
      invariant forall name :: name in vars ==> vars[name] == if name in k.options[..n] then FALSE else []
    {
      vars := vars[k.options[n] := FALSE];
    }
    assert k.options[..|k.options|] == k.options;
    vars := vars[UNPARSED := []];
    assert forall name :: name in valueKeys <==> name in k.singles || name in k.multis;
  }

  /** The branch for an argument that is no keyword. */
  method TakeValue(k: Keywords, ghost seen: seq<string>, vars0: map<string, seq<string>>,
                   inside0: InsideValues, currentArgName: string, currentArg: string)
    returns (vars: map<string, seq<string>>, insideValues: InsideValues)
    requires Reserved(k) && VarsAfter(k, seen, vars0) && KindOf(k, currentArg).Value?
    requires ModeIs(inside0, currentArgName, OpenAfter(k, seen))
    requires !inside0.No? ==> !KindOf(k, currentArgName).Value?
    ensures VarsAfter(k, seen + [currentArg], vars)
    ensures ModeIs(insideValues, currentArgName, OpenAfter(k, seen + [currentArg]))
    ensures !insideValues.No? ==> insideValues == inside0
  {
    assert (seen + [currentArg])[..|seen|] == seen;
    vars, insideValues := vars0, inside0;
    if insideValues == InSingle {
      vars := vars[currentArgName := [currentArg]];
      insideValues := No;
    } else if insideValues == InMulti {
      vars := vars[currentArgName := vars[currentArgName] + [currentArg]];
    } else {
      vars := vars[UNPARSED := vars[UNPARSED] + [currentArg]];
    }
  }

  /** The branch for a keyword: it ends whatever list was open. */
  method TakeKeyword(k: Keywords, ghost seen: seq<string>, vars0: map<string, seq<string>>,
                     name0: string, currentArg: string)
    returns (vars: map<string, seq<string>>, insideValues: InsideValues, currentArgName: string)
    requires Reserved(k) && VarsAfter(k, seen, vars0) && !KindOf(k, currentArg).Value?
    ensures VarsAfter(k, seen + [currentArg], vars)
    ensures ModeIs(insideValues, currentArgName, OpenAfter(k, seen + [currentArg]))
    ensures !insideValues.No? ==> !KindOf(k, currentArgName).Value?
  {
    assert (seen + [currentArg])[..|seen|] == seen;
    currentArgName := name0;
    if currentArg in k.options {
      vars := vars0[currentArg := TRUE];
      insideValues := No;
    } else if currentArg in k.singles {
      currentArgName := currentArg;
      vars := vars0[currentArgName := []];
      insideValues := InSingle;
    } else {
      currentArgName := currentArg;
      vars := vars0[currentArgName := []];
      insideValues := InMulti;
    }
  }

  /** The whole function. */
  method Parse(k: Keywords, args: seq<string>) returns (vars: map<string, seq<string>>)
    requires Reserved(k)
    ensures VarsAfter(k, args, vars) && ParsedByLists(k, args, vars)
  {
    vars := InitialVars(k);
    var insideValues, currentArgName := No, "";
    for n := 0 to |args|
      invariant VarsAfter(k, args[..n], vars)
      invariant ModeIs(insideValues, currentArgName, OpenAfter(k, args[..n]))
      invariant !insideValues.No? ==> !KindOf(k, currentArgName).Value?
    {
      var currentArg := args[n];
      assert args[..n + 1] == args[..n] + [currentArg];
      if currentArg !in k.options && currentArg !in k.singles && currentArg !in k.multis {
        vars, insideValues := TakeValue(k, args[..n], vars, insideValues, currentArgName, currentArg);
      } else {
        vars, insideValues, currentArgName := TakeKeyword(k, args[..n], vars, currentArgName, currentArg);
      }
    }
    assert args[..|args|] == args;
    AllByLists(k, args, vars);
  }
}
