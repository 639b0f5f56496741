/**
 `CMAKE_PARSE_ARGUMENTS` (cmake/Modules/CMakeParseArguments.cmake): a loop over the
 arguments with a three-way mode that sorts them into one variable per keyword and a list of
 unparsed arguments. A CMake list is a sequence of strings; the prefix of the variable names
 is left out.
 */
module ParseArguments {

  datatype Keywords = Keywords(options: seq<string>, singles: seq<string>, multis: seq<string>)

  datatype Kind = Option | Single | Multi | Value

  /** How the loop treats an argument. A word listed twice counts as the first of these. */
  function KindOf(k: Keywords, arg: string): Kind {
    if arg in k.options then Option
    else if arg in k.singles then Single
    else if arg in k.multis then Multi
    else Value
  }

  const UNPARSED: string := "UNPARSED_ARGUMENTS"
  const TRUE: seq<string> := ["TRUE"]
  const FALSE: seq<string> := ["FALSE"]

  /** The words the caller passes as keywords. The variable for unparsed arguments is not one. */
  predicate Reserved(k: Keywords) {
    KindOf(k, UNPARSED).Value?
  }

  // ---------- the loop as a fold ----------

  /** Which keyword, if any, takes the next argument: `insideValues` and `currentArgName`. */
  datatype Open = Closed | OpenSingle(name: string) | OpenMulti(name: string)

  function OpenAfter(k: Keywords, args: seq<string>): Open {
    if args == [] then Closed
    else
      var before, arg := OpenAfter(k, args[..|args| - 1]), args[|args| - 1];
      match KindOf(k, arg)
      case Option => Closed
      case Single => OpenSingle(arg)
      case Multi => OpenMulti(arg)
      case Value => if before.OpenMulti? then before else Closed
  }

  /** The variable of keyword `name` after the loop has seen `args`. */
  function VarAfter(k: Keywords, args: seq<string>, name: string): seq<string> {
    if args == [] then if KindOf(k, name).Option? then FALSE else []
    else
      var init, arg := args[..|args| - 1], args[|args| - 1];
      if arg == name then if KindOf(k, name).Option? then TRUE else []
      else if !KindOf(k, arg).Value? then VarAfter(k, init, name)
      else if OpenAfter(k, init) == OpenSingle(name) then [arg]
      else if OpenAfter(k, init) == OpenMulti(name) then VarAfter(k, init, name) + [arg]
      else VarAfter(k, init, name)
  }

  function UnparsedAfter(k: Keywords, args: seq<string>): seq<string> {
    if args == [] then []
    else
      var init, arg := args[..|args| - 1], args[|args| - 1];
      UnparsedAfter(k, init) + (if KindOf(k, arg).Value? && OpenAfter(k, init).Closed? then [arg] else [])
  }

  /** The parser's variables, one per keyword and one for the unparsed arguments. */
  ghost predicate VarsAfter(k: Keywords, args: seq<string>, vars: map<string, seq<string>>) {
    && UNPARSED in vars && vars[UNPARSED] == UnparsedAfter(k, args)
    && (forall name :: !KindOf(k, name).Value? ==> name in vars && vars[name] == VarAfter(k, args, name))
    && (forall name :: name in vars && name != UNPARSED ==> !KindOf(k, name).Value?)
  }
}
