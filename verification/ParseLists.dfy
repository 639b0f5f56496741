/**
 The parser's results said of the caller's three keyword lists. A word in more than one list
 counts as an option first and a one-value keyword second.
 */
module ParseLists {
  import opened ParseArguments
  import opened ParseTheorems

  predicate IsWord(k: Keywords, arg: string) {
    arg !in k.options && arg !in k.singles && arg !in k.multis
  }

  ghost predicate LastOccurs(args: seq<string>, name: string, i: nat) {
    i < |args| && args[i] == name && forall j :: i < j < |args| ==> args[j] != name
  }

  /** The value is the words after `i`, up to the next keyword or the end, which is at `e`. */
  ghost predicate IsRunAfter(k: Keywords, args: seq<string>, i: nat, e: int, value: seq<string>) {
    && i + 1 <= e <= |args| && value == args[i + 1..e]
    && (forall j :: i < j < e ==> IsWord(k, args[j]))
    && (e < |args| ==> !IsWord(k, args[e]))
  }

  /** At most the word right after the last occurrence. */
  ghost predicate IsSingleVar(k: Keywords, args: seq<string>, name: string, value: seq<string>) {
    && (name !in args ==> value == [])
    && forall i: nat :: LastOccurs(args, name, i) ==>
         value == if i + 1 < |args| && IsWord(k, args[i + 1]) then [args[i + 1]] else []
  }

  /** The maximal run of words after the last occurrence. */
  ghost predicate IsMultiVar(k: Keywords, args: seq<string>, name: string, value: seq<string>) {
    && (name !in args ==> value == [])
    && forall i: nat :: LastOccurs(args, name, i) ==> exists e :: IsRunAfter(k, args, i, e, value)
  }

  /** Argument `o` is the last keyword before argument `j`. */
  ghost predicate PrecedesAt(k: Keywords, args: seq<string>, o: int, j: int) {
    && 0 <= o < j <= |args| && !IsWord(k, args[o])
    && forall m :: o < m < j ==> IsWord(k, args[m])
  }

  /** Argument `j` is a word that the keyword before it, if any, does not take. */
  ghost predicate LeftAlone(k: Keywords, args: seq<string>, j: nat)
    requires j < |args|
  {
    && IsWord(k, args[j])
    && forall o :: PrecedesAt(k, args, o, j) ==>
         args[o] in k.options || (args[o] in k.singles && o + 1 < j)
  }

  /** The words among the first `n` arguments that no keyword takes, in order. */
  ghost function AllLeftAlone(k: Keywords, args: seq<string>, n: nat): seq<string>
    requires n <= |args|
  {
    if n == 0 then []
    else AllLeftAlone(k, args, n - 1) + (if LeftAlone(k, args, n - 1) then [args[n - 1]] else [])
  }

  /** The whole result of a call. */
  ghost predicate ParsedByLists(k: Keywords, args: seq<string>, vars: map<string, seq<string>>) {
    && (forall name :: name in vars <==>
          name in k.options || name in k.singles || name in k.multis || name == "UNPARSED_ARGUMENTS")
    && (forall name :: name in k.options ==> vars[name] == if name in args then ["TRUE"] else ["FALSE"])
    && (forall name :: name in k.singles && name !in k.options ==> IsSingleVar(k, args, name, vars[name]))
    && (forall name :: name in k.multis && name !in k.options && name !in k.singles ==>
          IsMultiVar(k, args, name, vars[name]))
    && vars["UNPARSED_ARGUMENTS"] == AllLeftAlone(k, args, |args|)
  }

  // ---------- last occurrences ----------

  /** A word that occurs has a last occurrence, and that is where the parser looks. */
  lemma LastOccursIff(args: seq<string>, name: string, i: nat)
    ensures LastOccurs(args, name, i) <==> i == LastAt(args, name)
    ensures name in args <==> LastAt(args, name) >= 0
  {
    var l := LastAt(args, name);
    forall j | 0 <= j < |args| && j > l
      ensures args[j] != name
    {
      LastAtIsLast(args, name, j);
    }
  }

  lemma SingleByLists(k: Keywords, args: seq<string>, name: string)
    requires name in k.singles && name !in k.options
    ensures IsSingleVar(k, args, name, VarAfter(k, args, name))
  {
    LastOccurrenceDecides(k, args, name);
    LastOccursIff(args, name, 0);
    forall i: nat | LastOccurs(args, name, i)
      ensures i == LastAt(args, name)
    {
      LastOccursIff(args, name, i);
    }
  }

  lemma RunEndIsRun(k: Keywords, args: seq<string>, i: nat)
    requires i < |args|
    ensures IsRunAfter(k, args, i, RunEnd(k, args, i + 1), args[i + 1..RunEnd(k, args, i + 1)])
  {
  }

  lemma MultiRun(k: Keywords, args: seq<string>, name: string, i: nat)
    requires KindOf(k, name).Multi? && LastOccurs(args, name, i)
    ensures IsRunAfter(k, args, i, RunEnd(k, args, i + 1), VarAfter(k, args, name))
  {
    LastMultiDecides(k, args, name);
    LastOccursIff(args, name, i);
    RunEndIsRun(k, args, i);
  }

  lemma MultiByLists(k: Keywords, args: seq<string>, name: string)
    requires name in k.multis && name !in k.options && name !in k.singles
    ensures IsMultiVar(k, args, name, VarAfter(k, args, name))
  {
    if name !in args {
      LastMultiDecides(k, args, name);
      LastOccursIff(args, name, 0);
    }
    forall i: nat | LastOccurs(args, name, i)
      ensures exists e :: IsRunAfter(k, args, i, e, VarAfter(k, args, name))
    {
      MultiRun(k, args, name, i);
    }
  }

  lemma OptionByLists(k: Keywords, args: seq<string>, name: string)
    requires name in k.options
    ensures VarAfter(k, args, name) == if name in args then ["TRUE"] else ["FALSE"]
  {
    LastOccurrenceDecides(k, args, name);
  }

  // ---------- unparsed arguments ----------

  /** The open keyword is the one before, unless that takes no more values. */
  lemma {:induction false} OpenIndexByLists(k: Keywords, args: seq<string>, j: nat)
    requires j <= |args|
    ensures var o := OpenIndex(k, args[..j]);
            && (o >= 0 ==>
                  && PrecedesAt(k, args, o, j)
                  && args[o] !in k.options && (args[o] in k.singles ==> o + 1 == j))
            && (o < 0 ==> forall q :: PrecedesAt(k, args, q, j) ==>
                  args[q] in k.options || (args[q] in k.singles && q + 1 < j))
  {
    if j > 0 {
      OpenIndexByLists(k, args, j - 1);
      assert args[..j][..j - 1] == args[..j - 1];
      PrecedesStep(k, args, j);
    }
  }

  lemma PrecedesStep(k: Keywords, args: seq<string>, j: nat)
    requires 0 < j <= |args|
    ensures forall q ::
              (PrecedesAt(k, args, q, j)
               <==> if IsWord(k, args[j - 1]) then PrecedesAt(k, args, q, j - 1) else q == j - 1)
  {
  }

  lemma LeftAloneIff(k: Keywords, args: seq<string>, j: nat)
    requires j < |args|
    ensures LeftAlone(k, args, j) <==> KindOf(k, args[j]).Value? && FateOf(k, args, j) == Leftover
  {
    OpenIndexByLists(k, args, j);
    var o := OpenIndex(k, args[..j]);
    assert o >= 0 ==> PrecedesAt(k, args, o, j);
  }

  lemma {:induction false} UnparsedByLists(k: Keywords, args: seq<string>, n: nat)
    requires n <= |args|
    ensures AllLeftAlone(k, args, n) == Select(k, args, Leftover, n)
  {
    if n > 0 {
      UnparsedByLists(k, args, n - 1);
      LeftAloneIff(k, args, n - 1);
    }
  }

  lemma AllByLists(k: Keywords, args: seq<string>, vars: map<string, seq<string>>)
    requires Reserved(k) && VarsAfter(k, args, vars)
    ensures ParsedByLists(k, args, vars)
  {
    UnparsedIsLeftover(k, args);
    UnparsedByLists(k, args, |args|);
    forall name | name in k.options
      ensures vars[name] == if name in args then ["TRUE"] else ["FALSE"]
    {
      OptionByLists(k, args, name);
    }
    forall name | name in k.singles && name !in k.options
      ensures IsSingleVar(k, args, name, vars[name])
    {
      SingleByLists(k, args, name);
    }
    forall name | name in k.multis && name !in k.options && name !in k.singles
      ensures IsMultiVar(k, args, name, vars[name])
    {
      MultiByLists(k, args, name);
    }
  }
}
