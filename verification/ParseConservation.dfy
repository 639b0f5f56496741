/**
 What the argument parser does with every argument: each non-keyword ends up in the unparsed
 list, in one keyword's variable, or is lost to a later repeat of its keyword.
 */
module ParseConservation {
  import opened ParseArguments
  import opened ParseTheorems

  /** The non-keywords among the first `n` arguments. */
  function Nonkeywords(k: Keywords, args: seq<string>, n: nat): seq<string>
    requires n <= |args|
  {
    if n == 0 then []
    else Nonkeywords(k, args, n - 1) + (if KindOf(k, args[n - 1]).Value? then [args[n - 1]] else [])
  }

  predicate IsValueKeyword(k: Keywords, name: string) {
    KindOf(k, name).Single? || KindOf(k, name).Multi?
  }

  /** The keywords among the words that take values, each once. */
  function Listed(k: Keywords, words: seq<string>): seq<string> {
    if words == [] then []
    else
      var init, last := Listed(k, words[..|words| - 1]), words[|words| - 1];
      if last in init || !IsValueKeyword(k, last) then init else init + [last]
  }

  function ValueKeywords(k: Keywords): seq<string> {
    Listed(k, k.singles + k.multis)
  }

  predicate Distinct(names: seq<string>) {
    forall i, j :: 0 <= i < j < |names| ==> names[i] != names[j]
  }

  /** The names are the keywords that take values, each once. */
  ghost predicate AreValueKeywords(k: Keywords, names: seq<string>) {
    Distinct(names) && forall name :: name in names <==> IsValueKeyword(k, name)
  }

  lemma {:induction false} ListedOnce(k: Keywords, words: seq<string>)
    ensures Distinct(Listed(k, words))
    ensures forall name :: name in Listed(k, words) <==> name in words && IsValueKeyword(k, name)
  {
    if words != [] {
      var init, last := words[..|words| - 1], words[|words| - 1];
      ListedOnce(k, init);
      assert words == init + [last];
    }
  }

  lemma ValueKeywordsListed(k: Keywords)
    ensures AreValueKeywords(k, ValueKeywords(k))
  {
    ListedOnce(k, k.singles + k.multis);
  }

  /** All that the parser leaves in the variables of the named keywords. */
  function InVars(k: Keywords, args: seq<string>, names: seq<string>): multiset<string> {
    if names == [] then multiset{}
    else InVars(k, args, names[..|names| - 1]) + multiset(VarAfter(k, args, names[|names| - 1]))
  }

  /** The values that a later repeat of their keyword has dropped. */
  function DroppedValues(k: Keywords, args: seq<string>): seq<string> {
    Select(k, args, Dropped, |args|)
  }

  // ---------- counting argument by argument ----------

  /** Argument `n` is a non-keyword with this fate. */
  predicate Meets(k: Keywords, args: seq<string>, fate: Fate, n: nat)
    requires n < |args|
  {
    KindOf(k, args[n]).Value? && FateOf(k, args, n) == fate
  }

  function One(b: bool, arg: string): multiset<string> {
    if b then multiset{arg} else multiset{}
  }

  lemma SelectStep(k: Keywords, args: seq<string>, fate: Fate, n: nat)
    requires n < |args|
    ensures multiset(Select(k, args, fate, n + 1))
         == multiset(Select(k, args, fate, n)) + One(Meets(k, args, fate, n), args[n])
  {
    var before := Select(k, args, fate, n);
    if Meets(k, args, fate, n) {
      assert Select(k, args, fate, n + 1) == before + [args[n]];
    } else {
      assert Select(k, args, fate, n + 1) == before + [];
    }
  }

  /** What is kept of the first `n` arguments under the named keywords. */
  function Kept(k: Keywords, args: seq<string>, names: seq<string>, n: nat): multiset<string>
    requires n <= |args|
  {
    if names == [] then multiset{}
    else Kept(k, args, names[..|names| - 1], n) + multiset(Select(k, args, In(names[|names| - 1]), n))
  }

  predicate KeptUnder(k: Keywords, args: seq<string>, names: seq<string>, n: nat)
    requires n < |args|
  {
    KindOf(k, args[n]).Value? && FateOf(k, args, n).In? && FateOf(k, args, n).name in names
  }

  /** A kept value is counted under exactly one name. */
  lemma {:induction false} KeptStep(k: Keywords, args: seq<string>, names: seq<string>, n: nat)
    requires n < |args| && Distinct(names)
    ensures Kept(k, args, names, n + 1) == Kept(k, args, names, n) + One(KeptUnder(k, args, names, n), args[n])
  {
    if names != [] {
      var init, last := names[..|names| - 1], names[|names| - 1];
      KeptStep(k, args, init, n);
      SelectStep(k, args, In(last), n);
      KeptUnderOne(k, args, names, n);
    }
  }

  lemma KeptUnderOne(k: Keywords, args: seq<string>, names: seq<string>, n: nat)
    requires n < |args| && names != [] && Distinct(names)
    ensures var init, last := names[..|names| - 1], names[|names| - 1];
            One(KeptUnder(k, args, names, n), args[n])
            == One(KeptUnder(k, args, init, n), args[n]) + One(Meets(k, args, In(last), n), args[n])
  {
    var init, last := names[..|names| - 1], names[|names| - 1];
    assert names == init + [last];
    assert last !in init;
  }

  lemma {:induction false} KeptStarts(k: Keywords, args: seq<string>, names: seq<string>)
    ensures Kept(k, args, names, 0) == multiset{}
  {
    if names != [] {
      KeptStarts(k, args, names[..|names| - 1]);
    }
  }

  lemma NonkeywordsStep(k: Keywords, args: seq<string>, n: nat)
    requires n < |args|
    ensures multiset(Nonkeywords(k, args, n + 1))
         == multiset(Nonkeywords(k, args, n)) + One(KindOf(k, args[n]).Value?, args[n])
  {
    var before := Nonkeywords(k, args, n);
    if KindOf(k, args[n]).Value? {
      assert Nonkeywords(k, args, n + 1) == before + [args[n]];
    } else {
      assert Nonkeywords(k, args, n + 1) == before + [];
    }
  }

  /** A value has exactly one fate, and it is kept only under a keyword that takes values. */
  lemma OneFate(k: Keywords, args: seq<string>, names: seq<string>, n: nat)
    requires n < |args| && AreValueKeywords(k, names)
    ensures One(KindOf(k, args[n]).Value?, args[n])
         == One(Meets(k, args, Leftover, n), args[n]) + One(KeptUnder(k, args, names, n), args[n])
            + One(Meets(k, args, Dropped, n), args[n])
  {
  }

  ghost predicate Conserved(k: Keywords, args: seq<string>, names: seq<string>, n: nat)
    requires n <= |args|
  {
    multiset(Nonkeywords(k, args, n))
    == multiset(Select(k, args, Leftover, n)) + Kept(k, args, names, n) + multiset(Select(k, args, Dropped, n))
  }

  lemma ConservedStep(k: Keywords, args: seq<string>, names: seq<string>, n: nat)
    requires n < |args| && AreValueKeywords(k, names) && Conserved(k, args, names, n)
    ensures Conserved(k, args, names, n + 1)
  {
    NonkeywordsStep(k, args, n);
    SelectStep(k, args, Leftover, n);
    SelectStep(k, args, Dropped, n);
    KeptStep(k, args, names, n);
    OneFate(k, args, names, n);
  }

  lemma NothingConserved(k: Keywords, args: seq<string>, names: seq<string>)
    ensures Conserved(k, args, names, 0)
  {
    KeptStarts(k, args, names);
  }

  lemma {:induction false} AllConserved(k: Keywords, args: seq<string>, names: seq<string>, n: nat)
    requires n <= |args| && AreValueKeywords(k, names)
    ensures Conserved(k, args, names, n)
  {
    if n == 0 {
      NothingConserved(k, args, names);
    } else {
      AllConserved(k, args, names, n - 1);
      ConservedStep(k, args, names, n - 1);
    }
  }

  // ---------- what the parser returns ----------

  lemma {:induction false} VarsAreKept(k: Keywords, args: seq<string>, names: seq<string>)
    requires forall name :: name in names ==> IsValueKeyword(k, name)
    ensures InVars(k, args, names) == Kept(k, args, names, |args|)
  {
    if names != [] {
      var init, last := names[..|names| - 1], names[|names| - 1];
      assert names == init + [last];
      assert IsValueKeyword(k, last) && forall name :: name in init ==> name in names;
      VarsAreKept(k, args, init);
      VarIsKept(k, args, last);
    }
  }

  /**
   Counted with repeats, the non-keywords are exactly what the unparsed list and the variables
   of the value keywords hold together, and the dropped values.
   */
  lemma ArgumentsConserved(k: Keywords, args: seq<string>)
    ensures multiset(Nonkeywords(k, args, |args|))
         == multiset(UnparsedAfter(k, args)) + InVars(k, args, ValueKeywords(k)) + multiset(DroppedValues(k, args))
  {
    ValueKeywordsListed(k);
    AllConserved(k, args, ValueKeywords(k), |args|);
    VarsAreKept(k, args, ValueKeywords(k));
    UnparsedIsLeftover(k, args);
  }

  lemma {:induction false} SelectNone(k: Keywords, args: seq<string>, fate: Fate, n: nat)
    requires n <= |args|
    ensures Select(k, args, fate, n) == [] <==> forall j :: 0 <= j < n ==> !Meets(k, args, fate, j)
  {
    if n > 0 {
      SelectNone(k, args, fate, n - 1);
      assert Select(k, args, fate, n)
          == Select(k, args, fate, n - 1) + if Meets(k, args, fate, n - 1) then [args[n - 1]] else [];
    }
  }

  lemma NothingMore(a: multiset<string>, dropped: seq<string>)
    ensures a + multiset(dropped) == a <==> dropped == []
  {
    if dropped != [] {
      assert (a + multiset(dropped))[dropped[0]] > a[dropped[0]];
    }
  }

  /**
   The unparsed list and the variables hold every non-keyword exactly as often as it was
   given, exactly if each occurrence of a keyword that takes a value is its keyword's last.
   */
  lemma NothingLostIff(k: Keywords, args: seq<string>)
    ensures multiset(Nonkeywords(k, args, |args|))
            == multiset(UnparsedAfter(k, args)) + InVars(k, args, ValueKeywords(k))
       <==> NoRepeats(k, args)
  {
    ArgumentsConserved(k, args);
    NothingMore(multiset(UnparsedAfter(k, args)) + InVars(k, args, ValueKeywords(k)), DroppedValues(k, args));
    SelectNone(k, args, Dropped, |args|);
    NoneDroppedIff(k, args);
  }

  lemma NoneDroppedIff(k: Keywords, args: seq<string>)
    ensures (forall j :: 0 <= j < |args| ==> !Meets(k, args, Dropped, j)) <==> NoRepeats(k, args)
  {
    NothingDroppedIff(k, args);
    if NoRepeats(k, args) {
      forall j | 0 <= j < |args|
        ensures !Meets(k, args, Dropped, j)
      {
      }
    } else if forall j :: 0 <= j < |args| ==> !Meets(k, args, Dropped, j) {
      forall j | 0 <= j < |args| && KindOf(k, args[j]).Value?
        ensures !FateOf(k, args, j).Dropped?
      {
        assert !Meets(k, args, Dropped, j);
      }
    }
  }
}
