/**
 Reading a configuration file into the settings (`ReadFile` and `ReadCurrentFile` in
 common/utils.cpp, which differ only in how they find the file). The file is an already
 split list of names and values.
 */
module Settings {

  type Entry = (string, string)

  datatype File = Unreadable | Entries(entries: seq<Entry>)

  // ---------- values and keys ----------

  predicate IsSpace(c: char) {
    c == ' ' || c == '\t' || c == '\n' || c == '\r' || c == 11 as char || c == 12 as char
  }

  predicate IsDigit(c: char) {
    '0' <= c <= '9'
  }

  /** The number the leading digits of `s` make, after `acc`. */
  function DigitsValue(s: string, acc: nat): nat {
    if s == "" || !IsDigit(s[0]) then acc else DigitsValue(s[1..], 10 * acc + (s[0] as int - '0' as int))
  }

  /** C `atoi`: leading space, an optional sign, and as many digits as follow. */
  function Atoi(s: string): int {
    if s != "" && IsSpace(s[0]) then Atoi(s[1..])
    else if s != "" && s[0] == '-' then 0 - DigitsValue(s[1..], 0)
    else if s != "" && s[0] == '+' then DigitsValue(s[1..], 0)
    else DigitsValue(s, 0)
  }

  /** An empty value counts as true. */
  predicate ToolsInterpretBool(value: string) {
    value == "" || Atoi(value) != 0
  }

  predicate IsNegative(key: string) {
    |key| > 3 && key[..3] == "-no"
  }

  /** Turns a negated key into the plain one, with the opposite value. */
  function Normalise(entry: Entry): Entry {
    var key, value := "-" + entry.0, entry.1;
    if IsNegative(key) then ("-" + key[3..], if ToolsInterpretBool(value) then "0" else "1") else (key, value)
  }

  /**
   One "no" is taken off, and no more: what is left may itself begin with "no". The value
   becomes a plain "0" or "1" with the opposite meaning.
   */
  lemma NegationStripsOneLayer(name: string, value: string)
    requires name != ""
    ensures Normalise(("no" + name, value)).0 == "-" + name
    ensures Normalise(("no" + name, value)).1 in {"0", "1"}
    ensures ToolsInterpretBool(Normalise(("no" + name, value)).1) <==> !ToolsInterpretBool(value)
  {
    var key := "-" + ("no" + name);
    assert key[..3] == "-no" && key[3..] == name;
    assert Atoi("0") == DigitsValue("0", 0) == DigitsValue("", 0) == 0;
    assert Atoi("1") == DigitsValue("1", 0) == DigitsValue("", 1) == 1;
  }

  /** A setting is filed under its own name exactly if the name is not "no" and something more. */
  lemma FiledUnderOwnNameIff(entry: Entry)
    ensures Normalise(entry) == ("-" + entry.0, entry.1) <==> !(|entry.0| > 2 && entry.0[..2] == "no")
  {
    var key := "-" + entry.0;
    if |entry.0| > 2 {
      assert key[1..3] == entry.0[..2];
      assert key[..3] == "-" + entry.0[..2];
      assert entry.0[..2] == "no" ==> |Normalise(entry).0| < |key|;
      if entry.0[..2] != "no" {
        assert key[..3] != "-no" by {
          assert key[..3][1..] == entry.0[..2] && "-no"[1..] == "no";
        }
      }
    }
  }

  /** An empty value counts as true, so negating an empty entry files "0". */
  lemma EmptyNegationIsZero(name: string)
    requires name != ""
    ensures Normalise(("no" + name, "")) == ("-" + name, "0")
  {
    NegationStripsOneLayer(name, "");
  }

  // ---------- reading numbers ----------

  predicate AllDigits(s: string) {
    forall i :: 0 <= i < |s| ==> IsDigit(s[i])
  }

  predicate AllSpace(s: string) {
    forall i :: 0 <= i < |s| ==> IsSpace(s[i])
  }

  /** Digits are read in base ten, the last one counting least. */
  lemma {:induction false} DigitsValueExtend(ds: string, d: char, acc: nat)
    requires AllDigits(ds) && IsDigit(d)
    ensures DigitsValue(ds + [d], acc) == 10 * DigitsValue(ds, acc) + (d as int - '0' as int)
  {
    if ds == "" {
      assert DigitsValue([d][1..], 10 * acc + (d as int - '0' as int)) == 10 * acc + (d as int - '0' as int);
    } else {
      DigitsValueExtend(ds[1..], d, 10 * acc + (ds[0] as int - '0' as int));
      assert (ds + [d])[1..] == ds[1..] + [d];
    }
  }

  /** Whatever follows the digits is left out. */
  lemma {:induction false} DigitsValueStops(ds: string, rest: string, acc: nat)
    requires AllDigits(ds) && (rest == "" || !IsDigit(rest[0]))
    ensures DigitsValue(ds + rest, acc) == DigitsValue(ds, acc)
  {
    if ds == "" {
      assert ds + rest == rest;
    } else {
      DigitsValueStops(ds[1..], rest, 10 * acc + (ds[0] as int - '0' as int));
      assert (ds + rest)[1..] == ds[1..] + rest;
    }
  }

  /** Space before a number is passed over. */
  lemma {:induction false} AtoiSkipsSpace(space: string, s: string)
    requires AllSpace(space)
    ensures Atoi(space + s) == Atoi(s)
  {
    if space == "" {
      assert space + s == s;
    } else {
      AtoiSkipsSpace(space[1..], s);
      assert (space + s)[1..] == space[1..] + s;
    }
  }

  /** A sign, if there is one, decides the sign of the number that the digits after it make. */
  lemma AtoiReads(space: string, sign: string, ds: string, rest: string)
    requires AllSpace(space) && sign in {"", "+", "-"} && AllDigits(ds)
    requires rest == "" || !IsDigit(rest[0])
    requires sign == "" && ds == "" && rest != "" ==> !IsSpace(rest[0]) && rest[0] != '+' && rest[0] != '-'
    ensures Atoi(space + (sign + (ds + rest))) == if sign == "-" then 0 - DigitsValue(ds, 0) else DigitsValue(ds, 0)
  {
    var s := sign + (ds + rest);
    AtoiSkipsSpace(space, s);
    DigitsValueStops(ds, rest, 0);
    if sign == "" {
      assert s == ds + rest;
    } else {
      assert s[1..] == ds + rest;
    }
  }

  /** The digits make zero exactly if all of them are zeros. */
  lemma {:induction false} DigitsValueZero(ds: string, acc: nat)
    requires AllDigits(ds)
    ensures DigitsValue(ds, acc) == 0 <==> acc == 0 && forall i :: 0 <= i < |ds| ==> ds[i] == '0'
  {
    if ds != "" {
      DigitsValueZero(ds[1..], 10 * acc + (ds[0] as int - '0' as int));
      assert forall i :: 0 <= i < |ds| - 1 ==> ds[1..][i] == ds[i + 1];
      if forall i :: 0 <= i < |ds[1..]| ==> ds[1..][i] == '0' {
        assert ds[0] == '0' ==> forall i :: 0 <= i < |ds| ==> ds[i] == '0' by {
          forall i | 0 < i < |ds|
            ensures ds[i] == '0'
          {
            assert ds[1..][i - 1] == '0';
          }
        }
      }
    }
  }

  /** A value counts as true exactly if it is empty or its number has a digit other than zero. */
  lemma CountsAsTrueIff(space: string, sign: string, ds: string, rest: string)
    requires AllSpace(space) && sign in {"", "+", "-"} && AllDigits(ds)
    requires rest == "" || !IsDigit(rest[0])
    requires sign == "" && ds == "" && rest != "" ==> !IsSpace(rest[0]) && rest[0] != '+' && rest[0] != '-'
    ensures var value := space + (sign + (ds + rest));
            ToolsInterpretBool(value) <==> value == "" || exists i :: 0 <= i < |ds| && ds[i] != '0'
  {
    AtoiReads(space, sign, ds, rest);
    DigitsValueZero(ds, 0);
  }

  // ---------- merging ----------

  /** The values the entries give for a normalised key, in file order. */
  function ValuesFor(entries: seq<Entry>, key: string): seq<string> {
    if entries == [] then []
    else
      var e := Normalise(entries[|entries| - 1]);
      ValuesFor(entries[..|entries| - 1], key) + (if e.0 == key then [e.1] else [])
  }

  function AddFirst(single: map<string, string>, e: Entry): map<string, string> {
    if e.0 in single then single else single[e.0 := e.1]
  }

  function AddLast(multi: map<string, seq<string>>, e: Entry): map<string, seq<string>> {
    multi[e.0 := ListOf(multi, e.0) + [e.1]]
  }

  /** The single-valued settings after a read: what was there first stays. */
  function FirstWins(single: map<string, string>, entries: seq<Entry>): map<string, string> {
    if entries == [] then single
    else AddFirst(FirstWins(single, entries[..|entries| - 1]), Normalise(entries[|entries| - 1]))
  }

  /** The multi-valued settings after a read: everything is appended. */
  function AppendAll(multi: map<string, seq<string>>, entries: seq<Entry>): map<string, seq<string>> {
    if entries == [] then multi
    else AddLast(AppendAll(multi, entries[..|entries| - 1]), Normalise(entries[|entries| - 1]))
  }

  lemma ReadExtend(single: map<string, string>, multi: map<string, seq<string>>, entries: seq<Entry>, entry: Entry)
    ensures FirstWins(single, entries + [entry]) == AddFirst(FirstWins(single, entries), Normalise(entry))
    ensures AppendAll(multi, entries + [entry]) == AddLast(AppendAll(multi, entries), Normalise(entry))
  {
    assert (entries + [entry])[..|entries|] == entries;
  }

  function ListOf(multi: map<string, seq<string>>, key: string): seq<string> {
    if key in multi then multi[key] else []
  }

  /** The settings both maps of the tool hold, updated in place. */
  class SettingsStore {
    var single: map<string, string>
    var multi: map<string, seq<string>>

    constructor ()
      ensures single == map[] && multi == map[]
    {
      single, multi := map[], map[];
    }

    /** A file that cannot be opened changes nothing. */
    method ReadFile(file: File) returns (ok: bool)
      modifies this
      ensures ok <==> file.Entries?
      ensures !ok ==> single == old(single) && multi == old(multi)
      ensures ok ==> single == FirstWins(old(single), file.entries) && multi == AppendAll(old(multi), file.entries)
    {
      if file.Unreadable? {
        return false;
      }
      for n := 0 to |file.entries|
        invariant single == FirstWins(old(single), file.entries[..n])
        invariant multi == AppendAll(old(multi), file.entries[..n])
      {
        ReadExtend(old(single), old(multi), file.entries[..n], file.entries[n]);
        assert file.entries[..n] + [file.entries[n]] == file.entries[..n + 1];
        ReadEntry(file.entries[n]);
      }
      assert file.entries[..|file.entries|] == file.entries;
      ok := true;
    }

    /** One entry of the file. */
    method ReadEntry(entry: Entry)
      modifies this
      ensures single == AddFirst(old(single), Normalise(entry))
      ensures multi == AddLast(old(multi), Normalise(entry))
    {
      var (strKey, strValue) := Normalise(entry);
      if strKey !in single {
        single := single[strKey := strValue];
      }
      if strKey !in multi {
        multi := multi[strKey := []];
      }
      multi := multi[strKey := multi[strKey] + [strValue]];
    }
  }

  // ---------- what a read leaves ----------

  /** For a key: its prior value or else the first of the values, and its prior list and then all of them. */
  ghost predicate Leaves(single: map<string, string>, multi: map<string, seq<string>>, s: map<string, string>,
                         m: map<string, seq<string>>, key: string, values: seq<string>)
  {
    && (key in s <==> key in single || values != [])
    && (key in s ==> s[key] == if key in single then single[key] else values[0])
    && (key in m <==> key in multi || values != [])
    && ListOf(m, key) == ListOf(multi, key) + values
  }

  lemma AddLeaves(single: map<string, string>, multi: map<string, seq<string>>, s: map<string, string>,
                  m: map<string, seq<string>>, key: string, values: seq<string>, e: Entry)
    requires Leaves(single, multi, s, m, key, values)
    ensures Leaves(single, multi, AddFirst(s, e), AddLast(m, e), key, values + if e.0 == key then [e.1] else [])
  {
    assert values + [] == values;
  }

  /** A read leaves every key with what it had and what the file has for it. */
  lemma {:induction false} ReadLeaves(single: map<string, string>, multi: map<string, seq<string>>,
                                      entries: seq<Entry>, key: string)
    ensures Leaves(single, multi, FirstWins(single, entries), AppendAll(multi, entries), key, ValuesFor(entries, key))
  {
    if entries != [] {
      var init := entries[..|entries| - 1];
      ReadLeaves(single, multi, init, key);
      AddLeaves(single, multi, FirstWins(single, init), AppendAll(multi, init), key, ValuesFor(init, key),
                Normalise(entries[|entries| - 1]));
    }
  }

  /** Reading one file and then another is reading both as one. */
  lemma {:induction false} ReadsCompose(single: map<string, string>, multi: map<string, seq<string>>,
                                        a: seq<Entry>, b: seq<Entry>)
    ensures FirstWins(FirstWins(single, a), b) == FirstWins(single, a + b)
    ensures AppendAll(AppendAll(multi, a), b) == AppendAll(multi, a + b)
  {
    if b == [] {
      assert a + b == a;
    } else {
      ReadsCompose(single, multi, a, b[..|b| - 1]);
      assert (a + b)[..|a + b| - 1] == a + b[..|b| - 1];
    }
  }

  lemma {:induction false} ValuesForContains(entries: seq<Entry>, n: nat)
    requires n < |entries|
    ensures ValuesFor(entries, Normalise(entries[n]).0) != []
  {
    if n < |entries| - 1 {
      ValuesForContains(entries[..|entries| - 1], n);
    }
  }

  /** Once every key of a file is set, reading it changes no single value. */
  lemma {:induction false} FirstWinsIdle(single: map<string, string>, entries: seq<Entry>)
    requires forall n :: 0 <= n < |entries| ==> Normalise(entries[n]).0 in single
    ensures FirstWins(single, entries) == single
  {
    if entries != [] {
      FirstWinsIdle(single, entries[..|entries| - 1]);
    }
  }

  /**
   Reading a file again never changes the single values; it doubles the file's contribution
   to every list, so it leaves the lists alone exactly if the file has no entries.
   */
  lemma RereadIsIdleForSingles(single: map<string, string>, multi: map<string, seq<string>>, entries: seq<Entry>)
    ensures FirstWins(FirstWins(single, entries), entries) == FirstWins(single, entries)
    ensures AppendAll(AppendAll(multi, entries), entries) == AppendAll(multi, entries) <==> entries == []
  {
    var s, m := FirstWins(single, entries), AppendAll(multi, entries);
    forall n | 0 <= n < |entries|
      ensures Normalise(entries[n]).0 in s
    {
      ReadLeaves(single, multi, entries, Normalise(entries[n]).0);
      ValuesForContains(entries, n);
    }
    FirstWinsIdle(s, entries);
    if entries != [] {
      var key := Normalise(entries[0]).0;
      ValuesForContains(entries, 0);
      ReadLeaves(s, m, entries, key);
      assert |ListOf(AppendAll(m, entries), key)| > |ListOf(m, key)|;
    }
  }

  /** The two maps have the same keys, and the single value is the first of the list. */
  ghost predicate Coherent(single: map<string, string>, multi: map<string, seq<string>>) {
    && (forall key :: key in single <==> key in multi)
    && (forall key :: key in multi ==> multi[key] != [] && multi[key][0] == single[key])
  }

  /** Starting from empty or coherent settings, every read keeps the two maps coherent. */
  lemma ReadKeepsCoherent(single: map<string, string>, multi: map<string, seq<string>>, entries: seq<Entry>)
    requires Coherent(single, multi)
    ensures Coherent(FirstWins(single, entries), AppendAll(multi, entries))
  {
    var s, m := FirstWins(single, entries), AppendAll(multi, entries);
    forall key
      ensures (key in s <==> key in m) && (key in m ==> m[key] != [] && m[key][0] == s[key])
    {
      ReadLeaves(single, multi, entries, key);
      assert key in single <==> key in multi;
    }
  }

  /** A plain entry and its negation land in one list, in file order. */
  lemma NegationSharesTheList(before: seq<Entry>, name: string, v1: string, v2: string)
    requires name != "" && !IsNegative("-" + name)
    ensures var key := "-" + name;
            var flipped := if ToolsInterpretBool(v2) then "0" else "1";
            ValuesFor(before + [(name, v1), ("no" + name, v2)], key) == ValuesFor(before, key) + [v1, flipped]
  {
    var key := "-" + name;
    var longer, whole := before + [(name, v1)], before + [(name, v1), ("no" + name, v2)];
    assert longer[..|longer| - 1] == before;
    assert whole[..|whole| - 1] == longer && whole[|whole| - 1] == ("no" + name, v2);
    NegationStripsOneLayer(name, v2);
    var negated := "-" + ("no" + name);
    assert negated[..3] == "-no";
    assert ValuesFor(longer, key) == ValuesFor(before, key) + [v1];
  }
}
