/** Writing arguments out and parsing them again. */
module ParseRoundTrip {
  import opened ParseArguments

  /** One keyword with what follows it on the command line. */
  datatype Segment = Flag(name: string) | One(name: string, value: string) | Many(name: string, values: seq<string>)

  predicate Fits(k: Keywords, seg: Segment) {
    match seg
    case Flag(name) => KindOf(k, name).Option?
    case One(name, value) => KindOf(k, name).Single? && KindOf(k, value).Value?
    case Many(name, values) => KindOf(k, name).Multi? && AllValues(k, values)
  }

  predicate AllValues(k: Keywords, words: seq<string>) {
    forall i :: 0 <= i < |words| ==> KindOf(k, words[i]).Value?
  }

  function Words(seg: Segment): seq<string> {
    match seg
    case Flag(name) => [name]
    case One(name, value) => [name, value]
    case Many(name, values) => [name] + values
  }

  /** What the segment's variable should hold. */
  function Content(seg: Segment): seq<string> {
    match seg
    case Flag(_) => TRUE
    case One(_, value) => [value]
    case Many(_, values) => values
  }

  /** Arguments for no keyword come first, then the segments in any order. */
  function Render(leading: seq<string>, segs: seq<Segment>): seq<string> {
    if segs == [] then leading else Render(leading, segs[..|segs| - 1]) + Words(segs[|segs| - 1])
  }

  lemma Push(args: seq<string>, arg: string)
    ensures (args + [arg])[..|args|] == args && args + [arg] != []
  {
  }

  lemma {:induction false} LeadingStaysUnparsed(k: Keywords, leading: seq<string>, name: string)
    requires AllValues(k, leading) && !KindOf(k, name).Value?
    ensures OpenAfter(k, leading) == Closed && UnparsedAfter(k, leading) == leading
    ensures VarAfter(k, leading, name) == VarAfter(k, [], name)
  {
    if leading != [] {
      var init, arg := leading[..|leading| - 1], leading[|leading| - 1];
      assert init + [arg] == leading;
      LeadingStaysUnparsed(k, init, name);
    }
  }

  /** With a multi-value keyword open, values pile up in its variable and nowhere else. */
  lemma {:induction false} ValuesPileUp(k: Keywords, args: seq<string>, name: string, values: seq<string>)
    requires KindOf(k, name).Multi? && OpenAfter(k, args) == OpenMulti(name) && AllValues(k, values)
    ensures OpenAfter(k, args + values) == OpenMulti(name)
    ensures VarAfter(k, args + values, name) == VarAfter(k, args, name) + values
    ensures UnparsedAfter(k, args + values) == UnparsedAfter(k, args)
  {
    if values == [] {
      assert args + values == args;
    } else {
      var init, arg := values[..|values| - 1], values[|values| - 1];
      ValuesPileUp(k, args, name, init);
      assert args + values == (args + init) + [arg];
      Push(args + init, arg);
      assert VarAfter(k, args, name) + values == VarAfter(k, args, name) + init + [arg];
    }
  }

  lemma {:induction false} ValuesLeaveOthers(k: Keywords, args: seq<string>, name: string, values: seq<string>,
                                             other: string)
    requires KindOf(k, name).Multi? && OpenAfter(k, args) == OpenMulti(name) && AllValues(k, values)
    requires other != name && !KindOf(k, other).Value?
    ensures VarAfter(k, args + values, other) == VarAfter(k, args, other)
  {
    if values == [] {
      assert args + values == args;
    } else {
      var init, arg := values[..|values| - 1], values[|values| - 1];
      ValuesLeaveOthers(k, args, name, init, other);
      ValuesPileUp(k, args, name, init);
      assert args + values == (args + init) + [arg];
      Push(args + init, arg);
    }
  }

  lemma SegmentParts(args: seq<string>, seg: Segment)
    ensures seg.Flag? ==> args + Words(seg) == args + [seg.name]
    ensures seg.One? ==> args + Words(seg) == args + [seg.name] + [seg.value]
    ensures seg.Many? ==> args + Words(seg) == args + [seg.name] + seg.values
  {
  }

  lemma KeywordResets(k: Keywords, args: seq<string>, name: string)
    requires !KindOf(k, name).Value?
    ensures VarAfter(k, args + [name], name) == if KindOf(k, name).Option? then TRUE else []
    ensures UnparsedAfter(k, args + [name]) == UnparsedAfter(k, args)
    ensures KindOf(k, name).Single? ==> OpenAfter(k, args + [name]) == OpenSingle(name)
    ensures KindOf(k, name).Multi? ==> OpenAfter(k, args + [name]) == OpenMulti(name)
  {
    Push(args, name);
  }

  /** Appending a segment sets its keyword's variable and leaves the unparsed list alone. */
  lemma SegmentSetsItsVar(k: Keywords, args: seq<string>, seg: Segment)
    requires Fits(k, seg)
    ensures VarAfter(k, args + Words(seg), seg.name) == Content(seg)
    ensures UnparsedAfter(k, args + Words(seg)) == UnparsedAfter(k, args)
  {
    KeywordResets(k, args, seg.name);
    SegmentParts(args, seg);
    match seg
    case Flag(_) =>
    case One(_, value) => Push(args + [seg.name], value);
    case Many(_, values) =>
      ValuesPileUp(k, args + [seg.name], seg.name, values);
      assert [] + values == values;
  }

  /** Appending a segment leaves every other keyword's variable alone. */
  lemma SegmentLeavesOthers(k: Keywords, args: seq<string>, seg: Segment, other: string)
    requires Fits(k, seg) && other != seg.name && !KindOf(k, other).Value?
    ensures VarAfter(k, args + Words(seg), other) == VarAfter(k, args, other)
  {
    Push(args, seg.name);
    KeywordResets(k, args, seg.name);
    SegmentParts(args, seg);
    assert VarAfter(k, args + [seg.name], other) == VarAfter(k, args, other);
    match seg
    case Flag(_) =>
    case One(_, value) => Push(args + [seg.name], value);
    case Many(_, values) => ValuesLeaveOthers(k, args + [seg.name], seg.name, values, other);
  }

  ghost predicate DistinctNames(segs: seq<Segment>) {
    forall i, j :: 0 <= i < j < |segs| ==> segs[i].name != segs[j].name
  }

  ghost predicate AllFit(k: Keywords, segs: seq<Segment>) {
    forall i :: 0 <= i < |segs| ==> Fits(k, segs[i])
  }

  /** What the parser should make of a keyword: the content of its segment, or the default. */
  function Expected(k: Keywords, segs: seq<Segment>, name: string): seq<string> {
    if segs == [] then VarAfter(k, [], name)
    else if segs[|segs| - 1].name == name then Content(segs[|segs| - 1])
    else Expected(k, segs[..|segs| - 1], name)
  }

  lemma {:induction false} ExpectedIsContent(k: Keywords, segs: seq<Segment>, i: nat)
    requires DistinctNames(segs) && i < |segs|
    ensures Expected(k, segs, segs[i].name) == Content(segs[i])
  {
    if i < |segs| - 1 {
      ExpectedIsContent(k, segs[..|segs| - 1], i);
    }
  }

  /**
   Parsing what Render writes gives back every part: the leading arguments as unparsed, and
   for every keyword the content of its segment, or its default if it has none.
   */
  lemma {:induction false} RoundTrip(k: Keywords, leading: seq<string>, segs: seq<Segment>, name: string)
    requires AllValues(k, leading) && AllFit(k, segs) && !KindOf(k, name).Value?
    ensures UnparsedAfter(k, Render(leading, segs)) == leading
    ensures VarAfter(k, Render(leading, segs), name) == Expected(k, segs, name)
  {
    if segs == [] {
      LeadingStaysUnparsed(k, leading, name);
    } else {
      var init, seg := segs[..|segs| - 1], segs[|segs| - 1];
      RoundTrip(k, leading, init, name);
      SegmentSetsItsVar(k, Render(leading, init), seg);
      if seg.name != name {
        SegmentLeavesOthers(k, Render(leading, init), seg, name);
      }
    }
  }
}
