/**
 The debug log's start-of-line flag (`WriteStr`, `GetTimestampStr` and `GetThreadNameStr` in
 common/utils.cpp): a message that starts a line gets a time stamp and a thread name in
 front, one that continues a line does not. The clock and the thread name are inputs.
 */
module DebugLog {

  /** The log settings, which stay as they are during a run. */
  datatype Config = Config(timestamps: bool, micros: bool, threadNames: bool)

  /** One call of WriteStr, with the formatted date, the microseconds and the thread it happens in. */
  datatype Message = Message(str: string, date: string, micros: nat, thread: string)

  /** A C string ends at its first NUL. */
  function CStr(s: string): string {
    if s == "" || s[0] == '\0' then "" else [s[0]] + CStr(s[1..])
  }

  function Digit(n: nat): char
    requires n < 10
  {
    "0123456789"[n]
  }

  /** The last `width` decimal digits of `n`, as "%06d" prints them for width 6. */
  function Digits(n: nat, width: nat): string {
    if width == 0 then "" else Digits(n / 10, width - 1) + [Digit(n % 10)]
  }

  /** Right-aligned in at least `width` columns. */
  function PadLeft(s: string, width: nat): string {
    if |s| >= width then s else seq(width - |s|, _ => ' ') + s
  }

  function GetThreadNameStr(cfg: Config, m: Message, startedNewLine: bool): string {
    if !cfg.threadNames then m.str
    else if startedNewLine then PadLeft(CStr(m.thread), 16) + " | " + CStr(m.str)
    else m.str
  }

  function GetTimestampStr(cfg: Config, m: Message, str: string, startedNewLine: bool): string {
    if !cfg.timestamps then str
    else if startedNewLine then
      var stamp := m.date + (if cfg.micros then "." + Digits(m.micros % 1_000_000, 6) else "");
      stamp + (" " + str)
    else str
  }

  predicate EndsLine(s: string) {
    s != "" && s[|s| - 1] == '\n'
  }

  // ---------- what is written, as prefixes and bodies ----------

  datatype Chunk = Chunk(prefix: string, body: string)

  /** What a message that starts a line gets in front. */
  function Prefix(cfg: Config, m: Message): string {
    (if cfg.timestamps then m.date + (if cfg.micros then "." + Digits(m.micros % 1_000_000, 6) else "") + " " else "")
    + (if cfg.threadNames then PadLeft(CStr(m.thread), 16) + " | " else "")
  }

  function ChunkOf(cfg: Config, m: Message, startedNewLine: bool): Chunk {
    if startedNewLine then Chunk(Prefix(cfg, m), if cfg.threadNames then CStr(m.str) else m.str)
    else Chunk("", m.str)
  }

  /** The flag after a run of messages: it looks at the last message only. */
  function FlagAfter(messages: seq<Message>): bool {
    messages == [] || EndsLine(messages[|messages| - 1].str)
  }

  function Chunks(cfg: Config, messages: seq<Message>): seq<Chunk> {
    if messages == [] then []
    else
      var init, m := messages[..|messages| - 1], messages[|messages| - 1];
      Chunks(cfg, init) + [ChunkOf(cfg, m, FlagAfter(init))]
  }

  function Text(chunks: seq<Chunk>): string {
    if chunks == [] then ""
    else Text(chunks[..|chunks| - 1]) + (chunks[|chunks| - 1].prefix + chunks[|chunks| - 1].body)
  }

  /** The text with the prefixes taken out. */
  function Bodies(chunks: seq<Chunk>): string {
    if chunks == [] then "" else Bodies(chunks[..|chunks| - 1]) + chunks[|chunks| - 1].body
  }

  function Concat(messages: seq<Message>): string {
    if messages == [] then "" else Concat(messages[..|messages| - 1]) + messages[|messages| - 1].str
  }

  lemma WrittenIsChunk(cfg: Config, m: Message, startedNewLine: bool)
    ensures var c := ChunkOf(cfg, m, startedNewLine);
            GetTimestampStr(cfg, m, GetThreadNameStr(cfg, m, startedNewLine), startedNewLine) == c.prefix + c.body
  {
    var c := ChunkOf(cfg, m, startedNewLine);
    var written := GetTimestampStr(cfg, m, GetThreadNameStr(cfg, m, startedNewLine), startedNewLine);
    if startedNewLine && cfg.timestamps && cfg.threadNames {
      var stamp := m.date + (if cfg.micros then "." + Digits(m.micros % 1_000_000, 6) else "");
      var name := PadLeft(CStr(m.thread), 16) + " | ";
      assert written == stamp + (" " + (name + CStr(m.str)));
      assert c.prefix == stamp + " " + name;
    }
  }

  /** One more message adds what the helpers make of it at the flag, and sets the flag by its end. */
  lemma WriteExtends(cfg: Config, messages: seq<Message>, m: Message)
    ensures FlagAfter(messages + [m]) == (m.str != "" && m.str[|m.str| - 1] == '\n')
    ensures var flag := FlagAfter(messages);
            Text(Chunks(cfg, messages + [m]))
            == Text(Chunks(cfg, messages)) + GetTimestampStr(cfg, m, GetThreadNameStr(cfg, m, flag), flag)
  {
    ChunksExtend(cfg, messages, m);
    WrittenIsChunk(cfg, m, FlagAfter(messages));
  }

  /** The log file and the flag, updated in place. */
  class Log {
    const cfg: Config
    var fStartedNewLine: bool
    var file: string
    ghost var written: seq<Message>

    ghost predicate Valid()
      reads this
    {
      fStartedNewLine == FlagAfter(written) && file == Text(Chunks(cfg, written))
    }

    constructor (cfg: Config)
      ensures this.cfg == cfg && Valid() && written == [] && file == ""
    {
      this.cfg := cfg;
      fStartedNewLine, file, written := true, "", [];
    }

    method WriteStr(m: Message) returns (ret: nat)
      requires Valid()
      modifies this
      ensures Valid() && written == old(written) + [m]
      ensures old(file) <= file && ret == |file| - |old(file)|
    {
      var strThreadLogged := GetThreadNameStr(cfg, m, fStartedNewLine);
      var strTimestamped := GetTimestampStr(cfg, m, strThreadLogged, fStartedNewLine);
      WriteExtends(cfg, written, m);
      fStartedNewLine := m.str != "" && m.str[|m.str| - 1] == '\n';
      file := file + strTimestamped;
      written := written + [m];
      ret := |strTimestamped|;
    }
  }

  // ---------- what a prefix looks like ----------

  /** The number that decimal digits make. */
  function Numeral(s: string): nat
    requires forall i :: 0 <= i < |s| ==> '0' <= s[i] <= '9'
  {
    if s == "" then 0 else 10 * Numeral(s[..|s| - 1]) + (s[|s| - 1] as int - '0' as int)
  }

  function PowerOfTen(width: nat): nat {
    if width == 0 then 1 else 10 * PowerOfTen(width - 1)
  }

  /** Digits writes a number that fits in exactly `width` decimal digits. */
  lemma {:induction false} DigitsRead(n: nat, width: nat)
    requires n < PowerOfTen(width)
    ensures |Digits(n, width)| == width
    ensures forall i :: 0 <= i < width ==> '0' <= Digits(n, width)[i] <= '9'
    ensures Numeral(Digits(n, width)) == n
  {
    if width > 0 {
      var init, d := Digits(n / 10, width - 1), Digit(n % 10);
      DigitsRead(n / 10, width - 1);
      DigitReads(n % 10);
      NumeralExtend(init, d);
    }
  }

  lemma DigitReads(n: nat)
    requires n < 10
    ensures '0' <= Digit(n) <= '9' && Digit(n) as int - '0' as int == n
  {
  }

  lemma NumeralExtend(s: string, d: char)
    requires (forall i :: 0 <= i < |s| ==> '0' <= s[i] <= '9') && '0' <= d <= '9'
    ensures forall i :: 0 <= i < |s + [d]| ==> '0' <= (s + [d])[i] <= '9'
    ensures Numeral(s + [d]) == 10 * Numeral(s) + (d as int - '0' as int)
  {
    assert (s + [d])[..|s|] == s;
  }

  /** A time stamp is the date, six digits of microseconds if they are on, and a space. */
  ghost predicate IsStamp(cfg: Config, m: Message, stamp: string) {
    if !cfg.timestamps then stamp == ""
    else if !cfg.micros then stamp == m.date + " "
    else
      exists six: string ::
        && |six| == 6 && (forall i :: 0 <= i < |six| ==> '0' <= six[i] <= '9')
        && Numeral(six) == m.micros % 1_000_000
        && stamp == m.date + "." + six + " "
  }

  /** A name is the thread's up to the first NUL, moved right to fill 16 columns, and a bar. */
  ghost predicate IsName(cfg: Config, m: Message, name: string) {
    if !cfg.threadNames then name == ""
    else
      exists space: string, own: string ::
        && name == space + own + " | "
        && (forall i :: 0 <= i < |space| ==> space[i] == ' ')
        && |space| == (if |own| < 16 then 16 - |own| else 0)
        && own <= m.thread && '\0' !in own && (|own| < |m.thread| ==> m.thread[|own|] == '\0')
  }

  lemma {:induction false} CStrReads(s: string)
    ensures CStr(s) <= s && '\0' !in CStr(s) && (|CStr(s)| < |s| ==> s[|CStr(s)|] == '\0')
  {
    if s != "" {
      CStrReads(s[1..]);
      assert s == [s[0]] + s[1..];
    }
  }

  lemma StampReads(cfg: Config, m: Message) returns (stamp: string)
    requires cfg.timestamps
    ensures stamp == m.date + (if cfg.micros then "." + Digits(m.micros % 1_000_000, 6) else "") + " "
    ensures IsStamp(cfg, m, stamp)
  {
    var six := Digits(m.micros % 1_000_000, 6);
    assert PowerOfTen(6) == 1_000_000;
    DigitsRead(m.micros % 1_000_000, 6);
    stamp := m.date + (if cfg.micros then "." + six else "") + " ";
    if cfg.micros {
      assert stamp == m.date + "." + six + " ";
    } else {
      assert stamp == m.date + " ";
    }
  }

  lemma NameReads(cfg: Config, m: Message)
    requires cfg.threadNames
    ensures IsName(cfg, m, PadLeft(CStr(m.thread), 16) + " | ")
  {
    var own := CStr(m.thread);
    var space := seq(if |own| < 16 then 16 - |own| else 0, _ => ' ');
    CStrReads(m.thread);
    assert PadLeft(own, 16) == space + own;
  }

  /** A prefix is a time stamp followed by a thread name, each only if its setting is on. */
  lemma PrefixReads(cfg: Config, m: Message)
    ensures exists stamp: string, name: string ::
              Prefix(cfg, m) == stamp + name && IsStamp(cfg, m, stamp) && IsName(cfg, m, name)
  {
    var stamp, name := "", "";
    if cfg.timestamps {
      stamp := StampReads(cfg, m);
    }
    if cfg.threadNames {
      NameReads(cfg, m);
      name := PadLeft(CStr(m.thread), 16) + " | ";
    }
    assert Prefix(cfg, m) == stamp + name;
  }

  // ---------- the flag and the text ----------

  /** Messages without NUL, which is what ToolLog passes: it cuts its buffer at the first one. */
  predicate Clean(messages: seq<Message>) {
    forall i :: 0 <= i < |messages| ==> '\0' !in messages[i].str
  }

  lemma {:induction false} CleanCStr(s: string)
    ensures CStr(s) == s <==> '\0' !in s
    ensures |CStr(s)| <= |s|
    ensures |CStr(s)| == |s| ==> CStr(s) == s
  {
    if s != "" {
      CleanCStr(s[1..]);
      assert s == [s[0]] + s[1..];
    }
  }

  lemma ChunksExtend(cfg: Config, messages: seq<Message>, m: Message)
    ensures Chunks(cfg, messages + [m]) == Chunks(cfg, messages) + [ChunkOf(cfg, m, FlagAfter(messages))]
    ensures Text(Chunks(cfg, messages + [m]))
         == var c := ChunkOf(cfg, m, FlagAfter(messages)); Text(Chunks(cfg, messages)) + (c.prefix + c.body)
  {
    assert (messages + [m])[..|messages|] == messages;
    var before, chunk := Chunks(cfg, messages), ChunkOf(cfg, m, FlagAfter(messages));
    assert (before + [chunk])[..|before|] == before;
  }

  /** A prefix is never empty and ends in a space. */
  lemma PrefixEnds(cfg: Config, m: Message)
    requires cfg.timestamps || cfg.threadNames
    ensures Prefix(cfg, m) != "" && Prefix(cfg, m)[|Prefix(cfg, m)| - 1] == ' '
  {
    var name := PadLeft(CStr(m.thread), 16) + " | ";
    assert name[|name| - 1] == ' ';
  }

  /** What the flag makes of a clean message. */
  ghost predicate Fits(c: Chunk, str: string, startedNewLine: bool) {
    && c.body == str
    && (c.prefix != "" <==> startedNewLine)
    && (c.prefix != "" ==> c.prefix[|c.prefix| - 1] == ' ')
  }

  lemma ChunkFits(cfg: Config, m: Message, startedNewLine: bool)
    requires (cfg.timestamps || cfg.threadNames) && '\0' !in m.str
    ensures Fits(ChunkOf(cfg, m, startedNewLine), m.str, startedNewLine)
  {
    CleanCStr(m.str);
    PrefixEnds(cfg, m);
  }

  lemma FlagStep(before: string, c: Chunk, str: string, flag: bool)
    requires Fits(c, str, flag) && (flag <==> before == "" || EndsLine(before))
    ensures var after := before + (c.prefix + c.body);
            EndsLine(str) <==> after == "" || EndsLine(after)
  {
    var added := c.prefix + c.body;
    var after := before + added;
    if str != "" {
      assert after[|after| - 1] == str[|str| - 1];
    } else if flag {
      assert added == c.prefix && after[|after| - 1] == c.prefix[|c.prefix| - 1];
    } else {
      assert after == before;
    }
  }

  /**
   With time stamps or thread names on, the flag is true exactly when the text written so
   far is empty or ends in a newline, empty messages included.
   */
  lemma {:induction false} FlagTracksText(cfg: Config, messages: seq<Message>)
    requires (cfg.timestamps || cfg.threadNames) && Clean(messages)
    ensures FlagAfter(messages) <==> Text(Chunks(cfg, messages)) == "" || EndsLine(Text(Chunks(cfg, messages)))
  {
    if messages != [] {
      var init, m := messages[..|messages| - 1], messages[|messages| - 1];
      assert messages == init + [m];
      assert forall i :: 0 <= i < |init| ==> init[i] == messages[i];
      FlagTracksText(cfg, init);
      ChunksExtend(cfg, init, m);
      ChunkFits(cfg, m, FlagAfter(init));
      FlagStep(Text(Chunks(cfg, init)), ChunkOf(cfg, m, FlagAfter(init)), m.str, FlagAfter(init));
    }
  }

  /** The next character written starts a line. */
  predicate AtLineStart(text: string) {
    text == "" || EndsLine(text)
  }

  /**
   Whatever the settings, a message leaves the flag agreeing with the text except in one
   case: with both settings off, an empty message where a line starts clears the flag.
   */
  lemma FlagTracksTextIff(cfg: Config, messages: seq<Message>, m: Message)
    requires Clean(messages) && '\0' !in m.str
    ensures var before, after := Text(Chunks(cfg, messages)), Text(Chunks(cfg, messages + [m]));
            (FlagAfter(messages + [m]) <==> AtLineStart(after))
            <==> cfg.timestamps || cfg.threadNames || m.str != "" || !AtLineStart(before)
  {
    var before, c := Text(Chunks(cfg, messages)), ChunkOf(cfg, m, FlagAfter(messages));
    ChunksExtend(cfg, messages, m);
    if cfg.timestamps || cfg.threadNames {
      FlagTracksText(cfg, messages);
      ChunkFits(cfg, m, FlagAfter(messages));
      FlagStep(before, c, m.str, FlagAfter(messages));
    } else {
      assert c.prefix + c.body == m.str;
      assert m.str != "" ==> (before + m.str)[|before + m.str| - 1] == m.str[|m.str| - 1];
      assert m.str == "" ==> before + m.str == before;
    }
  }

  /** A prefix goes in front of a message exactly where the text before it is empty or ends a line. */
  lemma PrefixAtLineStarts(cfg: Config, messages: seq<Message>, m: Message)
    requires (cfg.timestamps || cfg.threadNames) && Clean(messages)
    ensures var before, chunk := Text(Chunks(cfg, messages)), ChunkOf(cfg, m, FlagAfter(messages));
            && (chunk.prefix != "" <==> before == "" || EndsLine(before))
            && (chunk.prefix != "" ==> chunk.prefix == Prefix(cfg, m))
  {
    FlagTracksText(cfg, messages);
    PrefixEnds(cfg, m);
  }

  /** Message `i` starts a line and is passed through a C string. */
  predicate Truncates(cfg: Config, messages: seq<Message>, i: nat)
    requires i < |messages|
  {
    cfg.threadNames && FlagAfter(messages[..i]) && '\0' in messages[i].str
  }

  lemma SameParts(a: string, b: string, c: string, d: string)
    requires |a| <= |c| && |b| <= |d|
    ensures a + b == c + d <==> a == c && b == d
  {
    if a + b == c + d {
      assert |a| == |c| && a == (a + b)[..|a|] && c == (c + d)[..|c|];
      assert b == (a + b)[|a|..] && d == (c + d)[|c|..];
    }
  }

  lemma BodiesExtend(cfg: Config, messages: seq<Message>, m: Message)
    ensures Bodies(Chunks(cfg, messages + [m]))
         == Bodies(Chunks(cfg, messages)) + ChunkOf(cfg, m, FlagAfter(messages)).body
    ensures Concat(messages + [m]) == Concat(messages) + m.str
  {
    ChunksExtend(cfg, messages, m);
    assert (messages + [m])[..|messages|] == messages;
    var before, chunk := Chunks(cfg, messages), ChunkOf(cfg, m, FlagAfter(messages));
    assert (before + [chunk])[..|before|] == before;
  }

  lemma TruncatesIffShorter(cfg: Config, messages: seq<Message>, m: Message)
    ensures Truncates(cfg, messages + [m], |messages|) <==> ChunkOf(cfg, m, FlagAfter(messages)).body != m.str
    ensures |ChunkOf(cfg, m, FlagAfter(messages)).body| <= |m.str|
  {
    CleanCStr(m.str);
    assert (messages + [m])[..|messages|] == messages;
  }

  /**
   Taking the prefixes out of the log gives back all messages, one after the other, exactly
   if no message with a NUL in it started a line while thread names were on.
   */
  lemma {:induction false} BodiesAreMessagesIff(cfg: Config, messages: seq<Message>)
    ensures |Bodies(Chunks(cfg, messages))| <= |Concat(messages)|
    ensures Bodies(Chunks(cfg, messages)) == Concat(messages)
       <==> forall i :: 0 <= i < |messages| ==> !Truncates(cfg, messages, i)
  {
    if messages != [] {
      var init, m := messages[..|messages| - 1], messages[|messages| - 1];
      var n := |init|;
      assert messages == init + [m];
      BodiesAreMessagesIff(cfg, init);
      BodiesExtend(cfg, init, m);
      TruncatesIffShorter(cfg, init, m);
      SameParts(Bodies(Chunks(cfg, init)), ChunkOf(cfg, m, FlagAfter(init)).body, Concat(init), m.str);
      forall i | 0 <= i < n
        ensures Truncates(cfg, messages, i) == Truncates(cfg, init, i)
      {
        assert messages[..i] == init[..i];
      }
    }
  }

  // ---------- lines and prefixes ----------

  /** A line of the text starts at `p`. */
  predicate LineStart(text: string, p: nat) {
    p < |text| && (p == 0 || text[p - 1] == '\n')
  }

  /** A prefix was written at `p`. */
  predicate PrefixStart(chunks: seq<Chunk>, p: nat) {
    exists i :: 0 <= i < |chunks| && StartsAt(chunks, i, p)
  }

  predicate StartsAt(chunks: seq<Chunk>, i: nat, p: nat)
    requires i < |chunks|
  {
    chunks[i].prefix != "" && |Text(chunks[..i])| == p
  }

  predicate EveryLinePrefixed(chunks: seq<Chunk>) {
    forall p: nat :: p < |Text(chunks)| ==> LineStart(Text(chunks), p) ==> PrefixStart(chunks, p)
  }

  /** The message has a newline before its last character. */
  predicate SpansLines(m: Message) {
    exists j :: 0 <= j < |m.str| - 1 && m.str[j] == '\n'
  }

  /** Dates and thread names have no newline in them. */
  predicate OneLinePrefixes(cfg: Config, messages: seq<Message>) {
    forall i :: 0 <= i < |messages| ==> '\n' !in Prefix(cfg, messages[i])
  }

  /** Earlier chunks keep their places when another is appended. */
  lemma PrefixStartExtend(chunks: seq<Chunk>, c: Chunk, p: nat)
    ensures PrefixStart(chunks + [c], p)
       <==> PrefixStart(chunks, p) || (c.prefix != "" && p == |Text(chunks)|)
  {
    var longer := chunks + [c];
    assert longer[..|chunks|] == chunks;
    if PrefixStart(chunks, p) {
      var i :| 0 <= i < |chunks| && StartsAt(chunks, i, p);
      assert longer[..i] == chunks[..i];
      assert StartsAt(longer, i, p);
    }
    if c.prefix != "" && p == |Text(chunks)| {
      assert StartsAt(longer, |chunks|, p);
    }
    if PrefixStart(longer, p) {
      var i :| 0 <= i < |longer| && StartsAt(longer, i, p);
      if i < |chunks| {
        assert longer[..i] == chunks[..i];
        assert StartsAt(chunks, i, p);
      }
    }
  }

  lemma {:induction false} PrefixesLieInText(chunks: seq<Chunk>, p: nat)
    requires PrefixStart(chunks, p)
    ensures p < |Text(chunks)|
  {
    var init := chunks[..|chunks| - 1];
    PrefixStartExtend(init, chunks[|chunks| - 1], p);
    assert chunks == init + [chunks[|chunks| - 1]];
    if PrefixStart(init, p) {
      PrefixesLieInText(init, p);
    }
  }

  /** One more chunk, its message on one line: every line start is accounted for. */
  lemma OneLineKeepsPrefixed(chunks: seq<Chunk>, c: Chunk, str: string, flag: bool)
    requires Fits(c, str, flag) && (flag <==> Text(chunks) == "" || EndsLine(Text(chunks)))
    requires '\n' !in c.prefix && Text(chunks + [c]) == Text(chunks) + (c.prefix + c.body)
    requires EveryLinePrefixed(chunks) && forall j :: 0 <= j < |str| - 1 ==> str[j] != '\n'
    ensures EveryLinePrefixed(chunks + [c])
  {
    var before, after := Text(chunks), Text(chunks + [c]);
    forall p: nat | p < |after| && LineStart(after, p)
      ensures PrefixStart(chunks + [c], p)
    {
      PrefixStartExtend(chunks, c, p);
      if p < |before| {
        assert LineStart(before, p);
      } else if p > |before| {
        NewlineInChunk(before, c, p);
      }
    }
  }

  /** If all lines still start with prefixes, they did before, and the new message kept to its line. */
  lemma PrefixedImpliesOneLine(chunks: seq<Chunk>, c: Chunk)
    requires Text(chunks + [c]) == Text(chunks) + (c.prefix + c.body)
    requires EveryLinePrefixed(chunks + [c])
    ensures EveryLinePrefixed(chunks) && forall j :: 0 <= j < |c.body| - 1 ==> c.body[j] != '\n'
  {
    var before, after := Text(chunks), Text(chunks + [c]);
    forall p: nat | p < |before| && LineStart(before, p)
      ensures PrefixStart(chunks, p)
    {
      assert LineStart(after, p);
      PrefixStartExtend(chunks, c, p);
    }
    forall j | 0 <= j < |c.body| - 1
      ensures c.body[j] != '\n'
    {
      if c.body[j] == '\n' {
        var p := |before| + |c.prefix| + j + 1;
        assert after[p - 1] == '\n' && LineStart(after, p);
        PrefixStartExtend(chunks, c, p);
        if PrefixStart(chunks, p) {
          PrefixesLieInText(chunks, p);
        }
        assert false;
      }
    }
  }

  lemma LinePrefixedExtend(cfg: Config, messages: seq<Message>, m: Message)
    requires (cfg.timestamps || cfg.threadNames) && Clean(messages) && '\0' !in m.str && '\n' !in Prefix(cfg, m)
    ensures EveryLinePrefixed(Chunks(cfg, messages + [m]))
       <==> EveryLinePrefixed(Chunks(cfg, messages)) && !SpansLines(m)
  {
    var chunks, c := Chunks(cfg, messages), ChunkOf(cfg, m, FlagAfter(messages));
    ChunksExtend(cfg, messages, m);
    FlagTracksText(cfg, messages);
    ChunkFits(cfg, m, FlagAfter(messages));
    if EveryLinePrefixed(chunks) && !SpansLines(m) {
      OneLineKeepsPrefixed(chunks, c, m.str, FlagAfter(messages));
    }
    if EveryLinePrefixed(chunks + [c]) {
      PrefixedImpliesOneLine(chunks, c);
    }
  }

  lemma NewlineInChunk(before: string, c: Chunk, p: nat)
    requires |before| < p < |before + (c.prefix + c.body)| && (before + (c.prefix + c.body))[p - 1] == '\n'
    requires '\n' !in c.prefix
    ensures p - 1 >= |before| + |c.prefix| && c.body[p - 1 - |before| - |c.prefix|] == '\n'
  {
    assert forall q :: 0 <= q < |c.prefix| ==> c.prefix[q] != '\n';
    assert (before + (c.prefix + c.body))[p - 1] == (c.prefix + c.body)[p - 1 - |before|];
  }

  /** Every message keeps to one line. */
  ghost predicate NoneSpans(messages: seq<Message>) {
    forall i :: 0 <= i < |messages| ==> !SpansLines(messages[i])
  }

  lemma MessagesButLast(cfg: Config, messages: seq<Message>)
    requires messages != [] && Clean(messages) && OneLinePrefixes(cfg, messages)
    ensures var init, m := messages[..|messages| - 1], messages[|messages| - 1];
            && messages == init + [m]
            && Clean(init) && OneLinePrefixes(cfg, init)
            && '\0' !in m.str && '\n' !in Prefix(cfg, m)
            && (NoneSpans(messages) <==> NoneSpans(init) && !SpansLines(m))
  {
    var init := messages[..|messages| - 1];
    assert forall i :: 0 <= i < |init| ==> init[i] == messages[i];
  }

  /** Every line of the log starts with a prefix exactly if every message keeps to one line. */
  lemma {:induction false} LinesPrefixedIff(cfg: Config, messages: seq<Message>)
    requires (cfg.timestamps || cfg.threadNames) && Clean(messages) && OneLinePrefixes(cfg, messages)
    ensures EveryLinePrefixed(Chunks(cfg, messages)) <==> NoneSpans(messages)
  {
    if messages != [] {
      var init, m := messages[..|messages| - 1], messages[|messages| - 1];
      MessagesButLast(cfg, messages);
      LinesPrefixedIff(cfg, init);
      LinePrefixedExtend(cfg, init, m);
    }
  }
}
