// The SubRip reader (`srt_parser::parse`): a three-state line machine
// (sequence number, timing line, text lines up to a blank line) that collects
// records and finally sorts them by start and end time. `Step` is one
// iteration of the source's loop, `Run` folds it over the lines, and the
// method `Parse` is the loop itself, proved equal to the fold.
module SrtParser {
  import opened Wrappers
  import opened Decimal
  import opened Strings
  import opened Times
  import opened Ast

  /** One SubRip record. */
  datatype SrtBlock = SrtBlock(sequenceId: nat, start: Time, end: Time, content: seq<string>, extra: seq<string>)

  /** `From<Block> for zimu_ast::Block`: the times and the text lines. */
  function ToBlock(b: SrtBlock): (r: Block)
    ensures r.start == b.start && r.end == b.end && r.content == b.content
  {
    Block(b.start, b.end, b.content)
  }

  datatype Ordering = Less | Equal | Greater

  function CompareTimes(a: Time, b: Time): (o: Ordering)
    ensures o == Less <==> a < b
    ensures o == Equal <==> a == b
  {
    if a < b then Less else if a == b then Equal else Greater
  }

  /** `PartialOrd for Block`: by start time, then by end time; two records with the same
      start and end are not comparable at all. */
  function PartialCmp(a: SrtBlock, b: SrtBlock): Option<Ordering> {
    if a.start != b.start then Some(CompareTimes(a.start, b.start))
    else if a.end != b.end then Some(CompareTimes(a.end, b.end))
    else None
  }

  /** `PartialOrd::lt`, the comparison `slice::sort` uses. */
  predicate Lt(a: SrtBlock, b: SrtBlock) {
    PartialCmp(a, b) == Some(Less)
  }

  /** `partial_cmp` is `None` exactly for records with the same start and end, and `lt` is
      the lexicographic order on (start, end). */
  lemma PartialCmpMeaning(a: SrtBlock, b: SrtBlock)
    ensures PartialCmp(a, b) == None <==> a.start == b.start && a.end == b.end
    ensures Lt(a, b) <==> a.start < b.start || (a.start == b.start && a.end < b.end)
    ensures PartialCmp(a, b) == Some(Greater) <==> Lt(b, a)
  {
  }

  /** `Ord for Block`: `partial_cmp(..).unwrap()`, which panics on records with equal times. */
  function Cmp(a: SrtBlock, b: SrtBlock): (o: Ordering)
    requires PartialCmp(a, b).Some?
    ensures o == Less <==> Lt(a, b)
    ensures o == Greater <==> Lt(b, a)
    ensures o != Equal
  {
    PartialCmp(a, b).value
  }

  // ---------------------------------------------------------------------------
  // `blocks.sort()`: a stable sort by `lt`.

  /** `x` placed before the first element of `s` that is not less than it. */
  function Insert(x: SrtBlock, s: seq<SrtBlock>): (r: seq<SrtBlock>)
    ensures multiset(r) == multiset(s) + multiset{x}
    decreases |s|
  {
    if s == [] then [x]
    else if Lt(s[0], x) then
      assert s == [s[0]] + s[1..];
      [s[0]] + Insert(x, s[1..])
    else [x] + s
  }

  function SortBlocks(bs: seq<SrtBlock>): (r: seq<SrtBlock>)
    ensures multiset(r) == multiset(bs)
    decreases |bs|
  {
    if bs == [] then []
    else
      assert bs == [bs[0]] + bs[1..];
      Insert(bs[0], SortBlocks(bs[1..]))
  }

  /** No record is less than one before it. */
  predicate Sorted(s: seq<SrtBlock>) {
    forall i, j :: 0 <= i < j < |s| ==> !Lt(s[j], s[i])
  }

  /** The records with the given start and end, in order. */
  function WithTimes(s: seq<SrtBlock>, start: Time, end: Time): (r: seq<SrtBlock>)
    ensures |r| <= |s|
    decreases |s|
  {
    if s == [] then []
    else (if s[0].start == start && s[0].end == end then [s[0]] else []) + WithTimes(s[1..], start, end)
  }

  /** `lt` as one number: the start time, then the end time. */
  function Key(b: SrtBlock): (k: nat) {
    b.start * NanosPerDay + b.end
  }

  lemma LtIsKeyOrder(a: SrtBlock, b: SrtBlock)
    ensures Lt(a, b) <==> Key(a) < Key(b)
  {
    PartialCmpMeaning(a, b);
    if a.start < b.start {
      assert (a.start + 1) * NanosPerDay <= b.start * NanosPerDay;
    } else if b.start < a.start {
      assert (b.start + 1) * NanosPerDay <= a.start * NanosPerDay;
    }
  }

  predicate KeySorted(s: seq<SrtBlock>) {
    forall i, j :: 0 <= i < j < |s| ==> Key(s[i]) <= Key(s[j])
  }

  lemma ConsKeySorted(y: SrtBlock, s: seq<SrtBlock>)
    requires KeySorted(s) && (s != [] ==> Key(y) <= Key(s[0]))
    ensures KeySorted([y] + s)
  {
    var r := [y] + s;
    forall i, j | 0 <= i < j < |r|
      ensures Key(r[i]) <= Key(r[j])
    {
      if i == 0 {
        assert Key(s[0]) <= Key(s[j - 1]);
      }
    }
  }

  lemma {:induction false} InsertKeySorted(x: SrtBlock, s: seq<SrtBlock>)
    requires KeySorted(s)
    ensures KeySorted(Insert(x, s))
    ensures Insert(x, s)[0] == x || (s != [] && Insert(x, s)[0] == s[0])
    decreases |s|
  {
    if s == [] {
    } else if Lt(s[0], x) {
      LtIsKeyOrder(s[0], x);
      var tail := Insert(x, s[1..]);
      InsertKeySorted(x, s[1..]);
      ConsKeySorted(s[0], tail);
    } else {
      LtIsKeyOrder(s[0], x);
      ConsKeySorted(x, s);
    }
  }

  /** The sorted records are in order of start time, and of end time among equal starts. */
  lemma {:induction false} SortBlocksSorted(bs: seq<SrtBlock>)
    ensures Sorted(SortBlocks(bs))
    decreases |bs|
  {
    SortBlocksKeySorted(bs);
    var r := SortBlocks(bs);
    forall i, j | 0 <= i < j < |r|
      ensures !Lt(r[j], r[i])
    {
      LtIsKeyOrder(r[j], r[i]);
    }
  }

  lemma {:induction false} SortBlocksKeySorted(bs: seq<SrtBlock>)
    ensures KeySorted(SortBlocks(bs))
    decreases |bs|
  {
    if bs != [] {
      SortBlocksKeySorted(bs[1..]);
      InsertKeySorted(bs[0], SortBlocks(bs[1..]));
    }
  }

  lemma {:induction false} InsertStable(x: SrtBlock, s: seq<SrtBlock>, start: Time, end: Time)
    ensures WithTimes(Insert(x, s), start, end)
      == (if x.start == start && x.end == end then [x] else []) + WithTimes(s, start, end)
    decreases |s|
  {
    var wx := if x.start == start && x.end == end then [x] else [];
    if s == [] {
      WithTimesCons(x, [], start, end);
    } else if Lt(s[0], x) {
      var tail := Insert(x, s[1..]);
      var w0 := if s[0].start == start && s[0].end == end then [s[0]] else [];
      InsertStable(x, s[1..], start, end);
      WithTimesCons(s[0], tail, start, end);
      PartialCmpMeaning(s[0], x);
      assert w0 == [] || wx == [];
      SwapEmpty(w0, wx, WithTimes(s[1..], start, end));
    } else {
      WithTimesCons(x, s, start, end);
    }
  }

  lemma WithTimesCons(y: SrtBlock, rest: seq<SrtBlock>, start: Time, end: Time)
    ensures WithTimes([y] + rest, start, end)
      == (if y.start == start && y.end == end then [y] else []) + WithTimes(rest, start, end)
  {
    assert ([y] + rest)[0] == y && ([y] + rest)[1..] == rest;
  }

  /** Two pieces of which one is empty can be swapped. */
  lemma SwapEmpty<T>(a: seq<T>, b: seq<T>, c: seq<T>)
    requires a == [] || b == []
    ensures a + (b + c) == b + (a + c)
  {
  }

  /** Sorting is stable: records with the same start and end keep their input order. */
  lemma {:induction false} SortBlocksStable(bs: seq<SrtBlock>, start: Time, end: Time)
    ensures WithTimes(SortBlocks(bs), start, end) == WithTimes(bs, start, end)
    decreases |bs|
  {
    if bs != [] {
      SortBlocksStable(bs[1..], start, end);
      InsertStable(bs[0], SortBlocks(bs[1..]), start, end);
    }
  }

  // ---------------------------------------------------------------------------
  // The reader.

  datatype State = ExpectSequenceId | ExpectDuration | ExpectContentOrEnd

  /** The loop's variables. */
  datatype Parser = Parser(
    state: State,
    curSequenceId: Option<nat>,
    curStart: Option<Time>,
    curEnd: Option<Time>,
    curExtra: seq<string>,
    curContent: seq<string>,
    blocks: seq<SrtBlock>)

  /** Between records: nothing is pending. */
  function Idle(blocks: seq<SrtBlock>): Parser {
    Parser(ExpectSequenceId, None, None, None, [], [], blocks)
  }

  /** The `unwrap`s when a record is closed cannot fail: the fields a state relies on
      have been set by the states before it. */
  predicate Consistent(p: Parser) {
    (p.state != ExpectSequenceId ==> p.curSequenceId.Some?)
    && (p.state == ExpectContentOrEnd ==> p.curStart.Some? && p.curEnd.Some?)
  }

  /** The panics of the source, as errors. */
  datatype ParseError =
    | InvalidSequenceId(line: string)
    | MissingStartTime
    | InvalidStartTime(text: string)
    | MissingArrow
    | InvalidArrow(text: string)
    | MissingEndTime
    | InvalidEndTime(text: string)

  const Bom: char := '\U{FEFF}'

  /** A leading byte-order mark is removed from every line. */
  function StripBom(line: string): (r: string)
    ensures line != [] && line[0] == Bom ==> r == line[1..]
    ensures (line == [] || line[0] != Bom) ==> r == line
  {
    if StartsWith(line, [Bom]) then line[1..] else line
  }

  /** A timing line: start time, `-->`, end time, then any extra tokens, separated by
      whitespace. The checks come in the source's order. */
  function ParseTiming(line: string): (r: Result<(Time, Time, seq<string>), ParseError>) {
    var chunks := SplitWhitespace(line);
    if |chunks| == 0 then Err(MissingStartTime)
    else if ParseSrtTime(chunks[0]).None? then Err(InvalidStartTime(chunks[0]))
    else if |chunks| == 1 then Err(MissingArrow)
    else if chunks[1] != "-->" then Err(InvalidArrow(chunks[1]))
    else if |chunks| == 2 then Err(MissingEndTime)
    else if ParseSrtTime(chunks[2]).None? then Err(InvalidEndTime(chunks[2]))
    else Ok((ParseSrtTime(chunks[0]).value, ParseSrtTime(chunks[2]).value, chunks[3..]))
  }

  /** A timing line is accepted exactly when its first three tokens are a valid time, the
      arrow and a valid time; the remaining tokens are kept as extras. */
  lemma ParseTimingAccepts(line: string)
    ensures var chunks := SplitWhitespace(line);
      ParseTiming(line).Ok? <==>
        (|chunks| >= 3 && chunks[1] == "-->"
         && ParseSrtTime(chunks[0]).Some? && ParseSrtTime(chunks[2]).Some?)
    ensures var chunks := SplitWhitespace(line);
      ParseTiming(line).Ok? ==>
        ParseTiming(line).value == (ParseSrtTime(chunks[0]).value, ParseSrtTime(chunks[2]).value, chunks[3..])
  {
  }

  /** One iteration of the reader's loop on a raw line: the records closed so far are
      never dropped or reordered, and the pending fields stay consistent. */
  function Step(p: Parser, raw: string): (r: Result<Parser, ParseError>)
    requires Consistent(p)
    ensures r.Ok? ==> Consistent(r.value)
    ensures r.Ok? ==> |p.blocks| <= |r.value.blocks| && r.value.blocks[..|p.blocks|] == p.blocks
  {
    assert p.blocks[..|p.blocks|] == p.blocks;
    var line := StripBom(raw);
    match p.state
    case ExpectSequenceId =>
      var id :- Require(ParseU64(line), InvalidSequenceId(line));
      Ok(p.(curSequenceId := Some(id), state := ExpectDuration))
    case ExpectDuration =>
      var timing :- ParseTiming(line);
      Ok(p.(curStart := Some(timing.0), curEnd := Some(timing.1), curExtra := timing.2,
            state := ExpectContentOrEnd))
    case ExpectContentOrEnd =>
      // `line.trim() == ""`: the line is blank.
      if AllWhitespace(line) then
        var block := SrtBlock(p.curSequenceId.value, p.curStart.value, p.curEnd.value, p.curContent, p.curExtra);
        assert (p.blocks + [block])[..|p.blocks|] == p.blocks;
        Ok(Idle(p.blocks + [block]))
      else Ok(p.(curContent := p.curContent + [line]))
  }

  /** The loop over all lines from a given state; the first error stops it. */
  function Run(p: Parser, lines: seq<string>): (r: Result<Parser, ParseError>)
    requires Consistent(p)
    ensures r.Ok? ==> Consistent(r.value)
    decreases |lines|
  {
    if lines == [] then Ok(p)
    else
      var q :- Step(p, lines[0]);
      Run(q, lines[1..])
  }

  /** What `parse` returns: the closed records, sorted. A record still open at the end of
      the input (no blank line after it) is dropped. */
  function ParseSpec(lines: seq<string>): Result<seq<SrtBlock>, ParseError> {
    var p :- Run(Idle([]), lines);
    Ok(SortBlocks(p.blocks))
  }

  /** `parse`, over the input already split into lines. */
  method Parse(lines: seq<string>) returns (r: Result<seq<SrtBlock>, ParseError>)
    ensures r == ParseSpec(lines)
  {
    var blocks: seq<SrtBlock> := [];
    var state := ExpectSequenceId;
    var curSequenceId: Option<nat> := None;
    var curStart: Option<Time> := None;
    var curEnd: Option<Time> := None;
    var curExtra: seq<string> := [];
    var curContent: seq<string> := [];
    for n := 0 to |lines|
      invariant Consistent(Parser(state, curSequenceId, curStart, curEnd, curExtra, curContent, blocks))
      invariant Run(Idle([]), lines)
        == Run(Parser(state, curSequenceId, curStart, curEnd, curExtra, curContent, blocks), lines[n..])
    {
      ghost var before := Parser(state, curSequenceId, curStart, curEnd, curExtra, curContent, blocks);
      assert lines[n..][0] == lines[n] && lines[n..][1..] == lines[n + 1..];
      var line := lines[n];
      if StartsWith(line, [Bom]) {
        line := line[1..];
      }
      assert line == StripBom(lines[n]);
      match state
      case ExpectSequenceId =>
        var id := ParseU64(line);
        if id.None? {
          assert Step(before, lines[n]) == Err(InvalidSequenceId(line));
          return Err(InvalidSequenceId(line));
        }
        curSequenceId := id;
        state := ExpectDuration;
        assert Step(before, lines[n]) == Ok(Parser(state, curSequenceId, curStart, curEnd, curExtra, curContent, blocks));
      case ExpectDuration =>
        var timing := ParseTiming(line);
        if timing.Err? {
          assert Step(before, lines[n]) == Err(timing.error);
          return Err(timing.error);
        }
        curStart := Some(timing.value.0);
        curEnd := Some(timing.value.1);
        curExtra := timing.value.2;
        state := ExpectContentOrEnd;
        assert Step(before, lines[n]) == Ok(Parser(state, curSequenceId, curStart, curEnd, curExtra, curContent, blocks));
      case ExpectContentOrEnd =>
        if Trim(line) == "" {
          blocks := blocks + [SrtBlock(curSequenceId.value, curStart.value, curEnd.value, curContent, curExtra)];
          curSequenceId := None;
          curStart := None;
          curEnd := None;
          curExtra := [];
          curContent := [];
          state := ExpectSequenceId;
        } else {
          curContent := curContent + [line];
        }
        assert Step(before, lines[n]) == Ok(Parser(state, curSequenceId, curStart, curEnd, curExtra, curContent, blocks));
    }
    blocks := SortBlocks(blocks);
    return Ok(blocks);
  }

  // ---------------------------------------------------------------------------
  // Properties of the reader.

  /** A byte-order mark in front of a line changes nothing. */
  lemma BomIgnored(p: Parser, line: string)
    requires Consistent(p)
    requires line == [] || line[0] != Bom
    ensures Step(p, [Bom] + line) == Step(p, line)
  {
    assert StripBom([Bom] + line) == StripBom(line);
  }

  /** A blank line where a sequence number is expected (before the first record, or a
      second blank line between two records) stops the reader with an error. */
  lemma BlankLineBetweenRecords(p: Parser, raw: string)
    requires Consistent(p) && p.state == ExpectSequenceId
    requires AllWhitespace(StripBom(raw))
    ensures Step(p, raw) == Err(InvalidSequenceId(StripBom(raw)))
  {
    var line := StripBom(raw);
    if line != [] {
      ParseU64RejectsNonDigit(line, 0);
    }
    assert ParseU64(line) == None;
  }

  lemma {:induction false} RunConcat(p: Parser, a: seq<string>, b: seq<string>)
    requires Consistent(p)
    ensures Run(p, a + b) == match Run(p, a)
      case Err(e) => Err(e)
      case Ok(q) => Run(q, b)
    decreases |a|
  {
    if a == [] {
      assert a + b == b;
    } else {
      assert (a + b)[0] == a[0] && (a + b)[1..] == a[1..] + b;
      match Step(p, a[0])
      case Err(_) =>
      case Ok(q) => RunConcat(q, a[1..], b);
    }
  }

  // The SubRip text of a sequence of records, the inverse of the reader.

  /** The timing line: start, arrow, end and the extra tokens, separated by spaces. */
  function TimingLine(b: SrtBlock): string {
    Join([FormatMillis(b.start), "-->", FormatMillis(b.end)] + b.extra, " ")
  }

  /** A record as lines: its number, its timing line, its text and the blank line that
      closes it. */
  function RecordLines(b: SrtBlock): (r: seq<string>)
    ensures |r| == |b.content| + 3
  {
    [NatToString(b.sequenceId), TimingLine(b)] + b.content + [""]
  }

  /** The lines of the chunks one after another. */
  function Concat(chunks: seq<seq<string>>): (r: seq<string>)
    decreases |chunks|
  {
    if chunks == [] then [] else Concat(chunks[..|chunks| - 1]) + chunks[|chunks| - 1]
  }

  /** The SubRip text of a sequence of records. */
  function Document(rs: seq<SrtBlock>): (r: seq<string>) {
    Concat(seq(|rs|, i requires 0 <= i < |rs| => RecordLines(rs[i])))
  }

  /** A record the text form carries exactly: a `u64` number, whole milliseconds, extra
      tokens without whitespace, and text lines that are not blank and do not begin with a
      byte-order mark. */
  predicate Writable(b: SrtBlock) {
    b.sequenceId < U64Limit
    && TruncateToMillis(b.start) == b.start && TruncateToMillis(b.end) == b.end
    && (forall i :: 0 <= i < |b.extra| ==> b.extra[i] != [] && NoWhitespace(b.extra[i]))
    && (forall i :: 0 <= i < |b.content| ==>
          b.content[i] != [] && !AllWhitespace(b.content[i]) && b.content[i][0] != Bom)
  }

  lemma FormatMillisToken(t: Time)
    ensures FormatMillis(t) != [] && NoWhitespace(FormatMillis(t)) && FormatMillis(t)[0] != Bom
  {
    var f := FormatMillis(t);
    var p2 := Pad2(Hour(t));
    assert f[0] == p2[0];
    forall i | 0 <= i < |f|
      ensures !IsWhitespace(f[i])
    {
      assert IsDigit(f[i]) || f[i] == ':' || f[i] == ',';
    }
  }

  /** The timing line of a writable record splits into its start, the arrow, its end and
      its extras. */
  lemma TimingLineTokens(b: SrtBlock)
    requires Writable(b)
    ensures StripBom(TimingLine(b)) == TimingLine(b)
    ensures SplitWhitespace(TimingLine(b)) == [FormatMillis(b.start), "-->", FormatMillis(b.end)] + b.extra
  {
    var ts := [FormatMillis(b.start), "-->", FormatMillis(b.end)] + b.extra;
    TimingTokens(b);
    SplitWhitespaceJoin(ts);
    assert TimingLine(b)[0] == ts[0][0];
  }

  lemma TimingTokens(b: SrtBlock)
    requires Writable(b)
    ensures var ts := [FormatMillis(b.start), "-->", FormatMillis(b.end)] + b.extra;
      forall i :: 0 <= i < |ts| ==> ts[i] != [] && NoWhitespace(ts[i])
    ensures FormatMillis(b.start)[0] != Bom
  {
    var ts := [FormatMillis(b.start), "-->", FormatMillis(b.end)] + b.extra;
    FormatMillisToken(b.start);
    FormatMillisToken(b.end);
    forall i | 0 <= i < |ts|
      ensures ts[i] != [] && NoWhitespace(ts[i])
    {
      if i >= 3 {
        assert ts[i] == b.extra[i - 3];
      }
    }
  }

  /** The timing line of a writable record reads back as its start, end and extras. */
  lemma TimingLineOf(b: SrtBlock)
    requires Writable(b)
    ensures ParseTiming(TimingLine(b)) == Ok((b.start, b.end, b.extra))
  {
    TimingLineTokens(b);
    FormatMillisRoundTrip(b.start);
    FormatMillisRoundTrip(b.end);
    assert ([FormatMillis(b.start), "-->", FormatMillis(b.end)] + b.extra)[3..] == b.extra;
  }

  /** Between records, a line that parses as a `u64` (after the byte-order mark is
      removed) opens a record under that number; any other line is an error. */
  lemma SequenceIdStep(p: Parser, raw: string)
    requires Consistent(p) && p.state == ExpectSequenceId
    ensures ParseU64(StripBom(raw)).Some? ==>
      Step(p, raw) == Ok(p.(curSequenceId := Some(ParseU64(StripBom(raw)).value), state := ExpectDuration))
    ensures ParseU64(StripBom(raw)).None? ==> Step(p, raw) == Err(InvalidSequenceId(StripBom(raw)))
  {
  }

  /** The decimal numeral of a record's sequence number opens that record. */
  lemma NumeralOpensRecord(bs: seq<SrtBlock>, id: nat)
    requires id < U64Limit
    ensures Step(Idle(bs), NatToString(id)) == Ok(Parser(ExpectDuration, Some(id), None, None, [], [], bs))
  {
    assert IsDigit(NatToString(id)[0]);
    ParseU64RoundTrip(id);
    SequenceIdStep(Idle(bs), NatToString(id));
  }

  /** After the sequence number, the timing line sets the times and the extras. */
  lemma TimingStep(p: Parser, b: SrtBlock)
    requires Consistent(p) && p.state == ExpectDuration && Writable(b)
    ensures Step(p, TimingLine(b))
      == Ok(p.(curStart := Some(b.start), curEnd := Some(b.end), curExtra := b.extra, state := ExpectContentOrEnd))
  {
    TimingLineTokens(b);
    TimingLineOf(b);
  }

  /** Inside a record, a line that is not blank is a text line. */
  lemma ContentStep(p: Parser, line: string)
    requires Consistent(p) && p.state == ExpectContentOrEnd
    requires line != [] && !AllWhitespace(line) && line[0] != Bom
    ensures Step(p, line) == Ok(p.(curContent := p.curContent + [line]))
  {
  }

  /** Inside a record, a line that is blank once the byte-order mark is removed (empty, or
      only whitespace) closes it. */
  lemma CloseStep(p: Parser, raw: string)
    requires Consistent(p) && p.state == ExpectContentOrEnd
    requires AllWhitespace(StripBom(raw))
    ensures Step(p, raw) == Ok(Idle(p.blocks
      + [SrtBlock(p.curSequenceId.value, p.curStart.value, p.curEnd.value, p.curContent, p.curExtra)]))
  {
  }

  lemma RunCons(p: Parser, line: string, rest: seq<string>, q: Parser)
    requires Consistent(p) && Step(p, line) == Ok(q)
    ensures Run(p, [line] + rest) == Run(q, rest)
  {
    assert ([line] + rest)[0] == line && ([line] + rest)[1..] == rest;
  }

  /** Text lines are collected in order until the closing blank line. */
  lemma {:induction false} ContentLines(p: Parser, content: seq<string>)
    requires Consistent(p) && p.state == ExpectContentOrEnd
    requires forall i :: 0 <= i < |content| ==>
      content[i] != [] && !AllWhitespace(content[i]) && content[i][0] != Bom
    ensures Run(p, content) == Ok(p.(curContent := p.curContent + content))
    decreases |content|
  {
    if content == [] {
      assert p.curContent + content == p.curContent;
    } else {
      var q := p.(curContent := p.curContent + [content[0]]);
      ContentStep(p, content[0]);
      RunCons(p, content[0], content[1..], q);
      ContentLines(q, content[1..]);
      assert [content[0]] + content[1..] == content;
      assert q.curContent + content[1..] == p.curContent + content;
    }
  }

  /** A record's lines, given what each step does to the reader. */
  lemma RunRecord(p: Parser, idLine: string, timing: string, content: seq<string>, p1: Parser, p2: Parser, r: Parser)
    requires Consistent(p) && Step(p, idLine) == Ok(p1) && Step(p1, timing) == Ok(p2)
    requires Consistent(p2) && Run(p2, content) == Ok(p2.(curContent := p2.curContent + content))
    requires Step(p2.(curContent := p2.curContent + content), "") == Ok(r)
    ensures Run(p, [idLine, timing] + content + [""]) == Ok(r)
  {
    var q := p2.(curContent := p2.curContent + content);
    RunOpenRecord(p, idLine, timing, content, p1, p2);
    RunCons(q, "", [], r);
    ConsNil("");
    RunConcat(p, [idLine, timing] + content, [""]);
  }

  lemma NilAppend<T>(e: seq<T>, x: seq<T>)
    requires e == []
    ensures e + x == x
  {
  }

  lemma ConsNil<T>(x: T)
    ensures [x] + [] == [x]
  {
  }

  /** The lines of one writable record, read from between records, close exactly that record. */
  lemma RecordRoundTrip(bs: seq<SrtBlock>, b: SrtBlock)
    requires Writable(b)
    ensures Run(Idle(bs), RecordLines(b)) == Ok(Idle(bs + [b]))
  {
    var p1 := Parser(ExpectDuration, Some(b.sequenceId), None, None, [], [], bs);
    var p2 := p1.(curStart := Some(b.start), curEnd := Some(b.end), curExtra := b.extra, state := ExpectContentOrEnd);
    NumeralOpensRecord(bs, b.sequenceId);
    TimingStep(p1, b);
    ContentLines(p2, b.content);
    NilAppend(p2.curContent, b.content);
    CloseRecordStep(bs, b, p2.(curContent := p2.curContent + b.content));
    RunRecord(Idle(bs), NatToString(b.sequenceId), TimingLine(b), b.content, p1, p2, Idle(bs + [b]));
  }

  /** The blank line after a record's lines closes exactly that record. */
  lemma CloseRecordStep(bs: seq<SrtBlock>, b: SrtBlock, q: Parser)
    requires q == Parser(ExpectContentOrEnd, Some(b.sequenceId), Some(b.start), Some(b.end), b.extra, b.content, bs)
    ensures Step(q, "") == Ok(Idle(bs + [b]))
  {
    CloseStep(q, "");
    assert SrtBlock(b.sequenceId, b.start, b.end, b.content, b.extra) == b;
  }

  /** Chunks of lines that each close one record, read one after another, close all of them. */
  lemma {:induction false} RunChunks(bs: seq<SrtBlock>, chunks: seq<seq<string>>, rs: seq<SrtBlock>)
    requires |chunks| == |rs|
    requires forall i, bs' :: 0 <= i < |chunks| ==> Run(Idle(bs'), chunks[i]) == Ok(Idle(bs' + [rs[i]]))
    ensures Run(Idle(bs), Concat(chunks)) == Ok(Idle(bs + rs))
    decreases |chunks|
  {
    if chunks == [] {
      assert bs + rs == bs;
    } else {
      var n := |chunks| - 1;
      var init := chunks[..n];
      assert forall i :: 0 <= i < n ==> init[i] == chunks[i];
      RunChunks(bs, init, rs[..n]);
      RunConcat(Idle(bs), Concat(init), chunks[n]);
      assert Run(Idle(bs + rs[..n]), chunks[n]) == Ok(Idle(bs + rs[..n] + [rs[n]]));
      LastSplit(bs, rs);
    }
  }

  lemma LastSplit<T>(a: seq<T>, s: seq<T>)
    requires s != []
    ensures a + s[..|s| - 1] + [s[|s| - 1]] == a + s
  {
    assert s[..|s| - 1] + [s[|s| - 1]] == s;
  }

  /** Reading the text of writable records gives them back, closed in order. */
  lemma DocumentRoundTrip(rs: seq<SrtBlock>)
    requires forall i :: 0 <= i < |rs| ==> Writable(rs[i])
    ensures Run(Idle([]), Document(rs)) == Ok(Idle(rs))
  {
    var chunks := seq(|rs|, i requires 0 <= i < |rs| => RecordLines(rs[i]));
    forall i, bs' | 0 <= i < |chunks|
      ensures Run(Idle(bs'), chunks[i]) == Ok(Idle(bs' + [rs[i]]))
    {
      RecordRoundTrip(bs', rs[i]);
    }
    RunChunks([], chunks, rs);
    assert [] + rs == rs;
  }

  /** `parse` of the text of writable records returns them sorted. */
  lemma ParseRoundTrip(rs: seq<SrtBlock>)
    requires forall i :: 0 <= i < |rs| ==> Writable(rs[i])
    ensures ParseSpec(Document(rs)) == Ok(SortBlocks(rs))
  {
    DocumentRoundTrip(rs);
  }

  /** The lines of a writable record without the closing blank line leave it open. */
  lemma OpenRecord(bs: seq<SrtBlock>, b: SrtBlock)
    requires Writable(b)
    ensures Run(Idle(bs), RecordLines(b)[..|b.content| + 2]).Ok?
    ensures Run(Idle(bs), RecordLines(b)[..|b.content| + 2]).value.blocks == bs
  {
    var p1 := Parser(ExpectDuration, Some(b.sequenceId), None, None, [], [], bs);
    var p2 := p1.(curStart := Some(b.start), curEnd := Some(b.end), curExtra := b.extra, state := ExpectContentOrEnd);
    NumeralOpensRecord(bs, b.sequenceId);
    TimingStep(p1, b);
    ContentLines(p2, b.content);
    RunOpenRecord(Idle(bs), NatToString(b.sequenceId), TimingLine(b), b.content, p1, p2);
    assert RecordLines(b)[..|b.content| + 2] == [NatToString(b.sequenceId), TimingLine(b)] + b.content;
  }

  lemma RunOpenRecord(p: Parser, idLine: string, timing: string, content: seq<string>, p1: Parser, p2: Parser)
    requires Consistent(p) && Step(p, idLine) == Ok(p1) && Step(p1, timing) == Ok(p2)
    requires Consistent(p2) && Run(p2, content) == Ok(p2.(curContent := p2.curContent + content))
    ensures Run(p, [idLine, timing] + content) == Ok(p2.(curContent := p2.curContent + content))
  {
    RunCons(p1, timing, content, p2);
    RunCons(p, idLine, [timing] + content, p1);
    TwoThen(idLine, timing, content);
  }

  lemma TwoThen<T>(x: T, y: T, c: seq<T>)
    ensures [x, y] + c == [x] + ([y] + c)
  {
  }

  /** A last record without its closing blank line is dropped. */
  lemma UnterminatedRecordDropped(rs: seq<SrtBlock>, b: SrtBlock)
    requires forall i :: 0 <= i < |rs| ==> Writable(rs[i])
    requires Writable(b)
    ensures ParseSpec(Document(rs) + RecordLines(b)[..|b.content| + 2]) == Ok(SortBlocks(rs))
  {
    var open := RecordLines(b)[..|b.content| + 2];
    DocumentRoundTrip(rs);
    OpenRecord(rs, b);
    ParseThenOpen(Document(rs), open, rs, Run(Idle(rs), open).value);
  }

  lemma ParseThenOpen(closed: seq<string>, open: seq<string>, rs: seq<SrtBlock>, q: Parser)
    requires Run(Idle([]), closed) == Ok(Idle(rs))
    requires Run(Idle(rs), open) == Ok(q) && q.blocks == rs
    ensures ParseSpec(closed + open) == Ok(SortBlocks(rs))
  {
    RunConcat(Idle([]), closed, open);
  }
}
