// The Advanced SubStation Alpha reader (`ass_parser::parse`): a line-driven
// state machine that tracks the current `[Section]`, remembers the last
// `Format:` line of `[Events]` and turns each `Dialogue:` line into an event.
// `Step` is one iteration of the source's loop as a function and `Run` folds it
// over the lines; the method `Parse` is the loop itself, proved equal to the fold.
module AssParser {
  import opened Wrappers
  import opened Strings
  import opened Times
  import opened IndexMaps
  import opened Ast

  datatype EventFormatKey =
    | Layer | Start | End | Style | Name | MarginL | MarginR | MarginV | Effect | Text
    | Unknown(name: string)

  /** The column names `EventFormatKey::from_str` recognises. */
  const KnownKeys: seq<string> :=
    ["Layer", "Start", "End", "Style", "Name", "MarginL", "MarginR", "MarginV", "Effect", "Text"]

  /** The column name a key stands for. */
  function KeyName(k: EventFormatKey): string {
    match k
    case Layer => "Layer"
    case Start => "Start"
    case End => "End"
    case Style => "Style"
    case Name => "Name"
    case MarginL => "MarginL"
    case MarginR => "MarginR"
    case MarginV => "MarginV"
    case Effect => "Effect"
    case Text => "Text"
    case Unknown(n) => n
  }

  /** `EventFormatKey::from_str`: total, and it keeps the column name it was given. */
  function ParseEventFormatKey(s: string): (k: EventFormatKey)
    ensures KeyName(k) == s
    ensures k.Unknown? <==> s !in KnownKeys
  {
    match s
    case "Layer" => Layer
    case "Start" => Start
    case "End" => End
    case "Style" => EventFormatKey.Style
    case "Name" => Name
    case "MarginL" => MarginL
    case "MarginR" => MarginR
    case "MarginV" => MarginV
    case "Effect" => Effect
    case "Text" => Text
    case _ => Unknown(s)
  }

  /** Every key other than an `Unknown` spelling a known column reads back from its name. */
  lemma KeyNameRoundTrip(k: EventFormatKey)
    requires k.Unknown? ==> k.name !in KnownKeys
    ensures ParseEventFormatKey(KeyName(k)) == k
  {
  }

  /** `Style {}`: the reader never fills it in. */
  datatype Style = Style

  datatype Event = Event(text: seq<string>, start: Time, end: Time, meta: IndexMap<EventFormatKey, string>)

  datatype AssFile = AssFile(scriptInfo: IndexMap<string, string>, styles: seq<Style>, events: seq<Event>)

  /** `From<Event> for zimu_ast::Block`: the times and the text lines; `meta` is dropped. */
  function ToBlock(e: Event): (b: Block)
    ensures b.start == e.start && b.end == e.end && b.content == e.text
  {
    Block(e.start, e.end, e.text)
  }

  /** The reader's `State`. */
  datatype Mode = ExpectSection | Section(name: string)

  /** The loop's variables: the state, the current event format and the events so far. */
  datatype Parser = Parser(mode: Mode, eventFormat: seq<EventFormatKey>, events: seq<Event>)

  const Initial := Parser(ExpectSection, [], [])

  /** The panics of the source, as errors. */
  datatype ParseError =
    | NoFormatLine                                  // a `Dialogue:` line before any `Format:` line
    | MissingField(key: EventFormatKey)             // `meta.remove(..).unwrap()` on an absent column
    | InvalidTime(key: EventFormatKey, text: string) // `parse_from_str(..).unwrap()` on a bad time

  /** The body of an `[Events]` `Format:` line: comma-separated, each name trimmed. */
  function ParseFormatLine(body: string): (keys: seq<EventFormatKey>)
    ensures |keys| == |SplitOn(body, ",")|
    ensures forall i :: 0 <= i < |keys| ==> KeyName(keys[i]) == Trim(SplitOn(body, ",")[i])
  {
    var pieces := SplitOn(body, ",");
    seq(|pieces|, i requires 0 <= i < |pieces| => ParseEventFormatKey(Trim(pieces[i])))
  }

  /** A `Format:` body written as column names joined by `", "` reads back as the keys of
      those names, in order, when no name holds a comma or starts or ends with whitespace. */
  lemma FormatLineOf(names: seq<string>)
    requires |names| >= 1
    requires forall i :: 0 <= i < |names| ==>
      names[i] != [] && ',' !in names[i]
      && !IsWhitespace(names[i][0]) && !IsWhitespace(names[i][|names[i]| - 1])
    ensures |ParseFormatLine(Join(names, ", "))| == |names|
    ensures forall i :: 0 <= i < |names| ==> ParseFormatLine(Join(names, ", "))[i] == ParseEventFormatKey(names[i])
  {
    var pieces := [names[0]] + Spaced(names[1..]);
    JoinCommaSpace(names);
    forall i | 0 <= i < |pieces|
      ensures !Contains(pieces[i], ",") && Trim(pieces[i]) == names[i]
    {
      FormatPiece(names, i);
    }
    SplitOnJoin(pieces, ",");
  }

  /** The `i`-th comma-separated piece of such a line is the name, led by a space after the first. */
  lemma FormatPiece(names: seq<string>, i: nat)
    requires i < |names|
    requires names[i] != [] && ',' !in names[i]
    requires !IsWhitespace(names[i][0]) && !IsWhitespace(names[i][|names[i]| - 1])
    ensures var p := ([names[0]] + Spaced(names[1..]))[i];
      !Contains(p, ",") && Trim(p) == names[i]
  {
    var p := ([names[0]] + Spaced(names[1..]))[i];
    if i == 0 {
      NoCharNoMatch(names[0], ',');
      TrimIdentity(names[0]);
    } else {
      assert p == " " + names[i];
      assert ',' !in p;
      NoCharNoMatch(p, ',');
      TrimSpaced(names[i]);
    }
  }

  /** The columns of a `Dialogue:` body, the first `|format| - 1` cut at commas and the
      last taking the rest, paired with the format's keys. */
  function DialogueColumns(format: seq<EventFormatKey>, body: string): (meta: IndexMap<EventFormatKey, string>)
    requires format != []
    ensures UniqueKeys(meta)
  {
    FromPairs(Zip(format, SplitN(body, |format|, ',')))
  }

  /** `meta.remove(&key).unwrap()`: the column's value and the map without it. */
  function TakeColumn(meta: IndexMap<EventFormatKey, string>, key: EventFormatKey): (r: Result<(IndexMap<EventFormatKey, string>, string), ParseError>)
    requires UniqueKeys(meta)
    ensures r.Ok? <==> key in Keys(meta)
    ensures r.Ok? ==> Get(meta, key) == Some(r.value.1) && UniqueKeys(r.value.0) && key !in Keys(r.value.0)
    ensures r.Ok? ==> forall k :: k != key ==> Get(r.value.0, k) == Get(meta, k)
    ensures r.Err? ==> r.error == MissingField(key)
  {
    var (rest, value) := SwapRemove(meta, key);
    var v :- Require(value, MissingField(key));
    Ok((rest, v))
  }

  /** `NaiveTime::parse_from_str(text, "%H:%M:%S%.f").unwrap()` for column `key`. */
  function ReadTime(key: EventFormatKey, text: string): (r: Result<Time, ParseError>)
    ensures r.Ok? <==> ParseAssTime(text).Some?
    ensures r.Ok? ==> Some(r.value) == ParseAssTime(text)
    ensures r.Err? ==> r.error == InvalidTime(key, text)
  {
    Require(ParseAssTime(text), InvalidTime(key, text))
  }

  /** The event of a `Dialogue:` line from its columns: `Text` is split at `\\N`, `Start`
      and `End` are read as times, each removed from the map in that order, and the
      remaining columns stay in `meta`. */
  function EventOf(columns: IndexMap<EventFormatKey, string>): (r: Result<Event, ParseError>)
    requires UniqueKeys(columns)
    ensures r.Ok? ==> UniqueKeys(r.value.meta)
    ensures r.Ok? ==> forall k :: (Get(r.value.meta, k)
      == if k == Text || k == Start || k == End then None else Get(columns, k))
    ensures r.Err? ==> r.error.MissingField? || r.error.InvalidTime?
    ensures Get(columns, Text).None? ==> r == Err(MissingField(Text))
    ensures Get(columns, Text).Some? && Get(columns, Start).None? ==> r == Err(MissingField(Start))
    ensures Get(columns, Text).Some? && Get(columns, Start).Some?
      && ParseAssTime(Get(columns, Start).value).None?
      ==> r == Err(InvalidTime(Start, Get(columns, Start).value))
    ensures Get(columns, Text).Some? && Get(columns, Start).Some?
      && ParseAssTime(Get(columns, Start).value).Some? && Get(columns, End).None?
      ==> r == Err(MissingField(End))
    ensures Get(columns, Text).Some? && Get(columns, Start).Some? && Get(columns, End).Some?
      && ParseAssTime(Get(columns, Start).value).Some? && ParseAssTime(Get(columns, End).value).None?
      ==> r == Err(InvalidTime(End, Get(columns, End).value))
  {
    var (meta1, text) :- TakeColumn(columns, Text);
    var (meta2, start) :- TakeColumn(meta1, Start);
    var startTime :- ReadTime(Start, start);
    var (meta3, end) :- TakeColumn(meta2, End);
    var endTime :- ReadTime(End, end);
    Ok(Event(SplitOn(text, "\\N"), startTime, endTime, meta3))
  }

  /** One `Dialogue:` body under the current format. */
  function ParseDialogue(format: seq<EventFormatKey>, body: string): (r: Result<Event, ParseError>)
    ensures format == [] <==> r == Err(NoFormatLine)
  {
    if format == [] then Err(NoFormatLine) else EventOf(DialogueColumns(format, body))
  }

  predicate IsSectionHeader(line: string) {
    StartsWith(line, "[") && EndsWith(line, "]")
  }

  /** A non-blank line inside `[Events]`: a `Format:` line replaces the format, a
      `Dialogue:` line adds one event at the end, anything else is skipped. */
  function EventsLine(p: Parser, line: string): (r: Result<Parser, ParseError>)
    ensures r.Err? ==> StartsWith(line, "Dialogue: ")
    ensures r.Ok? ==> r.value.mode == p.mode
    ensures r.Ok? && StartsWith(line, "Dialogue: ") ==>
      r.value.eventFormat == p.eventFormat
      && |r.value.events| == |p.events| + 1 && r.value.events[..|p.events|] == p.events
    ensures r.Ok? && !StartsWith(line, "Dialogue: ") ==> r.value.events == p.events
  {
    if StartsWith(line, "Format: ") then
      assert line[0] == 'F';
      Ok(p.(eventFormat := ParseFormatLine(TrimStartMatches(line, "Format: "))))
    else if StartsWith(line, "Dialogue: ") then
      var e :- ParseDialogue(p.eventFormat, TrimStartMatches(line, "Dialogue: "));
      assert (p.events + [e])[..|p.events|] == p.events;
      Ok(p.(events := p.events + [e]))
    else Ok(p)
  }

  /** One iteration of the reader's loop on a raw line: the events so far are never
      dropped or reordered. */
  function Step(p: Parser, raw: string): (r: Result<Parser, ParseError>)
    ensures r.Ok? ==> |p.events| <= |r.value.events| && r.value.events[..|p.events|] == p.events
  {
    LineStep(p, Trim(raw))
  }

  /** A trimmed line, by the state the reader is in. */
  function LineStep(p: Parser, line: string): (r: Result<Parser, ParseError>)
    ensures r.Ok? ==> |p.events| <= |r.value.events| && r.value.events[..|p.events|] == p.events
  {
    assert p.events[..|p.events|] == p.events;
    // `line.trim() == ""`: the line is blank.
    if AllWhitespace(line) then Ok(p.(mode := ExpectSection))
    else match p.mode
      case ExpectSection =>
        if IsSectionHeader(line) then Ok(p.(mode := Section(TrimBrackets(line)))) else Ok(p)
      case Section(s) =>
        if EndsWith(s, "Styles") then Ok(p)
        else if s == "Events" then EventsLine(p, line)
        else Ok(p)
  }

  /** The loop over all lines from a given state; the first error stops it. */
  function Run(p: Parser, lines: seq<string>): Result<Parser, ParseError>
    decreases |lines|
  {
    if lines == [] then Ok(p)
    else
      var q :- Step(p, lines[0]);
      Run(q, lines[1..])
  }

  /** What `parse` returns: the events in file order; script info and styles stay empty. */
  function ParseSpec(lines: seq<string>): Result<AssFile, ParseError> {
    var p :- Run(Initial, lines);
    Ok(AssFile([], [], p.events))
  }

  /** `parse`, over the input already split into lines. */
  method Parse(lines: seq<string>) returns (r: Result<AssFile, ParseError>)
    ensures r == ParseSpec(lines)
  {
    var mode := ExpectSection;
    var eventFormat: seq<EventFormatKey> := [];
    var events: seq<Event> := [];
    var i := 0;
    while i < |lines|
      invariant 0 <= i <= |lines|
      invariant Run(Initial, lines) == Run(Parser(mode, eventFormat, events), lines[i..])
    {
      ghost var before := Parser(mode, eventFormat, events);
      assert lines[i..][0] == lines[i] && lines[i..][1..] == lines[i + 1..];
      var line := Trim(lines[i]);
      if Trim(line) == "" {
        mode := ExpectSection;
      } else {
        match mode
        case ExpectSection =>
          if StartsWith(line, "[") && EndsWith(line, "]") {
            mode := Section(TrimBrackets(line));
          }
        case Section(s) =>
          if EndsWith(s, "Styles") {
          } else if s == "Events" {
            if StartsWith(line, "Format: ") {
              eventFormat := ParseFormatLine(TrimStartMatches(line, "Format: "));
            } else if StartsWith(line, "Dialogue: ") {
              var event := ParseDialogue(eventFormat, TrimStartMatches(line, "Dialogue: "));
              if event.Err? {
                return Err(event.error);
              }
              events := events + [event.value];
            }
          }
      }
      assert Step(before, lines[i]) == Ok(Parser(mode, eventFormat, events));
      i := i + 1;
    }
    return Ok(AssFile([], [], events));
  }

  /** A blank (or all-whitespace) line ends the current section, whatever the state. */
  lemma BlankLineEndsSection(p: Parser, raw: string)
    requires AllWhitespace(raw)
    ensures Step(p, raw) == Ok(p.(mode := ExpectSection))
  {
  }

  /** A line whose trim is not empty passes the blank-line test. */
  lemma NotBlank(raw: string)
    requires Trim(raw) != []
    ensures Trim(Trim(raw)) != []
  {
    var line := Trim(raw);
    assert !IsWhitespace(line[0]);
  }

  /** A line whose trim starts with `Dialogue: ` is neither blank nor a `Format:` line. */
  lemma DialogueLineShape(raw: string)
    requires StartsWith(Trim(raw), "Dialogue: ")
    ensures Trim(Trim(raw)) != [] && !StartsWith(Trim(raw), "Format: ")
  {
    var line := Trim(raw);
    StartsWithHead(line, "Dialogue: ");
    NotBlank(raw);
    if StartsWith(line, "Format: ") {
      StartsWithHead(line, "Format: ");
    }
  }

  /** Between sections only a bracketed line does anything: it opens the section named by
      its text without the brackets; the format and the events are untouched. */
  lemma OutsideSections(p: Parser, raw: string)
    requires p.mode == ExpectSection && !AllWhitespace(raw)
    ensures Step(p, raw).Ok?
    ensures var q := Step(p, raw).value;
      q.eventFormat == p.eventFormat && q.events == p.events
      && (q.mode == ExpectSection <==> !IsSectionHeader(Trim(raw)))
      && (q.mode.Section? ==> q.mode.name == TrimBrackets(Trim(raw)))
  {
    NotBlank(raw);
  }

  /** Inside a section whose name ends in `Styles`, every non-blank line is skipped. */
  lemma StylesSectionSkipped(p: Parser, raw: string)
    requires p.mode.Section? && EndsWith(p.mode.name, "Styles") && !AllWhitespace(raw)
    ensures Step(p, raw) == Ok(p)
  {
    NotBlank(raw);
  }

  /** Inside any other section every non-blank line is skipped. */
  lemma OtherSectionSkipped(p: Parser, raw: string)
    requires p.mode.Section? && !EndsWith(p.mode.name, "Styles") && p.mode.name != "Events"
    requires !AllWhitespace(raw)
    ensures Step(p, raw) == Ok(p)
  {
    NotBlank(raw);
  }

  /** Inside `[Events]` a line that is not blank goes, trimmed, to the events logic. */
  lemma EventsSectionLine(p: Parser, raw: string)
    requires p.mode == Section("Events") && !AllWhitespace(Trim(raw))
    ensures Step(p, raw) == EventsLine(p, Trim(raw))
  {
    EventsIsNotStyles();
  }

  lemma EventsIsNotStyles()
    ensures !EndsWith("Events", "Styles")
  {
    assert "Events"[0] != "Styles"[0];
  }

  /** Inside `[Events]` a `Format: ` line replaces the format by the keys its body names. */
  lemma FormatLineRead(p: Parser, body: string)
    requires p.mode == Section("Events")
    requires body != [] && body[0] != 'F' && !IsWhitespace(body[|body| - 1])
    ensures Step(p, "Format: " + body) == Ok(p.(eventFormat := ParseFormatLine(body)))
  {
    var line := "Format: " + body;
    PrefixedLine("Format: ", body);
    assert !IsWhitespace(line[0]);
    EventsSectionLine(p, line);
  }

  /** Inside `[Events]` a `Dialogue: ` line adds the event its body reads as under the
      current format, or stops the reader with the body's error. */
  lemma DialogueLineRead(p: Parser, body: string)
    requires p.mode == Section("Events")
    requires body != [] && body[0] != 'D' && !IsWhitespace(body[|body| - 1])
    ensures Step(p, "Dialogue: " + body) == match ParseDialogue(p.eventFormat, body)
      case Ok(e) => Ok(p.(events := p.events + [e]))
      case Err(err) => Err(err)
  {
    var line := "Dialogue: " + body;
    PrefixedLine("Dialogue: ", body);
    assert !IsWhitespace(line[0]);
    EventsSectionLine(p, line);
    if StartsWith(line, "Format: ") {
      StartsWithHead(line, "Format: ");
    }
    DialogueEventsLine(p, line);
  }

  /** The events logic on a `Dialogue: ` line. */
  lemma DialogueEventsLine(p: Parser, line: string)
    requires StartsWith(line, "Dialogue: ") && !StartsWith(line, "Format: ")
    ensures EventsLine(p, line) == match ParseDialogue(p.eventFormat, TrimStartMatches(line, "Dialogue: "))
      case Ok(e) => Ok(p.(events := p.events + [e]))
      case Err(err) => Err(err)
  {
  }

  /** A `Dialogue:` line in `[Events]` before any `Format:` line is an error. */
  lemma DialogueBeforeFormat(p: Parser, raw: string)
    requires p.mode == Section("Events") && p.eventFormat == []
    requires StartsWith(Trim(raw), "Dialogue: ")
    ensures Step(p, raw) == Err(NoFormatLine)
  {
    DialogueLineShape(raw);
    assert !EndsWith("Events", "Styles");
    assert Step(p, raw) == EventsLine(p, Trim(raw));
  }

  /** A `Dialogue:` line met inside `[Events]`. */
  predicate IsEventLine(p: Parser, raw: string) {
    p.mode == Section("Events") && StartsWith(Trim(raw), "Dialogue: ")
  }

  /** Every line but a `Dialogue:` line inside `[Events]` is accepted and leaves the
      events as they were. */
  lemma StepKeepsEvents(p: Parser, raw: string)
    requires !IsEventLine(p, raw)
    ensures Step(p, raw).Ok? && Step(p, raw).value.events == p.events
  {
    if p.mode == Section("Events") && !AllWhitespace(Trim(raw)) {
      EventsSectionLine(p, raw);
    }
  }

  /** A `Dialogue:` line inside `[Events]` either fails or adds exactly one event at the end. */
  lemma StepAddsEvent(p: Parser, raw: string)
    requires IsEventLine(p, raw) && Step(p, raw).Ok?
    ensures var q := Step(p, raw).value;
      |q.events| == |p.events| + 1 && q.events[..|p.events|] == p.events
  {
    DialogueLineShape(raw);
    assert !EndsWith("Events", "Styles");
    assert Step(p, raw) == EventsLine(p, Trim(raw));
  }

  /** The reader never drops or reorders an event it has produced. */
  lemma {:induction false} RunKeepsEvents(p: Parser, lines: seq<string>)
    requires Run(p, lines).Ok?
    ensures var q := Run(p, lines).value;
      |p.events| <= |q.events| && q.events[..|p.events|] == p.events
    decreases |lines|
  {
    if lines != [] {
      var q := Step(p, lines[0]).value;
      RunKeepsEvents(q, lines[1..]);
      var r := Run(q, lines[1..]).value;
      assert r.events[..|p.events|] == r.events[..|q.events|][..|p.events|];
    }
  }

  /** Reading two chunks of lines one after the other is reading them together. */
  lemma {:induction false} RunConcat(p: Parser, a: seq<string>, b: seq<string>)
    ensures Run(p, a + b) == match Run(p, a) case Err(e) => Err(e) case Ok(q) => Run(q, b)
    decreases |a|
  {
    if a == [] {
      assert a + b == b;
    } else {
      assert (a + b)[0] == a[0] && (a + b)[1..] == a[1..] + b;
      if Step(p, a[0]).Ok? {
        RunConcat(Step(p, a[0]).value, a[1..], b);
      }
    }
  }

  /** The event of a `Dialogue:` line whose columns, joined with commas, line up with the
      format: every column is found under its key, the text comes back split at `\\N`
      (joining the lines again gives the column), and the times are the columns read as
      times. A comma inside the last column survives. */
  lemma DialogueOfColumns(format: seq<EventFormatKey>, fields: seq<string>)
    requires |format| == |fields| >= 1 && UniqueKeys(Zip(format, fields))
    requires forall i :: 0 <= i < |fields| - 1 ==> ',' !in fields[i]
    ensures var columns := DialogueColumns(format, Join(fields, ","));
      columns == Zip(format, fields)
      && forall i :: 0 <= i < |format| ==> Get(columns, format[i]) == Some(fields[i])
  {
    var body := Join(fields, ",");
    SplitNJoin(fields, ',');
    assert SplitN(body, |format|, ',') == fields;
    FromDistinctPairs(Zip(format, fields));
    forall i | 0 <= i < |format|
      ensures Get(Zip(format, fields), format[i]) == Some(fields[i])
    {
      GetUnique(Zip(format, fields), i);
    }
  }

  /** When the format holds `Text`, `Start` and `End`, a `Dialogue:` line is read exactly
      when both times are valid, and then its text lines join back to the `Text` column. */
  lemma DialogueOfFields(format: seq<EventFormatKey>, fields: seq<string>, text: nat, start: nat, end: nat)
    requires |format| == |fields| >= 1 && UniqueKeys(Zip(format, fields))
    requires forall i :: 0 <= i < |fields| - 1 ==> ',' !in fields[i]
    requires text < |format| && start < |format| && end < |format|
    requires format[text] == Text && format[start] == Start && format[end] == End
    ensures var r := ParseDialogue(format, Join(fields, ","));
      (r.Ok? <==> ParseAssTime(fields[start]).Some? && ParseAssTime(fields[end]).Some?)
      && (r.Ok? ==>
        r.value.text == SplitOn(fields[text], "\\N")
        && Join(r.value.text, "\\N") == fields[text]
        && Some(r.value.start) == ParseAssTime(fields[start])
        && Some(r.value.end) == ParseAssTime(fields[end]))
  {
    DialogueOfColumns(format, fields);
    EventOfColumns(Zip(format, fields), fields[text], fields[start], fields[end]);
    JoinSplitOn(fields[text], "\\N");
  }

  /** The event built from columns holding `Text`, `Start` and `End`. */
  lemma EventOfColumns(columns: IndexMap<EventFormatKey, string>, text: string, start: string, end: string)
    requires UniqueKeys(columns)
    requires Get(columns, Text) == Some(text) && Get(columns, Start) == Some(start) && Get(columns, End) == Some(end)
    ensures var r := EventOf(columns);
      (r.Ok? <==> ParseAssTime(start).Some? && ParseAssTime(end).Some?)
      && (r.Ok? ==>
        r.value.text == SplitOn(text, "\\N")
        && Some(r.value.start) == ParseAssTime(start) && Some(r.value.end) == ParseAssTime(end))
  {
    var t1 := TakeColumn(columns, Text);
    assert t1.Ok? && t1.value.1 == text;
    var t2 := TakeColumn(t1.value.0, Start);
    assert t2.Ok? && t2.value.1 == start;
    var t3 := TakeColumn(t2.value.0, End);
    assert Get(t2.value.0, End) == Get(t1.value.0, End);
    assert t3.Ok? && t3.value.1 == end;
    var startTime, endTime := ReadTime(Start, start), ReadTime(End, end);
    if startTime.Ok? && endTime.Ok? {
      assert EventOf(columns) == Ok(Event(SplitOn(text, "\\N"), startTime.value, endTime.value, t3.value.0));
    } else {
      assert EventOf(columns).Err?;
    }
  }
}
