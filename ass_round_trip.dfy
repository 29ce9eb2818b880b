// Reading back what the merger writes: the lines of the script `generate_ass`
// produces, read by the ASS reader, give back every block of every track, in
// key order, with its times cut down to the hundredth of a second. The style
// section is skipped by the reader, so only the events carry information.
module AssRoundTrip {
  import opened Wrappers
  import opened Decimal
  import opened Strings
  import opened Times
  import opened IndexMaps
  import opened Ast
  import AssParser
  import Zimu

  /** The keys of the `[Events]` format line the merger writes, in order. */
  const EventKeys: seq<AssParser.EventFormatKey> := [
    AssParser.Layer, AssParser.Start, AssParser.End, AssParser.EventFormatKey.Style,
    AssParser.Name, AssParser.MarginL, AssParser.MarginR, AssParser.MarginV,
    AssParser.Effect, AssParser.Text]

  /** A block whose text survives the trip: at least one line, no line holding the `\N`
      line break or a newline, and a joined text that ends in a visible character (the
      reader trims every line it reads). */
  predicate WritableText(content: seq<string>) {
    |content| >= 1
    && (forall i :: 0 <= i < |content| ==> !Contains(content[i], "\\N") && '\n' !in content[i])
    && var t := Join(content, "\\N"); t != [] && !IsWhitespace(t[|t| - 1])
  }

  /** A track under a language without commas or newlines, every block with writable
      text. */
  predicate WritableTrack(lang: string, blocks: seq<Block>) {
    ',' !in lang && '\n' !in lang && forall i :: 0 <= i < |blocks| ==> WritableText(blocks[i].content)
  }

  predicate Writable(inputs: IndexMap<string, seq<Block>>) {
    forall k :: 0 <= k < |inputs| ==> WritableTrack(inputs[k].0, inputs[k].1)
  }

  /** A block as it is read back: times to the hundredth of a second, text unchanged. */
  function Truncated(b: Block): Block {
    Block(TruncateToHundredths(b.start), TruncateToHundredths(b.end), b.content)
  }

  function TruncatedTrack(bs: seq<Block>): (r: seq<Block>)
    ensures |r| == |bs|
  {
    seq(|bs|, i requires 0 <= i < |bs| => Truncated(bs[i]))
  }

  /** All blocks of all tracks in key order, as they are read back. */
  function ExpectedBlocks(inputs: IndexMap<string, seq<Block>>): seq<Block>
    decreases |inputs|
  {
    if inputs == [] then []
    else ExpectedBlocks(inputs[..|inputs| - 1]) + TruncatedTrack(inputs[|inputs| - 1].1)
  }

  /** The `Layer` and `Style` columns an event keeps in `meta`. */
  function LayerStyle(e: AssParser.Event): (Option<string>, Option<string>) {
    (Get(e.meta, AssParser.Layer), Get(e.meta, AssParser.EventFormatKey.Style))
  }

  function LayerStyles(events: seq<AssParser.Event>): (r: seq<(Option<string>, Option<string>)>)
    ensures |r| == |events|
  {
    seq(|events|, i requires 0 <= i < |events| => LayerStyle(events[i]))
  }

  /** What a track's `count` dialogues carry: the track's index as the layer and its
      language as the style. */
  function TrackTags(layer: nat, lang: string, count: nat): (r: seq<(Option<string>, Option<string>)>)
    ensures |r| == count
  {
    seq(count, _ => (Some(NatToString(layer)), Some(lang)))
  }

  /** The layers and styles of all tracks in key order, the `n`-th on layer `n`. */
  function ExpectedTags(inputs: IndexMap<string, seq<Block>>): seq<(Option<string>, Option<string>)>
    decreases |inputs|
  {
    if inputs == [] then []
    else
      var n := |inputs| - 1;
      ExpectedTags(inputs[..n]) + TrackTags(n, inputs[n].0, |inputs[n].1|)
  }

  /** The reader inside `[Events]` with the merger's format line read. */
  predicate Reading(p: AssParser.Parser) {
    p.mode == AssParser.Section("Events") && p.eventFormat == EventKeys
  }

  // ---------------------------------------------------------------------------
  // Small facts about the text the merger writes.

  /** A time as the merger writes it holds digits, colons and a dot only. */
  lemma FormatHundredthsWithout(t: Time, c: char)
    requires !IsDigit(c) && c != ':' && c != '.'
    ensures c !in FormatHundredths(t)
  {
    DigitsWithout(NatToString(Hour(t)), c);
    DigitsWithout(Pad2(Minute(t)), c);
    DigitsWithout(Pad2(Second(t)), c);
    DigitsWithout(Pad2(Nanosecond(t) / 10_000_000), c);
  }

  /** Sequence concatenation, stated on its own so that it is used without looking into
      the lines themselves. */
  lemma RunCons(p: AssParser.Parser, line: string, rest: seq<string>, q: AssParser.Parser)
    requires AssParser.Step(p, line) == Ok(q)
    ensures AssParser.Run(p, [line] + rest) == AssParser.Run(q, rest)
  {
    assert ([line] + rest)[0] == line && ([line] + rest)[1..] == rest;
  }

  lemma RunOne(p: AssParser.Parser, line: string, q: AssParser.Parser)
    requires AssParser.Step(p, line) == Ok(q)
    ensures AssParser.Run(p, [line]) == Ok(q)
  {
    RunCons(p, line, [], q);
    assert [line] + [] == [line];
  }

  lemma RunTwo(p: AssParser.Parser, a: string, b: string, q1: AssParser.Parser, q2: AssParser.Parser)
    requires AssParser.Step(p, a) == Ok(q1) && AssParser.Step(q1, b) == Ok(q2)
    ensures AssParser.Run(p, [a, b]) == Ok(q2)
  {
    RunOne(q1, b, q2);
    RunCons(p, a, [b], q1);
    assert [a] + [b] == [a, b];
  }

  lemma RunThree(p: AssParser.Parser, a: string, b: string, c: string,
                 q1: AssParser.Parser, q2: AssParser.Parser, q3: AssParser.Parser)
    requires AssParser.Step(p, a) == Ok(q1) && AssParser.Step(q1, b) == Ok(q2)
    requires AssParser.Step(q2, c) == Ok(q3)
    ensures AssParser.Run(p, [a, b, c]) == Ok(q3)
  {
    RunTwo(q1, b, c, q2, q3);
    RunCons(p, a, [b, c], q1);
    assert [a] + [b, c] == [a, b, c];
  }

  lemma RunSnoc(p: AssParser.Parser, a: seq<string>, q: AssParser.Parser, line: string, r: AssParser.Parser)
    requires AssParser.Run(p, a) == Ok(q) && AssParser.Step(q, line) == Ok(r)
    ensures AssParser.Run(p, a + [line]) == Ok(r)
  {
    RunOne(q, line, r);
    RunThen(p, a, q, [line]);
  }

  lemma PairSnoc<T>(x: T, y: T, z: T)
    ensures [x, y] + [z] == [x, y, z]
  {
  }

  lemma RunThen(p: AssParser.Parser, a: seq<string>, q: AssParser.Parser, b: seq<string>)
    requires AssParser.Run(p, a) == Ok(q)
    ensures AssParser.Run(p, a + b) == AssParser.Run(q, b)
  {
    AssParser.RunConcat(p, a, b);
  }

  // ---------------------------------------------------------------------------
  // The header.

  /** How the section names the merger writes compare with the names the reader looks for. */
  lemma SectionNames()
    ensures EndsWith("V4+ Styles", "Styles") && !EndsWith("Script Info", "Styles")
    ensures "Script Info" != "Events" && !EndsWith("Events", "Styles")
  {
    assert "V4+ Styles"[4..] == "Styles";
    assert "Script Info"[5] != "Styles"[0];
    assert "Events"[0] != "Styles"[0];
  }

  /** A bracketed line between sections opens the section it names. */
  lemma OpensSection(p: AssParser.Parser, name: string)
    requires p.mode == AssParser.ExpectSection
    requires name != [] && !IsWhitespace(name[0]) && !IsBracket(name[0])
    requires !IsWhitespace(name[|name| - 1]) && !IsBracket(name[|name| - 1])
    ensures AssParser.Step(p, "[" + name + "]") == Ok(p.(mode := AssParser.Section(name)))
  {
    Bracketed(name);
    AssParser.OutsideSections(p, "[" + name + "]");
  }

  /** The merger's script header: the `[Script Info]` line, the script type, a blank
      line, the `[V4+ Styles]` line and the styles' format line, none of them blank but
      the third. */
  lemma ScriptHeaderShape()
    ensures Zimu.ScriptHeader
      == ["[" + "Script Info" + "]", "ScriptType: v4.00+", "", "[" + "V4+ Styles" + "]", Zimu.StylesFormat]
    ensures !AllWhitespace("ScriptType: v4.00+") && !AllWhitespace(Zimu.StylesFormat)
  {
    assert "[Script Info]" == "[" + "Script Info" + "]";
    assert "[V4+ Styles]" == "[" + "V4+ Styles" + "]";
    ScriptTypeVisible();
    StylesFormatVisible();
  }

  lemma ScriptTypeVisible()
    ensures !AllWhitespace("ScriptType: v4.00+")
  {
    VisibleLine("ScriptType: v4.00+");
  }

  lemma StylesFormatVisible()
    ensures !AllWhitespace(Zimu.StylesFormat)
  {
    VisibleLine(Zimu.StylesFormat);
  }

  lemma VisibleLine(s: string)
    requires s != [] && !IsWhitespace(s[0])
    ensures !AllWhitespace(s)
  {
  }

  /** `[Script Info]` with one setting, closed by a blank line, leaves the reader between
      sections with nothing read. */
  lemma InfoRun(info: string)
    requires !AllWhitespace(info)
    ensures AssParser.Run(AssParser.Initial, ["[" + "Script Info" + "]", info, ""]) == Ok(AssParser.Initial)
  {
    var p0 := AssParser.Initial;
    var p1 := p0.(mode := AssParser.Section("Script Info"));
    OpensSection(p0, "Script Info");
    SectionNames();
    AssParser.OtherSectionSkipped(p1, info);
    AssParser.BlankLineEndsSection(p1, "");
    RunThree(p0, "[" + "Script Info" + "]", info, "", p1, p1, p0);
  }

  /** `[V4+ Styles]` and its format line open the styles section. */
  lemma StylesOpenRun(format: string)
    requires !AllWhitespace(format)
    ensures AssParser.Run(AssParser.Initial, ["[" + "V4+ Styles" + "]", format])
      == Ok(AssParser.Parser(AssParser.Section("V4+ Styles"), [], []))
  {
    var p0 := AssParser.Initial;
    var p1 := p0.(mode := AssParser.Section("V4+ Styles"));
    OpensSection(p0, "V4+ Styles");
    SectionNames();
    AssParser.StylesSectionSkipped(p1, format);
    RunTwo(p0, "[" + "V4+ Styles" + "]", format, p1, p1);
  }

  lemma ScriptHeaderRun()
    ensures AssParser.Run(AssParser.Initial, Zimu.ScriptHeader)
      == Ok(AssParser.Parser(AssParser.Section("V4+ Styles"), [], []))
  {
    ScriptHeaderShape();
    InfoRun("ScriptType: v4.00+");
    StylesOpenRun(Zimu.StylesFormat);
    RunThreeThenTwo("[" + "Script Info" + "]", "ScriptType: v4.00+", "", "[" + "V4+ Styles" + "]", Zimu.StylesFormat,
      AssParser.Parser(AssParser.Section("V4+ Styles"), [], []));
  }

  lemma RunThreeThenTwo(a: string, b: string, c: string, d: string, e: string, q: AssParser.Parser)
    requires AssParser.Run(AssParser.Initial, [a, b, c]) == Ok(AssParser.Initial)
    requires AssParser.Run(AssParser.Initial, [d, e]) == Ok(q)
    ensures AssParser.Run(AssParser.Initial, [a, b, c, d, e]) == Ok(q)
  {
    RunThen(AssParser.Initial, [a, b, c], AssParser.Initial, [d, e]);
    ThreeThenTwo(a, b, c, d, e);
  }

  lemma ThreeThenTwo<T>(a: T, b: T, c: T, d: T, e: T)
    ensures [a, b, c] + [d, e] == [a, b, c, d, e]
  {
  }

  /** Inside a styles section every non-blank line is skipped. */
  lemma {:induction false} StylesRun(p: AssParser.Parser, lines: seq<string>)
    requires p.mode.Section? && EndsWith(p.mode.name, "Styles")
    requires forall i :: 0 <= i < |lines| ==> !AllWhitespace(lines[i])
    ensures AssParser.Run(p, lines) == Ok(p)
    decreases |lines|
  {
    if lines != [] {
      AssParser.StylesSectionSkipped(p, lines[0]);
      StylesRun(p, lines[1..]);
      RunCons(p, lines[0], lines[1..], p);
      assert [lines[0]] + lines[1..] == lines;
    }
  }

  lemma StyleLinesNotBlank(langs: seq<string>)
    ensures var ls := Zimu.StyleLines(langs); forall i :: 0 <= i < |ls| ==> !AllWhitespace(ls[i])
  {
    var ls := Zimu.StyleLines(langs);
    forall i | 0 <= i < |ls|
      ensures !AllWhitespace(ls[i])
    {
      assert ls[i] == Zimu.StyleLine(i, langs[i]);
      assert ls[i][0] == 'S';
    }
  }

  /** The merger's `[Events]` column names are the names of the ten known keys. */
  lemma EventColumnsAreKeyNames()
    ensures |Zimu.EventColumns| == |EventKeys|
    ensures forall i :: 0 <= i < |EventKeys| ==>
      Zimu.EventColumns[i] == AssParser.KeyName(EventKeys[i]) && !EventKeys[i].Unknown?
  {
  }

  /** No column name is empty, holds a comma or starts or ends with whitespace. */
  lemma EventColumnsPlain()
    ensures var names := Zimu.EventColumns;
      forall i :: 0 <= i < |names| ==>
        names[i] != [] && ',' !in names[i]
        && !IsWhitespace(names[i][0]) && !IsWhitespace(names[i][|names[i]| - 1])
  {
  }

  /** The merger's `[Events]` column names read back as the ten known keys. */
  lemma EventsFormat()
    ensures AssParser.ParseFormatLine(Join(Zimu.EventColumns, ", ")) == EventKeys
  {
    var names := Zimu.EventColumns;
    EventColumnsPlain();
    AssParser.FormatLineOf(names);
    EventColumnsAreKeyNames();
    forall i | 0 <= i < |names|
      ensures AssParser.ParseEventFormatKey(names[i]) == EventKeys[i]
    {
      AssParser.KeyNameRoundTrip(EventKeys[i]);
    }
  }

  /** The merger's `[Events]` header: a blank line, the section line and a format line
      whose body names the ten known columns. */
  lemma EventsHeaderShape()
    ensures var body := Join(Zimu.EventColumns, ", ");
      Zimu.EventsHeader == ["", "[" + "Events" + "]", "Format: " + body]
      && body != [] && body[0] == 'L' && !IsWhitespace(body[|body| - 1])
  {
    assert "[Events]" == "[" + "Events" + "]";
    JoinLast(Zimu.EventColumns, ", ");
  }

  /** A blank line and `[Events]` open the events section. */
  lemma EventsOpenRun(p: AssParser.Parser)
    ensures AssParser.Run(p, ["", "[" + "Events" + "]"]) == Ok(p.(mode := AssParser.Section("Events")))
  {
    var name := "Events";
    assert name[0] == 'E' && name[|name| - 1] == 's';
    BlankThenSection(p, "", name);
  }

  /** A blank line, then a bracketed name, opens the section of that name. */
  lemma BlankThenSection(p: AssParser.Parser, blank: string, name: string)
    requires AllWhitespace(blank)
    requires name != [] && !IsWhitespace(name[0]) && !IsBracket(name[0])
    requires !IsWhitespace(name[|name| - 1]) && !IsBracket(name[|name| - 1])
    ensures AssParser.Run(p, [blank, "[" + name + "]"]) == Ok(p.(mode := AssParser.Section(name)))
  {
    var p1 := p.(mode := AssParser.ExpectSection);
    AssParser.BlankLineEndsSection(p, blank);
    OpensSection(p1, name);
    RunTwo(p, blank, "[" + name + "]", p1, p.(mode := AssParser.Section(name)));
  }

  lemma EventsHeaderRun(p: AssParser.Parser, body: string)
    requires body != [] && body[0] == 'L' && !IsWhitespace(body[|body| - 1])
    requires AssParser.ParseFormatLine(body) == EventKeys
    ensures AssParser.Run(p, ["", "[" + "Events" + "]", "Format: " + body])
      == Ok(AssParser.Parser(AssParser.Section("Events"), EventKeys, p.events))
  {
    var open := ["", "[" + "Events" + "]"];
    var p2 := p.(mode := AssParser.Section("Events"));
    EventsOpenRun(p);
    AssParser.FormatLineRead(p2, body);
    RunSnoc(p, open, p2, "Format: " + body, p2.(eventFormat := EventKeys));
    PairSnoc("", "[" + "Events" + "]", "Format: " + body);
  }

  /** Everything before the first dialogue line leaves the reader inside `[Events]` with
      the merger's format and no event. */
  lemma HeaderRun(langs: seq<string>)
    ensures AssParser.Run(AssParser.Initial, Zimu.ScriptHeader + Zimu.StyleLines(langs) + Zimu.EventsHeader)
      == Ok(AssParser.Parser(AssParser.Section("Events"), EventKeys, []))
  {
    var styles := AssParser.Parser(AssParser.Section("V4+ Styles"), [], []);
    ScriptHeaderRun();
    StyleLinesNotBlank(langs);
    SectionNames();
    StylesRun(styles, Zimu.StyleLines(langs));
    EventsHeaderShape();
    EventsFormat();
    EventsHeaderRun(styles, Join(Zimu.EventColumns, ", "));
    RunThen(styles, Zimu.StyleLines(langs), styles, Zimu.EventsHeader);
    RunThen(AssParser.Initial, Zimu.ScriptHeader, styles, Zimu.StyleLines(langs) + Zimu.EventsHeader);
    Zimu.AppendAssoc(Zimu.ScriptHeader, Zimu.StyleLines(langs), Zimu.EventsHeader, Zimu.StyleLines(langs) + Zimu.EventsHeader);
  }

  // ---------------------------------------------------------------------------
  // The dialogue lines.

  /** The columns of a dialogue line hold no comma but the last. */
  lemma DialogueColumnsHaveNoComma(layer: nat, lang: string, b: Block)
    requires ',' !in lang
    ensures var fs := Zimu.DialogueFields(layer, lang, b);
      forall i :: 0 <= i < |fs| - 1 ==> ',' !in fs[i]
  {
    DigitsWithout(NatToString(layer), ',');
    FormatHundredthsWithout(b.start, ',');
    FormatHundredthsWithout(b.end, ',');
    DialogueFieldsAt(layer, lang, b);
  }

  /** The columns of a dialogue line that carry the block and the language. */
  lemma DialogueFieldsAt(layer: nat, lang: string, b: Block)
    ensures var fs := Zimu.DialogueFields(layer, lang, b);
      fs[0] == NatToString(layer) && fs[1] == FormatHundredths(b.start) && fs[2] == FormatHundredths(b.end)
      && fs[3] == lang && fs[9] == Join(b.content, "\\N")
      && fs[4] == fs[8] == "" && fs[5] == fs[6] == fs[7] == "0"
  {
  }

  /** Where the merger's format puts the columns the reader takes out. */
  lemma EventKeysAt()
    ensures |EventKeys| == 10
    ensures EventKeys[9] == AssParser.Text && EventKeys[1] == AssParser.Start && EventKeys[2] == AssParser.End
    ensures EventKeys[0] == AssParser.Layer && EventKeys[3] == AssParser.EventFormatKey.Style
  {
  }

  lemma EventKeysDistinct(fields: seq<string>)
    requires |fields| == |EventKeys|
    ensures UniqueKeys(Zip(EventKeys, fields))
  {
  }

  /** The text lines of a block, joined with `\N` and split again. */
  lemma TextRoundTrip(content: seq<string>)
    requires WritableText(content)
    ensures SplitOn(Join(content, "\\N"), "\\N") == content
  {
    assert "\\N"[0] !in "\\N"[1..];
    SplitOnJoin(content, "\\N");
  }

  /** The event read from one dialogue line: its text lines and its times cut to the
      hundredth of a second, with the layer under `Layer` and the language under `Style`. */
  lemma DialogueRead(layer: nat, lang: string, b: Block)
    requires ',' !in lang && WritableText(b.content)
    ensures var r := AssParser.ParseDialogue(EventKeys, Join(Zimu.DialogueFields(layer, lang, b), ","));
      r.Ok? && AssParser.ToBlock(r.value) == Truncated(b)
      && LayerStyle(r.value) == (Some(NatToString(layer)), Some(lang))
  {
    var fs := Zimu.DialogueFields(layer, lang, b);
    DialogueColumnsHaveNoComma(layer, lang, b);
    EventKeysDistinct(fs);
    FormatHundredthsRoundTrip(b.start);
    FormatHundredthsRoundTrip(b.end);
    DialogueFieldsAt(layer, lang, b);
    EventKeysAt();
    AssParser.DialogueOfFields(EventKeys, fs, 9, 1, 2);
    TextRoundTrip(b.content);
    DialogueMeta(layer, lang, b);
  }

  /** A dialogue line that is read keeps its layer and its language in `meta`. */
  lemma DialogueMeta(layer: nat, lang: string, b: Block)
    requires ',' !in lang
    requires AssParser.ParseDialogue(EventKeys, Join(Zimu.DialogueFields(layer, lang, b), ",")).Ok?
    ensures LayerStyle(AssParser.ParseDialogue(EventKeys, Join(Zimu.DialogueFields(layer, lang, b), ",")).value)
      == (Some(NatToString(layer)), Some(lang))
  {
    var fs := Zimu.DialogueFields(layer, lang, b);
    DialogueColumnsHaveNoComma(layer, lang, b);
    EventKeysDistinct(fs);
    DialogueFieldsAt(layer, lang, b);
    EventKeysAt();
    AssParser.DialogueOfColumns(EventKeys, fs);
  }

  /** A dialogue line is `Dialogue: ` and its columns joined with commas, starting with
      the layer's digits and ending with the text's last character. */
  lemma DialogueBody(layer: nat, lang: string, b: Block)
    requires WritableText(b.content)
    ensures var body := Join(Zimu.DialogueFields(layer, lang, b), ",");
      Zimu.DialogueLine(layer, lang, b) == "Dialogue: " + body
      && body != [] && IsDigit(body[0]) && !IsWhitespace(body[|body| - 1])
  {
    var fs := Zimu.DialogueFields(layer, lang, b);
    assert fs[0] == NatToString(layer);
    JoinLast(fs, ",");
  }

  /** One dialogue line read inside `[Events]` adds its block at the end. */
  lemma DialogueStep(p: AssParser.Parser, layer: nat, lang: string, b: Block)
    requires Reading(p) && ',' !in lang && WritableText(b.content)
    ensures var r := AssParser.Step(p, Zimu.DialogueLine(layer, lang, b));
      r.Ok? && Reading(r.value)
      && Zimu.AssBlocks(r.value.events) == Zimu.AssBlocks(p.events) + [Truncated(b)]
      && LayerStyles(r.value.events) == LayerStyles(p.events) + [(Some(NatToString(layer)), Some(lang))]
  {
    var body := Join(Zimu.DialogueFields(layer, lang, b), ",");
    DialogueBody(layer, lang, b);
    DialogueRead(layer, lang, b);
    AssParser.DialogueLineRead(p, body);
    AssBlocksSnoc(p.events, AssParser.ParseDialogue(EventKeys, body).value);
    LayerStylesSnoc(p.events, AssParser.ParseDialogue(EventKeys, body).value);
  }

  lemma LayerStylesSnoc(events: seq<AssParser.Event>, e: AssParser.Event)
    ensures LayerStyles(events + [e]) == LayerStyles(events) + [LayerStyle(e)]
  {
    assert LayerStyles(events + [e]) == LayerStyles(events) + [LayerStyle(e)];
  }

  lemma TrackTagsSnoc(layer: nat, lang: string, count: nat)
    ensures TrackTags(layer, lang, count + 1) == TrackTags(layer, lang, count) + [(Some(NatToString(layer)), Some(lang))]
  {
    assert TrackTags(layer, lang, count + 1) == TrackTags(layer, lang, count) + [(Some(NatToString(layer)), Some(lang))];
  }

  lemma AssBlocksSnoc(events: seq<AssParser.Event>, e: AssParser.Event)
    ensures Zimu.AssBlocks(events + [e]) == Zimu.AssBlocks(events) + [AssParser.ToBlock(e)]
  {
    assert Zimu.AssBlocks(events + [e]) == Zimu.AssBlocks(events) + [AssParser.ToBlock(e)];
  }

  lemma TrackLinesLast(layer: nat, lang: string, bs: seq<Block>)
    requires bs != []
    ensures Zimu.TrackLines(layer, lang, bs)
      == Zimu.TrackLines(layer, lang, bs[..|bs| - 1]) + [Zimu.DialogueLine(layer, lang, bs[|bs| - 1])]
  {
  }

  lemma TruncatedTrackSnoc(bs: seq<Block>)
    requires bs != []
    ensures TruncatedTrack(bs) == TruncatedTrack(bs[..|bs| - 1]) + [Truncated(bs[|bs| - 1])]
  {
  }

  /** The dialogue lines of one track add its blocks, in order. */
  lemma {:induction false} TrackRun(p: AssParser.Parser, layer: nat, lang: string, bs: seq<Block>)
    requires Reading(p) && WritableTrack(lang, bs)
    ensures var r := AssParser.Run(p, Zimu.TrackLines(layer, lang, bs));
      r.Ok? && Reading(r.value)
      && Zimu.AssBlocks(r.value.events) == Zimu.AssBlocks(p.events) + TruncatedTrack(bs)
      && LayerStyles(r.value.events) == LayerStyles(p.events) + TrackTags(layer, lang, |bs|)
    decreases |bs|
  {
    if bs == [] {
      assert Zimu.TrackLines(layer, lang, bs) == [];
      assert TruncatedTrack(bs) == [];
      assert TrackTags(layer, lang, 0) == [];
    } else {
      var init := bs[..|bs| - 1];
      var b := bs[|bs| - 1];
      TrackRun(p, layer, lang, init);
      var q := AssParser.Run(p, Zimu.TrackLines(layer, lang, init)).value;
      DialogueStep(q, layer, lang, b);
      var r := AssParser.Step(q, Zimu.DialogueLine(layer, lang, b)).value;
      RunOne(q, Zimu.DialogueLine(layer, lang, b), r);
      RunThen(p, Zimu.TrackLines(layer, lang, init), q, [Zimu.DialogueLine(layer, lang, b)]);
      TrackLinesLast(layer, lang, bs);
      TruncatedTrackSnoc(bs);
      Zimu.AppendAssoc(Zimu.AssBlocks(p.events), TruncatedTrack(init), [Truncated(b)], TruncatedTrack(init) + [Truncated(b)]);
      TrackTagsSnoc(layer, lang, |init|);
      var tag := (Some(NatToString(layer)), Some(lang));
      Zimu.AppendAssoc(LayerStyles(p.events), TrackTags(layer, lang, |init|), [tag], TrackTags(layer, lang, |init|) + [tag]);
    }
  }

  /** The dialogue lines of all tracks add their blocks, track after track. */
  lemma {:induction false} EventLinesRun(p: AssParser.Parser, inputs: IndexMap<string, seq<Block>>)
    requires Reading(p) && Writable(inputs)
    ensures var r := AssParser.Run(p, Zimu.EventLines(inputs));
      r.Ok? && Reading(r.value)
      && Zimu.AssBlocks(r.value.events) == Zimu.AssBlocks(p.events) + ExpectedBlocks(inputs)
      && LayerStyles(r.value.events) == LayerStyles(p.events) + ExpectedTags(inputs)
    decreases |inputs|
  {
    if inputs == [] {
      assert Zimu.EventLines(inputs) == [];
    } else {
      var n := |inputs| - 1;
      var init := inputs[..n];
      assert Writable(init) by {
        forall k | 0 <= k < |init|
          ensures WritableTrack(init[k].0, init[k].1)
        {
          assert init[k] == inputs[k];
        }
      }
      EventLinesRun(p, init);
      var q := AssParser.Run(p, Zimu.EventLines(init)).value;
      assert WritableTrack(inputs[n].0, inputs[n].1);
      TrackRun(q, n, inputs[n].0, inputs[n].1);
      RunThen(p, Zimu.EventLines(init), q, Zimu.TrackLines(n, inputs[n].0, inputs[n].1));
      Zimu.AppendAssoc(Zimu.AssBlocks(p.events), ExpectedBlocks(init), TruncatedTrack(inputs[n].1), ExpectedBlocks(init) + TruncatedTrack(inputs[n].1));
      var tags := TrackTags(n, inputs[n].0, |inputs[n].1|);
      Zimu.AppendAssoc(LayerStyles(p.events), ExpectedTags(init), tags, ExpectedTags(init) + tags);
    }
  }

  /** The script the merger writes reads back as every block of every track, in key
      order, with its times cut to the hundredth of a second and its text unchanged. */
  lemma GeneratedScriptReadsBack(inputs: IndexMap<string, seq<Block>>)
    requires Writable(inputs)
    ensures var r := AssParser.ParseSpec(Zimu.AssLines(inputs));
      r.Ok? && Zimu.AssBlocks(r.value.events) == ExpectedBlocks(inputs)
      && LayerStyles(r.value.events) == ExpectedTags(inputs)
  {
    var head := Zimu.ScriptHeader + Zimu.StyleLines(Keys(inputs)) + Zimu.EventsHeader;
    var p := AssParser.Parser(AssParser.Section("Events"), EventKeys, []);
    HeaderRun(Keys(inputs));
    EventLinesRun(p, inputs);
    RunThen(AssParser.Initial, head, p, Zimu.EventLines(inputs));
    assert Zimu.AssBlocks(p.events) == [];
    assert LayerStyles(p.events) == [];
  }

  // ---------------------------------------------------------------------------
  // From the printed text to the lines the reader sees.

  predicate AllPlain(ls: seq<string>) {
    forall i :: 0 <= i < |ls| ==> PlainLine(ls[i])
  }

  lemma AllPlainAppend(a: seq<string>, b: seq<string>)
    requires AllPlain(a) && AllPlain(b)
    ensures AllPlain(a + b)
  {
    forall i | 0 <= i < |a + b|
      ensures PlainLine((a + b)[i])
    {
      if i >= |a| {
        assert (a + b)[i] == b[i - |a|];
      }
    }
  }

  /** A format line, `Format: ` and column names joined by `", "`, is a plain line. */
  lemma FormatLinePlain(names: seq<string>)
    requires |names| >= 1 && names[|names| - 1] != []
    requires !IsWhitespace(names[|names| - 1][|names[|names| - 1]| - 1])
    requires forall i :: 0 <= i < |names| ==> '\n' !in names[i]
    ensures PlainLine("Format: " + Join(names, ", "))
  {
    JoinWithout(names, ", ", '\n');
    JoinLast(names, ", ");
  }

  lemma StyleColumnsPlain()
    ensures var names := Zimu.StyleColumns;
      |names| >= 1 && names[|names| - 1] != []
      && !IsWhitespace(names[|names| - 1][|names[|names| - 1]| - 1])
      && forall i :: 0 <= i < |names| ==> '\n' !in names[i]
  {
  }

  lemma ScriptHeaderPlain()
    ensures AllPlain(Zimu.ScriptHeader)
  {
    ScriptHeaderShape();
    HeaderLiteralsPlain();
    StylesFormatPlain();
    AllPlainFive("[" + "Script Info" + "]", "ScriptType: v4.00+", "", "[" + "V4+ Styles" + "]", Zimu.StylesFormat);
  }

  lemma StylesFormatPlain()
    ensures PlainLine(Zimu.StylesFormat)
  {
    StyleColumnsPlain();
    FormatLinePlain(Zimu.StyleColumns);
  }

  lemma HeaderLiteralsPlain()
    ensures PlainLine("[" + "Script Info" + "]") && PlainLine("ScriptType: v4.00+")
    ensures PlainLine("") && PlainLine("[" + "V4+ Styles" + "]") && PlainLine("[" + "Events" + "]")
  {
  }

  lemma AllPlainFive(a: string, b: string, c: string, d: string, e: string)
    requires PlainLine(a) && PlainLine(b) && PlainLine(c) && PlainLine(d) && PlainLine(e)
    ensures AllPlain([a, b, c, d, e])
  {
  }

  lemma AllPlainThree(a: string, b: string, c: string)
    requires PlainLine(a) && PlainLine(b) && PlainLine(c)
    ensures AllPlain([a, b, c])
  {
  }

  lemma EventsHeaderPlain()
    ensures AllPlain(Zimu.EventsHeader)
  {
    EventsHeaderShape();
    HeaderLiteralsPlain();
    EventsFormatPlain();
    AllPlainThree("", "[" + "Events" + "]", "Format: " + Join(Zimu.EventColumns, ", "));
  }

  lemma EventsFormatPlain()
    ensures PlainLine("Format: " + Join(Zimu.EventColumns, ", "))
  {
    EventColumnsPlain();
    FormatLinePlain(Zimu.EventColumns);
  }

  lemma StyleLinesPlain(langs: seq<string>)
    requires forall i :: 0 <= i < |langs| ==> '\n' !in langs[i]
    ensures AllPlain(Zimu.StyleLines(langs))
  {
    var ls := Zimu.StyleLines(langs);
    forall i | 0 <= i < |ls|
      ensures PlainLine(ls[i])
    {
      Zimu.StyleLinePlain(i, langs[i]);
    }
  }

  /** A dialogue line has no newline and ends in the last character of its text. */
  lemma DialogueLinePlain(layer: nat, lang: string, b: Block)
    requires '\n' !in lang && WritableText(b.content)
    ensures PlainLine(Zimu.DialogueLine(layer, lang, b))
  {
    var fs := Zimu.DialogueFields(layer, lang, b);
    DialogueBody(layer, lang, b);
    DigitsWithout(NatToString(layer), '\n');
    FormatHundredthsWithout(b.start, '\n');
    FormatHundredthsWithout(b.end, '\n');
    JoinWithout(b.content, "\\N", '\n');
    assert fs[0] == NatToString(layer) && fs[1] == FormatHundredths(b.start);
    assert fs[2] == FormatHundredths(b.end) && fs[9] == Join(b.content, "\\N");
    JoinWithout(fs, ",", '\n');
  }

  lemma TrackLinesPlain(layer: nat, lang: string, bs: seq<Block>)
    requires WritableTrack(lang, bs)
    ensures AllPlain(Zimu.TrackLines(layer, lang, bs))
  {
    var ls := Zimu.TrackLines(layer, lang, bs);
    forall i | 0 <= i < |ls|
      ensures PlainLine(ls[i])
    {
      DialogueLinePlain(layer, lang, bs[i]);
    }
  }

  lemma {:induction false} EventLinesPlain(inputs: IndexMap<string, seq<Block>>)
    requires Writable(inputs)
    ensures AllPlain(Zimu.EventLines(inputs))
    decreases |inputs|
  {
    if inputs != [] {
      var n := |inputs| - 1;
      var init := inputs[..n];
      assert Writable(init) by {
        forall k | 0 <= k < |init|
          ensures WritableTrack(init[k].0, init[k].1)
        {
          assert init[k] == inputs[k];
        }
      }
      EventLinesPlain(init);
      assert WritableTrack(inputs[n].0, inputs[n].1);
      TrackLinesPlain(n, inputs[n].0, inputs[n].1);
      AllPlainAppend(Zimu.EventLines(init), Zimu.TrackLines(n, inputs[n].0, inputs[n].1));
    }
  }

  /** Every line the merger writes comes back from `lines()` as it was written. */
  lemma AssLinesPlain(inputs: IndexMap<string, seq<Block>>)
    requires Writable(inputs)
    ensures AllPlain(Zimu.AssLines(inputs))
  {
    var langs := Keys(inputs);
    assert forall i :: 0 <= i < |langs| ==> '\n' !in langs[i] by {
      forall i | 0 <= i < |langs|
        ensures '\n' !in langs[i]
      {
        assert WritableTrack(inputs[i].0, inputs[i].1);
      }
    }
    ScriptHeaderPlain();
    StyleLinesPlain(langs);
    EventsHeaderPlain();
    EventLinesPlain(inputs);
    AllPlainAppend(Zimu.ScriptHeader, Zimu.StyleLines(langs));
    AllPlainAppend(Zimu.ScriptHeader + Zimu.StyleLines(langs), Zimu.EventsHeader);
    AllPlainAppend(Zimu.ScriptHeader + Zimu.StyleLines(langs) + Zimu.EventsHeader, Zimu.EventLines(inputs));
  }

  /** The text `generate_ass` returns, read by the ASS reader line by line, gives back
      every block of every track, in key order, with its times cut to the hundredth of a
      second and its text unchanged. */
  lemma PrintedScriptReadsBack(inputs: IndexMap<string, seq<Block>>)
    requires Writable(inputs)
    ensures var r := AssParser.ParseSpec(Lines(Zimu.Unlines(Zimu.AssLines(inputs))));
      r.Ok? && Zimu.AssBlocks(r.value.events) == ExpectedBlocks(inputs)
      && LayerStyles(r.value.events) == ExpectedTags(inputs)
  {
    AssLinesPlain(inputs);
    Zimu.LinesOfUnlines(Zimu.AssLines(inputs));
    GeneratedScriptReadsBack(inputs);
  }

  /** Two tracks read back one after the other. */
  lemma ExpectedPair(k1: string, x: seq<Block>, k2: string, y: seq<Block>)
    ensures ExpectedBlocks([(k1, x), (k2, y)]) == TruncatedTrack(x) + TruncatedTrack(y)
  {
    var inputs := [(k1, x), (k2, y)];
    assert inputs[..1] == [(k1, x)] && inputs[..1][..0] == [];
    assert ExpectedBlocks([(k1, x)]) == [] + TruncatedTrack(x) == TruncatedTrack(x);
  }

  lemma WritablePair(k1: string, x: seq<Block>, k2: string, y: seq<Block>)
    requires WritableTrack(k1, x) && WritableTrack(k2, y)
    ensures Writable([(k1, x), (k2, y)])
  {
  }

  /** Moving a track in time keeps its text writable. */
  lemma NormalizedWritable(realStart: Time, lang: string, bs: seq<Block>)
    requires bs != [] && WritableTrack(lang, bs)
    ensures WritableTrack(lang, Zimu.Normalized(realStart, bs))
  {
    var r := Zimu.Normalized(realStart, bs);
    forall i | 0 <= i < |r|
      ensures WritableText(r[i].content)
    {
      assert r[i].content == bs[i].content;
    }
  }

  /** What the merger prints for two tracks in different languages, read back by the ASS
      reader: the supplementary track, moved to start with the main one, then the main
      track, each block with its times cut to the hundredth of a second. */
  lemma MergedScriptReadsBack(mainSubs: seq<Block>, supplementary: seq<Block>, mainLang: string, supplementaryLang: string)
    requires mainSubs != [] && supplementary != [] && mainLang != supplementaryLang
    requires WritableTrack(mainLang, mainSubs) && WritableTrack(supplementaryLang, supplementary)
    ensures var m := Zimu.Merge(mainSubs, supplementary, mainLang, supplementaryLang);
      m.Ok? &&
      var r := AssParser.ParseSpec(Lines(Zimu.Unlines(Zimu.AssLines(m.value))));
      r.Ok? && Zimu.AssBlocks(r.value.events)
        == TruncatedTrack(Zimu.Normalized(mainSubs[0].start, supplementary)) + TruncatedTrack(mainSubs)
  {
    var shifted := Zimu.Normalized(mainSubs[0].start, supplementary);
    Zimu.MergeOrder(mainSubs, supplementary, mainLang, supplementaryLang);
    var inputs := Zimu.Merge(mainSubs, supplementary, mainLang, supplementaryLang).value;
    assert inputs == [(supplementaryLang, shifted), (mainLang, mainSubs)];
    NormalizedWritable(mainSubs[0].start, supplementaryLang, supplementary);
    WritablePair(supplementaryLang, shifted, mainLang, mainSubs);
    PrintedScriptReadsBack(inputs);
    ExpectedPair(supplementaryLang, shifted, mainLang, mainSubs);
  }

  /** What the program prints, fed back to its own `parse_file` as an `.ass` file, gives
      the supplementary track shifted to the main track's start and then the main track,
      both truncated to hundredths of a second. */
  lemma OutputReadsBack(mainExt: Option<string>, mainLines: seq<string>, supplementaryExt: Option<string>,
                        supplementaryLines: seq<string>, mainLang: string, supplementaryLang: string)
    requires Zimu.Output(mainExt, mainLines, supplementaryExt, supplementaryLines, mainLang, supplementaryLang).Ok?
    requires mainLang != supplementaryLang
    requires WritableTrack(mainLang, Zimu.ParseFile(mainExt, mainLines).value)
    requires WritableTrack(supplementaryLang, Zimu.ParseFile(supplementaryExt, supplementaryLines).value)
    ensures var mainSubs := Zimu.ParseFile(mainExt, mainLines).value;
      var supplementary := Zimu.ParseFile(supplementaryExt, supplementaryLines).value;
      var printed := Zimu.Output(mainExt, mainLines, supplementaryExt, supplementaryLines, mainLang, supplementaryLang).value;
      Zimu.ParseFile(Some("ass"), Lines(printed))
        == Ok(TruncatedTrack(Zimu.Normalized(mainSubs[0].start, supplementary)) + TruncatedTrack(mainSubs))
  {
    var mainSubs := Zimu.ParseFile(mainExt, mainLines).value;
    var supplementary := Zimu.ParseFile(supplementaryExt, supplementaryLines).value;
    MergedScriptReadsBack(mainSubs, supplementary, mainLang, supplementaryLang);
  }
}
