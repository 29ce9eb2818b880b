// The merger itself (`zimu`'s `main.rs`): choosing a reader by file extension,
// shifting the supplementary track so that it starts with the main one
// (`normalize`), and writing the tracks, keyed by language, as one Advanced
// SubStation Alpha script (`generate_ass`). The written script is specified
// line by line (`AssLines`); `Unlines` puts the newline after each line.
module Zimu {
  import opened Wrappers
  import opened Decimal
  import opened Strings
  import opened Times
  import opened IndexMaps
  import opened Ast
  import AssParser
  import SrtParser

  // ---------------------------------------------------------------------------
  // `normalize`

  /** One block moved by `d`, each time wrapping around midnight. */
  function ShiftBlock(b: Block, d: Duration): Block {
    Block(AddDuration(b.start, d), AddDuration(b.end, d), b.content)
  }

  /** What `normalize` leaves in the vector: every block moved by the distance from the
      first block's start to `realStart`, so the first block starts at `realStart`. */
  function Normalized(realStart: Time, bs: seq<Block>): (r: seq<Block>)
    requires |bs| > 0
    ensures |r| == |bs| && r[0].start == realStart
    ensures forall i :: 0 <= i < |r| ==> r[i].content == bs[i].content
    ensures forall i :: 0 <= i < |r| ==>
      (r[i].start - bs[i].start - (realStart - bs[0].start)) % NanosPerDay == 0
      && (r[i].end - bs[i].end - (realStart - bs[0].start)) % NanosPerDay == 0
  {
    var d := Since(realStart, bs[0].start);
    AddSince(realStart, bs[0].start);
    seq(|bs|, i requires 0 <= i < |bs| => ShiftBlock(bs[i], d))
  }

  /** Every block keeps its length on screen, modulo a day. */
  lemma NormalizeKeepsDurations(realStart: Time, bs: seq<Block>)
    requires |bs| > 0
    ensures var r := Normalized(realStart, bs);
      forall i :: 0 <= i < |r| ==> (Since(r[i].end, r[i].start) - Since(bs[i].end, bs[i].start)) % NanosPerDay == 0
  {
    var d := Since(realStart, bs[0].start);
    forall i | 0 <= i < |bs|
      ensures (AddDuration(bs[i].end, d) - AddDuration(bs[i].start, d) - (bs[i].end - bs[i].start)) % NanosPerDay == 0
    {
      AddKeepsDistance(bs[i].start, bs[i].end, d);
    }
  }

  /** A track that already starts at `realStart` is left as it is; in particular
      normalizing twice is normalizing once. */
  lemma NormalizeAtStart(realStart: Time, bs: seq<Block>)
    requires |bs| > 0 && bs[0].start == realStart
    ensures Normalized(realStart, bs) == bs
  {
    var r := Normalized(realStart, bs);
    forall i | 0 <= i < |bs|
      ensures r[i] == bs[i]
    {
      assert AddDuration(bs[i].start, 0) == bs[i].start;
      assert AddDuration(bs[i].end, 0) == bs[i].end;
    }
  }

  lemma NormalizeIdempotent(realStart: Time, bs: seq<Block>)
    requires |bs| > 0
    ensures Normalized(realStart, Normalized(realStart, bs)) == Normalized(realStart, bs)
  {
    NormalizeAtStart(realStart, Normalized(realStart, bs));
  }

  /** `normalize`: shifts the blocks of the vector in place. */
  method Normalize(realStart: Time, blocks: array<Block>)
    requires blocks.Length > 0
    modifies blocks
    ensures blocks[..] == Normalized(realStart, old(blocks[..]))
  {
    var firstBlock := blocks[0];
    var diff := Since(realStart, firstBlock.start);
    for i := 0 to blocks.Length
      invariant forall k :: 0 <= k < i ==> blocks[k] == ShiftBlock(old(blocks[k]), diff)
      invariant forall k :: i <= k < blocks.Length ==> blocks[k] == old(blocks[k])
    {
      var x := blocks[i];
      blocks[i] := x.(start := AddDuration(x.start, diff), end := AddDuration(x.end, diff));
    }
  }

  // ---------------------------------------------------------------------------
  // `generate_ass`: the script, line by line.

  /** The columns of the `[V4+ Styles]` format line. */
  const StyleColumns: seq<string> := [
    "Name", "Fontname", "Fontsize", "PrimaryColour", "SecondaryColour", "OutlineColour",
    "BackColour", "Bold", "Italic", "Underline", "StrikeOut", "ScaleX", "ScaleY", "Spacing",
    "Angle", "BorderStyle", "Outline", "Shadow", "Alignment", "MarginL", "MarginR", "MarginV",
    "Encoding"]

  /** The columns of the `[Events]` format line. */
  const EventColumns: seq<string> :=
    ["Layer", "Start", "End", "Style", "Name", "MarginL", "MarginR", "MarginV", "Effect", "Text"]

  /** The fixed beginning of every script. */
  const ScriptHeader: seq<string> := ["[Script Info]", "ScriptType: v4.00+", "", "[V4+ Styles]", StylesFormat]

  /** The format line of `[V4+ Styles]`: the style columns joined by `", "`. */
  const StylesFormat: string := "Format: " + Join(StyleColumns, ", ")

  /** The blank line, the `[Events]` header and its format line, after the styles. */
  const EventsHeader: seq<string> := ["", "[Events]", EventsFormat]

  /** The format line of `[Events]`: the event columns joined by `", "`. */
  const EventsFormat: string := "Format: " + Join(EventColumns, ", ")

  /** MarginV of the `n`-th style: `12 + n * (18 * 2) + n * 4`, which puts each language
      two font heights and four pixels above the one before. */
  function MarginV(n: nat): (x: nat)
    ensures x == 12 + 40 * n
  {
    12 + n * (18 * 2) + n * 4
  }

  function Font(lang: string): (f: string)
    ensures f == "Microsoft YaHei" <==> lang == "zh"
    ensures f == "Arial" <==> lang != "zh"
  {
    if lang == "zh" then "Microsoft YaHei" else "Arial"
  }

  /** The primary colour, as blue-green-red: white for the first language, yellow after. */
  function Colour(n: nat): (c: string)
    ensures c == "FFFFFF" <==> n == 0
    ensures c == "00FFFF" <==> n != 0
  {
    if n == 0 then "FFFFFF" else "00FFFF"
  }

  /** The seventeen style values that are the same for every language, from
      SecondaryColour to MarginR. */
  const FixedStyleFields: seq<string> := [
    "&H000000FF", "&H00000000", "&H00000000", "0", "0", "0", "0", "100", "100", "0", "0",
    "1", "1", "0.5", "2", "10", "10"]

  /** The values of the `n`-th style line, one per style column. */
  function StyleFields(n: nat, lang: string): (fs: seq<string>)
    ensures |fs| == |StyleColumns|
  {
    [lang, Font(lang), "18", "&H00" + Colour(n)] + FixedStyleFields + [NatToString(MarginV(n)), "1"]
  }

  /** The `format!` that writes a style line from its four varying values. */
  function FormatStyle(lang: string, font: string, color: string, x: nat): string {
    "Style: " + Join([lang, font, "18", "&H00" + color] + FixedStyleFields + [NatToString(x), "1"], ",")
  }

  function StyleLine(n: nat, lang: string): string {
    FormatStyle(lang, Font(lang), Colour(n), MarginV(n))
  }

  /** One style line per language, in key order. */
  function StyleLines(langs: seq<string>): (r: seq<string>)
    ensures |r| == |langs|
  {
    seq(|langs|, n requires 0 <= n < |langs| => StyleLine(n, langs[n]))
  }

  /** The values of a dialogue line, one per event column: the language's index as the
      layer, the times as `H:MM:SS.CC`, the language as the style, and the text lines
      joined with `\N`. */
  function DialogueFields(layer: nat, lang: string, b: Block): (fs: seq<string>)
    ensures |fs| == |EventColumns|
  {
    [NatToString(layer), FormatHundredths(b.start), FormatHundredths(b.end), lang,
     "", "0", "0", "0", "", Join(b.content, "\\N")]
  }

  /** The `format!` that writes a dialogue line. */
  function FormatDialogue(layer: nat, start: string, end: string, lang: string, text: string): string {
    "Dialogue: " + Join([NatToString(layer), start, end, lang, "", "0", "0", "0", "", text], ",")
  }

  function DialogueLine(layer: nat, lang: string, b: Block): string {
    FormatDialogue(layer, FormatHundredths(b.start), FormatHundredths(b.end), lang, Join(b.content, "\\N"))
  }

  /** One dialogue line per block of one language, in block order. */
  function TrackLines(layer: nat, lang: string, blocks: seq<Block>): (r: seq<string>)
    ensures |r| == |blocks|
  {
    seq(|blocks|, i requires 0 <= i < |blocks| => DialogueLine(layer, lang, blocks[i]))
  }

  /** The dialogue lines of all tracks, in key order, the `n`-th track on layer `n`. */
  function EventLines(inputs: IndexMap<string, seq<Block>>): (r: seq<string>)
    decreases |inputs|
  {
    if inputs == [] then []
    else
      var n := |inputs| - 1;
      EventLines(inputs[..n]) + TrackLines(n, inputs[n].0, inputs[n].1)
  }

  /** The lines of the script `generate_ass` writes. */
  function AssLines(inputs: IndexMap<string, seq<Block>>): seq<string> {
    ScriptHeader + StyleLines(Keys(inputs)) + EventsHeader + EventLines(inputs)
  }

  /** The lines, each followed by a newline. */
  function Unlines(ls: seq<string>): string
    decreases |ls|
  {
    if ls == [] then "" else Unlines(ls[..|ls| - 1]) + ls[|ls| - 1] + "\n"
  }

  lemma UnlinesSnoc(ls: seq<string>, l: string)
    ensures Unlines(ls + [l]) == Unlines(ls) + l + "\n"
  {
    assert (ls + [l])[..|ls|] == ls;
  }

  /** Writing lines one after another is writing them together. */
  lemma {:induction false} UnlinesAppend(a: seq<string>, b: seq<string>)
    ensures Unlines(a + b) == Unlines(a) + Unlines(b)
    decreases |b|
  {
    if b != [] {
      var init := b[..|b| - 1];
      UnlinesAppend(a, init);
      assert a + b == (a + init) + [b[|b| - 1]];
      UnlinesSnoc(a + init, b[|b| - 1]);
    } else {
      assert a + b == a;
    }
  }

  /** The written script holds exactly one newline per line: none of the lines has one of
      its own when no language and no text line holds a newline. */
  lemma {:induction false} UnlinesCount(ls: seq<string>)
    ensures multiset(Unlines(ls))['\n'] == |ls| + Newlines(ls)
    decreases |ls|
  {
    if ls != [] {
      var init := ls[..|ls| - 1];
      UnlinesCount(init);
      assert Newlines(ls) == Newlines(init) + multiset(ls[|ls| - 1])['\n'];
    }
  }

  /** `lines()` on a written script gives back its lines, when none of them holds a
      newline or ends in a carriage return. */
  lemma {:induction false} LinesOfUnlines(ls: seq<string>)
    requires forall i :: 0 <= i < |ls| ==> PlainLine(ls[i])
    ensures Lines(Unlines(ls)) == ls
    decreases |ls|
  {
    if ls != [] {
      var rest := ls[1..];
      assert forall i :: 0 <= i < |rest| ==> rest[i] == ls[i + 1];
      LinesOfUnlines(rest);
      UnlinesCons(ls[0], rest);
      LinesCons(ls[0], Unlines(rest));
      assert [ls[0]] + rest == ls;
    }
  }

  lemma UnlinesCons(l: string, rest: seq<string>)
    ensures Unlines([l] + rest) == l + "\n" + Unlines(rest)
  {
    UnlinesAppend([l], rest);
    UnlinesSnoc([], l);
    assert [] + [l] == [l];
  }

  /** The newlines inside the lines themselves. */
  function Newlines(ls: seq<string>): nat
    decreases |ls|
  {
    if ls == [] then 0 else Newlines(ls[..|ls| - 1]) + multiset(ls[|ls| - 1])['\n']
  }

  /** Sequence concatenation is associative; stated on its own so that it is used
      without looking into the lines themselves. */
  lemma AppendAssoc<T>(a: seq<T>, b: seq<T>, c: seq<T>, d: seq<T>)
    requires d == b + c
    ensures a + d == (a + b) + c
  {
  }

  lemma AppendNil<T>(a: seq<T>, b: seq<T>)
    requires b == []
    ensures a + b == a
  {
  }

  lemma StyleLinesSnoc(langs: seq<string>, n: nat)
    requires n < |langs|
    ensures StyleLines(langs[..n + 1]) == StyleLines(langs[..n]) + [StyleLine(n, langs[n])]
  {
  }

  lemma TrackLinesSnoc(layer: nat, lang: string, blocks: seq<Block>, j: nat)
    requires j < |blocks|
    ensures TrackLines(layer, lang, blocks[..j + 1]) == TrackLines(layer, lang, blocks[..j]) + [DialogueLine(layer, lang, blocks[j])]
  {
  }

  lemma EventLinesSnoc(inputs: IndexMap<string, seq<Block>>, k: nat)
    requires k < |inputs|
    ensures EventLines(inputs[..k + 1]) == EventLines(inputs[..k]) + TrackLines(k, inputs[k].0, inputs[k].1)
  {
    assert inputs[..k + 1][..k] == inputs[..k];
  }

  /** `generate_ass`: the fixed header, one style per language, the events header, then
      one dialogue line per block, each line ended by a newline. */
  method GenerateAss(inputs: IndexMap<string, seq<Block>>) returns (script: string)
    ensures script == Unlines(AssLines(inputs))
  {
    script := Unlines(ScriptHeader);
    var langs := Keys(inputs);
    script := WriteStyles(script, ScriptHeader, langs);
    UnlinesAppend(ScriptHeader + StyleLines(langs), EventsHeader);
    script := script + Unlines(EventsHeader);
    script := WriteDialogues(script, ScriptHeader + StyleLines(langs) + EventsHeader, inputs);
  }

  /** The first loop of `generate_ass`, appending to a script that holds `written`: one
      style per language, the `n`-th with MarginV `12 + n * (18 * 2) + n * 4`, font
      `Microsoft YaHei` for `zh` and `Arial` otherwise, and a white primary colour for
      the first language only. */
  method WriteStyles(script0: string, ghost written: seq<string>, langs: seq<string>) returns (script: string)
    requires script0 == Unlines(written)
    ensures script == Unlines(written + StyleLines(langs))
  {
    script := script0;
    AppendNil(written, StyleLines(langs[..0]));
    for n := 0 to |langs|
      invariant script == Unlines(written + StyleLines(langs[..n]))
    {
      var lang := langs[n];
      var x := MarginV(n);
      var font := if lang == "zh" then "Microsoft YaHei" else "Arial";
      var color := Colour(n);
      var style := FormatStyle(lang, font, color, x);
      StyleLinesSnoc(langs, n);
      AppendAssoc(written, StyleLines(langs[..n]), [style], StyleLines(langs[..n + 1]));
      UnlinesSnoc(written + StyleLines(langs[..n]), style);
      script := script + style + "\n";
    }
    assert langs[..|langs|] == langs;
  }

  /** The second loop of `generate_ass`, appending to a script that holds `written`: the
      tracks in key order, the `n`-th on layer `n`, each block as one dialogue line with
      its times to the hundredth of a second and its text lines joined with `\N`. */
  method WriteDialogues(script0: string, ghost written: seq<string>, inputs: IndexMap<string, seq<Block>>) returns (script: string)
    requires script0 == Unlines(written)
    ensures script == Unlines(written + EventLines(inputs))
  {
    script := script0;
    AppendNil(written, EventLines(inputs[..0]));
    var n := 0;
    for k := 0 to |inputs|
      invariant n == k
      invariant script == Unlines(written + EventLines(inputs[..k]))
    {
      var (lang, blocks) := inputs[k];
      ghost var before := written + EventLines(inputs[..k]);
      AppendNil(before, TrackLines(n, lang, blocks[..0]));
      for j := 0 to |blocks|
        invariant script == Unlines(before + TrackLines(n, lang, blocks[..j]))
      {
        var block := blocks[j];
        var start := FormatHundredths(block.start);
        var end := FormatHundredths(block.end);
        var text := Join(block.content, "\\N");
        var line := FormatDialogue(n, start, end, lang, text);
        TrackLinesSnoc(n, lang, blocks, j);
        AppendAssoc(before, TrackLines(n, lang, blocks[..j]), [line], TrackLines(n, lang, blocks[..j + 1]));
        UnlinesSnoc(before + TrackLines(n, lang, blocks[..j]), line);
        script := script + line + "\n";
      }
      assert blocks[..|blocks|] == blocks;
      EventLinesSnoc(inputs, k);
      AppendAssoc(written, EventLines(inputs[..k]), TrackLines(n, lang, blocks), EventLines(inputs[..k + 1]));
      n := n + 1;
    }
    assert inputs[..|inputs|] == inputs;
  }

  // ---------------------------------------------------------------------------
  // Properties of the written styles.

  /** No comma and no newline in any style value, when the language has none. */
  lemma StyleFieldsWithout(n: nat, lang: string, c: char)
    requires (c == ',' || c == '\n') && c !in lang
    ensures forall i :: 0 <= i < |StyleFields(n, lang)| ==> c !in StyleFields(n, lang)[i]
  {
    var fs := StyleFields(n, lang);
    FixedStyleFieldsWithout(c);
    forall i | 0 <= i < |fs|
      ensures c !in fs[i]
    {
      StyleFieldsAt(n, lang);
      if i == 21 {
        DigitsWithout(NatToString(MarginV(n)), c);
      }
    }
  }

  lemma FixedStyleFieldsWithout(c: char)
    requires c == ',' || c == '\n'
    ensures forall i :: 0 <= i < |FixedStyleFields| ==> c !in FixedStyleFields[i]
  {
  }

  lemma StyleFieldsNoComma(n: nat, lang: string)
    requires ',' !in lang
    ensures forall i :: 0 <= i < |StyleFields(n, lang)| ==> !Contains(StyleFields(n, lang)[i], ",")
  {
    var fs := StyleFields(n, lang);
    StyleFieldsWithout(n, lang, ',');
    forall i | 0 <= i < |fs|
      ensures !Contains(fs[i], ",")
    {
      NoCharNoMatch(fs[i], ',');
    }
  }

  /** A style line is `Style: ` and its values joined with commas. */
  lemma StyleLineJoin(n: nat, lang: string)
    ensures StyleLine(n, lang) == "Style: " + Join(StyleFields(n, lang), ",")
  {
  }

  /** A style line has no newline and ends in the `1` of its Encoding. */
  lemma StyleLinePlain(n: nat, lang: string)
    requires '\n' !in lang
    ensures PlainLine(StyleLine(n, lang))
  {
    var fs := StyleFields(n, lang);
    StyleLineJoin(n, lang);
    StyleFieldsWithout(n, lang, '\n');
    JoinWithout(fs, ",", '\n');
    assert fs[|fs| - 1] == "1";
    JoinLast(fs, ",");
  }

  /** A style line read back by splitting at commas: one value per style column, the
      language under Name, `Microsoft YaHei` under Fontname exactly for `zh`, white under
      PrimaryColour exactly for the first language, and `12 + 40 n` under MarginV. */
  lemma StyleLineFields(n: nat, lang: string)
    requires ',' !in lang
    ensures StyleLine(n, lang)[..7] == "Style: "
    ensures var fs := SplitOn(StyleLine(n, lang)[7..], ",");
      |fs| == |StyleColumns| && fs == StyleFields(n, lang)
      && fs[0] == lang
      && (fs[1] == "Microsoft YaHei" <==> lang == "zh")
      && (fs[3] == "&H00FFFFFF" <==> n == 0)
      && AllDigits(fs[21]) && DigitsValue(fs[21]) == 12 + 40 * n
  {
    StyleLineSplits(n, lang);
    StyleFieldsAt(n, lang);
    NatToStringValue(12 + 40 * n);
    if n != 0 {
      assert ("&H00" + Colour(n))[4] == '0';
    }
  }

  lemma StyleLineSplits(n: nat, lang: string)
    requires ',' !in lang
    ensures StyleLine(n, lang)[..7] == "Style: "
    ensures SplitOn(StyleLine(n, lang)[7..], ",") == StyleFields(n, lang)
  {
    var fs := StyleFields(n, lang);
    StyleFieldsNoComma(n, lang);
    SplitOnJoin(fs, ",");
    StyleLineJoin(n, lang);
    assert StyleLine(n, lang)[7..] == Join(fs, ",");
  }

  /** Where the varying values sit among a style line's values. */
  lemma StyleFieldsAt(n: nat, lang: string)
    ensures var fs := StyleFields(n, lang);
      fs[0] == lang && fs[1] == Font(lang) && fs[3] == "&H00" + Colour(n)
      && fs[21] == NatToString(MarginV(n))
      && forall i :: 4 <= i < 21 ==> fs[i] == FixedStyleFields[i - 4]
  {
  }

  // ---------------------------------------------------------------------------
  // `parse_file` and `main`.

  /** Why `parse_file` or `main` gives up. */
  datatype MergeError =
    | NoExtension                            // `todo!()` on a path without an extension
    | UnsupportedExtension(ext: string)      // `panic!("NO")`
    | AssError(ass: AssParser.ParseError)
    | SrtError(srt: SrtParser.ParseError)
    | EmptyMainTrack                         // `main_subs.first().unwrap()`
    | EmptySupplementaryTrack                // `blocks.first().unwrap()` in `normalize`

  function AssBlocks(events: seq<AssParser.Event>): (r: seq<Block>)
    ensures |r| == |events|
    ensures forall i :: 0 <= i < |events| ==> r[i] == AssParser.ToBlock(events[i])
  {
    seq(|events|, i requires 0 <= i < |events| => AssParser.ToBlock(events[i]))
  }

  function SrtBlocks(records: seq<SrtParser.SrtBlock>): (r: seq<Block>)
    ensures |r| == |records|
    ensures forall i :: 0 <= i < |records| ==> r[i] == SrtParser.ToBlock(records[i])
  {
    seq(|records|, i requires 0 <= i < |records| => SrtParser.ToBlock(records[i]))
  }

  /** `parse_file` on a file already read into lines: `.ass` and `.ssa` go to the ASS
      reader, `.srt` to the SubRip reader, anything else is refused. */
  function ParseFile(ext: Option<string>, lines: seq<string>): (r: Result<seq<Block>, MergeError>)
    ensures ext.None? ==> r == Err(NoExtension)
    ensures ext.Some? && ext.value !in {"ass", "ssa", "srt"} ==> r == Err(UnsupportedExtension(ext.value))
    ensures ext == Some("srt") ==> (r.Ok? <==> SrtParser.ParseSpec(lines).Ok?)
    ensures ext == Some("ass") || ext == Some("ssa") ==> (r.Ok? <==> AssParser.ParseSpec(lines).Ok?)
    ensures (ext == Some("ass") || ext == Some("ssa")) && r.Ok? ==>
      r.value == AssBlocks(AssParser.ParseSpec(lines).value.events)
    ensures (ext == Some("ass") || ext == Some("ssa")) && r.Err? ==>
      r == Err(AssError(AssParser.ParseSpec(lines).error))
    ensures ext == Some("srt") && r.Ok? ==> r.value == SrtBlocks(SrtParser.ParseSpec(lines).value)
    ensures ext == Some("srt") && r.Err? ==> r == Err(SrtError(SrtParser.ParseSpec(lines).error))
  {
    match ext
    case None => Err(NoExtension)
    case Some(x) =>
      if x == "ass" || x == "ssa" then
        match AssParser.ParseSpec(lines)
        case Ok(file) => Ok(AssBlocks(file.events))
        case Err(e) => Err(AssError(e))
      else if x == "srt" then
        match SrtParser.ParseSpec(lines)
        case Ok(records) => Ok(SrtBlocks(records))
        case Err(e) => Err(SrtError(e))
      else Err(UnsupportedExtension(x))
  }

  /** A SubRip file written from records reads back as their blocks, in sorted order. */
  lemma ParseFileSrtRoundTrip(rs: seq<SrtParser.SrtBlock>)
    requires forall i :: 0 <= i < |rs| ==> SrtParser.Writable(rs[i])
    ensures ParseFile(Some("srt"), SrtParser.Document(rs)) == Ok(SrtBlocks(SrtParser.SortBlocks(rs)))
  {
    SrtParser.ParseRoundTrip(rs);
  }

  /** The tracks `main` hands to `generate_ass`: the supplementary track, shifted to start
      with the main one, is inserted first and the main track second, each under its
      language. */
  function Merge(mainSubs: seq<Block>, supplementary: seq<Block>, mainLang: string, supplementaryLang: string): (r: Result<IndexMap<string, seq<Block>>, MergeError>)
    ensures r.Err? <==> mainSubs == [] || supplementary == []
    ensures r.Ok? ==> UniqueKeys(r.value)
  {
    if mainSubs == [] then Err(EmptyMainTrack)
    else if supplementary == [] then Err(EmptySupplementaryTrack)
    else
      var shifted := Normalized(mainSubs[0].start, supplementary);
      var inputs := Insert([], supplementaryLang, shifted);
      Ok(Insert(inputs, mainLang, mainSubs))
  }

  /** With two different languages, the supplementary track comes first (layer 0, white)
      and starts where the main track starts; the main track comes second. */
  lemma MergeOrder(mainSubs: seq<Block>, supplementary: seq<Block>, mainLang: string, supplementaryLang: string)
    requires mainSubs != [] && supplementary != [] && mainLang != supplementaryLang
    ensures var r := Merge(mainSubs, supplementary, mainLang, supplementaryLang);
      r.Ok? && |r.value| == 2
      && r.value[0].0 == supplementaryLang && r.value[1] == (mainLang, mainSubs)
      && r.value[0].1 == Normalized(mainSubs[0].start, supplementary)
      && r.value[0].1[0].start == mainSubs[0].start
  {
    var shifted := Normalized(mainSubs[0].start, supplementary);
    var inputs := Insert([], supplementaryLang, shifted);
    assert Keys(inputs) == [supplementaryLang];
    assert inputs == [(supplementaryLang, shifted)];
    assert mainLang !in Keys(inputs);
    assert Keys(Insert(inputs, mainLang, mainSubs)) == [supplementaryLang, mainLang];
  }

  /** With the same language twice, the main track replaces the supplementary one, which
      is lost; the key keeps its first position. */
  lemma MergeSameLanguage(mainSubs: seq<Block>, supplementary: seq<Block>, lang: string)
    requires mainSubs != [] && supplementary != []
    ensures Merge(mainSubs, supplementary, lang, lang) == Ok([(lang, mainSubs)])
  {
    var shifted := Normalized(mainSubs[0].start, supplementary);
    var inputs := Insert([], lang, shifted);
    assert Keys(inputs) == [lang];
    var r := Insert(inputs, lang, mainSubs);
    assert Keys(r) == [lang];
    assert |r| == 1;
    GetUnique(r, 0);
    assert r[0] == (lang, mainSubs);
    assert r == [(lang, mainSubs)];
  }

  /** The whole program on files already read into lines: the script it prints. The main
      file is read first, so its failure is the one reported; an empty track fails. */
  function Output(mainExt: Option<string>, mainLines: seq<string>, supplementaryExt: Option<string>,
                  supplementaryLines: seq<string>, mainLang: string, supplementaryLang: string): (r: Result<string, MergeError>)
    ensures r.Ok? <==>
      ParseFile(mainExt, mainLines).Ok? && ParseFile(supplementaryExt, supplementaryLines).Ok?
      && ParseFile(mainExt, mainLines).value != [] && ParseFile(supplementaryExt, supplementaryLines).value != []
    ensures ParseFile(mainExt, mainLines).Err? ==> r == Err(ParseFile(mainExt, mainLines).error)
    ensures ParseFile(mainExt, mainLines).Ok? && ParseFile(supplementaryExt, supplementaryLines).Err? ==>
      r == Err(ParseFile(supplementaryExt, supplementaryLines).error)
    ensures ParseFile(mainExt, mainLines).Ok? && ParseFile(supplementaryExt, supplementaryLines).Ok?
      && ParseFile(mainExt, mainLines).value == []
      ==> r == Err(EmptyMainTrack)
    ensures r.Ok? ==> r.value == Unlines(AssLines(Merge(ParseFile(mainExt, mainLines).value,
      ParseFile(supplementaryExt, supplementaryLines).value, mainLang, supplementaryLang).value))
  {
    var mainSubs :- ParseFile(mainExt, mainLines);
    var supplementary :- ParseFile(supplementaryExt, supplementaryLines);
    var inputs :- Merge(mainSubs, supplementary, mainLang, supplementaryLang);
    Ok(Unlines(AssLines(inputs)))
  }
}
