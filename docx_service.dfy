/** The markup-to-document converter: `_add_rich_text`, which turns one line of
    markup into formatted runs, and `create_docx`, which turns an article into
    an ordered list of headings and paragraphs and names the file it is saved to. */
module DocxService {
  import opened PyStr
  import opened PosixPath
  import opened Markup

  /** The three formatting flags of a run. */
  datatype Format = Format(bold: bool, italic: bool, highlight: bool)

  /** The flags every call of `_add_rich_text` starts from. */
  const Plain := Format(false, false, false)

  /** One run of a paragraph: a text token and the flags in force when it was reached. */
  datatype Run = Run(text: string, format: Format)

  /** The paragraph styles used: the default one and 'List Bullet'. */
  datatype Style = Normal | ListBullet

  /** A block of the document body. */
  datatype Block = Heading(text: string, level: nat) | Body(style: Style, runs: seq<Run>)

  /** The formatting attributes the tags switch. */
  datatype Attr = Bold | Italic | Highlight

  function Flag(f: Format, a: Attr): bool {
    match a
    case Bold => f.bold
    case Italic => f.italic
    case Highlight => f.highlight
  }

  /** Tokens that switch an attribute on. Any token mentioning `background-color`
      counts for highlight, whether or not it is a tag. */
  predicate Opens(a: Attr, t: string) {
    match a
    case Bold => t == "<strong>" || t == "<b>"
    case Italic => t == "<i>"
    case Highlight => Contains(t, "background-color")
  }

  /** Tokens that switch an attribute off. */
  predicate Closes(a: Attr, t: string) {
    match a
    case Bold => t == "</strong>" || t == "</b>"
    case Italic => t == "</i>"
    case Highlight => t == "</span>"
  }

  /** Tokens that become a run: non-empty text that does not start with `<` and
      does not mention `background-color`. */
  predicate Emits(t: string) {
    t != [] && t[0] != '<' && !Contains(t, "background-color")
  }

  /** Whether an attribute is on after token `t`, starting from flags `f`: a token
      sets it when it opens it, clears it when it closes it and leaves it alone
      otherwise. */
  predicate OnAfter(a: Attr, f: Format, t: string) {
    Opens(a, t) || (Flag(f, a) && !Closes(a, t))
  }

  /** The effect of one token on the flags and on the runs: the new flags, and one
      run, carrying the flags in force before the token, exactly when the token
      is text that is not dropped. */
  function Step(f: Format, t: string): (Format, seq<Run>) {
    (Format(OnAfter(Bold, f, t), OnAfter(Italic, f, t), OnAfter(Highlight, f, t)),
     if Emits(t) then [Run(t, f)] else [])
  }

  /** The loop of `_add_rich_text` over a list of tokens, from fresh flags: the
      final flags and the runs added. */
  function Scan(ts: seq<string>): (Format, seq<Run>) {
    if ts == [] then (Plain, [])
    else
      var prev := Scan(ts[..|ts| - 1]);
      var next := Step(prev.0, ts[|ts| - 1]);
      (next.0, prev.1 + next.1)
  }

  /** The runs `_add_rich_text` adds for one line of markup. */
  function RichText(text: string): seq<Run> {
    Scan(Split(text)).1
  }

  /** Reference meaning of a flag: some token switched the attribute on and no
      later token switched it off. */
  predicate SetBy(a: Attr, ts: seq<string>) {
    exists j :: 0 <= j < |ts| && Opens(a, ts[j]) && forall l :: j < l < |ts| ==> !Closes(a, ts[l])
  }

  /** The flags the tokens leave behind, by the reference meaning. */
  function FormatAfter(ts: seq<string>): Format {
    Format(SetBy(Bold, ts), SetBy(Italic, ts), SetBy(Highlight, ts))
  }

  /** The flags the loop keeps are exactly the reference flags. */
  lemma {:induction false} ScanFlags(ts: seq<string>)
    ensures Scan(ts).0 == FormatAfter(ts)
    decreases |ts|
  {
    if ts != [] {
      var p := ts[..|ts| - 1];
      var t := ts[|ts| - 1];
      ScanFlags(p);
      forall a: Attr
        ensures Flag(Scan(ts).0, a) == SetBy(a, ts)
      {
        SetByExtend(a, p, t);
        assert p + [t] == ts;
      }
      assert Flag(Scan(ts).0, Bold) == Flag(FormatAfter(ts), Bold);
      assert Flag(Scan(ts).0, Italic) == Flag(FormatAfter(ts), Italic);
      assert Flag(Scan(ts).0, Highlight) == Flag(FormatAfter(ts), Highlight);
    }
  }

  lemma SetByExtend(a: Attr, p: seq<string>, t: string)
    ensures SetBy(a, p + [t]) == (Opens(a, t) || (SetBy(a, p) && !Closes(a, t)))
  {
    var ts := p + [t];
    if Opens(a, t) {
      assert Opens(a, ts[|p|]);
    } else if SetBy(a, p) && !Closes(a, t) {
      var j :| 0 <= j < |p| && Opens(a, p[j]) && forall l :: j < l < |p| ==> !Closes(a, p[l]);
      assert ts[j] == p[j];
      forall l | j < l < |ts|
        ensures !Closes(a, ts[l])
      {
        if l < |p| {
          assert ts[l] == p[l];
        }
      }
    } else if SetBy(a, ts) {
      var j :| 0 <= j < |ts| && Opens(a, ts[j]) && forall l :: j < l < |ts| ==> !Closes(a, ts[l]);
      if j < |p| {
        assert !Closes(a, ts[|p|]);
        assert p[j] == ts[j];
        forall l | j < l < |p|
          ensures !Closes(a, p[l])
        {
          assert p[l] == ts[l];
        }
        assert SetBy(a, p);
      }
      assert false;
    }
  }

  /** Reference list of runs: the tokens from position k on that become runs,
      left to right, each with the reference flags of the tokens before it. */
  function RunsFrom(ts: seq<string>, k: nat): seq<Run>
    requires k <= |ts|
    decreases |ts| - k
  {
    if k == |ts| then []
    else (if Emits(ts[k]) then [Run(ts[k], FormatAfter(ts[..k]))] else []) + RunsFrom(ts, k + 1)
  }

  /** The loop emits the reference runs: one per text token that is not dropped,
      in token order, each carrying the flags set by the tags before it. */
  lemma RunsInTokenOrder(ts: seq<string>)
    ensures Scan(ts).1 == RunsFrom(ts, 0)
  {
    RunsSplitAt(ts, 0);
    assert ts[..0] == [];
  }

  lemma {:induction false} RunsSplitAt(ts: seq<string>, k: nat)
    requires k <= |ts|
    ensures Scan(ts[..k]).1 + RunsFrom(ts, k) == Scan(ts).1
    decreases |ts| - k
  {
    if k == |ts| {
      assert ts[..k] == ts;
    } else {
      RunsSplitAt(ts, k + 1);
      var pre := Scan(ts[..k]);
      var e := if Emits(ts[k]) then [Run(ts[k], pre.0)] else [];
      assert ts[..k + 1] == ts[..k] + [ts[k]];
      ScanSnoc(ts[..k], ts[k]);
      assert Scan(ts[..k + 1]).1 == pre.1 + e;
      ScanFlags(ts[..k]);
      assert RunsFrom(ts, k) == e + RunsFrom(ts, k + 1);
      AppendAssoc(pre.1, e, RunsFrom(ts, k + 1));
    }
  }

  /** The texts of the runs, concatenated: what the paragraph shows. */
  function Visible(runs: seq<Run>): string {
    if runs == [] then "" else runs[0].text + Visible(runs[1..])
  }

  lemma {:induction false} VisibleAppend(a: seq<Run>, b: seq<Run>)
    ensures Visible(a + b) == Visible(a) + Visible(b)
    decreases |a|
  {
    if a != [] {
      VisibleAppend(a[1..], b);
      assert (a + b)[1..] == a[1..] + b;
    } else {
      assert a + b == b;
    }
  }

  lemma {:induction false} VisibleRunsFrom(ts: seq<string>, k: nat)
    requires k < |ts| && Alternates(ts[k..])
    requires forall p :: p in EvenPieces(ts[k..]) ==> p == "" || Emits(p)
    ensures Visible(RunsFrom(ts, k)) == Concat(EvenPieces(ts[k..]))
    decreases |ts| - k
  {
    if k + 1 == |ts| {
      assert ts[k..] == [ts[k]];
      assert ts[k] in EvenPieces(ts[k..]);
      VisibleFirstRun(ts, k);
    } else {
      assert ts[k..][1] == ts[k + 1] && ts[k..][2..] == ts[k + 2..];
      EvenPiecesFrom(ts, k);
      assert ts[k] in EvenPieces(ts[k..]);
      VisibleRunsFrom(ts, k + 2);
      VisibleRunsFromStep(ts, k);
    }
  }

  /** The run a text piece adds shows exactly that piece. */
  lemma VisibleFirstRun(ts: seq<string>, k: nat)
    requires k < |ts| && (ts[k] == "" || Emits(ts[k]))
    ensures Visible(RunsFrom(ts, k)) == ts[k] + Visible(RunsFrom(ts, k + 1))
  {
    var first := if Emits(ts[k]) then [Run(ts[k], FormatAfter(ts[..k]))] else [];
    assert Visible(first) == ts[k];
    VisibleAppend(first, RunsFrom(ts, k + 1));
  }

  /** One text piece and the tag after it: the text shows, the tag adds no run. */
  lemma VisibleRunsFromStep(ts: seq<string>, k: nat)
    requires k + 2 < |ts| && IsTag(ts[k + 1]) && (ts[k] == "" || Emits(ts[k]))
    requires Visible(RunsFrom(ts, k + 2)) == Concat(EvenPieces(ts[k + 2..]))
    ensures Visible(RunsFrom(ts, k)) == Concat(EvenPieces(ts[k..]))
  {
    VisibleFirstRun(ts, k);
    assert RunsFrom(ts, k + 1) == RunsFrom(ts, k + 2);
    EvenPiecesFrom(ts, k);
    assert ([ts[k]] + EvenPieces(ts[k + 2..]))[1..] == EvenPieces(ts[k + 2..]);
  }

  lemma EvenPiecesFrom(ts: seq<string>, k: nat)
    requires k + 2 < |ts|
    ensures EvenPieces(ts[k..]) == [ts[k]] + EvenPieces(ts[k + 2..])
  {
    assert ts[k..][1..] == ts[k + 1..];
    assert ts[k + 1..][1..] == ts[k + 2..];
  }

  /** When no text between tags is dropped, the runs spell out the line with its
      tags deleted, as `re.sub` deletes them. */
  lemma RichTextShowsStrippedLine(text: string)
    requires forall p :: p in EvenPieces(Split(text)) ==> p == "" || Emits(p)
    ensures Visible(RichText(text)) == StripTags(text)
  {
    var ts := Split(text);
    SplitSpec(text);
    RunsInTokenOrder(ts);
    assert ts[0..] == ts;
    VisibleRunsFrom(ts, 0);
    StripTagsIsSplitText(text);
  }

  /** A line without `<` and without `background-color` gives one plain run equal
      to the line, or no run at all when the line is empty. */
  lemma PlainLineOneRun(text: string)
    requires '<' !in text && !Contains(text, "background-color")
    ensures RichText(text) == if text == "" then [] else [Run(text, Plain)]
  {
    NoAngleNoTag(text);
    SplitNoTag(text);
    assert [text][..0] == [];
  }

  /** A line without tags gives at most one run, and that run is unformatted. */
  lemma NoTagLineIsPlain(text: string)
    requires NoTag(text)
    ensures |RichText(text)| <= 1
    ensures forall r :: r in RichText(text) ==> r.format == Plain
  {
    SplitNoTag(text);
    assert [text][..0] == [];
  }

  /** `<b>` and `</b>` act exactly as `<strong>` and `</strong>` do. */
  predicate SameEffect(t: string, u: string) {
    t == u
    || (t == "<b>" && u == "<strong>") || (t == "<strong>" && u == "<b>")
    || (t == "</b>" && u == "</strong>") || (t == "</strong>" && u == "</b>")
  }

  lemma {:induction false} BoldSpellingsAgree(ts: seq<string>, us: seq<string>)
    requires |ts| == |us|
    requires forall k :: 0 <= k < |ts| ==> SameEffect(ts[k], us[k])
    ensures Scan(ts) == Scan(us)
    decreases |ts|
  {
    if ts != [] {
      var n := |ts| - 1;
      BoldSpellingsAgree(ts[..n], us[..n]);
      StepSameEffect(Scan(ts[..n]).0, ts[n], us[n]);
    }
  }

  lemma StepSameEffect(f: Format, t: string, u: string)
    requires SameEffect(t, u)
    ensures Step(f, t) == Step(f, u)
  {
    ContainsLength(t, "background-color");
    ContainsLength(u, "background-color");
  }

  /** `<strong>` switches bold on and adds no run. */
  lemma StepOpenBold(f: Format)
    ensures Step(f, "<strong>") == (f.(bold := true), [])
  {
    ContainsLength("<strong>", "background-color");
  }

  /** `</strong>` switches bold off and adds no run. */
  lemma StepCloseBold(f: Format)
    ensures Step(f, "</strong>") == (f.(bold := false), [])
  {
    ContainsLength("</strong>", "background-color");
  }

  /** An empty piece changes nothing. */
  lemma StepEmpty(f: Format)
    ensures Step(f, "") == (f, [])
  {
    ContainsLength("", "background-color");
  }

  /** A closing tag only switches its own flag off, leaves the other flags as
      they were and adds no run, whether or not the flag was on. */
  lemma StepCloses(f: Format, a: Attr, t: string)
    requires Closes(a, t)
    ensures !Flag(Step(f, t).0, a) && Step(f, t).1 == []
    ensures forall b: Attr :: b != a ==> Flag(Step(f, t).0, b) == Flag(f, b)
  {
    ContainsLength(t, "background-color");
  }

  /** A token mentioning `background-color`, tag or text, switches highlight on,
      leaves bold and italic alone and adds no run. */
  lemma StepBackgroundColor(f: Format, t: string)
    requires Contains(t, "background-color")
    ensures Step(f, t) == (f.(highlight := true), [])
  {
    ContainsLength(t, "background-color");
  }

  /** Any other token starting with `<` changes nothing and adds no run. */
  lemma StepOtherTag(f: Format, t: string)
    requires t != [] && t[0] == '<'
    requires forall a: Attr :: !Opens(a, t) && !Closes(a, t)
    ensures Step(f, t) == (f, [])
  {
    assert !Opens(Highlight, t);
  }

  /** Text wrapped in `<strong>` and followed by more text gives a bold run, then
      an unformatted one: the closing tag switches bold off again. */
  lemma BoldThenPlain(x: string, y: string)
    requires '<' !in x && '<' !in y && Emits(x) && Emits(y)
    ensures RichText("<strong>" + (x + ("</strong>" + y)))
         == [Run(x, Format(true, false, false)), Run(y, Plain)]
  {
    var o, c := "<strong>", "</strong>";
    BoldTags(o, c);
    SplitBoldThenPlain(o, x, c, y);
    ScanBoldThenPlain("", o, x, c, y);
  }

  lemma BoldTags(o: string, c: string)
    requires o == "<strong>" && c == "</strong>"
    ensures IsTag(o) && IsTag(c)
  {
    Bracketed("strong");
    assert o == ['<'] + "strong" + ['>'];
    Bracketed("/strong");
    assert c == ['<'] + "/strong" + ['>'];
  }

  lemma ScanOpenBold(e: string, o: string)
    requires e == "" && o == "<strong>"
    ensures Scan([e, o]) == (Format(true, false, false), [])
  {
    var none: seq<Run> := [];
    assert none + none == none;
    StepEmpty(Plain);
    assert [] + [e] == [e];
    ScanStep([], e, Plain, none, Plain, none);
    StepOpenBold(Plain);
    assert [e] + [o] == [e, o];
    ScanStep([e], o, Plain, none, Format(true, false, false), none);
  }

  lemma ScanBoldText(e: string, o: string, x: string, c: string)
    requires e == "" && o == "<strong>" && c == "</strong>" && Emits(x)
    ensures Scan([e, o, x, c]) == (Plain, [Run(x, Format(true, false, false))])
  {
    var bold := Format(true, false, false);
    var none: seq<Run> := [];
    var rx := [Run(x, bold)];
    assert none + rx == rx && rx + none == rx;
    ScanOpenBold(e, o);
    StepText(bold, x);
    assert [e, o] + [x] == [e, o, x];
    ScanStep([e, o], x, bold, none, bold, rx);
    StepCloseBold(bold);
    assert [e, o, x] + [c] == [e, o, x, c];
    ScanStep([e, o, x], c, bold, rx, Plain, none);
  }

  lemma ScanBoldThenPlain(e: string, o: string, x: string, c: string, y: string)
    requires e == "" && o == "<strong>" && c == "</strong>" && Emits(x) && Emits(y)
    ensures Scan([e, o, x, c, y]) == (Plain, [Run(x, Format(true, false, false)), Run(y, Plain)])
  {
    var rx, ry := [Run(x, Format(true, false, false))], [Run(y, Plain)];
    ScanBoldText(e, o, x, c);
    StepText(Plain, y);
    assert [e, o, x, c] + [y] == [e, o, x, c, y];
    ScanStep([e, o, x, c], y, Plain, rx, Plain, ry);
    assert rx + ry == [Run(x, Format(true, false, false)), Run(y, Plain)];
  }

  /** A text token that becomes a run leaves every flag as it was. */
  lemma StepText(f: Format, t: string)
    requires Emits(t)
    ensures Step(f, t) == (f, [Run(t, f)])
  {
  }

  lemma ScanSnoc(p: seq<string>, t: string)
    ensures Scan(p + [t]) == (Step(Scan(p).0, t).0, Scan(p).1 + Step(Scan(p).0, t).1)
  {
    assert (p + [t])[..|p|] == p;
  }

  lemma ScanStep(p: seq<string>, t: string, f: Format, rs: seq<Run>, f': Format, added: seq<Run>)
    requires Scan(p) == (f, rs) && Step(f, t) == (f', added)
    ensures Scan(p + [t]) == (f', rs + added)
  {
    ScanSnoc(p, t);
  }

  lemma SplitBoldThenPlain(a: string, x: string, b: string, y: string)
    requires IsTag(a) && IsTag(b) && '<' !in x && '<' !in y
    ensures Split(a + (x + (b + y))) == ["", a, x, b, y]
  {
    NoAngleNoTag(y);
    SplitNoTag(y);
    SplitTagFirst(b, y);
    var r := Split(b + y);
    SplitPlainFirst(x, b + y);
    assert r[0] == "" && r[1..] == [b, y];
    assert x + r[0] == x;
    assert Split(x + (b + y)) == [x, b, y];
    SplitTagFirst(a, x + (b + y));
  }

  /** `"<strong>Price</strong>: 100"` gives "Price" in bold, then ": 100" not in bold. */
  lemma PriceExample(line: string)
    requires line == "<strong>Price</strong>: 100"
    ensures RichText(line) == [Run("Price", Format(true, false, false)), Run(": 100", Plain)]
  {
    var x, y := "Price", ": 100";
    ContainsLength(x, "background-color");
    ContainsLength(y, "background-color");
    PriceLineParts(line);
    BoldThenPlain(x, y);
  }

  lemma PriceLineParts(line: string)
    requires line == "<strong>Price</strong>: 100"
    ensures line == "<strong>" + ("Price" + ("</strong>" + ": 100"))
  {
  }

  // ---------------------------------------------------------------------------
  // Building the document
  // ---------------------------------------------------------------------------

  /** A paragraph of the document being built: its style and the runs added to it. */
  class Paragraph {
    const style: Style
    var runs: seq<Run>

    constructor (style: Style)
      ensures this.style == style && runs == []
    {
      this.style := style;
      runs := [];
    }

    /** `paragraph.add_run(text)`, with the run's flags set right after. */
    method AddRun(r: Run)
      modifies this
      ensures runs == old(runs) + [r]
    {
      runs := runs + [r];
    }

    function AsBlock(): Block
      reads this
    {
      Body(style, runs)
    }
  }

  /** The document being built: its blocks, in the order they were added. */
  class Document {
    var blocks: seq<Block>

    constructor ()
      ensures blocks == []
    {
      blocks := [];
    }

    /** `document.add_heading(text, level)` */
    method AddHeading(text: string, level: nat)
      modifies this
      ensures blocks == old(blocks) + [Heading(text, level)]
    {
      blocks := blocks + [Heading(text, level)];
    }

    /** `document.add_paragraph(style=...)`, once its runs are in place. */
    method AddParagraph(p: Paragraph)
      modifies this
      ensures blocks == old(blocks) + [p.AsBlock()]
    {
      blocks := blocks + [p.AsBlock()];
    }
  }

  /** One turn of the loop of `_add_rich_text`: the token switches a flag, is
      skipped, or is added to the paragraph as a run with the current flags. */
  method ApplyToken(paragraph: Paragraph, bold: bool, italic: bool, highlight: bool, token: string)
    returns (bold': bool, italic': bool, highlight': bool)
    modifies paragraph
    ensures Format(bold', italic', highlight') == Step(Format(bold, italic, highlight), token).0
    ensures paragraph.runs == old(paragraph.runs) + Step(Format(bold, italic, highlight), token).1
  {
    ContainsLength(token, "background-color");
    StartsWithChar(token, '<');
    bold', italic', highlight' := bold, italic, highlight;
    if token == "" {
      // empty pieces between adjacent tags are skipped
    } else if token == "<strong>" || token == "<b>" {
      bold' := true;
    } else if token == "</strong>" || token == "</b>" {
      bold' := false;
    } else if token == "<i>" {
      italic' := true;
    } else if token == "</i>" {
      italic' := false;
    } else if Contains(token, "background-color") {
      highlight' := true;
    } else if token == "</span>" && highlight {
      highlight' := false;
    } else if StartsWith(token, "<") {
      // any other tag is ignored
    } else {
      paragraph.AddRun(Run(token, Format(bold, italic, highlight)));
    }
  }

  /** `_add_rich_text(paragraph, text)`: splits the line into tokens and walks
      them once, keeping three flags that start false, and adds to the paragraph
      the runs of `RichText(text)`. */
  method AddRichText(paragraph: Paragraph, text: string)
    modifies paragraph
    ensures paragraph.runs == old(paragraph.runs) + RichText(text)
  {
    var tokens := Split(text);
    var currentBold, currentItalic, currentHighlight := false, false, false;
    for i := 0 to |tokens|
      invariant Format(currentBold, currentItalic, currentHighlight) == Scan(tokens[..i]).0
      invariant paragraph.runs == old(paragraph.runs) + Scan(tokens[..i]).1
    {
      assert tokens[..i + 1] == tokens[..i] + [tokens[i]];
      ScanSnoc(tokens[..i], tokens[i]);
      AppendAssoc(old(paragraph.runs), Scan(tokens[..i]).1, Step(Scan(tokens[..i]).0, tokens[i]).1);
      currentBold, currentItalic, currentHighlight :=
        ApplyToken(paragraph, currentBold, currentItalic, currentHighlight, tokens[i]);
    }
    assert tokens[..|tokens|] == tokens;
  }

  /** What `create_docx` adds for one line of the article, if anything: nothing
      for a line that is blank once trimmed; a level-1 heading for a line holding
      `<h2>` or starting with `# `; a bullet item for one holding `<li>` or
      starting with `- `; otherwise a paragraph when the line has text besides
      its tags. */
  function LineBlock(raw: string): Option<Block> {
    var line := Strip(raw);
    if line == "" then None
    else if Contains(line, "<h2>") || StartsWith(line, "# ") then
      Some(Heading(RemoveAll(StripTags(line), "# "), 1))
    else if Contains(line, "<li>") || StartsWith(line, "- ") then
      Some(Body(ListBullet, RichText(RemoveAll(StripTags(line), "- "))))
    else if StripTags(line) != "" then Some(Body(Normal, RichText(line)))
    else None
  }

  /** The shape of what a line adds. Only a line with something besides
      whitespace adds a block. A heading has level 1 and its text holds no tag.
      A bullet item is stripped of its tags before its runs are parsed, so it has
      at most one run and that run is unformatted. A plain paragraph is added only
      when the line has text besides its tags. */
  lemma LineBlockShape(raw: string)
    ensures var b := LineBlock(raw);
      && (b.Some? ==> Strip(raw) != [])
      && (b.Some? && b.value.Heading? ==> b.value.level == 1 && NoTag(b.value.text))
      && (b.Some? && b.value.Body? && b.value.style == ListBullet ==>
            |b.value.runs| <= 1 && forall r :: r in b.value.runs ==> r.format == Plain)
      && (b.Some? && b.value.Body? && b.value.style == Normal ==> StripTags(Strip(raw)) != [])
  {
    var line := Strip(raw);
    if line != "" {
      StripTagsLeavesNoTag(line);
      if Contains(line, "<h2>") || StartsWith(line, "# ") {
        RemoveAllKeepsNoTag(StripTags(line), "# ");
      } else if Contains(line, "<li>") || StartsWith(line, "- ") {
        RemoveAllKeepsNoTag(StripTags(line), "- ");
        NoTagLineIsPlain(RemoveAll(StripTags(line), "- "));
      }
    }
  }

  /** A heading line whose text is empty once its tags and `# ` are removed.
      python-docx adds such a heading without any run, so `h.runs[0]` raises
      IndexError and `create_docx` fails on this line. */
  predicate EmptyHeading(raw: string) {
    var line := Strip(raw);
    line != "" && (Contains(line, "<h2>") || StartsWith(line, "# ")) && RemoveAll(StripTags(line), "# ") == ""
  }

  /** A line fails exactly when the block it stands for is a heading with no text. */
  lemma EmptyHeadingIff(raw: string)
    ensures EmptyHeading(raw) <==> LineBlock(raw) == Some(Heading("", 1))
  {
  }

  /** `<h2></h2>` is a heading with no text: `create_docx` fails on it. */
  lemma EmptyHeadingExample(open: string, close: string)
    requires open == "<h2>" && close == "</h2>"
    ensures EmptyHeading(open + close)
  {
    var line := open + close;
    StripUnchanged(line);
    assert StartsWith(line, "<h2>") by {
      assert line[..4] == open;
    }
    Bracketed("h2");
    Bracketed("/h2");
    assert open == "<" + "h2" + ">" && close == "<" + "/h2" + ">";
    TagLenOfTag(open, close);
    assert line[|open|..] == close;
    TagLenOfTag(close, "");
    assert close + "" == close && close[|close|..] == "";
  }

  /** The index of the first line on which `create_docx` fails, or the number
      of lines when it fails on none. */
  function FirstEmptyHeading(lines: seq<string>): (k: nat)
    ensures k <= |lines|
    ensures forall j :: 0 <= j < k ==> !EmptyHeading(lines[j])
    ensures k < |lines| ==> EmptyHeading(lines[k])
  {
    if lines == [] then 0
    else if EmptyHeading(lines[0]) then 0
    else 1 + FirstEmptyHeading(lines[1..])
  }

  /** Some line of the list is a heading with no text. */
  predicate SomeLineFails(lines: seq<string>)
    decreases |lines|
  {
    lines != [] && (EmptyHeading(lines[0]) || SomeLineFails(lines[1..]))
  }

  /** The first failing line is found exactly when some line fails. */
  lemma {:induction false} FirstEmptyHeadingFound(lines: seq<string>)
    ensures FirstEmptyHeading(lines) < |lines| <==> SomeLineFails(lines)
    decreases |lines|
  {
    if lines != [] && !EmptyHeading(lines[0]) {
      FirstEmptyHeadingFound(lines[1..]);
    }
  }

  /** A line that fails makes the list fail. */
  lemma {:induction false} SomeLineFailsIff(lines: seq<string>)
    ensures SomeLineFails(lines) <==> exists i :: 0 <= i < |lines| && EmptyHeading(lines[i])
    decreases |lines|
  {
    if lines != [] {
      SomeLineFailsIff(lines[1..]);
      if exists i :: 0 <= i < |lines| && EmptyHeading(lines[i]) {
        var i :| 0 <= i < |lines| && EmptyHeading(lines[i]);
        if i > 0 {
          assert EmptyHeading(lines[1..][i - 1]);
        }
      }
      if SomeLineFails(lines[1..]) {
        var i :| 0 <= i < |lines| - 1 && EmptyHeading(lines[1..][i]);
        assert EmptyHeading(lines[i + 1]);
      }
    }
  }

  /** `create_docx` raises on this content. */
  predicate RenderFails(content: string) {
    SomeLineFails(SplitOn(content, '\n'))
  }

  /** `create_docx` raises on a content exactly when one of its lines is a
      heading with no text. */
  lemma RenderFailsIff(content: string)
    ensures RenderFails(content) <==>
      exists i :: 0 <= i < |SplitOn(content, '\n')| && EmptyHeading(SplitOn(content, '\n')[i])
  {
    var lines := SplitOn(content, '\n');
    SomeLineFailsIff(lines);
    if SomeLineFails(lines) {
      var i :| 0 <= i < |lines| && EmptyHeading(lines[i]);
      assert EmptyHeading(SplitOn(content, '\n')[i]);
    }
  }

  /** Before the first failing line: a line that does not fail moves past it. */
  lemma LineWritten(lines: seq<string>, i: nat)
    requires i < |lines| && i <= FirstEmptyHeading(lines) && !EmptyHeading(lines[i])
    ensures i + 1 <= FirstEmptyHeading(lines)
  {
  }

  /** Before the first failing line: a line that fails is the first one. */
  lemma LineFails(lines: seq<string>, i: nat)
    requires i < |lines| && i <= FirstEmptyHeading(lines) && EmptyHeading(lines[i])
    ensures FirstEmptyHeading(lines) == i
  {
  }

  /** The blocks present in a sequence of optional blocks, in order. */
  function Present(opts: seq<Option<Block>>): (r: seq<Block>)
    ensures |r| <= |opts|
  {
    if opts == [] then []
    else
      var last := opts[|opts| - 1];
      Present(opts[..|opts| - 1]) + (if last.Some? then [last.value] else [])
  }

  lemma {:induction false} PresentAppend(a: seq<Option<Block>>, b: seq<Option<Block>>)
    ensures Present(a + b) == Present(a) + Present(b)
    decreases |b|
  {
    if b == [] {
      assert a + b == a;
    } else {
      var b' := b[..|b| - 1];
      PresentAppend(a, b');
      assert (a + b)[..|a + b| - 1] == a + b';
    }
  }

  /** `f` applied to every element, in order. */
  function Map<A, B>(f: A -> B, xs: seq<A>): (r: seq<B>)
    ensures |r| == |xs|
  {
    if xs == [] then [] else Map(f, xs[..|xs| - 1]) + [f(xs[|xs| - 1])]
  }

  lemma {:induction false} MapAppend<A, B>(f: A -> B, a: seq<A>, b: seq<A>)
    ensures Map(f, a + b) == Map(f, a) + Map(f, b)
    decreases |b|
  {
    if b == [] {
      assert a + b == a;
    } else {
      var b' := b[..|b| - 1];
      MapAppend(f, a, b');
      assert (a + b)[..|a + b| - 1] == a + b';
      AppendAssoc(Map(f, a), Map(f, b'), [f(b[|b| - 1])]);
    }
  }

  /** The blocks the lines add, in line order. */
  function BodyBlocks(lines: seq<string>): (r: seq<Block>)
    ensures |r| <= |lines|
  {
    Present(Map(LineBlock, lines))
  }

  lemma BodyBlocksAppend(a: seq<string>, b: seq<string>)
    ensures BodyBlocks(a + b) == BodyBlocks(a) + BodyBlocks(b)
  {
    MapAppend(LineBlock, a, b);
    PresentAppend(Map(LineBlock, a), Map(LineBlock, b));
  }

  /** Adding one more line adds that line's block, if any, at the end. */
  lemma BodyBlocksSnoc(p: seq<string>, line: string)
    ensures BodyBlocks(p + [line]) == BodyBlocks(p) + (if LineBlock(line).Some? then [LineBlock(line).value] else [])
  {
    BodyBlocksAppend(p, [line]);
    var none: seq<Option<Block>> := [];
    assert [line][..0] == [];
    assert Map(LineBlock, [line]) == none + [LineBlock(line)];
    assert [LineBlock(line)][..0] == none;
  }

  /** The document `create_docx` builds: the title as a level-0 heading, then at
      most one block per line of the content. */
  function Render(title: string, content: string): (r: seq<Block>)
    ensures |r| >= 1 && r[0] == Heading(title, 0)
    ensures |r| <= 1 + |SplitOn(content, '\n')|
  {
    [Heading(title, 0)] + BodyBlocks(SplitOn(content, '\n'))
  }

  /** Content made of two parts joined by a newline renders as the first part,
      followed by the blocks of the second: blocks keep the order of their lines. */
  lemma RenderInLineOrder(title: string, a: string, b: string)
    ensures Render(title, a + "\n" + b) == Render(title, a) + BodyBlocks(SplitOn(b, '\n'))
  {
    var la, lb := SplitOn(a, '\n'), SplitOn(b, '\n');
    assert a + "\n" + b == a + ['\n'] + b;
    SplitOnAppend(a, b, '\n');
    BodyBlocksAppend(la, lb);
    AppendAssoc([Heading(title, 0)], BodyBlocks(la), BodyBlocks(lb));
  }

  /** A line of whitespace only adds no block. */
  lemma BlankLineAddsNothing(raw: string)
    requires forall i :: 0 <= i < |raw| ==> IsSpace(raw[i])
    ensures LineBlock(raw) == None
  {
    StripEmptyIff(raw);
  }

  /** A trimmed line that starts with `# ` and holds no tag is a heading. */
  lemma MarkdownHeadingLine(line: string, t: string)
    requires line != [] && Strip(line) == line && StartsWith(line, "# ")
    requires StripTags(line) == line && RemoveAll(line, "# ") == t
    ensures LineBlock(line) == Some(Heading(t, 1))
  {
  }

  /** A trimmed line that starts with `- `, is not a heading and holds no tag is
      a bullet item with the rest of the line as its runs. */
  lemma MarkdownBulletLine(line: string, t: string)
    requires line != [] && Strip(line) == line && StartsWith(line, "- ")
    requires !Contains(line, "<h2>") && StripTags(line) == line && RemoveAll(line, "- ") == t
    ensures LineBlock(line) == Some(Body(ListBullet, RichText(t)))
  {
  }

  /** A marker character and a space before tag-free text `t`: the line needs no
      trimming, has no tag to strip, and removing the marker leaves `t`. */
  lemma MarkerLine(m: char, t: string)
    requires t != [] && !IsSpace(t[|t| - 1]) && !IsSpace(m)
    requires '<' !in t && m != '<' && !Contains(t, [m, ' '])
    ensures var line := [m, ' '] + t;
      Strip(line) == line && StripTags(line) == line && RemoveAll(line, [m, ' ']) == t
      && '<' !in line
  {
    var line := [m, ' '] + t;
    assert line[2..] == t;
    assert '<' !in line by {
      forall i | 0 <= i < |line| ensures line[i] != '<' {
        if i >= 2 {
          assert line[i] == t[i - 2];
        }
      }
    }
    StripUnchanged(line);
    StripTagsNoAngle(line);
    RemoveAllPrefix([m, ' '], t);
    RemoveAllAbsent(t, [m, ' ']);
  }

  /** `"# " + t` becomes a level-1 heading reading `t`. */
  lemma MarkdownHeading(t: string)
    requires t != [] && !IsSpace(t[|t| - 1])
    requires '<' !in t && !Contains(t, "# ")
    ensures LineBlock("# " + t) == Some(Heading(t, 1))
  {
    assert "# " == ['#', ' '];
    MarkerLine('#', t);
    assert "# " + t == ['#', ' '] + t;
    MarkdownHeadingLine("# " + t, t);
  }

  lemma MarkdownBulletFacts(t: string)
    requires t != [] && !IsSpace(t[|t| - 1])
    requires '<' !in t && !Contains(t, "- ")
    ensures var line := "- " + t;
      line != [] && Strip(line) == line && StartsWith(line, "- ") && !Contains(line, "<h2>")
      && StripTags(line) == line && RemoveAll(line, "- ") == t
  {
    var line := "- " + t;
    assert "- " == ['-', ' '];
    MarkerLine('-', t);
    assert line == ['-', ' '] + t;
    NotContainsWithoutFirstChar(line, "<h2>");
  }

  /** `"- " + t` becomes a bullet paragraph with one unformatted run reading `t`. */
  lemma MarkdownBullet(t: string)
    requires t != [] && !IsSpace(t[|t| - 1])
    requires '<' !in t && !Contains(t, "- ") && !Contains(t, "background-color")
    ensures LineBlock("- " + t) == Some(Body(ListBullet, [Run(t, Plain)]))
  {
    MarkdownBulletFacts(t);
    MarkdownBulletLine("- " + t, t);
    PlainLineOneRun(t);
  }

  /** `"# Overview"` is a level-1 heading reading `Overview`. */
  lemma HeadingExample(h: string)
    requires h == "Overview"
    ensures LineBlock("# " + h) == Some(Heading("Overview", 1))
  {
    NotContainsWithoutFirstChar(h, "# ");
    MarkdownHeading(h);
  }

  /** `"- Try the noodles"` is a bullet item with one unformatted run. */
  lemma BulletExample(li: string)
    requires li == "Try the noodles"
    ensures LineBlock("- " + li) == Some(Body(ListBullet, [Run("Try the noodles", Plain)]))
  {
    ContainsLength(li, "background-color");
    NotContainsWithoutFirstChar(li, "- ");
    MarkdownBullet(li);
  }

  // ---------------------------------------------------------------------------
  // Naming the saved file
  // ---------------------------------------------------------------------------

  /** The directory documents are saved in. */
  const OutputDir := "outputs"

  /** Characters removed from a title before it goes into a default file name. */
  predicate UnsafeInTitle(c: char) {
    c in "\\/*?:\"<>|"
  }

  /** Removes every character of the unsafe set from the title. */
  function SafeTitle(title: string): (r: string)
    ensures forall c :: c in r <==> c in title && !UnsafeInTitle(c)
    ensures |r| <= |title|
  {
    if title == [] then []
    else (if UnsafeInTitle(title[0]) then [] else [title[0]]) + SafeTitle(title[1..])
  }

  /** The title is cleaned character by character: the cleaned parts of two
      pieces, in order, make the cleaned whole. */
  lemma {:induction false} SafeTitleAppend(a: string, b: string)
    ensures SafeTitle(a + b) == SafeTitle(a) + SafeTitle(b)
    decreases |a|
  {
    if a == [] {
      assert a + b == b;
    } else {
      assert (a + b)[0] == a[0] && (a + b)[1..] == a[1..] + b;
      SafeTitleAppend(a[1..], b);
      AppendAssoc(if UnsafeInTitle(a[0]) then [] else [a[0]], SafeTitle(a[1..]), SafeTitle(b));
    }
  }

  /** One character is dropped when it is unsafe and kept otherwise. */
  lemma SafeTitleChar(c: char)
    ensures SafeTitle([c]) == if UnsafeInTitle(c) then [] else [c]
  {
    assert [c][1..] == [];
  }

  /** The file name `create_docx` saves under: the given name, or by default the
      location, `_`, the title without unsafe characters and `.docx`; then
      `.docx` is appended unless the name already ends with it. */
  function DocxName(location: string, title: string, filename: Option<string>): (r: string)
    ensures EndsWith(r, ".docx")
    ensures (filename.None? || filename.value == "") ==> r == location + "_" + SafeTitle(title) + ".docx"
    ensures filename.Some? && filename.value != "" ==> StartsWith(r, filename.value)
  {
    var name := if filename.None? || filename.value == "" then location + "_" + SafeTitle(title) + ".docx"
                else filename.value;
    if EndsWith(name, ".docx") then name else name + ".docx"
  }

  /** A given name that already ends with `.docx` is used as it is; so naming
      is idempotent. */
  lemma DocxNameIdempotent(location: string, title: string, name: string)
    requires EndsWith(name, ".docx")
    ensures DocxName(location, title, Some(name)) == name
  {
  }

  /** A given name without `.docx` at its end gets it appended. */
  lemma DocxNameAppendsExtension(location: string, title: string, name: string)
    requires name != [] && !EndsWith(name, ".docx")
    ensures DocxName(location, title, Some(name)) == name + ".docx"
  {
  }

  /** `os.path.join("outputs", filename)`: the path `create_docx` returns. */
  function DocxPath(location: string, title: string, filename: Option<string>): string {
    Join(OutputDir, DocxName(location, title, filename))
  }

  /** One more line of the loop of `create_docx` adds that line's block, if any. */
  lemma RenderStep(title: string, lines: seq<string>, i: nat)
    requires i < |lines|
    ensures [Heading(title, 0)] + BodyBlocks(lines[..i + 1])
         == [Heading(title, 0)] + BodyBlocks(lines[..i])
            + (if LineBlock(lines[i]).Some? then [LineBlock(lines[i]).value] else [])
  {
    assert lines[..i + 1] == lines[..i] + [lines[i]];
    BodyBlocksSnoc(lines[..i], lines[i]);
    AppendAssoc([Heading(title, 0)], BodyBlocks(lines[..i]),
                if LineBlock(lines[i]).Some? then [LineBlock(lines[i]).value] else []);
  }

  /** One turn of the loop of `create_docx`: trims the line and adds the block
      it stands for, if any, to the document. `ok` is false when the block is a
      heading with no text, whose missing first run raises IndexError. */
  method AddLine(document: Document, raw: string) returns (ok: bool)
    modifies document
    ensures ok == !EmptyHeading(raw)
    ensures document.blocks == old(document.blocks) + (if LineBlock(raw).Some? then [LineBlock(raw).value] else [])
  {
    ok := true;
    var line := Strip(raw);
    if line == "" {
      // blank lines are skipped
    } else if Contains(line, "<h2>") || StartsWith(line, "# ") {
      var cleanText := RemoveAll(StripTags(line), "# ");
      document.AddHeading(cleanText, 1);
      ok := cleanText != "";
    } else if Contains(line, "<li>") || StartsWith(line, "- ") {
      var cleanText := RemoveAll(StripTags(line), "- ");
      var p := new Paragraph(ListBullet);
      AddRichText(p, cleanText);
      assert p.runs == RichText(cleanText);
      document.AddParagraph(p);
    } else {
      var cleanText := StripTags(line);
      if cleanText != "" {
        var p := new Paragraph(Normal);
        AddRichText(p, line);
        assert p.runs == RichText(line);
        document.AddParagraph(p);
      }
    }
  }

  /** `create_docx(location, title, content, filename)`: builds the document line
      by line and returns the path it is saved under, or None when a heading
      with no text makes it raise; the document then ends with that heading. */
  method CreateDocx(location: string, title: string, content: string, filename: Option<string>)
    returns (document: Document, filepath: Option<string>)
    ensures fresh(document)
    ensures filepath.Some? <==> !RenderFails(content)
    ensures filepath.Some? ==> document.blocks == Render(title, content)
                               && filepath.value == DocxPath(location, title, filename)
    ensures filepath.None? ==> var lines := SplitOn(content, '\n');
      FirstEmptyHeading(lines) < |lines|
      && document.blocks == [Heading(title, 0)] + BodyBlocks(lines[..FirstEmptyHeading(lines) + 1])
  {
    document := new Document();
    document.AddHeading(title, 0);
    var lines := SplitOn(content, '\n');
    FirstEmptyHeadingFound(lines);
    var ok := AddLines(document, title, lines);
    if !ok {
      filepath := None;
      return;
    }
    filepath := Some(DocxPath(location, title, filename));
  }

  /** What a caller of `create_docx` gets back: the path the document is saved
      under, or None when building it raised. */
  method SaveDocx(location: string, title: string, content: string, filename: Option<string>)
    returns (filepath: Option<string>)
    ensures filepath.Some? <==> !RenderFails(content)
    ensures filepath.Some? ==> filepath.value == DocxPath(location, title, filename)
  {
    var document;
    document, filepath := CreateDocx(location, title, content, filename);
  }

  /** The loop of `create_docx` over the lines of the content, after the title:
      it stops at the first heading with no text, after adding that heading. */
  method AddLines(document: Document, title: string, lines: seq<string>) returns (ok: bool)
    requires document.blocks == [Heading(title, 0)]
    modifies document
    ensures ok == (FirstEmptyHeading(lines) == |lines|)
    ensures ok ==> document.blocks == [Heading(title, 0)] + BodyBlocks(lines)
    ensures !ok ==> document.blocks == [Heading(title, 0)] + BodyBlocks(lines[..FirstEmptyHeading(lines) + 1])
  {
    assert BodyBlocks(lines[..0]) == [] by {
      assert lines[..0] == [];
    }
    for i := 0 to |lines|
      invariant document.blocks == [Heading(title, 0)] + BodyBlocks(lines[..i])
      invariant i <= FirstEmptyHeading(lines)
    {
      RenderStep(title, lines, i);
      ok := AddLine(document, lines[i]);
      if !ok {
        LineFails(lines, i);
        return;
      }
      LineWritten(lines, i);
    }
    assert lines[..|lines|] == lines;
    ok := true;
  }
}
