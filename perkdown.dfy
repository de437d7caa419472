/**
 * The document gate, `isPerkdown` (src/index.ts:137-148), and the two entry
 * points built on the evaluator, `evaluatePerkdown` (src/index.ts:27-46) and
 * `evaluatePerkdownStrict` (src/index.ts:49-67).
 */
module Perkdown {
  import opened Wrappers
  import opened Lines
  import opened Tags
  import opened Policy
  import opened Evaluator

  /** EvaluatedPerkdown (src/index.ts:12-15). */
  datatype Evaluated = Evaluated(markdown: string, meta: Meta)

  /** The opt-in tag: namespace `USE`, key `PRKMD`, any value. */
  predicate IsUseTag(t: Option<Tag>) {
    t.Some? && t.value.namespace == "USE" && t.value.key == "PRKMD"
  }

  /**
   * isPerkdown: the text before the first line feed is the opt-in tag, so that
   * line at least holds a comment opener.
   */
  predicate IsPerkdown(doc: string): (r: bool)
    ensures r ==> Contains(FirstLine(doc), "<!--")
  {
    IsUseTag(ParseTag(FirstLine(doc)))
  }

  /** The markdown and metadata of the whole document, evaluated as the root block. */
  function Rendered(doc: string, settings: Settings): Evaluated {
    var o := Evaluate(doc, settings, Root);
    Evaluated(Unlines(o.emitted), o.meta)
  }

  /**
   * evaluatePerkdown: a document that does not opt in passes through unchanged
   * with no metadata; one that does is evaluated as the root block. The
   * fallbacks for a missing result or markdown can never fire, as the block
   * evaluator always returns both.
   */
  method EvaluatePerkdown(perkdown: string, settings: Settings) returns (r: Evaluated)
    ensures !IsPerkdown(perkdown) ==> r == Evaluated(perkdown, map[])
    ensures IsPerkdown(perkdown) ==> r == Rendered(perkdown, settings)
  {
    if !IsPerkdown(perkdown) {
      return Evaluated(perkdown, map[]);
    }
    var out := EvaluateBlock(perkdown, settings, Root);
    r := Evaluated(out.markdown, out.meta);
  }

  /**
   * evaluatePerkdownStrict: nothing exactly when the document does not opt in;
   * otherwise the same result as the lenient entry point. The error flag of
   * the root block is not consulted.
   */
  method EvaluatePerkdownStrict(perkdown: string, settings: Settings) returns (r: Option<Evaluated>)
    ensures r.None? <==> !IsPerkdown(perkdown)
    ensures r.Some? ==> r.value == Rendered(perkdown, settings)
  {
    if !IsPerkdown(perkdown) {
      return None;
    }
    var out := EvaluateBlock(perkdown, settings, Root);
    r := Some(Evaluated(out.markdown, out.meta));
  }

  /**
   * The strict entry point as its documentation describes it: nothing when the
   * document does not opt in or when the root block reports an error, such as
   * a section that is never closed; otherwise the lenient result.
   */
  method EvaluatePerkdownChecked(perkdown: string, settings: Settings) returns (r: Option<Evaluated>)
    ensures r.None? <==> !IsPerkdown(perkdown) || Evaluate(perkdown, settings, Root).errors
    ensures r.Some? ==> r.value == Rendered(perkdown, settings)
  {
    if !IsPerkdown(perkdown) {
      return None;
    }
    var out := EvaluateBlock(perkdown, settings, Root);
    if out.errors {
      return None;
    }
    r := Some(Evaluated(out.markdown, out.meta));
  }

  // ---------------------------------------------------------------------------
  // Properties of the gate.

  /** Only the first line decides: whatever follows the first line feed is ignored. */
  lemma GateReadsFirstLineOnly(first: string, rest: string)
    requires '\n' !in first
    ensures IsPerkdown(first + "\n" + rest) == IsPerkdown(first)
  {
    FirstLineOfJoined(first, rest);
    FirstLineOfLine(first);
  }

  /** A line that reads as the opt-in tag, ended by a line feed or by the end of the text, opts in. */
  lemma OptInLine(line: string, rest: string)
    requires '\n' !in line && IsUseTag(ParseTag(line))
    requires rest == "" || rest[0] == '\n'
    ensures IsPerkdown(line + rest)
  {
    hide ParseTag, FirstLine;
    if rest == "" {
      assert line + rest == line;
      FirstLineOfLine(line);
    } else {
      assert rest == "\n" + rest[1..];
      assert line + rest == line + "\n" + rest[1..];
      FirstLineOfJoined(line, rest[1..]);
    }
  }

  /** A document whose first line is a `USE:PRKMD` tag, in any canonical spacing and with any value, opts in. */
  lemma UseLineOptsIn(lay: Layout, value: string, rest: string)
    requires Canonical(lay, Tag("USE", "PRKMD", value))
    requires rest == "" || rest[0] == '\n'
    ensures IsPerkdown(Format(lay, Tag("USE", "PRKMD", value)) + rest)
  {
    var t := Tag("USE", "PRKMD", value);
    var line := Format(lay, t);
    FormatNoBreaks(lay, t);
    NoBreaksNoFeed(line);
    ParseTagFormat(lay, t);
    OptInLine(line, rest);
  }

  /**
   * Conversely, a document that opts in and whose first line has no line
   * terminator starts with a canonical `USE:PRKMD` tag line and nothing else.
   */
  lemma OptInIsUseLine(doc: string)
    requires IsPerkdown(doc) && NoBreaks(FirstLine(doc))
    ensures exists lay: Layout, value: string ::
      Canonical(lay, Tag("USE", "PRKMD", value)) && FirstLine(doc) == Format(lay, Tag("USE", "PRKMD", value))
  {
    var t := ParseTag(FirstLine(doc)).value;
    ParseTagSound(FirstLine(doc), t);
    var lay :| Canonical(lay, t) && Format(lay, t) == FirstLine(doc);
    assert t == Tag("USE", "PRKMD", t.value);
  }

  /** The opt-in line may leave out `=VALUE`: `<!-- USE:PRKMD -->` reads with the empty value. */
  lemma BareUseLine()
    ensures ParseTag("<!-- USE:PRKMD -->") == Some(Tag("USE", "PRKMD", ""))
  {
    BareUseSpelling();
    ParseTagFormat(Layout(0, 1, false, 1, 0), Tag("USE", "PRKMD", ""));
  }

  /** The spelling of `<!-- USE:PRKMD -->` as a tag with no `=`. */
  lemma BareUseSpelling()
    ensures Format(Layout(0, 1, false, 1, 0), Tag("USE", "PRKMD", "")) == "<!-- USE:PRKMD -->"
  {
    assert Spaces(0) == "" && Spaces(1) == " ";
    assert Closer(1, 0) == " -->";
    assert ValueText(ValuePart(false, "", 1, 0)) == " -->";
  }

  /** So a document made of that line alone opts in. */
  lemma BareUseLineOptsIn()
    ensures IsPerkdown("<!-- USE:PRKMD -->")
  {
    var line := "<!-- USE:PRKMD -->";
    assert '\n' !in line;
    BareUseLine();
    assert IsUseTag(ParseTag(line));
    OptInLine(line, "");
    assert line + "" == line;
  }

  /** The empty document, and a lower-case opt-in line, do not opt in. */
  lemma RejectedDocuments()
    ensures !IsPerkdown("")
    ensures !IsPerkdown("<!-- use:prkmd -->")
  {
    assert !Contains("", "<!--");
    assert Spaces(0) == "" && Spaces(1) == " ";
    assert "<!-- use:prkmd -->" == Spaces(0) + ("<!--" + (Spaces(1) + (['u'] + "se:prkmd -->")));
    NamespaceOutsideClass(0, 1, 'u', "se:prkmd -->");
    FirstLineOfLine("<!-- use:prkmd -->");
  }

  // ---------------------------------------------------------------------------
  // Properties of the entry points.

  /**
   * The rendered markdown of a document is made of its content lines only,
   * each followed by a line feed: no tag of any namespace is ever copied.
   */
  lemma RenderedIsContent(doc: string, settings: Settings)
    ensures exists lines: seq<string> :: AllContent(lines) && Rendered(doc, settings).markdown == Unlines(lines)
  {
    EvaluateContent(doc, settings, Root);
    var lines := Evaluate(doc, settings, Root).emitted;
    assert AllContent(lines) && Rendered(doc, settings).markdown == Unlines(lines);
  }
}
