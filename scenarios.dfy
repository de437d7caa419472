/**
 * Worked documents: concrete inputs with the exact results the evaluator
 * gives them, each derived from the general theorems. Documents are given
 * as their lines; the text is those lines joined by line feeds.
 */
module Scenarios {
  import opened Wrappers
  import opened Lines
  import opened Tags
  import opened Policy
  import opened Evaluator
  import opened Perkdown
  import opened Documents

  const UseLine := "<!-- USE:PRKMD -->"
  const OnlySectionA := Settings(map["SECTION" := Single("A")])

  lemma UseLineReads()
    ensures '\n' !in UseLine && IsUseTag(ParseTag(UseLine))
  {
    var line := "<!-- USE:PRKMD -->";
    assert '\n' !in line;
    assert line == UseLine;
    BareUseLine();
  }

  lemma SectionAWritable()
    ensures Writable("SECTION", "A") && ShouldRender(Block("SECTION", "A"), OnlySectionA)
  {
    assert IsName("SECTION");
  }

  lemma OpenSectionA()
    ensures TagLine("BEGIN", "SECTION", "A") == "<!-- BEGIN:SECTION=A -->"
  {
  }

  lemma CloseSectionA()
    ensures TagLine("END", "SECTION", "A") == "<!-- END:SECTION=A -->"
  {
  }

  lemma TitleHi()
    ensures TagLine("META", "TITLE", "Hi") == "<!-- META:TITLE=Hi -->"
  {
  }

  lemma HelloMarkdown()
    ensures Unlines(["hello", ""]) == "hello\n\n"
  {
  }

  lemma HelloContent()
    ensures AllContent(["hello", ""])
  {
    PlainLine("hello");
    PlainLine("");
    var texts := ["hello", ""];
    assert texts[0] == "hello" && texts[1] == "";
  }

  lemma UnclosedLines()
    ensures [UseLine, TagLine("BEGIN", "SECTION", "A")] + ["hello", ""] == [UseLine, "<!-- BEGIN:SECTION=A -->", "hello", ""]
  {
    OpenSectionA();
  }

  /**
   * `<!-- USE:PRKMD -->\n<!-- BEGIN:SECTION=A -->\nhello\n`, a section opened
   * and never closed (the trailing line feed makes an empty last line): the
   * content still comes out, followed by that empty line, the error flag is
   * set, and the strict entry point, which never looks at that flag, still
   * returns the result.
   */
  lemma UnclosedExample()
    ensures IsPerkdown(Join([UseLine, "<!-- BEGIN:SECTION=A -->", "hello", ""]))
    ensures Evaluate(Join([UseLine, "<!-- BEGIN:SECTION=A -->", "hello", ""]), OnlySectionA, Root).errors
    ensures Rendered(Join([UseLine, "<!-- BEGIN:SECTION=A -->", "hello", ""]), OnlySectionA)
         == Evaluated("hello\n\n", map[])
  {
    var texts := ["hello", ""];
    UseLineReads();
    SectionAWritable();
    HelloContent();
    UnclosedLines();
    UnclosedSection(UseLine, "SECTION", "A", texts, OnlySectionA);
    HelloMarkdown();
  }

  lemma OpenSectionS()
    ensures TagLine("BEGIN", "S", "A") == "<!-- BEGIN:S=A -->" && Writable("S", "A")
  {
    assert IsName("S");
  }

  /**
   * `<!-- USE:PRKMD -->\n<!-- BEGIN:S=A -->`, a section opened on the last
   * line: under any settings the root runs out with the error flag set, and
   * what it leaves over is the empty line the nested block was handed, not
   * the `BEGIN` line that ends the document.
   */
  lemma TrailingBeginExample(settings: Settings)
    ensures IsPerkdown(Join([UseLine, "<!-- BEGIN:S=A -->"]))
    ensures Evaluate(Join([UseLine, "<!-- BEGIN:S=A -->"]), settings, Root).remaining == ""
    ensures Evaluate(Join([UseLine, "<!-- BEGIN:S=A -->"]), settings, Root).errors
  {
    UseLineReads();
    OpenSectionS();
    TrailingBegin(UseLine, "S", "A", settings);
  }

  /** The body of the full example: a title, an introduction, one section and a closing line. */
  function FullBody(): seq<Item> {
    [Field("TITLE", "Hi"), Text("intro"), Section("SECTION", "A", [Text("body A")]), Text("outro")]
  }

  lemma FullBodyWellFormed()
    ensures WellFormed(FullBody())
  {
    hide ParseTag;
    PlainLine("intro");
    PlainLine("body A");
    PlainLine("outro");
    assert IsName("TITLE") && IsName("SECTION");
    assert WellFormed([Text("body A")]);
    var b := FullBody();
    assert WellFormed(b[3..]);
    assert WellFormed(b[2..]);
    assert WellFormed(b[1..]);
  }

  /** The lines of the full example after its opt-in line. */
  lemma FullBodyLines()
    ensures Print(FullBody()) == ["<!-- META:TITLE=Hi -->", "intro", "<!-- BEGIN:SECTION=A -->", "body A",
                                  "<!-- END:SECTION=A -->", "outro"]
  {
    var b := FullBody();
    TitleHi();
    OpenSectionA();
    CloseSectionA();
    assert Print([Text("body A")]) == ["body A"];
    assert Print(b[3..]) == ["outro"];
    assert Print(b[2..]) == [TagLine("BEGIN", "SECTION", "A"), "body A", TagLine("END", "SECTION", "A"), "outro"];
  }

  lemma FullMarkdown()
    ensures Unlines(["intro", "body A", "outro"]) == "intro\nbody A\noutro\n"
  {
  }

  lemma SectionARender()
    ensures SectionView("SECTION", "A", [Text("body A")], OnlySectionA) == View(["body A"], map[])
  {
    SectionAWritable();
    assert Render([Text("body A")], OnlySectionA) == View(["body A"], map[]);
  }

  lemma FullRender()
    ensures Render(FullBody(), OnlySectionA) == View(["intro", "body A", "outro"], map["TITLE" := "Hi"])
  {
    var b := FullBody();
    assert Render(b[3..], OnlySectionA) == View(["outro"], map[]);
    assert b[2..][0] == Section("SECTION", "A", [Text("body A")]) && b[2..][1..] == b[3..];
    SectionARender();
    assert Render(b[2..], OnlySectionA) == View(["body A", "outro"], map[]);
    assert Render(b[1..], OnlySectionA) == View(["intro", "body A", "outro"], map[]);
  }

  /**
   * The full example (lines in `FullBodyLines`): the header's metadata, the
   * content lines in order, and the admitted section's line inline.
   */
  lemma FullExample()
    ensures IsPerkdown(Document(UseLine, FullBody()))
    ensures Rendered(Document(UseLine, FullBody()), OnlySectionA)
         == Evaluated("intro\nbody A\noutro\n", map["TITLE" := "Hi"])
    ensures !Evaluate(Document(UseLine, FullBody()), OnlySectionA, Root).errors
  {
    UseLineReads();
    FullBodyWellFormed();
    DocumentRendered(UseLine, FullBody(), OnlySectionA);
    DocumentEvaluates(UseLine, FullBody(), OnlySectionA);
    FullRender();
    FullMarkdown();
  }

  /** An outer `X=a` and a section's inner `X=b`. */
  function Shadowing(): seq<Item> {
    [Field("X", "a"), Section("S", "A", [Field("X", "b")])]
  }

  lemma ShadowingWellFormed()
    ensures WellFormed(Shadowing())
  {
    var b := Shadowing();
    var inner := [Field("X", "b")];
    assert IsName("X") && IsName("S");
    assert Writable("X", "a") && Writable("X", "b") && Writable("S", "A");
    assert inner[1..] == [];
    assert WellFormed(inner);
    var tail := b[1..];
    assert tail == [Section("S", "A", inner)] && tail[1..] == [];
    assert FirstWellFormed(tail);
    assert WellFormed(tail);
    assert FirstWellFormed(b);
  }

  lemma ShadowingRender(settings: Settings)
    ensures ShouldRender(Block("S", "A"), settings) ==> Render(Shadowing(), settings).meta == map["X" := "b"]
    ensures !ShouldRender(Block("S", "A"), settings) ==> Render(Shadowing(), settings).meta == map["X" := "a"]
  {
    var b := Shadowing();
    assert Render([Field("X", "b")], settings).meta == map["X" := "b"];
    assert b[1..][0] == Section("S", "A", [Field("X", "b")]) && b[1..][1..] == [];
    var sv := SectionView("S", "A", [Field("X", "b")], settings);
    assert sv.meta == if ShouldRender(Block("S", "A"), settings) then map["X" := "b"] else map[];
    assert Render(b[1..], settings) == Then(sv, View([], map[]));
    assert sv.meta + map[] == sv.meta;
    assert Render(b[1..], settings).meta
        == if ShouldRender(Block("S", "A"), settings) then map["X" := "b"] else map[];
    assert map["X" := "a"] + map["X" := "b"] == map["X" := "b"];
  }

  /**
   * The innermost metadata wins when its section is admitted; an excluded
   * section contributes no keys at all.
   */
  lemma InnermostMetaWins(use: string, settings: Settings)
    requires '\n' !in use && IsUseTag(ParseTag(use))
    ensures IsPerkdown(Document(use, Shadowing()))
    ensures ShouldRender(Block("S", "A"), settings) ==>
      Rendered(Document(use, Shadowing()), settings).meta == map["X" := "b"]
    ensures !ShouldRender(Block("S", "A"), settings) ==>
      Rendered(Document(use, Shadowing()), settings).meta == map["X" := "a"]
  {
    ShadowingWellFormed();
    DocumentRendered(use, Shadowing(), settings);
    ShadowingRender(settings);
  }
}
