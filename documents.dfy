/**
 * Documents written with balanced `BEGIN`/`END` pairs, and what evaluation
 * makes of them. A document is a tree of items; `Print` spells it out as lines
 * and `Render` states, independently of the scanner, what it should render to.
 * The theorems below show that the scanner of src/index.ts:69-135 computes
 * exactly that, with no error, and what happens when a block is left open or
 * the root block is closed early.
 */
module Documents {
  import opened Wrappers
  import opened Lines
  import opened Tags
  import opened Policy
  import opened Evaluator
  import opened Perkdown

  /** A content line, a metadata entry, or a section with a body of items. */
  datatype Item =
    | Text(line: string)
    | Field(key: string, value: string)
    | Section(key: string, value: string, body: seq<Item>)

  /** The spelling the documents use for their tags: `<!-- NS:KEY=VALUE -->`. */
  function TagLine(namespace: string, key: string, value: string): string {
    "<!-- " + namespace + ":" + key + "=" + value + " -->"
  }

  /** A key and a value that a tag line carries and reads back unchanged. */
  predicate Writable(key: string, value: string) {
    IsName(key) && NoBreaks(value) && !EndsWithSpace(value)
  }

  /** Content lines are content, and keys and values are writable, all the way down. */
  predicate WellFormed(items: seq<Item>)
    decreases items, 1
  {
    items == [] || (FirstWellFormed(items) && WellFormed(items[1..]))
  }

  predicate FirstWellFormed(items: seq<Item>)
    requires items != []
    decreases items, 0
  {
    match items[0]
    case Text(line) => IsContent(line)
    case Field(k, v) => Writable(k, v)
    case Section(k, v, body) => Writable(k, v) && WellFormed(body)
  }

  /** The lines of a document body. */
  function Print(items: seq<Item>): seq<string>
    decreases items, 1
  {
    if items == [] then [] else PrintFirst(items) + Print(items[1..])
  }

  function PrintFirst(items: seq<Item>): seq<string>
    requires items != []
    decreases items, 0
  {
    match items[0]
    case Text(line) => [line]
    case Field(k, v) => [TagLine("META", k, v)]
    case Section(k, v, body) => [TagLine("BEGIN", k, v)] + Print(body) + [TagLine("END", k, v)]
  }

  /** A whole document: its opt-in line, then its body. */
  function Document(use: string, items: seq<Item>): string {
    Join([use] + Print(items))
  }

  /** What a body should render to: its markdown lines and its metadata. */
  datatype View = View(lines: seq<string>, meta: Meta)

  /** One view after another: lines in order, and later metadata overriding earlier. */
  function Then(a: View, b: View): View {
    View(a.lines + b.lines, a.meta + b.meta)
  }

  /**
   * The rendering of a body under `settings`: every content line in order,
   * every metadata entry with later ones winning, and each section's own
   * rendering when the render policy admits it and nothing at all otherwise.
   */
  function Render(items: seq<Item>, settings: Settings): View
    decreases items, 1
  {
    if items == [] then View([], map[]) else Then(RenderFirst(items, settings), Render(items[1..], settings))
  }

  function RenderFirst(items: seq<Item>, settings: Settings): View
    requires items != []
    decreases items, 0
  {
    match items[0]
    case Text(line) => View([line], map[])
    case Field(k, v) => View([], map[k := v])
    case Section(k, v, body) => SectionView(k, v, body, settings)
  }

  // ---------------------------------------------------------------------------
  // Helpers.

  lemma TagNames()
    ensures IsName("META") && IsName("BEGIN") && IsName("END")
  {
  }

  /** A tag line is the tag laid out with one space inside each end of the comment. */
  lemma TagLineLayout(namespace: string, key: string, value: string)
    ensures TagLine(namespace, key, value) == Format(Layout(0, 1, true, 1, 0), Tag(namespace, key, value))
  {
    assert Spaces(0) == "" && Spaces(1) == " ";
  }

  /** A tag line reads back as its tag, and is a non-empty line. */
  lemma TagLineReads(namespace: string, key: string, value: string)
    requires IsName(namespace) && Writable(key, value)
    ensures ParseTag(TagLine(namespace, key, value)) == Some(Tag(namespace, key, value))
    ensures TagLine(namespace, key, value) != ""
  {
    TagLineLayout(namespace, key, value);
    ParseTagFormat(Layout(0, 1, true, 1, 0), Tag(namespace, key, value));
  }

  /** A tag line, as a one-line array, has no line feed. */
  lemma TagLineFeedFree(namespace: string, key: string, value: string)
    requires IsName(namespace) && Writable(key, value)
    ensures NoNewlines([TagLine(namespace, key, value)])
  {
    TagLineLayout(namespace, key, value);
    FormatNoBreaks(Layout(0, 1, true, 1, 0), Tag(namespace, key, value));
    NoBreaksNoFeed(TagLine(namespace, key, value));
  }

  /** Two windows of a line array, one after the other. */
  lemma Window(lines: seq<string>, cur: nat, a: seq<string>, b: seq<string>)
    requires cur + |a| + |b| <= |lines| && lines[cur..cur + |a| + |b|] == a + b
    ensures lines[cur..cur + |a|] == a && lines[cur + |a|..cur + |a| + |b|] == b
  {
    assert lines[cur..cur + |a|] == lines[cur..cur + |a| + |b|][..|a|];
    assert lines[cur + |a|..cur + |a| + |b|] == lines[cur..cur + |a| + |b|][|a|..];
  }

  lemma MapUnionAssoc(a: Meta, b: Meta, c: Meta)
    ensures (a + b) + c == a + (b + c)
  {
  }

  lemma {:induction false} PrintNoNewlines(items: seq<Item>)
    requires WellFormed(items)
    ensures NoNewlines(Print(items))
    decreases items, 1
  {
    if items != [] {
      PrintFirstNoNewlines(items);
      PrintNoNewlines(items[1..]);
      NoNewlinesAppend(PrintFirst(items), Print(items[1..]));
    }
  }

  lemma {:induction false} PrintFirstNoNewlines(items: seq<Item>)
    requires items != [] && FirstWellFormed(items)
    ensures NoNewlines(PrintFirst(items))
    decreases items, 0
  {
    TagNames();
    match items[0]
    case Text(line) =>
    case Field(k, v) =>
      TagLineFeedFree("META", k, v);
    case Section(k, v, body) =>
      TagLineFeedFree("BEGIN", k, v);
      TagLineFeedFree("END", k, v);
      PrintNoNewlines(body);
      NoNewlinesAppend([TagLine("BEGIN", k, v)], Print(body));
      NoNewlinesAppend([TagLine("BEGIN", k, v)] + Print(body), [TagLine("END", k, v)]);
  }

  // ---------------------------------------------------------------------------
  // The scanner on balanced documents.

  /**
   * Wherever a well-formed body sits in the lines, scanning across it adds
   * exactly its rendering to what the block has so far, leaves the error flag
   * alone and ends just after it, whatever block is being scanned.
   */
  lemma {:induction false} ScanItems(items: seq<Item>, lines: seq<string>, cur: nat, emitted: seq<string>,
                                     meta: Meta, errors: bool, settings: Settings, b: Block)
    requires WellFormed(items)
    requires 1 <= |lines| && NoNewlines(lines)
    requires cur + |Print(items)| <= |lines| && lines[cur..cur + |Print(items)|] == Print(items)
    ensures Scan(lines, cur, emitted, meta, errors, settings, b)
         == Scan(lines, cur + |Print(items)|, emitted + Render(items, settings).lines,
                 meta + Render(items, settings).meta, errors, settings, b)
    decreases items, 2
  {
    hide *;
    if items == [] {
      ItemsEmpty(settings);
      assert emitted + [] == emitted;
      assert meta + map[] == meta;
    } else {
      ItemsCons(items, settings);
      var first := PrintFirst(items);
      var rest := Print(items[1..]);
      var h := RenderFirst(items, settings);
      var r := Render(items[1..], settings);
      assert cur + |first| + |rest| == cur + |Print(items)|;
      assert emitted + h.lines + r.lines == emitted + Render(items, settings).lines;
      assert meta + h.meta + r.meta == meta + Render(items, settings).meta by {
        MapUnionAssoc(meta, h.meta, r.meta);
      }
      Window(lines, cur, first, rest);
      ScanFirst(items, lines, cur, emitted, meta, errors, settings, b);
      ScanItems(items[1..], lines, cur + |first|, emitted + h.lines, meta + h.meta, errors, settings, b);
    }
  }

  /** An empty body prints and renders nothing. */
  lemma ItemsEmpty(settings: Settings)
    ensures Print([]) == [] && Render([], settings) == View([], map[])
  {
  }

  /** A non-empty body is its first item, then the rest. */
  lemma ItemsCons(items: seq<Item>, settings: Settings)
    requires items != []
    ensures Print(items) == PrintFirst(items) + Print(items[1..])
    ensures Render(items, settings)
         == View(RenderFirst(items, settings).lines + Render(items[1..], settings).lines,
                 RenderFirst(items, settings).meta + Render(items[1..], settings).meta)
    ensures WellFormed(items) <==> FirstWellFormed(items) && WellFormed(items[1..])
  {
  }

  lemma {:induction false} ScanFirst(items: seq<Item>, lines: seq<string>, cur: nat, emitted: seq<string>,
                                     meta: Meta, errors: bool, settings: Settings, b: Block)
    requires items != [] && FirstWellFormed(items)
    requires 1 <= |lines| && NoNewlines(lines)
    requires cur + |PrintFirst(items)| <= |lines| && lines[cur..cur + |PrintFirst(items)|] == PrintFirst(items)
    ensures Scan(lines, cur, emitted, meta, errors, settings, b)
         == Scan(lines, cur + |PrintFirst(items)|, emitted + RenderFirst(items, settings).lines,
                 meta + RenderFirst(items, settings).meta, errors, settings, b)
    decreases items, 1
  {
    hide Scan, Nested, Evaluate;
    match items[0]
    case Text(line) =>
      assert PrintFirst(items) == [line];
      assert RenderFirst(items, settings) == View([line], map[]);
      ScanText(line, lines, cur, emitted, meta, errors, settings, b);
    case Field(k, v) =>
      assert PrintFirst(items) == [TagLine("META", k, v)];
      assert RenderFirst(items, settings) == View([], map[k := v]);
      ScanField(k, v, lines, cur, emitted, meta, errors, settings, b);
    case Section(k, v, body) =>
      assert PrintFirst(items) == [TagLine("BEGIN", k, v)] + Print(body) + [TagLine("END", k, v)];
      assert RenderFirst(items, settings) == SectionView(k, v, body, settings);
      ScanSection(k, v, body, lines, cur, emitted, meta, errors, settings, b);
  }

  /** A content line is copied. */
  lemma ScanText(line: string, lines: seq<string>, cur: nat, emitted: seq<string>, meta: Meta, errors: bool,
                 settings: Settings, b: Block)
    requires IsContent(line)
    requires 1 <= |lines| && NoNewlines(lines) && cur < |lines| && lines[cur..cur + 1] == [line]
    ensures Scan(lines, cur, emitted, meta, errors, settings, b)
         == Scan(lines, cur + 1, emitted + [line], meta + map[], errors, settings, b)
  {
    hide Scan, Nested, Evaluate, ParseTag;
    assert lines[cur] == line by {
      assert lines[cur] == lines[cur..cur + 1][0];
    }
    ScanContentStep(lines, cur, emitted, meta, errors, settings, b);
    assert meta + map[] == meta;
  }

  /** A metadata line records its entry. */
  lemma ScanField(k: string, v: string, lines: seq<string>, cur: nat, emitted: seq<string>, meta: Meta,
                  errors: bool, settings: Settings, b: Block)
    requires Writable(k, v)
    requires 1 <= |lines| && NoNewlines(lines) && cur < |lines| && lines[cur..cur + 1] == [TagLine("META", k, v)]
    ensures Scan(lines, cur, emitted, meta, errors, settings, b)
         == Scan(lines, cur + 1, emitted + [], meta + map[k := v], errors, settings, b)
  {
    hide *;
    assert lines[cur] == TagLine("META", k, v) by {
      assert lines[cur] == lines[cur..cur + 1][0];
    }
    TagNames();
    TagLineReads("META", k, v);
    ScanMetaStep(lines, cur, k, v, emitted, meta, errors, settings, b);
    assert meta[k := v] == meta + map[k := v];
    assert emitted + [] == emitted;
  }

  /** One section: its `BEGIN` line, its body and its `END` line. */
  lemma {:induction false} ScanSection(k: string, v: string, body: seq<Item>, lines: seq<string>, cur: nat,
                                       emitted: seq<string>, meta: Meta, errors: bool, settings: Settings, b: Block)
    requires Writable(k, v) && WellFormed(body)
    requires 1 <= |lines| && NoNewlines(lines)
    requires cur + |Print(body)| + 2 <= |lines|
    requires lines[cur..cur + |Print(body)| + 2] == [TagLine("BEGIN", k, v)] + Print(body) + [TagLine("END", k, v)]
    ensures var view := SectionView(k, v, body, settings);
      Scan(lines, cur, emitted, meta, errors, settings, b)
      == Scan(lines, cur + |Print(body)| + 2, emitted + view.lines, meta + view.meta, errors, settings, b)
    decreases body, 6
  {
    hide Scan, Nested, Evaluate;
    var m := |Print(body)|;
    assert lines[cur] == TagLine("BEGIN", k, v) by {
      assert lines[cur] == lines[cur..cur + m + 2][0];
    }
    assert lines[cur + 1..][..m + 1] == Print(body) + [TagLine("END", k, v)] by {
      assert lines[cur + 1..][..m + 1] == lines[cur..cur + m + 2][1..];
    }
    TagNames();
    TagLineReads("BEGIN", k, v);
    ScanBeginStep(lines, cur, k, v, emitted, meta, errors, settings, b);
    NestedSection(k, v, body, lines, cur, emitted, meta, errors, settings, b);
  }

  /** The nested block of a section hands back its `END` line, and the parent resumes after it. */
  lemma {:induction false} NestedSection(k: string, v: string, body: seq<Item>, lines: seq<string>, cur: nat,
                                         emitted: seq<string>, meta: Meta, errors: bool, settings: Settings, b: Block)
    requires Writable(k, v) && WellFormed(body)
    requires 1 <= |lines| && NoNewlines(lines) && cur + |Print(body)| + 2 <= |lines| && lines[cur] != ""
    requires lines[cur + 1..][..|Print(body)| + 1] == Print(body) + [TagLine("END", k, v)]
    ensures var view := SectionView(k, v, body, settings);
      Nested(lines, cur, Block(k, v), emitted, meta, errors, settings, b)
      == Scan(lines, cur + |Print(body)| + 2, emitted + view.lines, meta + view.meta, errors, settings, b)
    decreases body, 5
  {
    hide Scan, Nested, Evaluate;
    var m := |Print(body)|;
    var inner := lines[cur + 1..];
    var view := SectionView(k, v, body, settings);
    var nb := Block(k, v);
    var child := Evaluate(Join(inner), settings, nb);
    assert NoNewlines(inner);
    assert child == Outcome(view.lines, view.meta, Join(lines[cur + 1 + m..]), false) by {
      SectionBody(k, v, body, inner, settings);
      assert inner[m..] == lines[cur + 1 + m..];
    }
    NestedResume(lines, cur, nb, cur + 1 + m, cur + |Print(body)| + 2, view.lines, view.meta, emitted, meta, errors, settings, b);
  }

  /** What a section contributes: its body's rendering, or nothing when the policy excludes it. */
  function SectionView(k: string, v: string, body: seq<Item>, settings: Settings): View
    decreases body, 2
  {
    if ShouldRender(Block(k, v), settings) then Render(body, settings) else View([], map[])
  }

  /**
   * The block a section opens, evaluated on the text after its `BEGIN` line,
   * renders its body (or nothing when excluded), stops at its `END` line and
   * reports no error.
   */
  lemma {:induction false} SectionBody(k: string, v: string, body: seq<Item>, inner: seq<string>, settings: Settings)
    requires Writable(k, v) && WellFormed(body)
    requires NoNewlines(inner) && |Print(body)| < |inner|
    requires inner[..|Print(body)| + 1] == Print(body) + [TagLine("END", k, v)]
    ensures var view := SectionView(k, v, body, settings);
      Evaluate(Join(inner), settings, Block(k, v))
      == Outcome(view.lines, view.meta, Join(inner[|Print(body)|..]), false)
    decreases body, 4
  {
    var nb := Block(k, v);
    var r := Render(body, settings);
    var o := Outcome(r.lines, r.meta, Join(inner[|Print(body)|..]), false);
    assert Scan(Split(Join(inner)), 0, [], map[], false, settings, nb) == o by {
      SplitJoin(inner);
      BodyScan(k, v, body, inner, settings);
    }
  }

  /** The scan of a section's block runs across the body and stops at the `END` line. */
  lemma {:induction false} BodyScan(k: string, v: string, body: seq<Item>, inner: seq<string>, settings: Settings)
    requires Writable(k, v) && WellFormed(body)
    requires NoNewlines(inner) && |Print(body)| < |inner|
    requires inner[..|Print(body)| + 1] == Print(body) + [TagLine("END", k, v)]
    ensures var r := Render(body, settings);
      Scan(inner, 0, [], map[], false, settings, Block(k, v))
      == Outcome(r.lines, r.meta, Join(inner[|Print(body)|..]), false)
    decreases body, 3
  {
    hide Scan, Nested, Evaluate;
    var m := |Print(body)|;
    var r := Render(body, settings);
    var nb := Block(k, v);
    assert Scan(inner, 0, [], map[], false, settings, nb) == Scan(inner, m, r.lines, r.meta, false, settings, nb) by {
      assert inner[0..m] == Print(body) by {
        assert inner[0..m] == inner[..m + 1][..m];
      }
      ScanItems(body, inner, 0, [], map[], false, settings, nb);
      assert [] + r.lines == r.lines;
      assert map[] + r.meta == r.meta;
    }
    assert Scan(inner, m, r.lines, r.meta, false, settings, nb) == Outcome(r.lines, r.meta, Join(inner[m..]), false) by {
      assert inner[m] == TagLine("END", k, v) by {
        assert inner[m] == inner[..m + 1][m];
      }
      TagNames();
      TagLineReads("END", k, v);
      ScanCloseStep(inner, m, r.lines, r.meta, false, settings, nb);
    }
  }

  /** The lines of a document are its opt-in line and the printed body. */
  lemma DocumentLines(use: string, items: seq<Item>)
    requires '\n' !in use && WellFormed(items)
    ensures NoNewlines([use] + Print(items))
    ensures Split(Document(use, items)) == [use] + Print(items)
    ensures FirstLine(Document(use, items)) == use
  {
    var lines := [use] + Print(items);
    assert NoNewlines(lines) by {
      PrintNoNewlines(items);
    }
    SplitJoin(lines);
    FirstLineOfJoin(lines);
  }

  /** A document starts with its opt-in line, so it opts in. */
  lemma DocumentOptsIn(use: string, items: seq<Item>)
    requires '\n' !in use && IsUseTag(ParseTag(use)) && WellFormed(items)
    ensures IsPerkdown(Document(use, items))
  {
    DocumentLines(use, items);
  }

  /** The root block skips the opt-in line. */
  lemma RootSkipsUseLine(lines: seq<string>, settings: Settings)
    requires 1 <= |lines| && NoNewlines(lines) && IsUseTag(ParseTag(lines[0]))
    ensures Scan(lines, 0, [], map[], false, settings, Root) == Scan(lines, 1, [], map[], false, settings, Root)
  {
    ScanSkipStep(lines, 0, [], map[], false, settings, Root);
  }

  /** Then it renders the body that follows. */
  lemma RootBody(lines: seq<string>, items: seq<Item>, settings: Settings)
    requires WellFormed(items) && NoNewlines(lines)
    requires 1 + |Print(items)| <= |lines| && lines[1..1 + |Print(items)|] == Print(items)
    ensures var r := Render(items, settings);
      Scan(lines, 1, [], map[], false, settings, Root)
      == Scan(lines, 1 + |Print(items)|, r.lines, r.meta, false, settings, Root)
  {
    var r := Render(items, settings);
    ScanItems(items, lines, 1, [], map[], false, settings, Root);
    assert [] + r.lines == r.lines;
    assert map[] + r.meta == r.meta;
  }

  /** At the end of the lines the root block stops without error. */
  lemma RootEnds(use: string, items: seq<Item>, settings: Settings)
    requires NoNewlines([use] + Print(items))
    ensures var r := Render(items, settings);
      var o := Scan([use] + Print(items), 1 + |Print(items)|, r.lines, r.meta, false, settings, Root);
      o.emitted == r.lines && o.meta == r.meta && !o.errors
  {
    var lines := [use] + Print(items);
    var r := Render(items, settings);
    assert |lines| == 1 + |Print(items)|;
    ScanEndStep(lines, r.lines, r.meta, false, settings, Root);
  }

  /**
   * Balanced nesting: a document made of an opt-in line and a well-formed body
   * opts in, evaluates to exactly the body's rendering, and reports no error.
   */
  lemma DocumentEvaluates(use: string, items: seq<Item>, settings: Settings)
    requires '\n' !in use && IsUseTag(ParseTag(use)) && WellFormed(items)
    ensures IsPerkdown(Document(use, items))
    ensures var o := Evaluate(Document(use, items), settings, Root);
      o.emitted == Render(items, settings).lines && o.meta == Render(items, settings).meta && !o.errors
  {
    hide *;
    DocumentOptsIn(use, items);
    EvaluateUnfold(Document(use, items), settings, Root);
    var lines := [use] + Print(items);
    DocumentLines(use, items);
    assert lines[0] == use && lines[1..1 + |Print(items)|] == Print(items);
    RootSkipsUseLine(lines, settings);
    RootBody(lines, items, settings);
    RootEnds(use, items, settings);
  }

  // ---------------------------------------------------------------------------
  // A section left open.

  /**
   * A block that meets only content lines renders them (or nothing) and runs
   * out of input; that is an error unless its key is `_INTERNAL_`, whatever
   * its value, since only the key is checked.
   */
  lemma ChildRunsOut(k: string, v: string, texts: seq<string>, settings: Settings)
    requires |texts| >= 1 && AllContent(texts)
    ensures Evaluate(Join(texts), settings, Block(k, v))
         == Outcome(if ShouldRender(Block(k, v), settings) then texts else [], map[], texts[|texts| - 1], k != Internal)
  {
    assert NoNewlines(texts) by {
      forall i | 0 <= i < |texts| ensures '\n' !in texts[i] {
        assert IsContent(texts[i]);
      }
    }
    assert Split(Join(texts)) == texts by {
      SplitJoin(texts);
    }
    assert texts[0..] == texts;
    ScanRunsOut(texts, 0, [], map[], false, settings, Block(k, v));
    assert [] + texts == texts;
  }

  /** The root, resuming on a last line with no line feed, finds the input exhausted. */
  lemma ParentRunsOut(last: string, emitted: seq<string>, meta: Meta, errors: bool, settings: Settings)
    requires '\n' !in last
    ensures Scan(Split(last), 1, emitted, meta, errors, settings, Root) == Outcome(emitted, meta, last, errors)
  {
    assert Split(last) == [last] by {
      assert Join([last]) == last;
      SplitJoin([last]);
    }
    ScanEndStep([last], emitted, meta, errors, settings, Root);
  }

  /** The lines of a document whose one section is never closed. */
  lemma OpenLines(use: string, k: string, v: string, texts: seq<string>)
    requires '\n' !in use && Writable(k, v) && AllContent(texts)
    ensures NoNewlines([use, TagLine("BEGIN", k, v)] + texts)
    ensures Split(Join([use, TagLine("BEGIN", k, v)] + texts)) == [use, TagLine("BEGIN", k, v)] + texts
    ensures FirstLine(Join([use, TagLine("BEGIN", k, v)] + texts)) == use
  {
    var lines := [use, TagLine("BEGIN", k, v)] + texts;
    assert NoNewlines(lines) by {
      TagNames();
      TagLineFeedFree("BEGIN", k, v);
      assert NoNewlines(texts) by {
        forall i | 0 <= i < |texts| ensures '\n' !in texts[i] {
          assert IsContent(texts[i]);
        }
      }
      NoNewlinesAppend([use], [TagLine("BEGIN", k, v)]);
      assert [use] + [TagLine("BEGIN", k, v)] == [use, TagLine("BEGIN", k, v)];
      NoNewlinesAppend([use, TagLine("BEGIN", k, v)], texts);
    }
    SplitJoin(lines);
    FirstLineOfJoin(lines);
  }

  /** Such a document still opts in. */
  lemma OpenOptsIn(use: string, k: string, v: string, texts: seq<string>)
    requires '\n' !in use && IsUseTag(ParseTag(use)) && Writable(k, v) && AllContent(texts)
    ensures IsPerkdown(Join([use, TagLine("BEGIN", k, v)] + texts))
  {
    OpenLines(use, k, v, texts);
  }

  /** The root skips the opt-in line and opens the section on the next one. */
  lemma RootOpens(use: string, k: string, v: string, texts: seq<string>, settings: Settings)
    requires IsUseTag(ParseTag(use)) && Writable(k, v) && NoNewlines([use, TagLine("BEGIN", k, v)] + texts)
    ensures Scan([use, TagLine("BEGIN", k, v)] + texts, 0, [], map[], false, settings, Root)
         == Nested([use, TagLine("BEGIN", k, v)] + texts, 1, Block(k, v), [], map[], false, settings, Root)
  {
    var lines := [use, TagLine("BEGIN", k, v)] + texts;
    assert lines[0] == use && lines[1] == TagLine("BEGIN", k, v);
    ScanSkipStep(lines, 0, [], map[], false, settings, Root);
    TagNames();
    TagLineReads("BEGIN", k, v);
    ScanBeginStep(lines, 1, k, v, [], map[], false, settings, Root);
  }

  /** A nested block that runs out hands its error flag to the root, which runs out too. */
  lemma NestedRunsOut(lines: seq<string>, cur: nat, nested: Block, shown: seq<string>, last: string,
                      errors: bool, settings: Settings)
    requires NoNewlines(lines) && cur < |lines| && lines[cur] != "" && '\n' !in last
    requires Evaluate(Join(lines[cur + 1..]), settings, nested) == Outcome(shown, map[], last, errors)
    ensures Nested(lines, cur, nested, [], map[], false, settings, Root) == Outcome(shown, map[], last, errors)
  {
    hide *;
    NestedStep(lines, cur, nested, [], map[], false, settings, Root);
    assert [] + shown == shown;
    var none: Meta := map[];
    assert none + none == none;
    assert (false || errors) == errors;
    ParentRunsOut(last, shown, map[], errors, settings);
  }

  /**
   * An unclosed section: the document still opts in, the section's content
   * (when admitted) reaches the output, and the root reports an error, except
   * when the section's key is `_INTERNAL_`, which is never reported.
   */
  lemma UnclosedSection(use: string, k: string, v: string, texts: seq<string>, settings: Settings)
    requires '\n' !in use && IsUseTag(ParseTag(use))
    requires Writable(k, v) && |texts| >= 1 && AllContent(texts)
    ensures IsPerkdown(Join([use, TagLine("BEGIN", k, v)] + texts))
    ensures var o := Evaluate(Join([use, TagLine("BEGIN", k, v)] + texts), settings, Root);
      (o.errors <==> k != Internal) && o.meta == map[]
      && o.emitted == (if ShouldRender(Block(k, v), settings) then texts else [])
  {
    hide Scan, Nested, Evaluate;
    EvaluateUnfold(Join([use, TagLine("BEGIN", k, v)] + texts), settings, Root);
    var lines := [use, TagLine("BEGIN", k, v)] + texts;
    var shown := if ShouldRender(Block(k, v), settings) then texts else [];
    var last := texts[|texts| - 1];
    OpenLines(use, k, v, texts);
    RootOpens(use, k, v, texts, settings);
    assert Nested(lines, 1, Block(k, v), [], map[], false, settings, Root) == Outcome(shown, map[], last, k != Internal) by {
      assert lines[2..] == texts;
      assert lines[1] == TagLine("BEGIN", k, v);
      TagNames();
      TagLineReads("BEGIN", k, v);
      assert IsContent(texts[|texts| - 1]);
      ChildRunsOut(k, v, texts, settings);
      NestedRunsOut(lines, 1, Block(k, v), shown, last, k != Internal, settings);
    }
  }

  /** The empty text: no lines joined, or one empty line, which is content. */
  lemma EmptyText()
    ensures Join([]) == "" == Join([""]) && AllContent([""])
  {
    PlainLine("");
    assert [""][0] == "";
  }

  /**
   * A section opened on the last line of a document: the nested block is
   * handed the empty text, which splits into one empty line. That line is
   * content, so it is emitted when the section is admitted; it is also all
   * that either block leaves over, so the root's remainder is the empty line
   * and not its own last line, the `BEGIN` tag.
   */
  lemma TrailingBegin(use: string, k: string, v: string, settings: Settings)
    requires '\n' !in use && IsUseTag(ParseTag(use)) && Writable(k, v)
    ensures IsPerkdown(Join([use, TagLine("BEGIN", k, v)]))
    ensures var o := Evaluate(Join([use, TagLine("BEGIN", k, v)]), settings, Root);
      o.remaining == "" && (o.errors <==> k != Internal) && o.meta == map[]
      && o.emitted == (if ShouldRender(Block(k, v), settings) then [""] else [])
  {
    hide *;
    var lines := [use, TagLine("BEGIN", k, v)] + [];
    assert lines == [use, TagLine("BEGIN", k, v)];
    OpenOptsIn(use, k, v, []);
    var shown: seq<string> := if ShouldRender(Block(k, v), settings) then [""] else [];
    var o := Outcome(shown, map[], "", k != Internal);
    TrailingChild(use, k, v, settings);
    assert Scan(Split(Join(lines)), 0, [], map[], false, settings, Root) == o by {
      OpenLines(use, k, v, []);
      RootOpens(use, k, v, [], settings);
    }
    EvaluateUnfold(Join(lines), settings, Root);
    assert Evaluate(Join(lines), settings, Root) == o;
  }

  /** The nested block of `TrailingBegin` sees the empty text, and both blocks run out. */
  lemma TrailingChild(use: string, k: string, v: string, settings: Settings)
    requires '\n' !in use && Writable(k, v)
    ensures var shown: seq<string> := if ShouldRender(Block(k, v), settings) then [""] else [];
      Nested([use, TagLine("BEGIN", k, v)] + [], 1, Block(k, v), [], map[], false, settings, Root)
      == Outcome(shown, map[], "", k != Internal)
  {
    hide *;
    var lines := [use, TagLine("BEGIN", k, v)] + [];
    var shown: seq<string> := if ShouldRender(Block(k, v), settings) then [""] else [];
    assert lines[2..] == [] && lines[1] == TagLine("BEGIN", k, v);
    EmptyText();
    TagNames();
    TagLineReads("BEGIN", k, v);
    OpenLines(use, k, v, []);
    ChildRunsOut(k, v, [""], settings);
    NestedRunsOut(lines, 1, Block(k, v), shown, "", k != Internal, settings);
  }

  // ---------------------------------------------------------------------------
  // What reaches the output when every section is admitted.

  /** The lines of an array that are not tags, in order. */
  function Contents(lines: seq<string>): seq<string> {
    if lines == [] then []
    else (if ParseTag(lines[0]).None? then [lines[0]] else []) + Contents(lines[1..])
  }

  lemma {:induction false} ContentsAppend(a: seq<string>, b: seq<string>)
    ensures Contents(a + b) == Contents(a) + Contents(b)
    decreases |a|
  {
    hide *;
    if a == [] {
      assert a + b == b;
      ContentsCons(a);
    } else {
      ContentsCons(a);
      ContentsCons(a + b);
      assert (a + b)[0] == a[0];
      assert (a + b)[1..] == a[1..] + b;
      ContentsAppend(a[1..], b);
    }
  }

  /** The contents of an array, one line at a time. */
  lemma ContentsCons(lines: seq<string>)
    ensures lines == [] ==> Contents(lines) == []
    ensures lines != [] ==>
      Contents(lines) == (if ParseTag(lines[0]).None? then [lines[0]] else []) + Contents(lines[1..])
  {
  }

  /** A tag line contributes nothing to the contents. */
  lemma ContentsOfTagLine(namespace: string, key: string, value: string)
    requires IsName(namespace) && Writable(key, value)
    ensures Contents([TagLine(namespace, key, value)]) == []
  {
    TagLineReads(namespace, key, value);
    assert [TagLine(namespace, key, value)][1..] == [];
  }

  /** Every section of the body, at every depth, is admitted by the render policy. */
  predicate AllAdmitted(items: seq<Item>, settings: Settings)
    decreases items, 1
  {
    items == [] || (FirstAdmitted(items, settings) && AllAdmitted(items[1..], settings))
  }

  predicate FirstAdmitted(items: seq<Item>, settings: Settings)
    requires items != []
    decreases items, 0
  {
    match items[0]
    case Section(k, v, body) => ShouldRender(Block(k, v), settings) && AllAdmitted(body, settings)
    case _ => true
  }

  /**
   * With every section admitted, the markdown lines are exactly the lines of
   * the printed body that are not tags, in their original order.
   */
  lemma {:induction false} AdmittedRendersContents(items: seq<Item>, settings: Settings)
    requires WellFormed(items) && AllAdmitted(items, settings)
    ensures Render(items, settings).lines == Contents(Print(items))
    decreases items, 1
  {
    if items == [] {
    } else {
      FirstRendersContents(items, settings);
      AdmittedRendersContents(items[1..], settings);
      ContentsAppend(PrintFirst(items), Print(items[1..]));
    }
  }

  lemma {:induction false} FirstRendersContents(items: seq<Item>, settings: Settings)
    requires items != [] && FirstWellFormed(items) && FirstAdmitted(items, settings)
    ensures RenderFirst(items, settings).lines == Contents(PrintFirst(items))
    decreases items, 0
  {
    TagNames();
    match items[0]
    case Text(line) =>
      assert [line][1..] == [];
    case Field(k, v) =>
      ContentsOfTagLine("META", k, v);
    case Section(k, v, body) =>
      AdmittedRendersContents(body, settings);
      ContentsOfTagLine("BEGIN", k, v);
      ContentsOfTagLine("END", k, v);
      ContentsAppend([TagLine("BEGIN", k, v)], Print(body));
      ContentsAppend([TagLine("BEGIN", k, v)] + Print(body), [TagLine("END", k, v)]);
      assert [] + Contents(Print(body)) + [] == Contents(Print(body));
  }

  /** Balanced nesting with every section admitted: the markdown is the non-tag lines, and no error. */
  lemma BalancedRoundTrip(use: string, items: seq<Item>, settings: Settings)
    requires '\n' !in use && IsUseTag(ParseTag(use)) && WellFormed(items) && AllAdmitted(items, settings)
    ensures IsPerkdown(Document(use, items))
    ensures Rendered(Document(use, items), settings).markdown == Unlines(Contents(Print(items)))
    ensures !Evaluate(Document(use, items), settings, Root).errors
  {
    DocumentEvaluates(use, items, settings);
    AdmittedRendersContents(items, settings);
  }

  /** What the facades return for a balanced document: the body's rendering. */
  lemma DocumentRendered(use: string, items: seq<Item>, settings: Settings)
    requires '\n' !in use && IsUseTag(ParseTag(use)) && WellFormed(items)
    ensures IsPerkdown(Document(use, items))
    ensures Rendered(Document(use, items), settings)
         == Evaluated(Unlines(Render(items, settings).lines), Render(items, settings).meta)
  {
    DocumentEvaluates(use, items, settings);
  }

  // ---------------------------------------------------------------------------
  // The root block closed early.

  /** The tag that closes the root block. */
  function RootCloser(): string {
    TagLine("END", Internal, MainBlock)
  }

  lemma RootCloserReads()
    ensures ParseTag(RootCloser()) == Some(Tag("END", Internal, MainBlock))
    ensures NoNewlines([RootCloser()])
  {
    assert IsName("END") && IsName(Internal);
    assert NoBreaks(MainBlock) && !EndsWithSpace(MainBlock);
    TagLineReads("END", Internal, MainBlock);
    TagLineFeedFree("END", Internal, MainBlock);
  }

  /** The lines of a document whose body is followed by the root's own `END` tag and more. */
  lemma ClosedLines(use: string, items: seq<Item>, after: seq<string>)
    requires '\n' !in use && WellFormed(items) && NoNewlines(after)
    ensures var lines := [use] + Print(items) + [RootCloser()] + after;
      NoNewlines(lines) && Split(Join(lines)) == lines && FirstLine(Join(lines)) == use
      && lines[0] == use && lines[1..1 + |Print(items)|] == Print(items)
      && lines[1 + |Print(items)|] == RootCloser()
  {
    hide ParseTag, Print, Split, Join, FirstLine, RootCloser;
    var lines := [use] + Print(items) + [RootCloser()] + after;
    var p := Print(items);
    var tail := p + ([RootCloser()] + after);
    assert lines == [use] + tail;
    assert lines[1..] == tail;
    assert tail[..|p|] == p;
    assert lines[1..1 + |p|] == lines[1..][..|p|];
    assert lines[1 + |p|] == tail[|p|] == RootCloser();
    assert NoNewlines(lines) by {
      PrintNoNewlines(items);
      RootCloserReads();
      NoNewlinesAppend([use], Print(items));
      NoNewlinesAppend([use] + Print(items), [RootCloser()]);
      NoNewlinesAppend([use] + Print(items) + [RootCloser()], after);
    }
    SplitJoin(lines);
    FirstLineOfJoin(lines);
  }

  /**
   * `END:_INTERNAL_=MAIN_BLOCK` in the body closes the root block: what comes
   * after it never reaches the output, and there is no error.
   */
  lemma RootClosedEarly(use: string, items: seq<Item>, after: seq<string>, settings: Settings)
    requires '\n' !in use && IsUseTag(ParseTag(use)) && WellFormed(items) && NoNewlines(after)
    ensures var doc := Join([use] + Print(items) + [RootCloser()] + after);
      IsPerkdown(doc)
      && Rendered(doc, settings) == Evaluated(Unlines(Render(items, settings).lines), Render(items, settings).meta)
      && !Evaluate(doc, settings, Root).errors
  {
    hide Scan, Nested, Evaluate;
    EvaluateUnfold(Join([use] + Print(items) + [RootCloser()] + after), settings, Root);
    var lines := [use] + Print(items) + [RootCloser()] + after;
    var r := Render(items, settings);
    ClosedLines(use, items, after);
    RootSkipsUseLine(lines, settings);
    RootBody(lines, items, settings);
    assert Scan(lines, 1 + |Print(items)|, r.lines, r.meta, false, settings, Root).errors == false
        && Scan(lines, 1 + |Print(items)|, r.lines, r.meta, false, settings, Root).emitted == r.lines
        && Scan(lines, 1 + |Print(items)|, r.lines, r.meta, false, settings, Root).meta == r.meta by {
      RootCloserReads();
      ScanCloseStep(lines, 1 + |Print(items)|, r.lines, r.meta, false, settings, Root);
    }
  }
}
