/**
 * The block evaluator, `evaluateBlock` (src/index.ts:69-135).
 *
 * `Scan` and `Evaluate` state what the loop computes, as recursive functions
 * over the same lines and the same string slices the source uses; the method
 * `EvaluateBlock` is the loop itself, proved to compute them.
 */
module Evaluator {
  import opened Wrappers
  import opened Lines
  import opened Tags
  import opened Policy

  type Meta = map<string, string>

  /** EvaluatedPerkdownBlock (src/index.ts:17-22). */
  datatype BlockResult = BlockResult(markdown: string, meta: Meta, remaining: string, errors: bool)

  /**
   * What evaluating a block gives, with the markdown kept as the lines it is
   * made of: every emitted line contributes itself and a line feed.
   */
  datatype Outcome = Outcome(emitted: seq<string>, meta: Meta, remaining: string, errors: bool)

  function AsResult(o: Outcome): BlockResult {
    BlockResult(Unlines(o.emitted), o.meta, o.remaining, o.errors)
  }

  /** The tag is the `END` tag of block `b`: same key, same value. */
  predicate Closes(t: Option<Tag>, b: Block) {
    t.Some? && t.value.namespace == "END" && t.value.key == b.key && t.value.value == b.value
  }

  predicate IsMeta(t: Option<Tag>) {
    t.Some? && t.value.namespace == "META"
  }

  predicate IsBegin(t: Option<Tag>) {
    t.Some? && t.value.namespace == "BEGIN"
  }

  /** A recognised tag spans at least its `<!--`. */
  lemma TagLineIsLong(line: string)
    requires ParseTag(line).Some?
    ensures |line| >= 4
  {
    var i: nat :| i <= |line| && OccursAt(line, "<!--", i);
  }

  /**
   * The loop of evaluateBlock from the line at index `cur` of `lines` on, given
   * what the block has emitted, recorded and flagged so far. At the end of the
   * lines the block is unclosed unless it is the root, and `remaining` is the
   * last line; at its `END` tag `remaining` starts with that tag; a `BEGIN` tag
   * evaluates the nested block on the text after it and resumes after what the
   * nested block left over, one line past its first.
   */
  function Scan(lines: seq<string>, cur: nat, emitted: seq<string>, meta: Meta, errors: bool,
                settings: Settings, b: Block): (o: Outcome)
    requires 1 <= |lines| && cur <= |lines| && NoNewlines(lines)
    ensures IsSuffix(o.remaining, Join(lines))
    decreases |Join(lines)|, 0, |lines| - cur
  {
    if cur == |lines| then
      JoinSuffix(lines, cur - 1);
      Outcome(emitted, meta, Join(lines[cur - 1..]), errors || b.key != Internal)
    else
      var tag := ParseTag(lines[cur]);
      if Closes(tag, b) then
        JoinSuffix(lines, cur);
        Outcome(emitted, meta, Join(lines[cur..]), errors)
      else if IsMeta(tag) then
        Scan(lines, cur + 1, emitted, meta[tag.value.key := tag.value.value], errors, settings, b)
      else if IsBegin(tag) then
        TagLineIsLong(lines[cur]);
        Nested(lines, cur, Block(tag.value.key, tag.value.value), emitted, meta, errors, settings, b)
      else if tag.None? then
        Scan(lines, cur + 1, emitted + [lines[cur]], meta, errors, settings, b)
      else
        Scan(lines, cur + 1, emitted, meta, errors, settings, b)
  }

  /**
   * A `BEGIN` tag for block `nested` at index `cur`: the nested block is
   * evaluated on the text after the tag, its markdown, metadata and error flag
   * are merged in, and the scan resumes one line into what it left over.
   */
  function Nested(lines: seq<string>, cur: nat, nested: Block, emitted: seq<string>, meta: Meta,
                  errors: bool, settings: Settings, b: Block): (o: Outcome)
    requires 1 <= |lines| && cur < |lines| && NoNewlines(lines) && lines[cur] != ""
    ensures IsSuffix(o.remaining, Join(lines))
    decreases |Join(lines)|, 0, 0
  {
    JoinAfter(lines, cur);
    var child := Evaluate(Join(lines[cur + 1..]), settings, nested);
    var o := Scan(Split(child.remaining), 1, emitted + child.emitted, meta + child.meta,
                  errors || child.errors, settings, b);
    SuffixTransitive(child.remaining, Join(lines[cur + 1..]), Join(lines));
    SuffixTransitive(o.remaining, child.remaining, Join(lines));
    o
  }

  /**
   * evaluateBlock on `text` for block `b`: the scan of all of its lines, with
   * the markdown and the metadata cleared when the render policy excludes `b`;
   * what is left over and the error flag are kept either way.
   */
  function Evaluate(text: string, settings: Settings, b: Block): (o: Outcome)
    ensures IsSuffix(o.remaining, text)
    ensures !ShouldRender(b, settings) ==> o.emitted == [] && o.meta == map[]
    decreases |text|, 1, 0
  {
    var o := Scan(Split(text), 0, [], map[], false, settings, b);
    if ShouldRender(b, settings) then o else Outcome([], map[], o.remaining, o.errors)
  }

  /** `Evaluate` as a scan from the first line, for callers that do not unfold it. */
  lemma EvaluateUnfold(text: string, settings: Settings, b: Block)
    ensures var o := Scan(Split(text), 0, [], map[], false, settings, b);
      Evaluate(text, settings, b) == if ShouldRender(b, settings) then o else Outcome([], map[], o.remaining, o.errors)
  {
  }

  lemma UnlinesLine(emitted: seq<string>, line: string)
    ensures Unlines(emitted + [line]) == Unlines(emitted) + line + "\n"
  {
    UnlinesAppend(emitted, [line]);
  }

  /**
   * evaluateBlock as the source writes it: one pass over the lines, which a
   * nested block replaces by what it left over.
   */
  method EvaluateBlock(perkdown: string, settings: Settings, block: Block) returns (res: BlockResult)
    ensures res == AsResult(Evaluate(perkdown, settings, block))
    decreases |perkdown|
  {
    hide Scan, Nested, Evaluate, Split, ParseTag, ShouldRender, FirstLine, NoNewlines;
    var lines := Split(perkdown);
    var currentBlock := "";
    var currentLine: int := -1;
    var errors := false;
    var meta: Meta := map[];
    ghost var emitted: seq<string> := [];
    ghost var whole := Scan(lines, 0, [], map[], false, settings, block);
    while true
      invariant 1 <= |lines| && NoNewlines(lines) && -1 <= currentLine < |lines|
      invariant |Join(lines)| <= |perkdown|
      invariant currentBlock == Unlines(emitted)
      invariant Scan(lines, currentLine + 1, emitted, meta, errors, settings, block) == whole
      decreases |Join(lines)|, |lines| - currentLine
    {
      currentLine := currentLine + 1;
      if currentLine >= |lines| {
        ScanEndStep(lines, emitted, meta, errors, settings, block);
        assert lines[currentLine - 1..] == [lines[currentLine - 1]];
        if block.key != Internal {
          errors := true;
        }
        assert whole == Outcome(emitted, meta, Join(lines[currentLine - 1..]), errors);
        break;
      }
      var tag := ParseTag(lines[currentLine]);
      if Closes(tag, block) {
        ScanCloseStep(lines, currentLine, emitted, meta, errors, settings, block);
        currentLine := currentLine + 1;
        assert whole == Outcome(emitted, meta, Join(lines[currentLine - 1..]), errors);
        break;
      }
      ghost var emitted0, meta0 := emitted, meta;
      if IsMeta(tag) {
        meta := meta[tag.value.key := tag.value.value];
      }
      if IsBegin(tag) {
        var nested := Block(tag.value.key, tag.value.value);
        ghost var child := Evaluate(Join(lines[currentLine + 1..]), settings, nested);
        BeginBranch(lines, currentLine, nested, emitted, meta, errors, settings, block);
        var r := EvaluateBlock(Join(lines[currentLine + 1..]), settings, nested);
        UnlinesAppend(emitted, child.emitted);
        currentBlock := currentBlock + r.markdown;
        emitted := emitted + child.emitted;
        lines := Split(r.remaining);
        currentLine := 0;
        meta := meta + r.meta;
        if r.errors {
          errors := true;
        }
        continue;
      }
      if tag.None? {
        UnlinesLine(emitted, lines[currentLine]);
        currentBlock := currentBlock + lines[currentLine] + "\n";
        emitted := emitted + [lines[currentLine]];
      }
      ScanPass(lines, currentLine, currentLine + 1, tag, emitted0, meta0, emitted, meta, errors, settings, block);
    }
    var remaining := lines[currentLine - 1..];
    var rem := Join(remaining);
    EvaluateUnfold(perkdown, settings, block);
    var render := ShouldRender(block, settings);
    res := BlockResult(if render then currentBlock else "", if render then meta else map[], rem, errors);
  }

  /**
   * The `BEGIN` branch of the loop: the nested block gets a shorter text, and
   * the scan goes on, on a shorter text again, one line into what it left over.
   */
  lemma BeginBranch(lines: seq<string>, cur: nat, nested: Block, emitted: seq<string>, meta: Meta,
                    errors: bool, settings: Settings, b: Block)
    requires 1 <= |lines| && cur < |lines| && NoNewlines(lines)
    requires ParseTag(lines[cur]) == Some(Tag("BEGIN", nested.key, nested.value))
    ensures var child := Evaluate(Join(lines[cur + 1..]), settings, nested);
      |Join(lines[cur + 1..])| < |Join(lines)| && |Join(Split(child.remaining))| < |Join(lines)|
      && Scan(lines, cur, emitted, meta, errors, settings, b)
         == Scan(Split(child.remaining), 1, emitted + child.emitted, meta + child.meta, errors || child.errors, settings, b)
  {
    TagLineIsLong(lines[cur]);
    JoinAfter(lines, cur);
    ScanBeginStep(lines, cur, nested.key, nested.value, emitted, meta, errors, settings, b);
    NestedStep(lines, cur, nested, emitted, meta, errors, settings, b);
  }

  // ---------------------------------------------------------------------------
  // Single steps of a scan, by the kind of line under the cursor.

  lemma ScanContentStep(lines: seq<string>, cur: nat, emitted: seq<string>, meta: Meta, errors: bool,
                        settings: Settings, b: Block)
    requires 1 <= |lines| && cur < |lines| && NoNewlines(lines) && ParseTag(lines[cur]).None?
    ensures Scan(lines, cur, emitted, meta, errors, settings, b)
         == Scan(lines, cur + 1, emitted + [lines[cur]], meta, errors, settings, b)
  {
  }

  lemma ScanMetaStep(lines: seq<string>, cur: nat, k: string, v: string, emitted: seq<string>, meta: Meta,
                     errors: bool, settings: Settings, b: Block)
    requires 1 <= |lines| && cur < |lines| && NoNewlines(lines) && ParseTag(lines[cur]) == Some(Tag("META", k, v))
    ensures Scan(lines, cur, emitted, meta, errors, settings, b)
         == Scan(lines, cur + 1, emitted, meta[k := v], errors, settings, b)
  {
  }

  lemma ScanBeginStep(lines: seq<string>, cur: nat, k: string, v: string, emitted: seq<string>, meta: Meta,
                      errors: bool, settings: Settings, b: Block)
    requires 1 <= |lines| && cur < |lines| && NoNewlines(lines) && ParseTag(lines[cur]) == Some(Tag("BEGIN", k, v))
    requires lines[cur] != ""
    ensures Scan(lines, cur, emitted, meta, errors, settings, b)
         == Nested(lines, cur, Block(k, v), emitted, meta, errors, settings, b)
  {
    var tag := ParseTag(lines[cur]);
    assert !Closes(tag, b) && !IsMeta(tag) && IsBegin(tag);
  }

  lemma ScanCloseStep(lines: seq<string>, cur: nat, emitted: seq<string>, meta: Meta, errors: bool,
                      settings: Settings, b: Block)
    requires 1 <= |lines| && cur < |lines| && NoNewlines(lines) && ParseTag(lines[cur]) == Some(Tag("END", b.key, b.value))
    ensures Scan(lines, cur, emitted, meta, errors, settings, b) == Outcome(emitted, meta, Join(lines[cur..]), errors)
  {
  }

  /** A tag that neither closes the block nor is `META` or `BEGIN` is dropped. */
  lemma ScanSkipStep(lines: seq<string>, cur: nat, emitted: seq<string>, meta: Meta, errors: bool,
                     settings: Settings, b: Block)
    requires 1 <= |lines| && cur < |lines| && NoNewlines(lines)
    requires ParseTag(lines[cur]).Some? && !Closes(ParseTag(lines[cur]), b)
    requires !IsMeta(ParseTag(lines[cur])) && !IsBegin(ParseTag(lines[cur]))
    ensures Scan(lines, cur, emitted, meta, errors, settings, b)
         == Scan(lines, cur + 1, emitted, meta, errors, settings, b)
  {
  }

  /** Running out of lines leaves the last line as the remainder; only the root may do so without error. */
  lemma ScanEndStep(lines: seq<string>, emitted: seq<string>, meta: Meta, errors: bool, settings: Settings, b: Block)
    requires 1 <= |lines| && NoNewlines(lines)
    ensures Scan(lines, |lines|, emitted, meta, errors, settings, b)
         == Outcome(emitted, meta, lines[|lines| - 1], errors || b.key != Internal)
  {
    assert lines[|lines| - 1..] == [lines[|lines| - 1]];
  }

  /** After a nested block, the scan resumes one line into what the nested block left over. */
  lemma NestedStep(lines: seq<string>, cur: nat, nested: Block, emitted: seq<string>, meta: Meta,
                   errors: bool, settings: Settings, b: Block)
    requires 1 <= |lines| && cur < |lines| && NoNewlines(lines) && lines[cur] != ""
    ensures var child := Evaluate(Join(lines[cur + 1..]), settings, nested);
      Nested(lines, cur, nested, emitted, meta, errors, settings, b)
      == Scan(Split(child.remaining), 1, emitted + child.emitted, meta + child.meta, errors || child.errors, settings, b)
  {
  }

  /** The parent resumes one line into a remainder that is a tail of its own lines. */
  lemma ResumeAt(lines: seq<string>, j: nat, next: nat, emitted: seq<string>, meta: Meta, errors: bool,
                 settings: Settings, b: Block)
    requires NoNewlines(lines) && j < |lines| && next == j + 1
    ensures NoNewlines(lines[j..])
    ensures Scan(Split(Join(lines[j..])), 1, emitted, meta, errors, settings, b)
         == Scan(lines, next, emitted, meta, errors, settings, b)
  {
    var tail := lines[j..];
    assert NoNewlines(tail);
    assert Split(Join(tail)) == tail by {
      SplitJoin(tail);
    }
    ScanShift(lines, j, 1, emitted, meta, errors, settings, b);
  }

  /**
   * A block that meets only content lines copies all of them and runs out of
   * input: its remainder is the last line, and it is in error unless it is the
   * root.
   */
  lemma {:induction false} ScanRunsOut(lines: seq<string>, cur: nat, emitted: seq<string>, meta: Meta,
                                       errors: bool, settings: Settings, b: Block)
    requires 1 <= |lines| && cur <= |lines| && NoNewlines(lines) && AllContent(lines[cur..])
    ensures Scan(lines, cur, emitted, meta, errors, settings, b)
         == Outcome(emitted + lines[cur..], meta, lines[|lines| - 1], errors || b.key != Internal)
    decreases |lines| - cur
  {
    if cur == |lines| {
      assert emitted + lines[cur..] == emitted;
      ScanEndStep(lines, emitted, meta, errors, settings, b);
    } else {
      assert IsContent(lines[cur..][0]);
      ScanContentStep(lines, cur, emitted, meta, errors, settings, b);
      assert lines[cur..] == [lines[cur]] + lines[cur + 1..];
      var rest := lines[cur + 1..];
      assert AllContent(rest) by {
        forall i | 0 <= i < |rest| ensures IsContent(rest[i]) {
          assert rest[i] == lines[cur..][i + 1];
        }
      }
      ScanRunsOut(lines, cur + 1, emitted + [lines[cur]], meta, errors, settings, b);
      assert emitted + [lines[cur]] + lines[cur + 1..] == emitted + lines[cur..];
    }
  }

  /**
   * When the nested block stops cleanly at line `j`, the parent goes on from
   * the line after it with the child's lines and metadata added.
   */
  lemma NestedResume(lines: seq<string>, cur: nat, nested: Block, j: nat, next: nat, el: seq<string>, em: Meta,
                     emitted: seq<string>, meta: Meta, errors: bool, settings: Settings, b: Block)
    requires NoNewlines(lines) && cur < j < |lines| && next == j + 1 && lines[cur] != ""
    requires Evaluate(Join(lines[cur + 1..]), settings, nested) == Outcome(el, em, Join(lines[j..]), false)
    ensures Nested(lines, cur, nested, emitted, meta, errors, settings, b)
         == Scan(lines, next, emitted + el, meta + em, errors, settings, b)
  {
    assert (errors || false) == errors;
    NestedStep(lines, cur, nested, emitted, meta, errors, settings, b);
    ResumeAt(lines, j, next, emitted + el, meta + em, errors, settings, b);
  }




  // ---------------------------------------------------------------------------
  // What a scan produces.

  /** A line the evaluator copies to the markdown: no tag, no line feed. */
  predicate IsContent(line: string) {
    ParseTag(line).None? && '\n' !in line
  }

  predicate AllContent(lines: seq<string>) {
    forall i :: 0 <= i < |lines| ==> IsContent(lines[i])
  }

  /**
   * A scan only appends to the markdown and only ever sets the error flag, and
   * everything it appends is content: tags never reach the markdown.
   */
  lemma {:induction false} ScanGrows(lines: seq<string>, cur: nat, emitted: seq<string>, meta: Meta,
                                     errors: bool, settings: Settings, b: Block)
    requires 1 <= |lines| && cur <= |lines| && NoNewlines(lines)
    ensures var o := Scan(lines, cur, emitted, meta, errors, settings, b);
      emitted <= o.emitted && (errors ==> o.errors) && (AllContent(emitted) ==> AllContent(o.emitted))
    decreases |Join(lines)|, 0, |lines| - cur
  {
    if cur < |lines| {
      var tag := ParseTag(lines[cur]);
      if Closes(tag, b) {
      } else if IsMeta(tag) {
        ScanGrows(lines, cur + 1, emitted, meta[tag.value.key := tag.value.value], errors, settings, b);
      } else if IsBegin(tag) {
        TagLineIsLong(lines[cur]);
        NestedGrows(lines, cur, Block(tag.value.key, tag.value.value), emitted, meta, errors, settings, b);
      } else if tag.None? {
        ScanGrows(lines, cur + 1, emitted + [lines[cur]], meta, errors, settings, b);
      } else {
        ScanGrows(lines, cur + 1, emitted, meta, errors, settings, b);
      }
    }
  }

  lemma {:induction false} NestedGrows(lines: seq<string>, cur: nat, nested: Block, emitted: seq<string>,
                                       meta: Meta, errors: bool, settings: Settings, b: Block)
    requires 1 <= |lines| && cur < |lines| && NoNewlines(lines) && lines[cur] != ""
    ensures var o := Nested(lines, cur, nested, emitted, meta, errors, settings, b);
      emitted <= o.emitted && (errors ==> o.errors) && (AllContent(emitted) ==> AllContent(o.emitted))
    decreases |Join(lines)|, 0, 0
  {
    JoinAfter(lines, cur);
    var child := Evaluate(Join(lines[cur + 1..]), settings, nested);
    EvaluateContent(Join(lines[cur + 1..]), settings, nested);
    ScanGrows(Split(child.remaining), 1, emitted + child.emitted, meta + child.meta,
              errors || child.errors, settings, b);
  }

  /** Everything a block evaluates to is content lines. */
  lemma {:induction false} EvaluateContent(text: string, settings: Settings, b: Block)
    ensures AllContent(Evaluate(text, settings, b).emitted)
    decreases |text|, 1, 0
  {
    ScanGrows(Split(text), 0, [], map[], false, settings, b);
  }

  /**
   * The settings decide only what is rendered: where a scan stops and whether
   * it flags an error do not depend on them, nor on what was rendered so far.
   */
  lemma {:induction false} ScanSettingsFree(lines: seq<string>, cur: nat, e1: seq<string>, m1: Meta,
                                            e2: seq<string>, m2: Meta, errors: bool,
                                            s1: Settings, s2: Settings, b: Block)
    requires 1 <= |lines| && cur <= |lines| && NoNewlines(lines)
    ensures Scan(lines, cur, e1, m1, errors, s1, b).remaining == Scan(lines, cur, e2, m2, errors, s2, b).remaining
    ensures Scan(lines, cur, e1, m1, errors, s1, b).errors == Scan(lines, cur, e2, m2, errors, s2, b).errors
    decreases |Join(lines)|, 0, |lines| - cur
  {
    if cur < |lines| {
      var tag := ParseTag(lines[cur]);
      if Closes(tag, b) {
      } else if IsBegin(tag) {
        TagLineIsLong(lines[cur]);
        ScanBeginStep(lines, cur, tag.value.key, tag.value.value, e1, m1, errors, s1, b);
        ScanBeginStep(lines, cur, tag.value.key, tag.value.value, e2, m2, errors, s2, b);
        NestedSettingsFree(lines, cur, Block(tag.value.key, tag.value.value), e1, m1, e2, m2, errors, s1, s2, b);
      } else {
        var f1 := if tag.None? then e1 + [lines[cur]] else e1;
        var n1 := if IsMeta(tag) then m1[tag.value.key := tag.value.value] else m1;
        var f2 := if tag.None? then e2 + [lines[cur]] else e2;
        var n2 := if IsMeta(tag) then m2[tag.value.key := tag.value.value] else m2;
        ScanPass(lines, cur, cur + 1, tag, e1, m1, f1, n1, errors, s1, b);
        ScanPass(lines, cur, cur + 1, tag, e2, m2, f2, n2, errors, s2, b);
        ScanSettingsFree(lines, cur + 1, f1, n1, f2, n2, errors, s1, s2, b);
      }
    }
  }

  lemma {:induction false} NestedSettingsFree(lines: seq<string>, cur: nat, nested: Block,
                                              e1: seq<string>, m1: Meta, e2: seq<string>, m2: Meta,
                                              errors: bool, s1: Settings, s2: Settings, b: Block)
    requires 1 <= |lines| && cur < |lines| && NoNewlines(lines) && lines[cur] != ""
    ensures Nested(lines, cur, nested, e1, m1, errors, s1, b).remaining
         == Nested(lines, cur, nested, e2, m2, errors, s2, b).remaining
    ensures Nested(lines, cur, nested, e1, m1, errors, s1, b).errors
         == Nested(lines, cur, nested, e2, m2, errors, s2, b).errors
    decreases |Join(lines)|, 0, 0
  {
    JoinAfter(lines, cur);
    var text := Join(lines[cur + 1..]);
    var c1 := Evaluate(text, s1, nested);
    var c2 := Evaluate(text, s2, nested);
    EvaluateSettingsFree(text, s1, s2, nested);
    ScanSettingsFree(Split(c1.remaining), 1, e1 + c1.emitted, m1 + c1.meta, e2 + c2.emitted, m2 + c2.meta,
                     errors || c1.errors, s1, s2, b);
  }

  /** Excluding a block never hides its errors and never changes where scanning resumes. */
  lemma {:induction false} EvaluateSettingsFree(text: string, s1: Settings, s2: Settings, b: Block)
    ensures Evaluate(text, s1, b).remaining == Evaluate(text, s2, b).remaining
    ensures Evaluate(text, s1, b).errors == Evaluate(text, s2, b).errors
    decreases |text|, 1, 0
  {
    ScanSettingsFree(Split(text), 0, [], map[], [], map[], false, s1, s2, b);
  }

  /**
   * Where a block stops: at its own `END` tag, which then heads what is left
   * over, or by running out of lines, when what is left over is a single line
   * and, unless the block is the root, the error flag is set. That line is the
   * last line of the innermost text the scan ran out on: after a nested block
   * it is the last line of what that block left over, which is the empty line
   * when the text ends in a `BEGIN` line.
   */
  predicate StopsAt(o: Outcome, b: Block) {
    Closes(ParseTag(FirstLine(o.remaining)), b)
    || ('\n' !in o.remaining && (b.key != Internal ==> o.errors))
  }

  lemma {:induction false} ScanStops(lines: seq<string>, cur: nat, emitted: seq<string>, meta: Meta,
                                     errors: bool, settings: Settings, b: Block)
    requires 1 <= |lines| && cur <= |lines| && NoNewlines(lines)
    ensures StopsAt(Scan(lines, cur, emitted, meta, errors, settings, b), b)
    decreases |Join(lines)|, 0, |lines| - cur
  {
    if cur == |lines| {
      assert lines[cur - 1..] == [lines[cur - 1]];
    } else {
      var tag := ParseTag(lines[cur]);
      if Closes(tag, b) {
        FirstLineOfJoin(lines[cur..]);
      } else if IsMeta(tag) {
        ScanStops(lines, cur + 1, emitted, meta[tag.value.key := tag.value.value], errors, settings, b);
      } else if IsBegin(tag) {
        TagLineIsLong(lines[cur]);
        JoinAfter(lines, cur);
        var child := Evaluate(Join(lines[cur + 1..]), settings, Block(tag.value.key, tag.value.value));
        ScanStops(Split(child.remaining), 1, emitted + child.emitted, meta + child.meta,
                  errors || child.errors, settings, b);
      } else if tag.None? {
        ScanStops(lines, cur + 1, emitted + [lines[cur]], meta, errors, settings, b);
      } else {
        ScanStops(lines, cur + 1, emitted, meta, errors, settings, b);
      }
    }
  }

  /** Every evaluated block stops at its own `END` tag or with a single line left over. */
  lemma EvaluateStops(text: string, settings: Settings, b: Block)
    ensures StopsAt(Evaluate(text, settings, b), b)
  {
    ScanStops(Split(text), 0, [], map[], false, settings, b);
  }

  /** A line that neither closes the block nor opens a nested one is passed over. */
  lemma ScanPass(lines: seq<string>, cur: nat, next: nat, tag: Option<Tag>, emitted: seq<string>, meta: Meta,
                 e: seq<string>, m: Meta, errors: bool, settings: Settings, b: Block)
    requires 1 <= |lines| && cur < |lines| && next == cur + 1 && NoNewlines(lines)
    requires tag == ParseTag(lines[cur]) && !Closes(tag, b) && !IsBegin(tag)
    requires e == if tag.None? then emitted + [lines[cur]] else emitted
    requires m == if IsMeta(tag) then meta[tag.value.key := tag.value.value] else meta
    ensures Scan(lines, cur, emitted, meta, errors, settings, b) == Scan(lines, next, e, m, errors, settings, b)
  {
  }

  /** The last step of a shifted scan: the end of the lines. */
  lemma ShiftEnd(lines: seq<string>, k: nat, cur: nat, emitted: seq<string>, meta: Meta,
                 errors: bool, settings: Settings, b: Block)
    requires NoNewlines(lines) && k < |lines| && 1 <= cur && cur == |lines| - k
    ensures NoNewlines(lines[k..])
    ensures Scan(lines[k..], cur, emitted, meta, errors, settings, b)
         == Scan(lines, k + cur, emitted, meta, errors, settings, b)
  {
    var tail := lines[k..];
    assert NoNewlines(tail);
    assert tail[cur - 1..] == lines[k + cur - 1..];
  }

  /** The last step of a shifted scan: the block's `END` tag. */
  lemma ShiftClose(lines: seq<string>, k: nat, cur: nat, emitted: seq<string>, meta: Meta,
                   errors: bool, settings: Settings, b: Block)
    requires NoNewlines(lines) && k < |lines| && 1 <= cur < |lines| - k
    requires Closes(ParseTag(lines[k + cur]), b)
    ensures NoNewlines(lines[k..])
    ensures Scan(lines[k..], cur, emitted, meta, errors, settings, b)
         == Scan(lines, k + cur, emitted, meta, errors, settings, b)
  {
    var tail := lines[k..];
    assert NoNewlines(tail);
    assert tail[cur] == lines[k + cur];
    assert tail[cur..] == lines[k + cur..];
  }

  /** The last step of a shifted scan: a nested block, which sees the same text either way. */
  lemma ShiftBegin(lines: seq<string>, k: nat, cur: nat, emitted: seq<string>, meta: Meta,
                   errors: bool, settings: Settings, b: Block)
    requires NoNewlines(lines) && k < |lines| && 1 <= cur < |lines| - k
    requires !Closes(ParseTag(lines[k + cur]), b) && IsBegin(ParseTag(lines[k + cur]))
    ensures NoNewlines(lines[k..])
    ensures Scan(lines[k..], cur, emitted, meta, errors, settings, b)
         == Scan(lines, k + cur, emitted, meta, errors, settings, b)
  {
    var tail := lines[k..];
    assert NoNewlines(tail);
    assert tail[cur] == lines[k + cur];
    TagLineIsLong(lines[k + cur]);
    assert tail[cur + 1..] == lines[k + cur + 1..];
  }

  /**
   * A scan depends only on the lines from the one before the cursor on: the
   * array a nested block hands back is the tail of the original one.
   */
  lemma {:induction false} ScanShift(lines: seq<string>, k: nat, cur: nat, emitted: seq<string>, meta: Meta,
                                     errors: bool, settings: Settings, b: Block)
    requires 1 <= |lines| && NoNewlines(lines) && k < |lines| && 1 <= cur <= |lines| - k
    ensures NoNewlines(lines[k..])
    ensures Scan(lines[k..], cur, emitted, meta, errors, settings, b)
         == Scan(lines, k + cur, emitted, meta, errors, settings, b)
    decreases |lines| - k - cur
  {
    var tail := lines[k..];
    assert NoNewlines(tail);
    if cur == |tail| {
      ShiftEnd(lines, k, cur, emitted, meta, errors, settings, b);
    } else {
      var line := lines[k + cur];
      assert tail[cur] == line;
      var tag := ParseTag(line);
      if Closes(tag, b) {
        ShiftClose(lines, k, cur, emitted, meta, errors, settings, b);
      } else if IsBegin(tag) {
        ShiftBegin(lines, k, cur, emitted, meta, errors, settings, b);
      } else {
        var e := if tag.None? then emitted + [line] else emitted;
        var m := if IsMeta(tag) then meta[tag.value.key := tag.value.value] else meta;
        ScanPass(tail, cur, cur + 1, tag, emitted, meta, e, m, errors, settings, b);
        ScanShift(lines, k, cur + 1, e, m, errors, settings, b);
        ScanPass(lines, k + cur, k + (cur + 1), tag, emitted, meta, e, m, errors, settings, b);
      }
    }
  }

}
