/**
 * The string operations the evaluator is built on: `String.prototype.split("\n")`,
 * `Array.prototype.join(sep)` and the running `currentBlock += line + "\n"`.
 */
module Lines {

  /** No element contains a line feed, as holds of every element of a split. */
  predicate NoNewlines(lines: seq<string>) {
    forall i :: 0 <= i < |lines| ==> '\n' !in lines[i]
  }

  lemma NoNewlinesAppend(a: seq<string>, b: seq<string>)
    requires NoNewlines(a) && NoNewlines(b)
    ensures NoNewlines(a + b)
  {
    forall i | 0 <= i < |a + b| ensures '\n' !in (a + b)[i] {
      if i >= |a| {
        assert (a + b)[i] == b[i - |a|];
      }
    }
  }

  /** `t` is a suffix of `s`. */
  predicate IsSuffix(t: string, s: string) {
    |t| <= |s| && s[|s| - |t|..] == t
  }

  lemma SuffixTransitive(a: string, b: string, c: string)
    requires IsSuffix(a, b) && IsSuffix(b, c)
    ensures IsSuffix(a, c)
  {
    assert c[|c| - |a|..] == c[|c| - |b|..][|b| - |a|..];
  }

  /** `xs.join(sep)` for a one-character separator. */
  function JoinWith(xs: seq<string>, sep: char): string
  {
    if |xs| == 0 then ""
    else if |xs| == 1 then xs[0]
    else xs[0] + [sep] + JoinWith(xs[1..], sep)
  }

  /** `lines.join("\n")`. */
  function Join(lines: seq<string>): string
  {
    JoinWith(lines, '\n')
  }

  /** The text before the first line feed: `s.split("\n")[0]`. */
  function FirstLine(s: string): (r: string)
    ensures r <= s && '\n' !in r
    ensures |r| < |s| ==> s[|r|] == '\n'
  {
    if |s| == 0 || s[0] == '\n' then "" else [s[0]] + FirstLine(s[1..])
  }

  /** `s.split("\n")`: never empty, and joining it back gives `s`. */
  function Split(s: string): (r: seq<string>)
    ensures |r| >= 1 && NoNewlines(r)
    ensures r[0] == FirstLine(s)
    ensures Join(r) == s
    decreases |s|
  {
    var f := FirstLine(s);
    if |f| == |s| then
      assert f == s;
      [s]
    else
      var rest := Split(s[|f| + 1..]);
      assert s == f + "\n" + s[|f| + 1..];
      [f] + rest
  }

  /** `lines.map(l => l + "\n").join("")`: the markdown a run of emitted lines makes. */
  function Unlines(lines: seq<string>): string
  {
    if lines == [] then "" else lines[0] + "\n" + Unlines(lines[1..])
  }

  lemma {:induction false} UnlinesAppend(a: seq<string>, b: seq<string>)
    ensures Unlines(a + b) == Unlines(a) + Unlines(b)
    decreases |a|
  {
    if a != [] {
      assert (a + b)[1..] == a[1..] + b;
      UnlinesAppend(a[1..], b);
    } else {
      assert a + b == b;
    }
  }

  /** A line without a line feed is its own first line. */
  lemma FirstLineOfLine(x: string)
    requires '\n' !in x
    ensures FirstLine(x) == x
  {
  }

  /** The first line of `x + "\n" + y` is `x`. */
  lemma FirstLineOfJoined(x: string, y: string)
    requires '\n' !in x
    ensures FirstLine(x + "\n" + y) == x
  {
    var s := x + "\n" + y;
    var r := FirstLine(s);
    assert s[|x|] == '\n';
    assert forall i :: 0 <= i < |x| ==> s[i] == x[i];
    assert r == s[..|r|];
    assert s[..|x|] == x;
  }

  /** The first line of a joined list is its first element. */
  lemma FirstLineOfJoin(lines: seq<string>)
    requires |lines| >= 1 && NoNewlines(lines)
    ensures FirstLine(Join(lines)) == lines[0]
  {
    if |lines| == 1 {
      FirstLineOfLine(lines[0]);
    } else {
      FirstLineOfJoined(lines[0], Join(lines[1..]));
    }
  }

  /** Splitting what was joined gives back the lines, as long as there is at least one. */
  lemma {:induction false} SplitJoin(lines: seq<string>)
    requires |lines| >= 1 && NoNewlines(lines)
    ensures Split(Join(lines)) == lines
    decreases |lines|
  {
    var s := Join(lines);
    FirstLineOfJoin(lines);
    if |lines| == 1 {
      FirstLineOfLine(lines[0]);
    } else {
      var x := lines[0];
      assert s == x + "\n" + Join(lines[1..]);
      assert s[|x| + 1..] == Join(lines[1..]);
      SplitJoin(lines[1..]);
      assert lines == [x] + lines[1..];
    }
  }

  /** Dropping the first line of a join leaves a suffix at least that line shorter. */
  lemma JoinTail(lines: seq<string>)
    requires |lines| >= 1
    ensures IsSuffix(Join(lines[1..]), Join(lines))
    ensures |Join(lines[1..])| + |lines[0]| <= |Join(lines)|
  {
    if |lines| > 1 {
      var s := Join(lines);
      assert s == lines[0] + "\n" + Join(lines[1..]);
      assert s[|s| - |Join(lines[1..])|..] == Join(lines[1..]);
    }
  }

  /** `lines.slice(k).join("\n")` is a suffix of `lines.join("\n")`. */
  lemma {:induction false} JoinSuffix(lines: seq<string>, k: nat)
    requires k <= |lines|
    ensures IsSuffix(Join(lines[k..]), Join(lines))
    decreases k
  {
    if k > 0 {
      JoinSuffix(lines, k - 1);
      JoinTail(lines[k - 1..]);
      assert lines[k - 1..][1..] == lines[k..];
      SuffixTransitive(Join(lines[k..]), Join(lines[k - 1..]), Join(lines));
    }
  }

  /**
   * What a nested block receives, `lines.slice(k + 1).join("\n")`, is a suffix
   * of the current text, shorter by at least the line at `k`.
   */
  lemma JoinAfter(lines: seq<string>, k: nat)
    requires k < |lines|
    ensures IsSuffix(Join(lines[k + 1..]), Join(lines))
    ensures |Join(lines[k + 1..])| + |lines[k]| <= |Join(lines)|
  {
    JoinSuffix(lines, k);
    JoinTail(lines[k..]);
    assert lines[k..][1..] == lines[k + 1..];
    SuffixTransitive(Join(lines[k + 1..]), Join(lines[k..]), Join(lines));
  }
}
