/**
 * The tag recogniser, `parsePerkdownTag` (src/index.ts:150-164).
 *
 * The source matches a line against
 *     ^ *?<!-- *([A-Z|_]*):([A-Z|_]*)=?(.*?) *--> *?$
 * with the `m` flag. None of the pattern's atoms can consume a line terminator
 * (`\n`, `\r`, U+2028, U+2029), while `^` and `$` match at either side of one,
 * so a match is always one whole terminator-free segment of the line, and
 * `exec` returns the first such segment that matches. Within one segment the
 * backtracking is deterministic, and `Match` below takes the same decisions:
 *  - the leading spaces and the spaces after `<!--` are all the spaces there
 *    are, because the next atom never matches a space;
 *  - the namespace and the key are maximal runs of `A`-`Z`, `_` and `|`
 *    (`|` is a literal inside the class); a shorter run would leave a name
 *    character where the pattern needs `:` or could only push it into the value;
 *  - a `=` right after the key is always taken;
 *  - the value is the shortest rest after which only spaces, `-->`, spaces remain.
 */
module Tags {
  import opened Wrappers

  /** PerkdownTag (src/index.ts:2-6). */
  datatype Tag = Tag(namespace: string, key: string, value: string)

  /** The characters JavaScript counts as line terminators for `.`, `^` and `$`. */
  predicate IsBreak(c: char) {
    c == '\n' || c == '\r' || c == '\U{2028}' || c == '\U{2029}'
  }

  predicate NoBreaks(s: string) {
    forall i :: 0 <= i < |s| ==> !IsBreak(s[i])
  }

  /** The class `[A-Z|_]`. */
  predicate IsNameChar(c: char) {
    'A' <= c <= 'Z' || c == '|' || c == '_'
  }

  predicate IsName(s: string) {
    forall i :: 0 <= i < |s| ==> IsNameChar(s[i])
  }

  predicate AllSpaces(s: string) {
    forall i :: 0 <= i < |s| ==> s[i] == ' '
  }

  predicate EndsWithSpace(s: string) {
    |s| > 0 && s[|s| - 1] == ' '
  }

  function Spaces(n: nat): (r: string)
    ensures |r| == n
  {
    seq(n, _ => ' ')
  }

  /** The number of spaces `s` starts with. */
  function LeadingSpaces(s: string): (n: nat)
    ensures n <= |s|
    ensures n < |s| ==> s[n] != ' '
  {
    if |s| > 0 && s[0] == ' ' then 1 + LeadingSpaces(s[1..]) else 0
  }

  /** The length of the longest prefix of `s` made of name characters. */
  function NameRun(s: string): (n: nat)
    ensures n <= |s|
    ensures n < |s| ==> !IsNameChar(s[n])
  {
    if |s| > 0 && IsNameChar(s[0]) then 1 + NameRun(s[1..]) else 0
  }

  /** The length of the longest prefix of `s` without line terminators. */
  function BreakFree(s: string): (n: nat)
    ensures n <= |s|
    ensures n < |s| ==> IsBreak(s[n])
  {
    if |s| > 0 && !IsBreak(s[0]) then 1 + BreakFree(s[1..]) else 0
  }

  /** `t` matches ` *--> *`: what may follow the value up to the end of the line. */
  predicate IsCloser(t: string) {
    var c := LeadingSpaces(t);
    c + 3 <= |t| && t[c..c + 3] == "-->" && AllSpaces(t[c + 3..])
  }

  /** The least `j >= i` such that `s[j..]` is a closer: where the lazy value ends. */
  function ValueEnd(s: string, i: nat): (r: Option<nat>)
    requires i <= |s|
    ensures r.Some? ==> i <= r.value <= |s| && IsCloser(s[r.value..])
    decreases |s| - i
  {
    if IsCloser(s[i..]) then Some(i)
    else if i == |s| then None
    else ValueEnd(s, i + 1)
  }

  /** How a tag line is spaced: the parts of a matching line that the tag does not record. */
  datatype Layout = Layout(lead: nat, gap: nat, equals: bool, pad: nat, trail: nat)

  datatype Parsed = Parsed(layout: Layout, tag: Tag)

  /** What follows the key: an optional `=`, the value and the closer's spacing. */
  datatype ValuePart = ValuePart(equals: bool, value: string, pad: nat, trail: nat)

  /** What follows the spaces after `<!--`. */
  datatype Named = Named(namespace: string, key: string, part: ValuePart)

  function Closer(pad: nat, trail: nat): string {
    Spaces(pad) + ("-->" + Spaces(trail))
  }

  function ValueText(p: ValuePart): string {
    (if p.equals then "=" else "") + (p.value + Closer(p.pad, p.trail))
  }

  function NamedText(nm: Named): string {
    nm.namespace + (":" + (nm.key + ValueText(nm.part)))
  }

  /** The line a layout and a tag spell out. */
  function Format(lay: Layout, t: Tag): string {
    Spaces(lay.lead) + ("<!--" + (Spaces(lay.gap) +
      NamedText(Named(t.namespace, t.key, ValuePart(lay.equals, t.value, lay.pad, lay.trail)))))
  }

  /** A value part that reads back unchanged after a key: see `Canonical`. */
  predicate CanonicalPart(p: ValuePart) {
    NoBreaks(p.value) && !EndsWithSpace(p.value)
    && (!p.equals && |p.value| > 0 ==> p.value[0] != '=' && !IsNameChar(p.value[0]))
  }

  /**
   * The layouts and tags that the pattern reads back unchanged: names over the
   * class, a value without terminators and without a trailing space, and, when
   * no `=` is written, a value that cannot be taken for more key or for the `=`.
   */
  predicate Canonical(lay: Layout, t: Tag) {
    IsName(t.namespace) && IsName(t.key)
    && CanonicalPart(ValuePart(lay.equals, t.value, lay.pad, lay.trail))
  }

  /** `=?(.*?) *--> *?$` on what follows the key. */
  function MatchValue(s: string): Option<ValuePart>
  {
    if |s| >= 1 && s[0] == '=' then MatchLazy(true, s[1..]) else MatchLazy(false, s)
  }

  /** `(.*?) *--> *?$` on what follows the optional `=`. */
  function MatchLazy(equals: bool, s: string): Option<ValuePart>
  {
    match ValueEnd(s, 0)
    case None => None
    case Some(v) =>
      var pad := LeadingSpaces(s[v..]);
      Some(ValuePart(equals, s[..v], pad, |s| - v - pad - 3))
  }

  /** `([A-Z|_]*):([A-Z|_]*)` and the rest, on what follows the spaces after `<!--`. */
  function MatchNamed(s: string): Option<Named>
  {
    var n := NameRun(s);
    var s1 := s[n..];
    if !(|s1| >= 1 && s1[0] == ':') then None
    else
      var s2 := s1[1..];
      var k := NameRun(s2);
      match MatchValue(s2[k..])
      case None => None
      case Some(p) => Some(Named(s[..n], s2[..k], p))
  }

  /** The pattern on one terminator-free segment, which it must span entirely. */
  function Match(s: string): Option<Parsed>
  {
    var lead := LeadingSpaces(s);
    var s1 := s[lead..];
    if !(|s1| >= 4 && s1[..4] == "<!--") then None
    else
      var s2 := s1[4..];
      var gap := LeadingSpaces(s2);
      match MatchNamed(s2[gap..])
      case None => None
      case Some(nm) =>
        Some(Parsed(Layout(lead, gap, nm.part.equals, nm.part.pad, nm.part.trail),
                    Tag(nm.namespace, nm.key, nm.part.value)))
  }

  /** `exec` from position 0: the first segment of `s` that matches. */
  function FirstMatch(s: string): (r: Option<Tag>)
    ensures r.Some? ==> IsName(r.value.namespace) && IsName(r.value.key)
    ensures r.Some? ==> NoBreaks(r.value.value) && !EndsWithSpace(r.value.value)
    decreases |s|
  {
    var e := BreakFree(s);
    var m := Match(s[..e]);
    if m.Some? then
      BreakFreePrefix(s);
      MatchSound(s[..e], m.value);
      Some(m.value.tag)
    else if e == |s| then None
    else FirstMatch(s[e + 1..])
  }

  /** `p` occurs in `s` at position `i`. */
  predicate OccursAt(s: string, p: string, i: nat) {
    i + |p| <= |s| && s[i..][..|p|] == p
  }

  /** `s.includes(p)`. */
  predicate Contains(s: string, p: string) {
    exists i: nat :: i <= |s| && OccursAt(s, p, i)
  }

  /**
   * parsePerkdownTag: the tag a line spells, if it is one. Lines without `<!--`
   * are refused at once; a recognised tag has names over the class and a value
   * that never ends in a space.
   */
  function ParseTag(line: string): (r: Option<Tag>)
    ensures !Contains(line, "<!--") ==> r.None?
    ensures r.Some? ==> IsName(r.value.namespace) && IsName(r.value.key)
    ensures r.Some? ==> NoBreaks(r.value.value) && !EndsWithSpace(r.value.value)
  {
    if !Contains(line, "<!--") then None else FirstMatch(line)
  }


  /** A line without `<` is never a tag. */
  lemma PlainLine(s: string)
    requires '<' !in s
    ensures ParseTag(s).None?
  {
    forall i: nat | i <= |s| ensures !OccursAt(s, "<!--", i) {
      if i + 4 <= |s| {
        assert s[i..][..4][0] == s[i];
      }
    }
  }

  // ---------------------------------------------------------------------------
  // Helper facts about the scanning functions.

  lemma Cut(s: string, i: nat)
    requires i <= |s|
    ensures s == s[..i] + s[i..]
  {
  }

  lemma Cut3(s: string, i: nat, j: nat)
    requires i <= j <= |s|
    ensures s == s[..i] + (s[i..j] + s[j..])
  {
    assert s[i..] == s[i..j] + s[j..];
  }

  lemma Halves(x: string, y: string)
    ensures (x + y)[..|x|] == x && (x + y)[|x|..] == y
  {
  }

  lemma SpacesAll(n: nat)
    ensures AllSpaces(Spaces(n))
  {
  }

  lemma SpacesAre(s: string)
    requires AllSpaces(s)
    ensures s == Spaces(|s|)
  {
  }

  lemma {:induction false} LeadingSpacesPrefix(s: string)
    ensures AllSpaces(s[..LeadingSpaces(s)])
  {
    if |s| > 0 && s[0] == ' ' {
      LeadingSpacesPrefix(s[1..]);
      var n := LeadingSpaces(s);
      assert s[..n] == [s[0]] + s[1..][..n - 1];
    }
  }

  lemma {:induction false} NameRunPrefix(s: string)
    ensures IsName(s[..NameRun(s)])
  {
    if |s| > 0 && IsNameChar(s[0]) {
      NameRunPrefix(s[1..]);
      var n := NameRun(s);
      assert s[..n] == [s[0]] + s[1..][..n - 1];
    }
  }

  lemma {:induction false} BreakFreePrefix(s: string)
    ensures NoBreaks(s[..BreakFree(s)])
  {
    if |s| > 0 && !IsBreak(s[0]) {
      BreakFreePrefix(s[1..]);
      var n := BreakFree(s);
      assert s[..n] == [s[0]] + s[1..][..n - 1];
    }
  }

  lemma LeadingSpacesIs(s: string, n: nat)
    requires n <= |s| && AllSpaces(s[..n]) && (n < |s| ==> s[n] != ' ')
    ensures LeadingSpaces(s) == n
  {
    var m := LeadingSpaces(s);
    LeadingSpacesPrefix(s);
    assert forall i :: 0 <= i < n ==> s[i] == ' ' by {
      forall i | 0 <= i < n ensures s[i] == ' ' { assert s[..n][i] == s[i]; }
    }
    assert forall i :: 0 <= i < m ==> s[i] == ' ' by {
      forall i | 0 <= i < m ensures s[i] == ' ' { assert s[..m][i] == s[i]; }
    }
  }

  lemma NameRunIs(s: string, n: nat)
    requires n <= |s| && IsName(s[..n]) && (n < |s| ==> !IsNameChar(s[n]))
    ensures NameRun(s) == n
  {
    var m := NameRun(s);
    NameRunPrefix(s);
    assert forall i :: 0 <= i < n ==> IsNameChar(s[i]) by {
      forall i | 0 <= i < n ensures IsNameChar(s[i]) { assert s[..n][i] == s[i]; }
    }
    assert forall i :: 0 <= i < m ==> IsNameChar(s[i]) by {
      forall i | 0 <= i < m ensures IsNameChar(s[i]) { assert s[..m][i] == s[i]; }
    }
  }

  lemma LeadingSpacesOf(n: nat, x: string)
    requires |x| > 0 ==> x[0] != ' '
    ensures LeadingSpaces(Spaces(n) + x) == n
    ensures (Spaces(n) + x)[n..] == x
  {
    var s := Spaces(n) + x;
    assert s[..n] == Spaces(n);
    SpacesAll(n);
    LeadingSpacesIs(s, n);
  }

  lemma NameRunOf(name: string, x: string)
    requires IsName(name) && (|x| > 0 ==> !IsNameChar(x[0]))
    ensures NameRun(name + x) == |name|
    ensures (name + x)[..|name|] == name && (name + x)[|name|..] == x
  {
    var s := name + x;
    assert s[..|name|] == name;
    NameRunIs(s, |name|);
  }

  lemma CloserIsCloser(pad: nat, trail: nat)
    ensures IsCloser(Closer(pad, trail))
    ensures LeadingSpaces(Closer(pad, trail)) == pad
  {
    LeadingSpacesOf(pad, "-->" + Spaces(trail));
    var c := Closer(pad, trail);
    assert c[pad + 3..] == Spaces(trail);
    SpacesAll(trail);
  }

  /** Spaces in front of a closer give a closer. */
  lemma CloserAfterSpaces(x: string, c: string)
    requires AllSpaces(x) && IsCloser(c)
    ensures IsCloser(x + c)
  {
    var m := LeadingSpaces(c);
    LeadingSpacesPrefix(c);
    var t := x + c;
    assert t[..|x| + m] == x + c[..m];
    assert AllSpaces(x + c[..m]) by {
      forall i | 0 <= i < |x| + m ensures (x + c[..m])[i] == ' ' {
        if i >= |x| { assert (x + c[..m])[i] == c[..m][i - |x|]; }
      }
    }
    LeadingSpacesIs(t, |x| + m);
    assert t[|x| + m..] == c[m..];
  }

  /** Text in front of a closer that gives no closer is not all spaces. */
  lemma NoCloserBeforeSpaces(x: string, c: string)
    requires IsCloser(c) && !IsCloser(x + c)
    ensures !AllSpaces(x)
  {
    if AllSpaces(x) {
      CloserAfterSpaces(x, c);
    }
  }

  /** Text in front of a closer gives a closer only when it is all spaces. */
  lemma CloserNeedsSpaces(x: string, c: string)
    requires IsCloser(c) && IsCloser(x + c)
    ensures AllSpaces(x)
  {
    var t := x + c;
    var m := LeadingSpaces(t);
    LeadingSpacesPrefix(t);
    var pc := LeadingSpaces(c);
    var q := |x| + pc + 2;
    assert t[q] == c[pc + 2] == '>';
    assert forall i :: m + 3 <= i < |t| ==> t[i] == ' ' by {
      forall i | m + 3 <= i < |t| ensures t[i] == ' ' { assert t[m + 3..][i - m - 3] == t[i]; }
    }
    assert forall i :: 0 <= i < m ==> t[i] == ' ' by {
      forall i | 0 <= i < m ensures t[i] == ' ' { assert t[..m][i] == t[i]; }
    }
    assert |x| <= m;
    forall i | 0 <= i < |x| ensures x[i] == ' ' {
      assert t[i] == x[i];
    }
  }

  /** A string cut into spaces, the arrow and spaces is a closer's spelling. */
  lemma CloserParts(c: string, pad: nat, trail: nat)
    requires pad + 3 + trail == |c|
    requires c[..pad] == Spaces(pad) && c[pad..pad + 3] == "-->" && c[pad + 3..] == Spaces(trail)
    ensures c == Closer(pad, trail)
  {
    Cut3(c, pad, pad + 3);
  }

  /** A closer is spelled by its own spacing. */
  lemma CloserShape(c: string)
    requires IsCloser(c)
    ensures c == Closer(LeadingSpaces(c), |c| - LeadingSpaces(c) - 3)
  {
    var pad := LeadingSpaces(c);
    var trail := |c| - pad - 3;
    assert c[..pad] == Spaces(pad) by {
      LeadingSpacesPrefix(c);
      SpacesAre(c[..pad]);
    }
    assert c[pad + 3..] == Spaces(trail) by {
      assert AllSpaces(c[pad + 3..]);
      SpacesAre(c[pad + 3..]);
    }
    assert c[pad..pad + 3] == "-->";
    CloserParts(c, pad, trail);
  }

  /** No closer starts before the position `ValueEnd` finds. */
  lemma {:induction false} ValueEndLeast(s: string, i: nat, j: nat)
    requires i <= |s| && ValueEnd(s, i).Some? && i <= j < ValueEnd(s, i).value
    ensures !IsCloser(s[j..])
    decreases |s| - i
  {
    if i < j {
      ValueEndLeast(s, i + 1, j);
    }
  }

  /** The first position from `i` on where a closer starts is the one `ValueEnd` finds. */
  lemma {:induction false} ValueEndIs(s: string, i: nat, k: nat)
    requires i <= k <= |s| && IsCloser(s[k..])
    requires forall j :: i <= j < k ==> !IsCloser(s[j..])
    ensures ValueEnd(s, i) == Some(k)
    decreases k - i
  {
    if i < k {
      ValueEndIs(s, i + 1, k);
    }
  }

  /** A slice of a terminator-free string is terminator-free. */
  lemma NoBreaksSlice(s: string, i: nat, j: nat)
    requires i <= j <= |s| && NoBreaks(s)
    ensures NoBreaks(s[i..j])
  {
    forall k | 0 <= k < j - i ensures !IsBreak(s[i..j][k]) {
      assert s[i..j][k] == s[i + k];
    }
  }

  // ---------------------------------------------------------------------------
  // Each stage of the matcher against the text it reads: soundness and completeness.

  /** Text followed by a closer, cut where the closer starts. */
  lemma CloserSplit(s: string, v: nat)
    requires v <= |s| && IsCloser(s[v..])
    ensures var pad := LeadingSpaces(s[v..]);
      pad + 3 <= |s| - v && s == s[..v] + Closer(pad, |s| - v - pad - 3)
  {
    CloserShape(s[v..]);
    Cut(s, v);
  }

  /** The shortest value before a closer never ends in a space. */
  lemma ShortestValue(s: string, v: nat)
    requires ValueEnd(s, 0) == Some(v)
    ensures !EndsWithSpace(s[..v])
  {
    if v > 0 {
      ValueEndLeast(s, 0, v - 1);
      var x := s[v - 1..v];
      assert s[v - 1..] == x + s[v..];
      NoCloserBeforeSpaces(x, s[v..]);
    }
  }

  lemma LazySound(equals: bool, s: string, p: ValuePart)
    requires MatchLazy(equals, s) == Some(p)
    ensures p.equals == equals && p.value + Closer(p.pad, p.trail) == s
    ensures !EndsWithSpace(p.value)
    ensures NoBreaks(s) ==> NoBreaks(p.value)
  {
    var v :| ValueEnd(s, 0) == Some(v);
    assert p.value == s[..v];
    assert p.value + Closer(p.pad, p.trail) == s by {
      CloserSplit(s, v);
    }
    assert !EndsWithSpace(p.value) by {
      ShortestValue(s, v);
    }
    assert NoBreaks(s) ==> NoBreaks(p.value) by {
      if NoBreaks(s) {
        NoBreaksSlice(s, 0, v);
      }
    }
  }

  lemma LazyComplete(p: ValuePart)
    requires !EndsWithSpace(p.value)
    ensures MatchLazy(p.equals, p.value + Closer(p.pad, p.trail)) == Some(p)
  {
    var closer := Closer(p.pad, p.trail);
    var s := p.value + closer;
    CloserIsCloser(p.pad, p.trail);
    forall j | 0 <= j < |p.value| ensures !IsCloser(s[j..]) {
      assert s[j..] == p.value[j..] + closer;
      assert p.value[j..][|p.value| - j - 1] != ' ';
      if IsCloser(s[j..]) {
        CloserNeedsSpaces(p.value[j..], closer);
        assert false;
      }
    }
    assert s[|p.value|..] == closer;
    ValueEndIs(s, 0, |p.value|);
    assert s[..|p.value|] == p.value;
  }

  lemma MatchValueSound(s: string, p: ValuePart)
    requires MatchValue(s) == Some(p)
    ensures ValueText(p) == s
    ensures NoBreaks(s) ==> NoBreaks(p.value)
    ensures !EndsWithSpace(p.value)
    ensures !p.equals && |p.value| > 0 ==> p.value[0] == s[0] && s[0] != '='
  {
    if |s| >= 1 && s[0] == '=' {
      EqualsValueSound(s, p);
    } else {
      BareValueSound(s, p);
    }
  }

  /** `MatchValueSound` when the value starts with `=`. */
  lemma EqualsValueSound(s: string, p: ValuePart)
    requires |s| >= 1 && s[0] == '=' && MatchLazy(true, s[1..]) == Some(p)
    ensures ValueText(p) == s && p.equals
    ensures NoBreaks(s) ==> NoBreaks(p.value)
    ensures !EndsWithSpace(p.value)
  {
    LazySound(true, s[1..], p);
    assert s == "=" + s[1..] by {
      Cut(s, 1);
    }
    assert NoBreaks(s) ==> NoBreaks(s[1..]) by {
      if NoBreaks(s) {
        NoBreaksSlice(s, 1, |s|);
      }
    }
  }

  /** `MatchValueSound` when it does not. */
  lemma BareValueSound(s: string, p: ValuePart)
    requires !(|s| >= 1 && s[0] == '=') && MatchLazy(false, s) == Some(p)
    ensures ValueText(p) == s && !p.equals
    ensures NoBreaks(s) ==> NoBreaks(p.value)
    ensures !EndsWithSpace(p.value)
    ensures |p.value| > 0 ==> p.value[0] == s[0] && s[0] != '='
  {
    LazySound(false, s, p);
    if |p.value| > 0 {
      assert s == p.value + Closer(p.pad, p.trail);
      assert s[0] == p.value[0];
    }
  }

  lemma MatchValueComplete(p: ValuePart)
    requires CanonicalPart(p)
    ensures MatchValue(ValueText(p)) == Some(p)
  {
    var s1 := p.value + Closer(p.pad, p.trail);
    LazyComplete(p);
    if p.equals {
      assert ValueText(p)[1..] == s1;
    } else if |p.value| == 0 {
      var c := Closer(p.pad, p.trail);
      assert c[0] == ' ' || c[0] == '-';
    }
  }

  lemma MatchNamedSound(s: string, nm: Named)
    requires MatchNamed(s) == Some(nm)
    ensures NamedText(nm) == s
    ensures IsName(nm.namespace) && IsName(nm.key)
    ensures NoBreaks(s) ==> CanonicalPart(nm.part)
  {
    var n := NameRun(s);
    var s1 := s[n..];
    assert |s1| >= 1 && s1[0] == ':';
    var s2 := s1[1..];
    var k := NameRun(s2);
    var s3 := s2[k..];
    assert MatchValue(s3) == Some(nm.part) && nm.namespace == s[..n] && nm.key == s2[..k];
    assert s[n] == ':' && s2 == s[n + 1..];
    NamedSoundText(s, n, k, nm);
    assert IsName(nm.namespace) && IsName(nm.key) by {
      NameRunPrefix(s);
      NameRunPrefix(s2);
    }
    if NoBreaks(s) {
      NoBreaksDrop(s, n + 1);
      NoBreaksDrop(s2, k);
      MatchValueSound(s3, nm.part);
    }
  }

  /** The text part of `MatchNamedSound`, once the cuts are known. */
  lemma NamedSoundText(s: string, n: nat, k: nat, nm: Named)
    requires n < |s| && s[n] == ':' && k <= |s| - n - 1
    requires nm.namespace == s[..n] && nm.key == s[n + 1..][..k] && MatchValue(s[n + 1..][k..]) == Some(nm.part)
    ensures NamedText(nm) == s
  {
    MatchValueSound(s[n + 1..][k..], nm.part);
    CutNamed(s, n, k);
  }

  /** A suffix of a terminator-free string is terminator-free. */
  lemma NoBreaksDrop(s: string, i: nat)
    requires i <= |s| && NoBreaks(s)
    ensures NoBreaks(s[i..])
  {
    NoBreaksSlice(s, i, |s|);
    assert s[i..|s|] == s[i..];
  }

  /** A line cut around its `:` and after its key. */
  lemma CutNamed(s: string, n: nat, k: nat)
    requires n < |s| && s[n] == ':' && k <= |s| - n - 1
    ensures s == s[..n] + (":" + (s[n + 1..][..k] + s[n + 1..][k..]))
  {
    Cut(s[n + 1..], k);
    Cut3(s, n, n + 1);
    assert s[n..n + 1] == ":";
  }

  lemma MatchNamedComplete(nm: Named)
    requires IsName(nm.namespace) && IsName(nm.key) && CanonicalPart(nm.part)
    ensures MatchNamed(NamedText(nm)) == Some(nm)
  {
    var v := ValueText(nm.part);
    var s2 := nm.key + v;
    var s1 := ":" + s2;
    NameRunOf(nm.namespace, s1);
    assert s1[1..] == s2;
    if !nm.part.equals && |nm.part.value| == 0 {
      var c := Closer(nm.part.pad, nm.part.trail);
      assert v[0] == c[0];
      assert c[0] == ' ' || c[0] == '-';
    }
    NameRunOf(nm.key, v);
    MatchValueComplete(nm.part);
  }

  /** A matching segment is exactly the line its layout and tag spell out. */
  lemma MatchSound(s: string, m: Parsed)
    requires Match(s) == Some(m)
    ensures Format(m.layout, m.tag) == s
    ensures NoBreaks(s) ==> Canonical(m.layout, m.tag)
  {
    var lead := LeadingSpaces(s);
    var s1 := s[lead..];
    var s2 := s1[4..];
    var gap := LeadingSpaces(s2);
    var s3 := s2[gap..];
    assert s1[..4] == "<!--" && MatchNamed(s3).Some?;
    var nm := MatchNamed(s3).value;
    assert m == Parsed(Layout(lead, gap, nm.part.equals, nm.part.pad, nm.part.trail),
                       Tag(nm.namespace, nm.key, nm.part.value));
    MatchNamedSound(s3, nm);
    CutOpening(s, lead, gap);
    if NoBreaks(s) {
      NoBreaksDrop(s, lead);
      NoBreaksDrop(s1, 4);
      NoBreaksDrop(s2, gap);
    }
  }

  /** A line cut after its leading spaces, its `<!--` and the spaces after that. */
  lemma CutOpening(s: string, lead: nat, gap: nat)
    requires lead == LeadingSpaces(s) && lead + 4 <= |s| && s[lead..][..4] == "<!--"
    requires gap == LeadingSpaces(s[lead..][4..])
    ensures s == Spaces(lead) + ("<!--" + (Spaces(gap) + s[lead..][4..][gap..]))
  {
    var s2 := s[lead..][4..];
    assert s2 == Spaces(gap) + s2[gap..] by {
      LeadingSpacesPrefix(s2);
      SpacesAre(s2[..gap]);
      Cut(s2, gap);
    }
    assert s == Spaces(lead) + ("<!--" + s2) by {
      LeadingSpacesPrefix(s);
      SpacesAre(s[..lead]);
      Cut3(s, lead, lead + 4);
    }
  }

  /** Every canonical layout and tag is read back exactly. */
  lemma MatchFormat(lay: Layout, t: Tag)
    requires Canonical(lay, t)
    ensures Match(Format(lay, t)) == Some(Parsed(lay, t))
  {
    var nm := Named(t.namespace, t.key, ValuePart(lay.equals, t.value, lay.pad, lay.trail));
    var s3 := NamedText(nm);
    var s2 := Spaces(lay.gap) + s3;
    var s1 := "<!--" + s2;
    LeadingSpacesOf(lay.lead, s1);
    assert s1[4..] == s2;
    LeadingSpacesOf(lay.gap, s3);
    MatchNamedComplete(nm);
  }

  // ---------------------------------------------------------------------------
  // The recogniser on whole lines.

  /** A line without terminators has no line feed in particular. */
  lemma NoBreaksNoFeed(s: string)
    requires NoBreaks(s)
    ensures '\n' !in s
  {
    forall i | 0 <= i < |s| ensures s[i] != '\n' {
      assert !IsBreak(s[i]);
    }
  }

  lemma NoBreaksJoin(a: string, b: string)
    requires NoBreaks(a) && NoBreaks(b)
    ensures NoBreaks(a + b)
  {
    forall i | 0 <= i < |a + b| ensures !IsBreak((a + b)[i]) {
      if i >= |a| {
        assert (a + b)[i] == b[i - |a|];
      }
    }
  }

  lemma SpacesNoBreaks(n: nat)
    ensures NoBreaks(Spaces(n))
  {
  }

  lemma NameNoBreaks(s: string)
    requires IsName(s)
    ensures NoBreaks(s)
  {
  }

  lemma CloserNoBreaks(pad: nat, trail: nat)
    ensures NoBreaks(Closer(pad, trail))
  {
    SpacesNoBreaks(pad);
    SpacesNoBreaks(trail);
    assert NoBreaks("-->");
    NoBreaksJoin("-->", Spaces(trail));
    NoBreaksJoin(Spaces(pad), "-->" + Spaces(trail));
  }

  /** A canonical tag line holds no line terminator. */
  lemma FormatNoBreaks(lay: Layout, t: Tag)
    requires Canonical(lay, t)
    ensures NoBreaks(Format(lay, t))
  {
    var p := ValuePart(lay.equals, t.value, lay.pad, lay.trail);
    CloserNoBreaks(lay.pad, lay.trail);
    NoBreaksJoin(t.value, Closer(lay.pad, lay.trail));
    assert NoBreaks("=") && NoBreaks("");
    NoBreaksJoin(if lay.equals then "=" else "", t.value + Closer(lay.pad, lay.trail));
    NameNoBreaks(t.key);
    NoBreaksJoin(t.key, ValueText(p));
    assert NoBreaks(":");
    NoBreaksJoin(":", t.key + ValueText(p));
    NameNoBreaks(t.namespace);
    var nt := NamedText(Named(t.namespace, t.key, p));
    NoBreaksJoin(t.namespace, ":" + (t.key + ValueText(p)));
    SpacesNoBreaks(lay.gap);
    NoBreaksJoin(Spaces(lay.gap), nt);
    assert NoBreaks("<!--");
    NoBreaksJoin("<!--", Spaces(lay.gap) + nt);
    SpacesNoBreaks(lay.lead);
    NoBreaksJoin(Spaces(lay.lead), "<!--" + (Spaces(lay.gap) + nt));
  }

  lemma BreakFreeIs(s: string, n: nat)
    requires n <= |s| && NoBreaks(s[..n]) && (n < |s| ==> IsBreak(s[n]))
    ensures BreakFree(s) == n
  {
    var m := BreakFree(s);
    BreakFreePrefix(s);
    assert forall i :: 0 <= i < n ==> !IsBreak(s[i]) by {
      forall i | 0 <= i < n ensures !IsBreak(s[i]) { assert s[..n][i] == s[i]; }
    }
    assert forall i :: 0 <= i < m ==> !IsBreak(s[i]) by {
      forall i | 0 <= i < m ensures !IsBreak(s[i]) { assert s[..m][i] == s[i]; }
    }
  }

  /** A line that matches the pattern as a whole has `<!--` after its leading spaces. */
  lemma MatchOpening(s: string)
    requires Match(s).Some?
    ensures OccursAt(s, "<!--", LeadingSpaces(s))
  {
  }

  lemma OccursBefore(s: string, rest: string, p: string, i: nat)
    requires OccursAt(s, p, i)
    ensures OccursAt(s + rest, p, i)
  {
    assert (s + rest)[i..][..|p|] == s[i..][..|p|];
  }

  /**
   * `parsePerkdownTag` on a line without terminators is the pattern on the
   * whole line: `None` exactly when the line does not match.
   */
  lemma ParseTagLine(line: string)
    requires NoBreaks(line)
    ensures ParseTag(line) == (if Match(line).Some? then Some(Match(line).value.tag) else None)
  {
    BreakFreeIs(line, |line|);
    assert line[..|line|] == line;
    if Match(line).Some? {
      MatchOpening(line);
    }
  }

  /**
   * Every tag read from a line without terminators comes from a canonical layout
   * that spells that very line.
   */
  lemma ParseTagSound(line: string, t: Tag)
    requires NoBreaks(line) && ParseTag(line) == Some(t)
    ensures exists lay :: Canonical(lay, t) && Format(lay, t) == line
  {
    ParseTagLine(line);
    var m := Match(line).value;
    MatchSound(line, m);
    assert Canonical(m.layout, t) && Format(m.layout, t) == line;
  }

  /** Every canonical tag line reads back as its tag, whatever its spacing. */
  lemma ParseTagFormat(lay: Layout, t: Tag)
    requires Canonical(lay, t)
    ensures ParseTag(Format(lay, t)) == Some(t)
  {
    FormatNoBreaks(lay, t);
    MatchFormat(lay, t);
    ParseTagLine(Format(lay, t));
  }

  /**
   * A tag line followed by a line terminator and anything at all still reads
   * as its tag: `exec` stops at the first segment that matches. This is why a
   * line of a CRLF document, which keeps its `\r` after splitting on `\n`,
   * is still recognised.
   */
  lemma ParseTagFirstSegment(lay: Layout, t: Tag, rest: string)
    requires Canonical(lay, t) && |rest| > 0 && IsBreak(rest[0])
    ensures ParseTag(Format(lay, t) + rest) == Some(t)
  {
    var f := Format(lay, t);
    var s := f + rest;
    FormatNoBreaks(lay, t);
    MatchFormat(lay, t);
    Halves(f, rest);
    BreakFreeIs(s, |f|);
    MatchOpening(f);
    OccursBefore(f, rest, "<!--", LeadingSpaces(f));
  }

  /** The spelling of `<!-- USE:PRKMDx -->` as a tag. */
  lemma KeyStopsLine()
    ensures Format(Layout(0, 1, false, 1, 0), Tag("USE", "PRKMD", "x")) == "<!-- USE:PRKMDx -->"
  {
    assert Spaces(0) == "" && Spaces(1) == " ";
    assert Closer(1, 0) == " -->";
  }

  /** `<!-- USE:PRKMDx -->`: the key stops at the first character outside the class. */
  lemma KeyStopsOutsideClass()
    ensures ParseTag("<!-- USE:PRKMDx -->") == Some(Tag("USE", "PRKMD", "x"))
  {
    KeyStopsLine();
    ParseTagFormat(Layout(0, 1, false, 1, 0), Tag("USE", "PRKMD", "x"));
  }

  /** The spelling of `<!-- META:title=x -->` as a tag. */
  lemma LowerCaseLine()
    ensures Format(Layout(0, 1, false, 1, 0), Tag("META", "", "title=x")) == "<!-- META:title=x -->"
  {
    assert Spaces(0) == "" && Spaces(1) == " ";
    assert Closer(1, 0) == " -->";
    assert ValueText(ValuePart(false, "title=x", 1, 0)) == "title=x -->";
  }

  /** `<!-- META:title=x -->`: a lower-case key is no key; all of it becomes the value. */
  lemma LowerCaseKeyIsValue()
    ensures ParseTag("<!-- META:title=x -->") == Some(Tag("META", "", "title=x"))
  {
    LowerCaseLine();
    ParseTagFormat(Layout(0, 1, false, 1, 0), Tag("META", "", "title=x"));
  }

  /**
   * A line whose namespace would start with a character outside the class, such
   * as a lower-case letter, is not a tag.
   */
  lemma NamespaceOutsideClass(lead: nat, gap: nat, c: char, rest: string)
    requires !IsNameChar(c) && c != ':' && c != ' ' && !IsBreak(c) && NoBreaks(rest)
    ensures ParseTag(Spaces(lead) + ("<!--" + (Spaces(gap) + ([c] + rest)))) == None
  {
    var s3 := [c] + rest;
    var s2 := Spaces(gap) + s3;
    var s1 := "<!--" + s2;
    var line := Spaces(lead) + s1;
    assert NoBreaks(line) by {
      assert NoBreaks([c]);
      NoBreaksJoin([c], rest);
      SpacesNoBreaks(gap);
      NoBreaksJoin(Spaces(gap), s3);
      assert NoBreaks("<!--");
      NoBreaksJoin("<!--", s2);
      SpacesNoBreaks(lead);
      NoBreaksJoin(Spaces(lead), s1);
    }
    LeadingSpacesOf(lead, s1);
    LeadingSpacesOf(gap, s3);
    assert s1[4..] == s2;
    assert NameRun(s3) == 0;
    assert MatchNamed(s3) == None;
    ParseTagLine(line);
  }
}
