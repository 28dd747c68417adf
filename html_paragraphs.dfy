/**
 * The layout formatter HTMLParagraphs: two newlines with only whitespace between them
 * start a new paragraph, and every paragraph is wrapped in `<p>` tags.
 *
 * The Java code trims the field, then runs the regular expression `(.*?)\n\s*\n` with
 * Matcher.find, emitting group 1 (together with any text not yet copied) as a paragraph
 * whenever group 1 is not blank, and appends the rest of the text as the last paragraph.
 * Here the regular expression is an explicit scan (MatchAt, Find), the loop is the method
 * Format, and SplitFrom is the function that says which paragraphs that loop produces.
 */
module HtmlParagraphs {
  import opened Wrappers
  import opened JavaStrings

  // ---------------------------------------------------------------- the regular expression

  /** The characters `.` does not match in a Java regular expression. */
  predicate IsLineTerminator(c: char) {
    c == '\n' || c == '\r' || c == '\U{85}' || c == '\U{2028}' || c == '\U{2029}'
  }

  /** The class `\s` of a Java regular expression: [ \t\n\x0B\f\r]. */
  predicate IsSpace(c: char) {
    c == ' ' || c == '\t' || c == '\n' || c == '\U{B}' || c == '\U{C}' || c == '\r'
  }

  /** A match of `(.*?)\n\s*\n`: it covers t[start..end] and group 1 is t[start..groupEnd]. */
  datatype Match = Match(start: nat, groupEnd: nat, end: nat)

  /**
   * t[p..e] matches the pattern with group 1 equal to t[p..g]: no line terminator in
   * group 1, a newline at g, whitespace, and a newline at e - 1.
   */
  ghost predicate IsMatch(t: string, p: int, g: int, e: int) {
    && 0 <= p <= g && g + 2 <= e <= |t|
    && (forall i :: p <= i < g ==> !IsLineTerminator(t[i]))
    && t[g] == '\n'
    && (forall i :: g < i < e - 1 ==> IsSpace(t[i]))
    && t[e - 1] == '\n'
  }

  /** The first line terminator at or after p (what the lazy `.*?` can reach), or |t|. */
  function LineEnd(t: string, p: nat): (q: nat)
    requires p <= |t|
    ensures p <= q <= |t|
    ensures forall i :: p <= i < q ==> !IsLineTerminator(t[i])
    ensures q < |t| ==> IsLineTerminator(t[q])
    decreases |t| - p
  {
    if p == |t| || IsLineTerminator(t[p]) then p else LineEnd(t, p + 1)
  }

  /** The end of the longest run of `\s` characters starting at i (what greedy `\s*` takes first). */
  function SpaceEnd(t: string, i: nat): (j: nat)
    requires i <= |t|
    ensures i <= j <= |t|
    ensures forall k :: i <= k < j ==> IsSpace(t[k])
    ensures j < |t| ==> !IsSpace(t[j])
    decreases |t| - i
  {
    if i == |t| || !IsSpace(t[i]) then i else SpaceEnd(t, i + 1)
  }

  /** The last newline in t[lo..hi], or -1 (where greedy `\s*` backtracks to). */
  function LastNewline(t: string, lo: nat, hi: nat): (k: int)
    requires lo <= hi <= |t|
    ensures k == -1 || (lo <= k < hi && t[k] == '\n')
    ensures forall i :: lo <= i < hi && k < i ==> t[i] != '\n'
    decreases hi
  {
    if hi == lo then -1 else if t[hi - 1] == '\n' then hi - 1 else LastNewline(t, lo, hi - 1)
  }

  /**
   * The pattern tried at position p: group 1 runs to the first line terminator, which must
   * be a newline, and the match takes the longest whitespace run that ends in a newline.
   */
  function MatchAt(t: string, p: nat): (r: Option<Match>)
    requires p <= |t|
    ensures r.Some? ==> r.value.start == p && IsMatch(t, p, r.value.groupEnd, r.value.end)
    ensures r.Some? ==> forall e :: r.value.end < e ==> !IsMatch(t, p, r.value.groupEnd, e)
    ensures r.None? ==> forall g, e :: !IsMatch(t, p, g, e)
  {
    var q := LineEnd(t, p);
    if q < |t| && t[q] == '\n' then
      var j := SpaceEnd(t, q + 1);
      var k := LastNewline(t, q + 1, j);
      if k < 0 then
        assert forall g, e :: !IsMatch(t, p, g, e) by {
          forall g, e | IsMatch(t, p, g, e) ensures false {
            MatchEndInSpaceRun(t, p, g, e, q, j);
          }
        }
        None
      else
        assert forall e :: k + 1 < e ==> !IsMatch(t, p, q, e) by {
          forall e | k + 1 < e && IsMatch(t, p, q, e) ensures false {
            MatchEndInSpaceRun(t, p, q, e, q, j);
          }
        }
        Some(Match(p, q, k + 1))
    else
      assert forall g, e :: !IsMatch(t, p, g, e) by {
        forall g, e | IsMatch(t, p, g, e) ensures false {
          MatchGroupEnd(t, p, g, e, q);
        }
      }
      None
  }

  /** Group 1 of a match at p ends at the first line terminator after p. */
  lemma MatchGroupEnd(t: string, p: int, g: int, e: int, q: nat)
    requires IsMatch(t, p, g, e) && p <= |t|
    requires q == LineEnd(t, p)
    ensures q == g && q < |t| && t[q] == '\n'
  {
    assert IsLineTerminator(t[g]);
  }

  /** A match at p ends inside the maximal whitespace run that follows its group. */
  lemma MatchEndInSpaceRun(t: string, p: int, g: int, e: int, q: nat, j: nat)
    requires IsMatch(t, p, g, e) && p <= |t|
    requires q == LineEnd(t, p) && q < |t| && j == SpaceEnd(t, q + 1)
    ensures g == q && q + 1 <= e - 1 < j && t[e - 1] == '\n'
  {
    MatchGroupEnd(t, p, g, e, q);
    assert IsSpace(t[e - 1]);
  }

  /**
   * Matcher.find from position `from`: the leftmost match at or after `from`, and of the
   * matches starting there the longest.
   */
  function Find(t: string, from: nat): (r: Option<Match>)
    ensures r.Some? ==> from <= r.value.start && IsMatch(t, r.value.start, r.value.groupEnd, r.value.end)
    ensures r.Some? ==> forall p, g, e :: from <= p < r.value.start ==> !IsMatch(t, p, g, e)
    ensures r.Some? ==> forall e :: r.value.end < e ==> !IsMatch(t, r.value.start, r.value.groupEnd, e)
    ensures r.None? ==> forall p, g, e :: from <= p ==> !IsMatch(t, p, g, e)
    decreases |t| + 1 - from
  {
    if from > |t| then None
    else
      match MatchAt(t, from)
      case Some(m) => Some(m)
      case None => Find(t, from + 1)
  }

  // ---------------------------------------------------------------- what the loop produces

  /**
   * The paragraphs of a text and the blank-line separators dropped between them;
   * Interleave(bodies, separators) puts them back together.
   */
  datatype Paragraphs = Paragraphs(bodies: seq<string>, separators: seq<string>)

  /**
   * The paragraphs the find loop produces, from search position `from`, when the text from
   * `appendPos` on has not been copied yet. A match whose group 1 is blank emits nothing and
   * leaves the append position where it was, so its text ends up in a later paragraph.
   */
  function SplitFrom(t: string, from: nat, appendPos: nat): (r: Paragraphs)
    requires appendPos <= from <= |t|
    ensures |r.bodies| == |r.separators| + 1
    decreases |t| - from
  {
    match Find(t, from)
    case None => Paragraphs([t[appendPos..]], [])
    case Some(m) =>
      if IsBlank(t[m.start..m.groupEnd]) then SplitFrom(t, m.end, appendPos)
      else
        var rest := SplitFrom(t, m.end, m.end);
        Paragraphs([t[appendPos..m.groupEnd]] + rest.bodies, [t[m.groupEnd..m.end]] + rest.separators)
  }

  /** The HTML for a list of paragraphs: each wrapped in `<p>\n`…`\n</p>`, joined by newlines. */
  function Render(bodies: seq<string>): (r: string)
    requires |bodies| >= 1
    ensures StartsWith(r, "<p>\n") && EndsWith(r, "\n</p>")
  {
    if |bodies| == 1 then "<p>\n" + bodies[0] + "\n</p>"
    else "<p>\n" + bodies[0] + "\n</p>\n" + Render(bodies[1..])
  }

  /** Paragraphs joined again by the separators that were dropped between them. */
  function Interleave(bodies: seq<string>, separators: seq<string>): string
    requires |bodies| == |separators| + 1
  {
    if separators == [] then bodies[0]
    else bodies[0] + separators[0] + Interleave(bodies[1..], separators[1..])
  }

  /** Two newlines with nothing but `\s` characters between them. */
  predicate IsBlankLineSeparator(s: string) {
    && |s| >= 2 && s[0] == '\n' && s[|s| - 1] == '\n'
    && forall i :: 0 <= i < |s| ==> IsSpace(s[i])
  }

  /** The text has two newlines with only `\s` characters between them. */
  ghost predicate HasBlankLine(t: string) {
    exists i, j :: 0 <= i < j < |t| && t[i] == '\n' && t[j] == '\n' && BlankBetween(t, i, j)
  }

  ghost predicate BlankBetween(t: string, i: int, j: int)
    requires 0 <= i < j < |t|
  {
    forall k :: i < k < j ==> IsSpace(t[k])
  }

  /** The result of HTMLParagraphs.format. */
  function Formatted(fieldText: string): (r: string)
    ensures r == [] <==> IsBlank(fieldText)
    ensures r != [] ==> StartsWith(r, "<p>\n") && EndsWith(r, "\n</p>")
  {
    var t := Trim(fieldText);
    if t == [] then [] else Render(SplitFrom(t, 0, 0).bodies)
  }

  // ---------------------------------------------------------------- the formatter

  /** One step of SplitFrom on a match whose group 1 is blank: nothing is emitted. */
  lemma SplitSkip(t: string, from: nat, appendPos: nat, m: Match)
    requires appendPos <= from <= |t| && Find(t, from) == Some(m)
    requires IsBlank(t[m.start..m.groupEnd])
    ensures from < m.end <= |t|
    ensures SplitFrom(t, from, appendPos) == SplitFrom(t, m.end, appendPos)
  {
  }

  /** One step of SplitFrom on a match whose group 1 is not blank: one paragraph is emitted. */
  lemma SplitEmit(t: string, from: nat, appendPos: nat, m: Match)
    requires appendPos <= from <= |t| && Find(t, from) == Some(m)
    requires !IsBlank(t[m.start..m.groupEnd])
    ensures from <= m.start <= m.groupEnd < m.end <= |t|
    ensures var rest := SplitFrom(t, m.end, m.end);
      SplitFrom(t, from, appendPos)
        == Paragraphs([t[appendPos..m.groupEnd]] + rest.bodies, [t[m.groupEnd..m.end]] + rest.separators)
  {
  }

  /** Rendering a first paragraph in front of the others. */
  lemma RenderCons(b: string, bodies: seq<string>)
    requires |bodies| >= 1
    ensures Render([b] + bodies) == "<p>\n" + b + "\n</p>\n" + Render(bodies)
  {
    assert ([b] + bodies)[1..] == bodies;
  }

  /** What one emitting iteration of the loop appends to the output. */
  lemma AppendParagraph(s: string, t: string, from: nat, appendPos: nat, m: Match)
    requires appendPos <= from <= |t| && Find(t, from) == Some(m)
    requires !IsBlank(t[m.start..m.groupEnd])
    ensures from <= m.start <= m.groupEnd < m.end <= |t|
    ensures s + Render(SplitFrom(t, from, appendPos).bodies)
      == s + "<p>\n" + t[appendPos..m.start] + t[m.start..m.groupEnd] + "\n</p>\n"
        + Render(SplitFrom(t, m.end, m.end).bodies)
  {
    SplitEmit(t, from, appendPos, m);
    RenderCons(t[appendPos..m.groupEnd], SplitFrom(t, m.end, m.end).bodies);
    assert t[appendPos..m.start] + t[m.start..m.groupEnd] == t[appendPos..m.groupEnd];
  }

  /** What the appendTail step appends once no match is left. */
  lemma AppendTail(s: string, t: string, from: nat, appendPos: nat)
    requires appendPos <= from <= |t| && Find(t, from).None?
    ensures s + Render(SplitFrom(t, from, appendPos).bodies) == s + "<p>\n" + t[appendPos..] + "\n</p>"
  {
  }

  /** HTMLParagraphs.format: the find / appendReplacement / appendTail loop. */
  method Format(fieldText: string) returns (r: string)
    ensures r == Formatted(fieldText)
  {
    var t := Trim(fieldText);
    if |t| == 0 {
      return t;
    }
    var s := "";
    var from: nat, appendPos: nat := 0, 0;
    ghost var total := Render(SplitFrom(t, 0, 0).bodies);
    var found := Find(t, from);
    while found.Some?
      invariant appendPos <= from <= |t|
      invariant found == Find(t, from)
      invariant s + Render(SplitFrom(t, from, appendPos).bodies) == total
      decreases |t| - from
    {
      var m := found.value;
      var group := t[m.start..m.groupEnd];
      if |Trim(group)| != 0 {
        AppendParagraph(s, t, from, appendPos, m);
        s := s + "<p>\n";
        // appendReplacement: the text since the append position, then group 1
        s := s + t[appendPos..m.start] + group;
        appendPos := m.end;
        s := s + "\n</p>\n";
      } else {
        SplitSkip(t, from, appendPos, m);
      }
      from := m.end;
      found := Find(t, from);
    }
    AppendTail(s, t, from, appendPos);
    s := s + "<p>\n";
    // appendTail
    s := s + t[appendPos..];
    s := s + "\n</p>";
    r := s;
  }

  // ---------------------------------------------------------------- properties

  /** Joining the paragraphs with their separators gives back the text not yet copied. */
  lemma {:induction false} SplitCoversText(t: string, from: nat, appendPos: nat)
    requires appendPos <= from <= |t|
    ensures var r := SplitFrom(t, from, appendPos); Interleave(r.bodies, r.separators) == t[appendPos..]
    decreases |t| - from
  {
    match Find(t, from)
    case None =>
    case Some(m) =>
      if IsBlank(t[m.start..m.groupEnd]) {
        SplitSkip(t, from, appendPos, m);
        SplitCoversText(t, m.end, appendPos);
      } else {
        SplitEmit(t, from, appendPos, m);
        SplitCoversText(t, m.end, m.end);
        var rest := SplitFrom(t, m.end, m.end);
        CoverEmit(t, appendPos, m.groupEnd, m.end, rest.bodies, rest.separators);
      }
  }

  /** The step of SplitCoversText for an emitted paragraph. */
  lemma CoverEmit(t: string, appendPos: nat, g: nat, e: nat, bodies: seq<string>, separators: seq<string>)
    requires appendPos <= g <= e <= |t| && |bodies| == |separators| + 1
    requires Interleave(bodies, separators) == t[e..]
    ensures Interleave([t[appendPos..g]] + bodies, [t[g..e]] + separators) == t[appendPos..]
  {
    InterleaveCons(t[appendPos..g], t[g..e], bodies, separators);
    SliceSplit(t, appendPos, g, |t|);
    SliceSplit(t, g, e, |t|);
  }

  /** Interleaving a first paragraph and separator in front of the others. */
  lemma InterleaveCons(b: string, sep: string, bodies: seq<string>, separators: seq<string>)
    requires |bodies| == |separators| + 1
    ensures Interleave([b] + bodies, [sep] + separators) == b + sep + Interleave(bodies, separators)
  {
    assert ([b] + bodies)[1..] == bodies;
    assert ([sep] + separators)[1..] == separators;
  }

  /** Every dropped separator is a pair of newlines with only whitespace between them. */
  lemma {:induction false} SeparatorsAreBlankLines(t: string, from: nat, appendPos: nat)
    requires appendPos <= from <= |t|
    ensures var r := SplitFrom(t, from, appendPos);
      forall i :: 0 <= i < |r.separators| ==> IsBlankLineSeparator(r.separators[i])
    decreases |t| - from
  {
    match Find(t, from)
    case None =>
    case Some(m) =>
      if IsBlank(t[m.start..m.groupEnd]) {
        SplitSkip(t, from, appendPos, m);
        SeparatorsAreBlankLines(t, m.end, appendPos);
      } else {
        SplitEmit(t, from, appendPos, m);
        SeparatorsAreBlankLines(t, m.end, m.end);
        MatchSeparator(t, m.start, m.groupEnd, m.end);
      }
  }

  /** The part of a match after group 1 is a blank-line separator. */
  lemma MatchSeparator(t: string, p: int, g: int, e: int)
    requires IsMatch(t, p, g, e)
    ensures IsBlankLineSeparator(t[g..e])
  {
    var sep := t[g..e];
    forall i | 0 <= i < |sep| ensures IsSpace(sep[i]) {
      assert sep[i] == t[g + i];
    }
  }

  /** When the text ends in a character above U+0020, no paragraph is blank. */
  lemma {:induction false} BodiesAreNotBlank(t: string, from: nat, appendPos: nat)
    requires appendPos <= from <= |t| && appendPos < |t| && t[|t| - 1] > ' '
    ensures var r := SplitFrom(t, from, appendPos);
      forall i :: 0 <= i < |r.bodies| ==> !IsBlank(r.bodies[i])
    decreases |t| - from
  {
    match Find(t, from)
    case None =>
      assert t[appendPos..][|t| - 1 - appendPos] == t[|t| - 1];
    case Some(m) =>
      if IsBlank(t[m.start..m.groupEnd]) {
        SplitSkip(t, from, appendPos, m);
        BodiesAreNotBlank(t, m.end, appendPos);
      } else {
        SplitEmit(t, from, appendPos, m);
        BodiesAreNotBlank(t, m.end, m.end);
        WiderNotBlank(t, appendPos, m.start, m.groupEnd);
      }
  }

  /** A slice containing a slice that is not blank is not blank. */
  lemma WiderNotBlank(t: string, lo: nat, i: nat, j: nat)
    requires lo <= i <= j <= |t| && !IsBlank(t[i..j])
    ensures !IsBlank(t[lo..j])
  {
    var k :| 0 <= k < j - i && t[i..j][k] > ' ';
    assert t[lo..j][i - lo + k] == t[i + k];
  }

  /**
   * The structure of the output: the trimmed text is cut into non-blank paragraphs at
   * blank-line separators, each paragraph is wrapped, and the paragraphs joined by the
   * separators give back the trimmed text.
   */
  lemma FormattedParagraphs(fieldText: string)
    requires !IsBlank(fieldText)
    ensures var t := Trim(fieldText); var r := SplitFrom(t, 0, 0);
      && Formatted(fieldText) == Render(r.bodies)
      && Interleave(r.bodies, r.separators) == t
      && (forall i :: 0 <= i < |r.separators| ==> IsBlankLineSeparator(r.separators[i]))
      && (forall i :: 0 <= i < |r.bodies| ==> !IsBlank(r.bodies[i]))
  {
    var t := Trim(fieldText);
    SplitCoversText(t, 0, 0);
    assert t[0..] == t;
    SeparatorsAreBlankLines(t, 0, 0);
    BodiesAreNotBlank(t, 0, 0);
  }

  /** The number of matches the find loop sees from `from` on whose group 1 is not blank. */
  function EmittingMatches(t: string, from: nat): nat
    requires from <= |t|
    decreases |t| - from
  {
    match Find(t, from)
    case None => 0
    case Some(m) => (if IsBlank(t[m.start..m.groupEnd]) then 0 else 1) + EmittingMatches(t, m.end)
  }

  /** There is one paragraph more than there are matches with a non-blank group 1. */
  lemma {:induction false} ParagraphCount(t: string, from: nat, appendPos: nat)
    requires appendPos <= from <= |t|
    ensures |SplitFrom(t, from, appendPos).bodies| == EmittingMatches(t, from) + 1
    decreases |t| - from
  {
    match Find(t, from)
    case None =>
    case Some(m) =>
      if IsBlank(t[m.start..m.groupEnd]) {
        SplitSkip(t, from, appendPos, m);
        ParagraphCount(t, m.end, appendPos);
      } else {
        SplitEmit(t, from, appendPos, m);
        ParagraphCount(t, m.end, m.end);
      }
  }

  /**
   * The output of a text that is not blank wraps 1 + n paragraphs, n the number of matches
   * in the trimmed text whose group 1 is not blank.
   */
  lemma FormattedParagraphCount(fieldText: string)
    requires !IsBlank(fieldText)
    ensures var t := Trim(fieldText); var bodies := SplitFrom(t, 0, 0).bodies;
      Formatted(fieldText) == Render(bodies) && |bodies| == EmittingMatches(t, 0) + 1
  {
    ParagraphCount(Trim(fieldText), 0, 0);
  }

  /** Leading and trailing whitespace does not change the result. */
  lemma FormattedIgnoresPadding(w1: string, fieldText: string, w2: string)
    requires IsBlank(w1) && IsBlank(w2)
    ensures Formatted(w1 + fieldText + w2) == Formatted(fieldText)
    ensures Formatted(Trim(fieldText)) == Formatted(fieldText)
  {
    TrimIgnoresPadding(w1, fieldText, w2);
    TrimIdempotent(fieldText);
  }

  /** A match found by the loop is a blank line of the text. */
  lemma MatchIsBlankLine(t: string, p: int, g: int, e: int)
    requires IsMatch(t, p, g, e)
    ensures HasBlankLine(t)
  {
    assert BlankBetween(t, g, e - 1);
  }

  /** Without a blank line the whole trimmed text is one paragraph. */
  lemma NoBlankLineOneParagraph(fieldText: string)
    requires !IsBlank(fieldText) && !HasBlankLine(Trim(fieldText))
    ensures Formatted(fieldText) == "<p>\n" + Trim(fieldText) + "\n</p>"
  {
    var t := Trim(fieldText);
    match Find(t, 0)
    case Some(m) =>
      MatchIsBlankLine(t, m.start, m.groupEnd, m.end);
      assert false;
    case None =>
      assert t[0..] == t;
  }

  /** a + sep + b matches at 0 when a holds no line terminator and sep is a blank-line separator. */
  lemma JoinMatch(t: string, a: string, sep: string, b: string)
    requires t == a + sep + b
    requires forall i :: 0 <= i < |a| ==> !IsLineTerminator(a[i])
    requires IsBlankLineSeparator(sep)
    ensures IsMatch(t, 0, |a|, |a| + |sep|)
  {
    var g, e := |a|, |a| + |sep|;
    forall i | 0 <= i < g ensures !IsLineTerminator(t[i]) { assert t[i] == a[i]; }
    forall i | g <= i < e ensures t[i] == sep[i - g] { }
    assert t[g] == sep[0];
    assert t[e - 1] == sep[|sep| - 1];
  }

  /** The characters after sep in a + sep + b are those of b. */
  lemma JoinNoNewlineAfter(t: string, a: string, sep: string, b: string)
    requires t == a + sep + b
    requires forall i :: 0 <= i < |b| ==> b[i] != '\n'
    ensures forall i :: |a| + |sep| <= i < |t| ==> t[i] != '\n'
  {
    forall i | |a| + |sep| <= i < |t| ensures t[i] != '\n' { assert t[i] == b[i - |a| - |sep|]; }
  }

  /** A match at 0 followed by no newline at all is the first and only match. */
  lemma OnlyMatch(t: string, g: int, e: int)
    requires IsMatch(t, 0, g, e)
    requires forall i :: e <= i < |t| ==> t[i] != '\n'
    ensures Find(t, 0) == Some(Match(0, g, e))
    ensures Find(t, e).None?
  {
    var m := Find(t, 0).value;
    MatchGroupEnd(t, 0, g, e, LineEnd(t, 0));
    MatchGroupEnd(t, 0, m.groupEnd, m.end, LineEnd(t, 0));
    assert t[m.end - 1] == '\n';
  }

  /** a + sep + b splits into the paragraphs a and b when sep is its only blank line. */
  lemma SplitAtSeparator(t: string, a: string, sep: string, b: string)
    requires t == a + sep + b
    requires !IsBlank(a) && forall i :: 0 <= i < |a| ==> !IsLineTerminator(a[i])
    requires IsBlankLineSeparator(sep)
    requires forall i :: 0 <= i < |b| ==> b[i] != '\n'
    ensures SplitFrom(t, 0, 0) == Paragraphs([a, b], [sep])
  {
    var e := |a| + |sep|;
    JoinMatch(t, a, sep, b);
    JoinNoNewlineAfter(t, a, sep, b);
    OnlyMatch(t, |a|, e);
    assert t[0..|a|] == a;
    assert t[|a|..e] == sep;
    SplitEmit(t, 0, 0, Match(0, |a|, e));
    assert t[e..] == b;
  }

  /** A newline, whitespace and a newline form a blank-line separator. */
  lemma BlankLine(w: string)
    requires forall i :: 0 <= i < |w| ==> IsSpace(w[i])
    ensures IsBlankLineSeparator("\n" + w + "\n")
  {
    var sep := "\n" + w + "\n";
    forall i | 0 <= i < |sep| ensures IsSpace(sep[i]) {
      if 0 < i < |sep| - 1 { assert sep[i] == w[i - 1]; }
    }
  }

  /**
   * A single-line paragraph, a blank line and a last line give two paragraphs; the
   * separator (with any whitespace on the blank line) is dropped.
   */
  lemma TwoParagraphs(fieldText: string, a: string, w: string, b: string)
    requires Trim(fieldText) == a + "\n" + w + "\n" + b
    requires !IsBlank(a) && forall i :: 0 <= i < |a| ==> !IsLineTerminator(a[i])
    requires forall i :: 0 <= i < |w| ==> IsSpace(w[i])
    requires forall i :: 0 <= i < |b| ==> b[i] != '\n'
    ensures Formatted(fieldText) == "<p>\n" + a + "\n</p>\n" + "<p>\n" + b + "\n</p>"
  {
    var t, sep := Trim(fieldText), "\n" + w + "\n";
    BlankLine(w);
    JoinAround(a, w, b);
    SplitAtSeparator(t, a, sep, b);
    assert t != [];
    assert Formatted(fieldText) == Render([a, b]);
    RenderTwo(a, b);
  }

  /** The text of TwoParagraphs, grouped around its separator. */
  lemma JoinAround(a: string, w: string, b: string)
    ensures a + "\n" + w + "\n" + b == a + ("\n" + w + "\n") + b
  {
  }

  /** Two paragraphs rendered. */
  lemma RenderTwo(a: string, b: string)
    ensures Render([a, b]) == "<p>\n" + a + "\n</p>\n" + "<p>\n" + b + "\n</p>"
  {
    assert [a, b][1..] == [b];
  }

  /**
   * Lines ended by "\r\n" never start a new paragraph: `.` does not match '\r', so the only
   * match of the blank line has an empty group 1, which emits nothing, and the separator
   * stays inside the single paragraph.
   */
  lemma CrLfBlankLineOneParagraph(fieldText: string, a: string, b: string)
    requires Trim(fieldText) == a + "\r\n\r\n" + b
    requires forall i :: 0 <= i < |a| ==> !IsLineTerminator(a[i])
    requires forall i :: 0 <= i < |b| ==> b[i] != '\n'
    ensures Formatted(fieldText) == "<p>\n" + Trim(fieldText) + "\n</p>"
  {
    var t := Trim(fieldText);
    CrLfSplit(t, a, b);
    assert |t| >= 4;
  }

  /** The split of a text whose only blank line is written with "\r\n": one paragraph. */
  lemma CrLfSplit(t: string, a: string, b: string)
    requires t == a + "\r\n\r\n" + b
    requires forall i :: 0 <= i < |a| ==> !IsLineTerminator(a[i])
    requires forall i :: 0 <= i < |b| ==> b[i] != '\n'
    ensures SplitFrom(t, 0, 0).bodies == [t]
  {
    var sep := "\r\n\r\n";
    var n := |a|;
    assert t[n] == sep[0] && t[n + 1] == sep[1] && t[n + 2] == sep[2] && t[n + 3] == sep[3];
    assert IsMatch(t, n + 1, n + 1, n + 4);
    // the only newlines of t are at n + 1 and n + 3
    assert forall i :: 0 <= i < |t| && i != n + 1 && i != n + 3 ==> t[i] != '\n' by {
      forall i | 0 <= i < |t| && i != n + 1 && i != n + 3 ensures t[i] != '\n' {
        if i < n { assert t[i] == a[i]; }
        else if i >= n + 4 { assert t[i] == b[i - n - 4]; }
      }
    }
    var m := Find(t, 0).value;
    assert m.start == n + 1;
    MatchGroupEnd(t, m.start, m.groupEnd, m.end, LineEnd(t, n + 1));
    assert m.end == n + 4;
    assert IsBlank(t[m.start..m.groupEnd]);
    assert Find(t, n + 4).None?;
    assert SplitFrom(t, 0, 0) == SplitFrom(t, n + 4, 0);
    assert t[0..] == t;
  }
}
