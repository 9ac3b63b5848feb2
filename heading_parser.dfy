/**
 * MainForm.ParseHeadings: the markdown outline of one snippet file.  A line
 * is a heading when it matches the pattern ^(#{1,6})\s+(.+)$; its content is
 * the trimmed text between it and the next heading line (of any level) or
 * the end of the file.
 */
module HeadingParser {
  import opened Text

  /** Heading: level 1..6, title, trimmed body text, index of its line. */
  datatype Heading = Heading(level: int, title: string, content: string, lineNumber: nat)

  /** The two capture groups of a successful match. */
  datatype HeadingMatch = HeadingMatch(level: int, title: string)

  /** Number of '#' characters the line starts with. */
  function LeadingHashes(line: string): (n: nat)
    ensures n <= |line|
    ensures forall i | 0 <= i < n :: line[i] == '#'
    ensures n == |line| || line[n] != '#'
  {
    if |line| > 0 && line[0] == '#' then 1 + LeadingHashes(line[1..]) else 0
  }

  /** Length of the maximal run of white space starting at `from`. */
  function WhiteRun(line: string, from: nat): (w: nat)
    requires from <= |line|
    ensures from + w <= |line|
    ensures forall i | from <= i < from + w :: IsWhiteSpace(line[i])
    ensures from + w == |line| || !IsWhiteSpace(line[from + w])
    decreases |line| - from
  {
    if from < |line| && IsWhiteSpace(line[from]) then 1 + WhiteRun(line, from + 1) else 0
  }

  /**
   * What the pattern ^(#{1,6})\s+(.+)$ yields once the run of h leading '#'
   * has been read.  The hash group can only end where that run ends (a '#'
   * is not white space), \s+ takes the whole white-space run after it, and
   * when nothing follows that run, .+ takes back its last character.
   */
  function MatchAfterHashes(line: string, h: nat): (m: Option<HeadingMatch>)
    requires h <= |line|
    ensures m.Some? ==> m.value.level == h && 1 <= h <= 6 && 1 <= |m.value.title| <= |line|
  {
    if h < 1 || h > 6 then None
    else
      var w := WhiteRun(line, h);
      if w == 0 then None
      else if h + w < |line| then Some(HeadingMatch(h, line[h + w..]))
      else if w >= 2 then Some(HeadingMatch(h, line[|line| - 1..]))
      else None
  }

  /** Reads the leading '#' characters from index i on, then decides. */
  function ScanHashes(line: string, i: nat): (m: Option<HeadingMatch>)
    requires i <= |line|
    ensures m.Some? ==> 1 <= m.value.level <= 6 && 1 <= |m.value.title| <= |line|
    decreases |line| - i
  {
    if i < |line| && line[i] == '#' then ScanHashes(line, i + 1)
    else MatchAfterHashes(line, i)
  }

  /** Regex.Match with ^(#{1,6})\s+(.+)$ on one line (a line holds no terminator). */
  function MatchHeading(line: string): (m: Option<HeadingMatch>)
    ensures m.Some? ==> 1 <= m.value.level <= 6 && 1 <= |m.value.title| <= |line|
  {
    ScanHashes(line, 0)
  }

  lemma {:induction false} ScanHashesReadsRun(line: string, i: nat)
    requires i <= LeadingHashes(line)
    ensures ScanHashes(line, i) == MatchAfterHashes(line, LeadingHashes(line))
    decreases |line| - i
  {
    if i < LeadingHashes(line) {
      ScanHashesReadsRun(line, i + 1);
    }
  }

  predicate IsHeadingLine(line: string) {
    MatchHeading(line).Some?
  }

  /**
   * The pattern read declaratively: `level` hashes (1 to 6), then white
   * space up to `titleStart`, then at least one more character.
   */
  ghost predicate Decomposes(line: string, level: int, titleStart: int) {
    1 <= level <= 6 && level < titleStart < |line|
    && (forall i | 0 <= i < level :: line[i] == '#')
    && (forall i | level <= i < titleStart :: IsWhiteSpace(line[i]))
  }

  lemma {:induction false} WhiteRunCovers(line: string, from: nat, to: nat)
    requires from <= to <= |line|
    requires forall i | from <= i < to :: IsWhiteSpace(line[i])
    ensures from + WhiteRun(line, from) >= to
    decreases |line| - from
  {
    if from < to {
      WhiteRunCovers(line, from + 1, to);
    }
  }

  /**
   * MatchHeading succeeds exactly when the line can be cut as the pattern
   * demands, and then returns the cut a backtracking matcher picks: the level
   * is the only possible one and the title starts as late as the pattern
   * allows.
   */
  lemma MatchHeadingIsPattern(line: string)
    ensures MatchHeading(line).Some? <==> exists l, t :: Decomposes(line, l, t)
    ensures MatchHeading(line).Some? ==>
      var m := MatchHeading(line).value;
      var start := |line| - |m.title|;
      && m.level == LeadingHashes(line)
      && 1 <= |m.title| <= |line| && m.title == line[start..]
      && Decomposes(line, m.level, start)
      && (forall l, t :: Decomposes(line, l, t) ==> l == m.level && t <= start)
  {
    ScanHashesReadsRun(line, 0);
    forall l, t | Decomposes(line, l, t)
      ensures l == LeadingHashes(line) && MatchHeading(line).Some?
      ensures t <= |line| - |MatchHeading(line).value.title|
    {
      DecompositionIsMatched(line, l, t);
    }
    if MatchHeading(line).Some? {
      MatchIsDecomposition(line);
    }
  }

  /** Any cut the pattern allows has the leading-hash level, and ends no later than the matched title's start. */
  lemma DecompositionIsMatched(line: string, l: int, t: int)
    requires Decomposes(line, l, t)
    ensures var m := MatchAfterHashes(line, LeadingHashes(line));
      && l == LeadingHashes(line) && m.Some?
      && t <= |line| - |m.value.title|
  {
    var h := LeadingHashes(line);
    assert line[l] != '#' by { assert IsWhiteSpace(line[l]); }
    assert l == h;
    WhiteRunCovers(line, h, t);
  }

  /** A successful match is itself a cut the pattern allows. */
  lemma MatchIsDecomposition(line: string)
    requires MatchAfterHashes(line, LeadingHashes(line)).Some?
    ensures var m := MatchAfterHashes(line, LeadingHashes(line)).value;
      var start := |line| - |m.title|;
      && m.title == line[start..]
      && Decomposes(line, m.level, start)
  {
    var h := LeadingHashes(line);
    var w := WhiteRun(line, h);
    var m := MatchAfterHashes(line, h).value;
    var start := |line| - |m.title|;
    assert start == (if h + w < |line| then h + w else |line| - 1);
  }

  /** First heading line at or after k, or |lines| when there is none. */
  function NextHeading(lines: seq<string>, k: nat): (r: nat)
    requires k <= |lines|
    ensures k <= r <= |lines|
    ensures forall j | k <= j < r :: !IsHeadingLine(lines[j])
    ensures r < |lines| ==> IsHeadingLine(lines[r])
    decreases |lines| - k
  {
    if k == |lines| then k
    else if IsHeadingLine(lines[k]) then k
    else NextHeading(lines, k + 1)
  }

  /** Well-formed heading: level 1..6 and a non-empty title. */
  predicate WellFormed(h: Heading) {
    1 <= h.level <= 6 && |h.title| >= 1
  }

  /** The heading ParseHeadings builds for the heading line at index i. */
  function MakeHeading(lines: seq<string>, i: nat): (h: Heading)
    requires i < |lines| && IsHeadingLine(lines[i])
    ensures WellFormed(h) && h.lineNumber == i
  {
    var m := MatchHeading(lines[i]).value;
    var startLine := i + 1;
    var endLine := NextHeading(lines, startLine);
    Heading(m.level, m.title, Trim(Join(NL, lines[startLine..endLine])), i)
  }

  /** The headings of the heading lines among lines[..n], in line order. */
  function HeadingsUpTo(lines: seq<string>, n: nat): (hs: seq<Heading>)
    requires n <= |lines|
    ensures forall k | 0 <= k < |hs| :: WellFormed(hs[k])
  {
    if n == 0 then []
    else
      HeadingsUpTo(lines, n - 1)
      + (if IsHeadingLine(lines[n - 1]) then [MakeHeading(lines, n - 1)] else [])
  }

  /** The result of ParseHeadings(text), as a value. */
  function ParsedHeadings(text: string): (hs: seq<Heading>)
    ensures forall k | 0 <= k < |hs| :: WellFormed(hs[k]) && hs[k].lineNumber < |SplitLines(text)|
  {
    var lines := SplitLines(text);
    HeadingsUpToOrdered(lines, |lines|);
    HeadingsUpTo(lines, |lines|)
  }

  /**
   * MainForm.ParseHeadings: for every line, test the pattern; on a match,
   * scan forward to the next heading line and collect the lines between.
   */
  method ParseHeadings(content: string) returns (headings: seq<Heading>)
    ensures headings == ParsedHeadings(content)
  {
    headings := [];
    var lines := SplitLines(content);
    for i := 0 to |lines|
      invariant headings == HeadingsUpTo(lines, i)
    {
      var found := MatchHeading(lines[i]);
      if found.Some? {
        var level := found.value.level;
        var title := found.value.title;
        var startLine := i + 1;
        var endLine := startLine;
        for j := startLine to |lines|
          invariant endLine == j
          invariant forall m | startLine <= m < j :: !IsHeadingLine(lines[m])
        {
          if IsHeadingLine(lines[j]) {
            break;
          }
          endLine := j + 1;
        }
        assert endLine == NextHeading(lines, startLine);
        var headingContent := Join(NL, lines[startLine..endLine]);
        headings := headings + [Heading(level, title, Trim(headingContent), i)];
      }
    }
  }

  /** Every heading of hs is the one MakeHeading builds for a heading line below n. */
  ghost predicate BuiltFromLines(lines: seq<string>, hs: seq<Heading>, n: nat) {
    n <= |lines|
    && forall k | 0 <= k < |hs| ::
         hs[k].lineNumber < n && IsHeadingLine(lines[hs[k].lineNumber])
         && hs[k] == MakeHeading(lines, hs[k].lineNumber)
  }

  /** Line numbers strictly increase along hs. */
  ghost predicate InFileOrder(hs: seq<Heading>) {
    forall k1, k2 | 0 <= k1 < k2 < |hs| :: hs[k1].lineNumber < hs[k2].lineNumber
  }

  /** Every heading line below n has a heading in hs. */
  ghost predicate CoversHeadingLines(lines: seq<string>, hs: seq<Heading>, n: nat)
    requires n <= |lines|
  {
    forall j | 0 <= j < n && IsHeadingLine(lines[j]) ::
      exists k :: 0 <= k < |hs| && hs[k].lineNumber == j
  }

  /**
   * Structure of HeadingsUpTo(lines, n): one heading per heading line of
   * lines[..n], in strictly increasing line order, each built from its own
   * line.
   */
  lemma {:induction false} HeadingsUpToStructure(lines: seq<string>, n: nat)
    requires n <= |lines|
    ensures BuiltFromLines(lines, HeadingsUpTo(lines, n), n)
    ensures InFileOrder(HeadingsUpTo(lines, n))
    ensures CoversHeadingLines(lines, HeadingsUpTo(lines, n), n)
  {
    HeadingsUpToOrdered(lines, n);
    HeadingsUpToBuilt(lines, n);
  }

  lemma {:induction false} HeadingsUpToOrdered(lines: seq<string>, n: nat)
    requires n <= |lines|
    ensures forall k | 0 <= k < |HeadingsUpTo(lines, n)| :: HeadingsUpTo(lines, n)[k].lineNumber < n
    ensures InFileOrder(HeadingsUpTo(lines, n))
  {
    if n > 0 {
      HeadingsUpToOrdered(lines, n - 1);
    }
  }

  lemma {:induction false} HeadingsUpToBuilt(lines: seq<string>, n: nat)
    requires n <= |lines|
    ensures BuiltFromLines(lines, HeadingsUpTo(lines, n), n)
    ensures CoversHeadingLines(lines, HeadingsUpTo(lines, n), n)
  {
    HeadingsUpToFromLines(lines, n);
    HeadingsUpToCovers(lines, n);
  }

  lemma {:induction false} HeadingsUpToFromLines(lines: seq<string>, n: nat)
    requires n <= |lines|
    ensures BuiltFromLines(lines, HeadingsUpTo(lines, n), n)
  {
    if n > 0 {
      HeadingsUpToFromLines(lines, n - 1);
    }
  }

  lemma {:induction false} HeadingsUpToCovers(lines: seq<string>, n: nat)
    requires n <= |lines|
    ensures CoversHeadingLines(lines, HeadingsUpTo(lines, n), n)
  {
    if n > 0 {
      HeadingsUpToCovers(lines, n - 1);
      var prev := HeadingsUpTo(lines, n - 1);
      var hs := HeadingsUpTo(lines, n);
      if IsHeadingLine(lines[n - 1]) {
        assert hs == prev + [MakeHeading(lines, n - 1)];
        assert hs[|prev|].lineNumber == n - 1;
        forall j | 0 <= j < n && IsHeadingLine(lines[j])
          ensures exists k :: 0 <= k < |hs| && hs[k].lineNumber == j
        {
          if j == n - 1 {
            assert hs[|prev|].lineNumber == j;
          } else {
            var k :| 0 <= k < |prev| && prev[k].lineNumber == j;
            assert hs[k] == prev[k];
          }
        }
      } else {
        assert hs == prev;
      }
    }
  }

  /**
   * ParseHeadings returns one heading per line matching the pattern, in file
   * order: each heading's line number is the index of a matching line, its
   * level is that line's number of leading '#' (1 to 6) and its title the
   * matched title; line numbers strictly increase; every matching line is
   * represented.
   */
  lemma ParsedHeadingsAreHeadingLines(text: string)
    ensures var lines := SplitLines(text);
      var hs := ParsedHeadings(text);
      && (forall k | 0 <= k < |hs| ::
            hs[k].lineNumber < |lines| && IsHeadingLine(lines[hs[k].lineNumber])
            && hs[k].level == LeadingHashes(lines[hs[k].lineNumber])
            && 1 <= hs[k].level <= 6
            && hs[k].title == MatchHeading(lines[hs[k].lineNumber]).value.title)
      && (forall k1, k2 | 0 <= k1 < k2 < |hs| :: hs[k1].lineNumber < hs[k2].lineNumber)
      && (forall j | 0 <= j < |lines| && IsHeadingLine(lines[j]) ::
            exists k :: 0 <= k < |hs| && hs[k].lineNumber == j)
  {
    var lines := SplitLines(text);
    HeadingsUpToStructure(lines, |lines|);
    var hs := ParsedHeadings(text);
    forall k | 0 <= k < |hs|
      ensures hs[k].level == LeadingHashes(lines[hs[k].lineNumber])
    {
      MatchHeadingIsPattern(lines[hs[k].lineNumber]);
    }
  }

  /**
   * A heading's content is the trimmed NL-join of the lines strictly after
   * its own line up to the next heading's line, or to the end of the text
   * for the last heading; no line in that span is a heading line.
   */
  lemma HeadingContentSpan(text: string, k: nat)
    requires k < |ParsedHeadings(text)|
    ensures var lines := SplitLines(text);
      var hs := ParsedHeadings(text);
      var first := hs[k].lineNumber + 1;
      var end := if k + 1 < |hs| then hs[k + 1].lineNumber else |lines|;
      && first <= end <= |lines|
      && hs[k].content == Trim(Join(NL, lines[first..end]))
      && (forall j | first <= j < end :: !IsHeadingLine(lines[j]))
  {
    var lines := SplitLines(text);
    assert HeadingsUpTo(lines, |lines|) == ParsedHeadings(text);
    SpanOfHeadingUpTo(lines, k);
  }

  /** HeadingContentSpan for the headings of a sequence of lines. */
  lemma SpanOfHeadingUpTo(lines: seq<string>, k: nat)
    requires k < |HeadingsUpTo(lines, |lines|)|
    ensures var hs := HeadingsUpTo(lines, |lines|);
      var first := hs[k].lineNumber + 1;
      var end := if k + 1 < |hs| then hs[k + 1].lineNumber else |lines|;
      && first <= end <= |lines|
      && hs[k].content == Trim(Join(NL, lines[first..end]))
      && (forall j | first <= j < end :: !IsHeadingLine(lines[j]))
  {
    HeadingsUpToStructure(lines, |lines|);
    SpanOfHeading(lines, HeadingsUpTo(lines, |lines|), k);
  }

  /** The span of heading k in a heading list built from the lines, in order, covering every heading line. */
  lemma SpanOfHeading(lines: seq<string>, hs: seq<Heading>, k: nat)
    requires BuiltFromLines(lines, hs, |lines|) && InFileOrder(hs) && CoversHeadingLines(lines, hs, |lines|)
    requires k < |hs|
    ensures var first := hs[k].lineNumber + 1;
      var end := if k + 1 < |hs| then hs[k + 1].lineNumber else |lines|;
      && first <= end <= |lines|
      && hs[k].content == Trim(Join(NL, lines[first..end]))
      && (forall j | first <= j < end :: !IsHeadingLine(lines[j]))
  {
    var first := hs[k].lineNumber + 1;
    var end := if k + 1 < |hs| then hs[k + 1].lineNumber else |lines|;
    forall j | first <= j < end
      ensures !IsHeadingLine(lines[j])
    {
      forall k2 | 0 <= k2 < |hs|
        ensures hs[k2].lineNumber != j
      {
        if k2 < k {
          assert hs[k2].lineNumber < hs[k].lineNumber;
        } else if k < k2 {
          assert hs[k + 1].lineNumber <= hs[k2].lineNumber;
        }
      }
    }
    NextHeadingIs(lines, first, end);
  }

  /** NextHeading is pinned down by its contract. */
  lemma {:induction false} NextHeadingIs(lines: seq<string>, k: nat, e: nat)
    requires k <= e <= |lines|
    requires forall j | k <= j < e :: !IsHeadingLine(lines[j])
    requires e < |lines| ==> IsHeadingLine(lines[e])
    ensures NextHeading(lines, k) == e
    decreases e - k
  {
    if k < e {
      NextHeadingIs(lines, k + 1, e);
    }
  }

  /** A heading line directly followed by another heading line has empty content. */
  lemma AdjacentHeadingHasEmptyContent(text: string, k: nat)
    requires k < |ParsedHeadings(text)|
    requires var lines := SplitLines(text);
      var n := ParsedHeadings(text)[k].lineNumber + 1;
      n < |lines| && IsHeadingLine(lines[n])
    ensures ParsedHeadings(text)[k].content == ""
  {
    var lines := SplitLines(text);
    HeadingsUpToStructure(lines, |lines|);
    var h := ParsedHeadings(text)[k];
    assert NextHeading(lines, h.lineNumber + 1) == h.lineNumber + 1;
    TrimProperties(Join(NL, []));
  }

  /** Text without a matching line yields no headings. */
  lemma NoHeadingLineNoHeadings(text: string)
    requires forall j | 0 <= j < |SplitLines(text)| :: !IsHeadingLine(SplitLines(text)[j])
    ensures ParsedHeadings(text) == []
  {
    var lines := SplitLines(text);
    NoHeadingLineBelow(lines, |lines|);
  }

  lemma {:induction false} NoHeadingLineBelow(lines: seq<string>, n: nat)
    requires n <= |lines|
    requires forall j | 0 <= j < n :: !IsHeadingLine(lines[j])
    ensures HeadingsUpTo(lines, n) == []
  {
    if n > 0 {
      NoHeadingLineBelow(lines, n - 1);
    }
  }

  /** Four terminator-free lines, each ended by "\n", split into those lines and a final empty one. */
  lemma FourLinesSplit(a: string, b: string, c: string, d: string)
    requires NoTerminator(a) && NoTerminator(b) && NoTerminator(c) && NoTerminator(d)
    ensures SplitLines(a + "\n" + (b + "\n" + (c + "\n" + (d + "\n" + "")))) == [a, b, c, d, ""]
  {
    SplitLineFeed(d, "");
    SplitLineFeed(c, d + "\n" + "");
    SplitLineFeed(b, c + "\n" + (d + "\n" + ""));
    SplitLineFeed(a, b + "\n" + (c + "\n" + (d + "\n" + "")));
  }

  /** Which lines of "# A\ntext\n## B\nmore\n" are headings. */
  lemma ExampleLineKinds(lines: seq<string>)
    requires lines == ["# A", "text", "## B", "more", ""]
    ensures MatchHeading(lines[0]) == Some(HeadingMatch(1, "A"))
    ensures MatchHeading(lines[2]) == Some(HeadingMatch(2, "B"))
    ensures !IsHeadingLine(lines[1]) && !IsHeadingLine(lines[3]) && !IsHeadingLine(lines[4])
  {
    assert MatchHeading("# A") == Some(HeadingMatch(1, "A"));
    assert !IsHeadingLine("text");
    assert MatchHeading("## B") == Some(HeadingMatch(2, "B"));
    assert !IsHeadingLine("more");
    assert !IsHeadingLine("");
  }

  /** MakeHeading, given the match, the end of the span and the trimmed body. */
  lemma MakeHeadingFrom(lines: seq<string>, i: nat, m: HeadingMatch, e: nat, body: string)
    requires i < |lines| && MatchHeading(lines[i]) == Some(m)
    requires i + 1 <= e <= |lines| && NextHeading(lines, i + 1) == e
    requires Trim(Join(NL, lines[i + 1..e])) == body
    ensures MakeHeading(lines, i) == Heading(m.level, m.title, body, i)
  {
  }

  /** The first heading of "# A\ntext\n## B\nmore\n" owns the line "text". */
  lemma ExampleFirstHeading(lines: seq<string>)
    requires lines == ["# A", "text", "## B", "more", ""]
    ensures MakeHeading(lines, 0) == Heading(1, "A", "text", 0)
  {
    ExampleLineKinds(lines);
    NextHeadingIs(lines, 1, 2);
    var text := lines[1];
    assert lines[1..2] == [text];
    assert text[0] == 't' && text[|text| - 1] == 't';
    LettersAreNotWhiteSpace(text[0]);
    TrimTight(text);
    MakeHeadingFrom(lines, 0, HeadingMatch(1, "A"), 2, text);
  }

  /**
   * A heading on the third line from the end, followed by a tight text line
   * and a blank last line, owns exactly that text line.
   */
  lemma LastHeadingOverOneLine(lines: seq<string>, i: nat, m: HeadingMatch)
    requires i + 3 == |lines| && MatchHeading(lines[i]) == Some(m)
    requires !IsHeadingLine(lines[i + 1]) && !IsHeadingLine(lines[i + 2])
    requires |lines[i + 1]| > 0 && !IsWhiteSpace(lines[i + 1][0]) && !IsWhiteSpace(lines[i + 1][|lines[i + 1]| - 1])
    requires IsBlank(lines[i + 2])
    ensures MakeHeading(lines, i) == Heading(m.level, m.title, lines[i + 1], i)
  {
    NextHeadingIs(lines, i + 1, |lines|);
    assert lines[i + 1..|lines|] == [lines[i + 1], lines[i + 2]];
    TrimJoinedBlankLine(lines[i + 1], lines[i + 2]);
    MakeHeadingFrom(lines, i, m, |lines|, lines[i + 1]);
  }

  /** A tight line joined with a blank line trims back to the tight line. */
  lemma TrimJoinedBlankLine(a: string, w: string)
    requires |a| > 0 && !IsWhiteSpace(a[0]) && !IsWhiteSpace(a[|a| - 1])
    requires IsBlank(w)
    ensures Trim(Join(NL, [a, w])) == a
  {
    JoinTwo(NL, a, w);
    assert a + NL + w == a + (NL + w);
    assert IsBlank(NL + w) by {
      assert forall i | 0 <= i < |NL + w| :: (NL + w)[i] == if i < 2 then NL[i] else w[i - 2];
    }
    TrimTightThenBlank(a, NL + w);
  }

  /** The headings of the lines of "# A\ntext\n## B\nmore\n". */
  lemma ExampleHeadings(lines: seq<string>)
    requires lines == ["# A", "text", "## B", "more", ""]
    ensures HeadingsUpTo(lines, 5) == [Heading(1, "A", "text", 0), Heading(2, "B", "more", 2)]
  {
    ExampleLineKinds(lines);
    ExampleFirstHeading(lines);
    // The second heading owns "more" and the empty last line, trimmed away.
    var more := lines[3];
    assert more[0] == 'm' && more[|more| - 1] == 'e';
    LettersAreNotWhiteSpace(more[0]);
    LettersAreNotWhiteSpace(more[|more| - 1]);
    LastHeadingOverOneLine(lines, 2, HeadingMatch(2, "B"));
    TwoHeadingsOfFive(lines, Heading(1, "A", "text", 0), Heading(2, "B", "more", 2));
  }

  /** Five lines whose heading lines are lines 0 and 2 have those two headings. */
  lemma TwoHeadingsOfFive(lines: seq<string>, first: Heading, second: Heading)
    requires |lines| == 5
    requires IsHeadingLine(lines[0]) && IsHeadingLine(lines[2])
    requires !IsHeadingLine(lines[1]) && !IsHeadingLine(lines[3]) && !IsHeadingLine(lines[4])
    requires MakeHeading(lines, 0) == first && MakeHeading(lines, 2) == second
    ensures HeadingsUpTo(lines, 5) == [first, second]
  {
    assert HeadingsUpTo(lines, 1) == [first];
    assert HeadingsUpTo(lines, 2) == HeadingsUpTo(lines, 1);
    assert HeadingsUpTo(lines, 3) == [first, second];
    assert HeadingsUpTo(lines, 4) == HeadingsUpTo(lines, 3);
  }

  /** "# A\ntext\n## B\nmore\n" has two headings, each owning the one text line below it. */
  lemma ParseExample(text: string)
    requires text == "# A\ntext\n## B\nmore\n"
    ensures ParsedHeadings(text) == [Heading(1, "A", "text", 0), Heading(2, "B", "more", 2)]
  {
    assert text == "# A" + "\n" + ("text" + "\n" + ("## B" + "\n" + ("more" + "\n" + "")));
    FourLinesSplit("# A", "text", "## B", "more");
    ExampleHeadings(SplitLines(text));
  }
}
