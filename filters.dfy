/**
 * The two search boxes of MainForm.  The heading search box narrows the
 * heading list (UpdateHeadingList); the content search box narrows the
 * shown body to its matching lines (ContentSearchBox_TextChanged).  Both
 * compare lowercased text with an ordinal substring test, and both treat
 * only the empty search text as "no filter": a text of spaces filters.
 */
module Filters {
  import opened Text
  import opened HeadingParser

  /** Enumerable.Where(p).ToList(): the elements satisfying p, in their original order. */
  function Where<T(!new)>(xs: seq<T>, p: T -> bool): (r: seq<T>)
    ensures |r| <= |xs|
    ensures forall x :: x in r <==> x in xs && p(x)
  {
    if xs == [] then []
    else (if p(xs[0]) then [xs[0]] else []) + Where(xs[1..], p)
  }

  /** Where keeps relative order: it distributes over concatenation. */
  lemma {:induction false} WhereAppend<T(!new)>(a: seq<T>, b: seq<T>, p: T -> bool)
    ensures Where(a + b, p) == Where(a, p) + Where(b, p)
  {
    if a == [] {
      assert a + b == b;
    } else {
      assert (a + b)[0] == a[0] && (a + b)[1..] == a[1..] + b;
      WhereAppend(a[1..], b, p);
    }
  }

  /** Filtering a filtered list again changes nothing. */
  lemma {:induction false} WhereIdempotent<T(!new)>(xs: seq<T>, p: T -> bool)
    ensures Where(Where(xs, p), p) == Where(xs, p)
  {
    if xs != [] {
      WhereIdempotent(xs[1..], p);
      var head := if p(xs[0]) then [xs[0]] else [];
      WhereAppend(head, Where(xs[1..], p), p);
      if p(xs[0]) {
        assert Where(head, p) == [xs[0]] + Where(head[1..], p);
      }
    }
  }

  // ---------------------------------------------------------------------
  // Heading filter (UpdateHeadingList)
  // ---------------------------------------------------------------------

  /** h.Title.ToLower().Contains(filter), for an already lowercased filter. */
  predicate TitleMatches(filter: string, h: Heading) {
    Contains(ToLower(h.title), filter)
  }

  function TitleFilter(filter: string): Heading -> bool {
    h => TitleMatches(filter, h)
  }

  /**
   * filteredHeadings after UpdateHeadingList: every heading when the
   * lowercased search text is empty, otherwise exactly those whose
   * lowercased title contains it, in their original order.
   */
  function FilterHeadings(all: seq<Heading>, searchText: string): (r: seq<Heading>)
    ensures |r| <= |all|
    ensures searchText == [] ==> r == all
    ensures forall h :: h in r <==>
      h in all && (searchText == [] || Contains(ToLower(h.title), ToLower(searchText)))
  {
    var filter := ToLower(searchText);
    if filter == [] then all else Where(all, TitleFilter(filter))
  }

  /** The heading filter preserves the order of the heading list. */
  lemma FilterHeadingsKeepsOrder(a: seq<Heading>, b: seq<Heading>, searchText: string)
    ensures FilterHeadings(a + b, searchText) == FilterHeadings(a, searchText) + FilterHeadings(b, searchText)
  {
    if searchText != [] {
      WhereAppend(a, b, TitleFilter(ToLower(searchText)));
    }
  }

  /** Applying the same heading search twice gives the list of applying it once. */
  lemma FilterHeadingsIdempotent(all: seq<Heading>, searchText: string)
    ensures FilterHeadings(FilterHeadings(all, searchText), searchText) == FilterHeadings(all, searchText)
  {
    if searchText != [] {
      WhereIdempotent(all, TitleFilter(ToLower(searchText)));
    }
  }

  lemma {:induction false} ToLowerIdempotent(s: string)
    ensures ToLower(ToLower(s)) == ToLower(s)
  {
    var t := ToLower(s);
    assert forall i | 0 <= i < |s| :: LowerChar(t[i]) == t[i];
  }

  lemma ToLowerAppend(a: string, b: string)
    ensures ToLower(a + b) == ToLower(a) + ToLower(b)
  {
    var s, r := a + b, ToLower(a) + ToLower(b);
    forall i | 0 <= i < |s| ensures ToLower(s)[i] == r[i] {
      if i < |a| { assert s[i] == a[i]; } else { assert s[i] == b[i - |a|]; }
    }
  }

  /** The heading search ignores the case of the search text. */
  lemma FilterHeadingsIgnoresCase(all: seq<Heading>, searchText: string)
    ensures FilterHeadings(all, searchText) == FilterHeadings(all, ToLower(searchText))
  {
    ToLowerIdempotent(searchText);
  }

  /** Every heading of the list is found when its own title is typed, in any case. */
  lemma HeadingFoundByOwnTitle(all: seq<Heading>, h: Heading)
    requires h in all
    ensures h in FilterHeadings(all, h.title)
  {
    assert OccursAt(ToLower(h.title), ToLower(h.title), 0);
  }

  lemma ContainsPrefixOfNeedle(s: string, a: string, b: string)
    requires Contains(s, a + b)
    ensures Contains(s, a)
  {
    var i :| 0 <= i <= |s| - |a + b| && OccursAt(s, a + b, i);
    assert s[i..i + |a|] == (a + b)[..|a|] == a;
    assert OccursAt(s, a, i);
  }

  /** Typing further characters into the heading search only narrows the list. */
  lemma FilterHeadingsNarrows(all: seq<Heading>, searchText: string, more: string)
    ensures forall h | h in FilterHeadings(all, searchText + more) :: h in FilterHeadings(all, searchText)
  {
    ToLowerAppend(searchText, more);
    forall h | h in FilterHeadings(all, searchText + more)
      ensures h in FilterHeadings(all, searchText)
    {
      if searchText != [] {
        ContainsPrefixOfNeedle(ToLower(h.title), ToLower(searchText), ToLower(more));
      }
    }
  }

  /** Searching "WORLD" keeps "Hello World" and drops "Other". */
  lemma FilterHeadingsExample(all: seq<Heading>)
    requires all == [Heading(1, "Hello World", "", 0), Heading(2, "Other", "", 3)]
    ensures FilterHeadings(all, "WORLD") == [all[0]]
  {
    var filter := ToLower("WORLD");
    assert filter == "world";
    var first, second := ToLower(all[0].title), ToLower(all[1].title);
    assert first == "hello world";
    assert first[6..11] == "world";
    assert OccursAt(first, filter, 6);
    assert second == "other";
    assert second[0..5][0] != filter[0];
    assert !OccursAt(second, filter, 0);
    assert !TitleMatches(filter, all[1]);
    assert Where(all, TitleFilter(filter)) == [all[0]] + Where(all[1..], TitleFilter(filter));
  }

  // ---------------------------------------------------------------------
  // Heading list items (GetIndent)
  // ---------------------------------------------------------------------

  /** U+3000 IDEOGRAPHIC SPACE, the indent unit of the heading list. */
  const IdeographicSpace: char := '\U{3000}'

  /** GetIndent: level 1 gets no indent, each further level one ideographic space. */
  function GetIndent(level: int): (r: string)
    requires level >= 1
    ensures |r| == level - 1
    ensures forall i | 0 <= i < |r| :: r[i] == IdeographicSpace
  {
    seq(level - 1, _ => IdeographicSpace)
  }

  /** The text of one heading list item. */
  function HeadingItem(h: Heading): string
    requires h.level >= 1
  {
    GetIndent(h.level) + h.title
  }

  /** headingListBox.Items after UpdateHeadingList: one item per filtered heading. */
  function HeadingItems(hs: seq<Heading>): (items: seq<string>)
    requires forall k | 0 <= k < |hs| :: hs[k].level >= 1
    ensures |items| == |hs|
    ensures forall k | 0 <= k < |hs| :: items[k] == HeadingItem(hs[k])
  {
    seq(|hs|, k requires 0 <= k < |hs| => HeadingItem(hs[k]))
  }

  /** The item-adding loop of UpdateHeadingList. */
  method BuildHeadingItems(hs: seq<Heading>) returns (items: seq<string>)
    requires forall k | 0 <= k < |hs| :: hs[k].level >= 1
    ensures items == HeadingItems(hs)
  {
    items := [];
    for k := 0 to |hs|
      invariant |items| == k
      invariant forall j | 0 <= j < k :: items[j] == HeadingItem(hs[j])
    {
      var heading := hs[k];
      items := items + [GetIndent(heading.level) + heading.title];
    }
  }

  /** Number of ideographic spaces a list item starts with. */
  function IndentDepth(s: string): (n: nat)
    ensures n <= |s|
  {
    if s != [] && s[0] == IdeographicSpace then 1 + IndentDepth(s[1..]) else 0
  }

  lemma {:induction false} IndentDepthOfPrefixed(k: nat, t: string)
    requires t == [] || t[0] != IdeographicSpace
    ensures IndentDepth(seq(k, _ => IdeographicSpace) + t) == k
  {
    if k > 0 {
      var s := seq(k, _ => IdeographicSpace) + t;
      assert s[1..] == seq(k - 1, _ => IdeographicSpace) + t;
      IndentDepthOfPrefixed(k - 1, t);
    } else {
      assert seq(k, _ => IdeographicSpace) + t == t;
    }
  }

  /**
   * A list item can be read back: its indent depth is level - 1 and the
   * rest is the title, as long as the title does not itself begin with an
   * ideographic space.
   */
  lemma ItemShowsLevelAndTitle(h: Heading)
    requires WellFormed(h) && h.title[0] != IdeographicSpace
    ensures IndentDepth(HeadingItem(h)) == h.level - 1
    ensures HeadingItem(h)[h.level - 1..] == h.title
  {
    IndentDepthOfPrefixed(h.level - 1, h.title);
  }

  // ---------------------------------------------------------------------
  // Content filter (ContentSearchBox_TextChanged)
  // ---------------------------------------------------------------------

  /** l.ToLower().Contains(filter), for an already lowercased filter. */
  predicate LineMatches(filter: string, line: string) {
    Contains(ToLower(line), filter)
  }

  function LineFilter(filter: string): string -> bool {
    l => LineMatches(filter, l)
  }

  /** The lines of a heading body the content search keeps. */
  function MatchingLines(content: string, searchText: string): (kept: seq<string>)
    ensures |kept| <= |SplitLines(content)|
    ensures forall l :: l in kept <==> l in SplitLines(content) && Contains(ToLower(l), ToLower(searchText))
  {
    Where(SplitLines(content), LineFilter(ToLower(searchText)))
  }

  /**
   * The text the content box shows for the body `content` of the selected
   * heading: the body itself for an empty search text, otherwise the
   * matching lines joined with NL.
   */
  function ShownContent(content: string, searchText: string): (r: string)
    ensures searchText == [] ==> r == content
  {
    if ToLower(searchText) == [] then content
    else Join(NL, MatchingLines(content, searchText))
  }

  /**
   * With a search text, the shown text is empty when no line matches and
   * otherwise splits back into exactly the matching lines, in order.
   */
  lemma ShownContentIsMatchingLines(content: string, searchText: string)
    requires searchText != []
    ensures var kept := MatchingLines(content, searchText);
      && (kept == [] <==> ShownContent(content, searchText) == [])
      && (kept != [] ==> SplitLines(ShownContent(content, searchText)) == kept)
      && (forall l :: l in kept <==>
            l in SplitLines(content) && Contains(ToLower(l), ToLower(searchText)))
  {
    var kept := MatchingLines(content, searchText);
    if kept != [] {
      forall k | 0 <= k < |kept| ensures NoTerminator(kept[k]) {
        assert kept[k] in SplitLines(content);
      }
      SplitJoin(kept);
      assert !LineMatches(ToLower(searchText), "");
      assert kept[0] in kept;
    }
  }

  /** Searching the shown text again with the same search text shows the same text. */
  lemma ShownContentIdempotent(content: string, searchText: string)
    ensures ShownContent(ShownContent(content, searchText), searchText) == ShownContent(content, searchText)
  {
    if searchText != [] {
      var f := LineFilter(ToLower(searchText));
      var kept := MatchingLines(content, searchText);
      ShownContentIsMatchingLines(content, searchText);
      if kept == [] {
        assert SplitLines([]) == [""];
        assert !OccursAt(ToLower(""), ToLower(searchText), 0);
        assert !f("");
        assert Where([""], f) == [] + Where([""][1..], f);
      } else {
        WhereIdempotent(SplitLines(content), f);
      }
    }
  }
}
