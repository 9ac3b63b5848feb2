/**
 * The string primitives the viewer relies on: .NET's line splitting on the
 * three terminator conventions, string.Join, Trim, IsNullOrWhiteSpace,
 * ToLower and Contains.  Strings are never null in this model.
 */
module Text {

  datatype Option<T> = None | Some(value: T)

  /** Environment.NewLine on Windows, the platform the viewer is built for. */
  const NL: string := "\r\n"

  /**
   * The characters Char.IsWhiteSpace accepts: U+0009..U+000D, U+0020, U+0085,
   * U+00A0 and the separators of category Z.  The regular-expression class
   * \s of .NET ([\f\n\r\t\v\x85\p{Z}]) denotes the same set.
   */
  const WhiteSpaceChars: set<char> := {
    '\t', '\n', '\U{B}', '\U{C}', '\r', ' ', '\U{85}', '\U{A0}', '\U{1680}',
    '\U{2000}', '\U{2001}', '\U{2002}', '\U{2003}', '\U{2004}', '\U{2005}',
    '\U{2006}', '\U{2007}', '\U{2008}', '\U{2009}', '\U{200A}',
    '\U{2028}', '\U{2029}', '\U{202F}', '\U{205F}', '\U{3000}'
  }

  predicate IsWhiteSpace(c: char) {
    c in WhiteSpaceChars
  }

  /** No ASCII letter is white space. */
  lemma LettersAreNotWhiteSpace(c: char)
    requires 'A' <= c <= 'Z' || 'a' <= c <= 'z'
    ensures !IsWhiteSpace(c)
  {
  }

  /** string.IsNullOrWhiteSpace: every character is white space (so "" is blank). */
  predicate IsBlank(s: string) {
    forall i | 0 <= i < |s| :: IsWhiteSpace(s[i])
  }

  /** The line contains no line terminator. */
  predicate NoTerminator(s: string) {
    forall i | 0 <= i < |s| :: s[i] != '\r' && s[i] != '\n'
  }

  function TrimEnd(s: string): (r: string)
    ensures |r| <= |s| && r == s[..|r|]
    ensures IsBlank(s[|r|..])
    ensures r == [] || !IsWhiteSpace(r[|r| - 1])
  {
    if |s| > 0 && IsWhiteSpace(s[|s| - 1]) then
      var t := s[..|s| - 1];
      var r := TrimEnd(t);
      assert t[..|r|] == s[..|r|];
      assert s[|r|..] == t[|r|..] + [s[|s| - 1]];
      r
    else s
  }

  /** string.Trim: strips white space at the start, then at the end. */
  function Trim(s: string): (r: string)
    ensures |r| <= |s|
    ensures r == [] || (!IsWhiteSpace(r[0]) && !IsWhiteSpace(r[|r| - 1]))
  {
    if |s| > 0 && IsWhiteSpace(s[0]) then Trim(s[1..]) else TrimEnd(s)
  }

  /** The two cut points of Trim: blank text before a, blank text from b on. */
  lemma {:induction false} TrimCuts(s: string) returns (a: nat, b: nat)
    ensures a <= b <= |s| && Trim(s) == s[a..b]
    ensures IsBlank(s[..a]) && IsBlank(s[b..])
  {
    if |s| > 0 && IsWhiteSpace(s[0]) {
      var t := s[1..];
      var a', b' := TrimCuts(t);
      a, b := a' + 1, b' + 1;
      TrimCutsStep(s, a', b');
    } else {
      a, b := 0, |TrimEnd(s)|;
      assert s[..a] == [];
    }
  }

  /** Cut points of s[1..] shifted by one are cut points of s, when s[0] is white space. */
  lemma TrimCutsStep(s: string, a: nat, b: nat)
    requires |s| > 0 && IsWhiteSpace(s[0])
    requires a <= b <= |s| - 1 && Trim(s[1..]) == s[1..][a..b]
    requires IsBlank(s[1..][..a]) && IsBlank(s[1..][b..])
    ensures Trim(s) == s[a + 1..b + 1]
    ensures IsBlank(s[..a + 1]) && IsBlank(s[b + 1..])
  {
    ShiftSlices(s, a, b);
    BlankCons(s[0], s[1..][..a]);
  }

  /** Slices of s[1..] are slices of s, one position further on. */
  lemma ShiftSlices(s: string, a: nat, b: nat)
    requires a <= b < |s|
    ensures s[1..][a..b] == s[a + 1..b + 1] && s[1..][b..] == s[b + 1..]
    ensures s[..a + 1] == [s[0]] + s[1..][..a]
  {
  }

  lemma BlankCons(c: char, w: string)
    requires IsWhiteSpace(c) && IsBlank(w)
    ensures IsBlank([c] + w)
  {
  }

  /**
   * Trim removes white space at the two ends and nothing else: the result is
   * the slice s[a..b] whose prefix s[..a] and suffix s[b..] are blank, and it
   * is "" exactly for a blank string.
   */
  lemma TrimProperties(s: string)
    ensures exists a, b :: 0 <= a <= b <= |s| && Trim(s) == s[a..b] && IsBlank(s[..a]) && IsBlank(s[b..])
    ensures Trim(s) == [] <==> IsBlank(s)
  {
    var a, b := TrimCuts(s);
    if Trim(s) == [] {
      assert a == b;
      forall i | 0 <= i < |s| ensures IsWhiteSpace(s[i]) {
        if i < a { assert s[i] == s[..a][i]; } else { assert s[i] == s[b..][i - b]; }
      }
    }
  }

  /** Trailing white space does not survive TrimEnd. */
  lemma {:induction false} TrimEndBlankSuffix(s: string, w: string)
    requires IsBlank(w)
    ensures TrimEnd(s + w) == TrimEnd(s)
    decreases |w|
  {
    if |w| > 0 {
      var t := s + w;
      assert t[..|t| - 1] == s + w[..|w| - 1];
      TrimEndBlankSuffix(s, w[..|w| - 1]);
    } else {
      assert s + w == s;
    }
  }

  /** Trimming a tight string followed by white space gives the tight string back. */
  lemma TrimTightThenBlank(s: string, w: string)
    requires |s| > 0 && !IsWhiteSpace(s[0]) && !IsWhiteSpace(s[|s| - 1])
    requires IsBlank(w)
    ensures Trim(s + w) == s
  {
    assert (s + w)[0] == s[0];
    TrimEndBlankSuffix(s, w);
  }

  /** A string that starts and ends with non-white characters is its own trim. */
  lemma TrimTight(s: string)
    requires |s| > 0 && !IsWhiteSpace(s[0]) && !IsWhiteSpace(s[|s| - 1])
    ensures Trim(s) == s
  {
  }

  /** Char.ToLower, restricted to the ASCII letters. */
  function LowerChar(c: char): char {
    if 'A' <= c <= 'Z' then (c as int + 32) as char else c
  }

  function ToLower(s: string): (r: string)
    ensures |r| == |s|
  {
    seq(|s|, i requires 0 <= i < |s| => LowerChar(s[i]))
  }

  /** `sub` occurs in `s` starting at index i. */
  predicate OccursAt(s: string, sub: string, i: int) {
    0 <= i && i + |sub| <= |s| && s[i..i + |sub|] == sub
  }

  /** string.Contains (ordinal). */
  predicate Contains(s: string, sub: string) {
    exists i | 0 <= i <= |s| - |sub| :: OccursAt(s, sub, i)
  }

  /** string.Join(sep, parts). */
  function Join(sep: string, parts: seq<string>): (r: string)
    ensures |parts| >= 1 ==> |parts[0]| <= |r| && r[..|parts[0]|] == parts[0]
  {
    if |parts| == 0 then ""
    else if |parts| == 1 then parts[0]
    else parts[0] + sep + Join(sep, parts[1..])
  }

  lemma JoinTwo(sep: string, a: string, b: string)
    ensures Join(sep, [a, b]) == a + sep + b
  {
    assert [a, b][1..] == [b];
  }

  /**
   * s.Split(new[] { "\r\n", "\r", "\n" }, StringSplitOptions.None): at each
   * position the two-character separator is tried first, so "\r\n" ends one
   * line, and empty lines are kept.
   */
  function SplitLines(s: string): (r: seq<string>)
    ensures |r| >= 1
    ensures forall k | 0 <= k < |r| :: NoTerminator(r[k])
    decreases |s|
  {
    if |s| == 0 then [""]
    else if |s| >= 2 && s[0] == '\r' && s[1] == '\n' then [""] + SplitLines(s[2..])
    else if s[0] == '\r' || s[0] == '\n' then [""] + SplitLines(s[1..])
    else
      var rest := SplitLines(s[1..]);
      [[s[0]] + rest[0]] + rest[1..]
  }

  /** A prefix without terminators becomes the start of the first line. */
  lemma {:induction false} SplitPlainPrefix(a: string, t: string)
    requires NoTerminator(a)
    ensures SplitLines(a + t) == [a + SplitLines(t)[0]] + SplitLines(t)[1..]
    decreases |a|
  {
    if a == [] {
      var r := SplitLines(t);
      assert a + t == t && a + r[0] == r[0];
      assert r == [r[0]] + r[1..];
    } else {
      var s := a + t;
      assert s[0] == a[0] && s[1..] == a[1..] + t;
      SplitPlainPrefix(a[1..], t);
      assert [a[0]] + (a[1..] + SplitLines(t)[0]) == a + SplitLines(t)[0];
    }
  }

  /** Splitting undoes joining with NL, for lines without terminators. */
  lemma {:induction false} SplitJoin(lines: seq<string>)
    requires |lines| >= 1
    requires forall k | 0 <= k < |lines| :: NoTerminator(lines[k])
    ensures SplitLines(Join(NL, lines)) == lines
    decreases |lines|
  {
    if |lines| == 1 {
      SplitPlainPrefix(lines[0], "");
      assert lines[0] + "" == lines[0];
    } else {
      var rest := Join(NL, lines[1..]);
      SplitJoin(lines[1..]);
      var t := NL + rest;
      assert t[0] == '\r' && t[1] == '\n' && t[2..] == rest;
      assert SplitLines(t) == [""] + lines[1..];
      assert Join(NL, lines) == lines[0] + t;
      SplitPlainPrefix(lines[0], t);
      assert lines[0] + "" == lines[0];
      assert [lines[0]] + lines[1..] == lines;
    }
  }

  /** Re-splitting text whose terminators were normalised to NL gives the same lines. */
  lemma SplitNormalises(s: string)
    ensures SplitLines(Join(NL, SplitLines(s))) == SplitLines(s)
  {
    SplitJoin(SplitLines(s));
  }

  /** A terminator-free line followed by "\n" is split off as one whole line. */
  lemma SplitLineFeed(a: string, rest: string)
    requires NoTerminator(a)
    ensures SplitLines(a + "\n" + rest) == [a] + SplitLines(rest)
  {
    var t := "\n" + rest;
    assert t[0] == '\n' && t[1..] == rest;
    assert a + "\n" + rest == a + t;
    SplitPlainPrefix(a, t);
    assert a + "" == a;
  }
}
