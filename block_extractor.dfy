/**
 * The copy-on-click logic of MainForm.ContentTextBox_Click: the clicked line
 * and the non-blank lines directly below it, up to the first blank line or
 * the end of the text, joined with NL.  Where the click lands (the toolkit's
 * character-to-line mapping) is the input lineIndex; the clipboard write is
 * the caller's business, so the block is returned instead.
 */
module BlockExtractor {
  import opened Text

  /** The run of non-blank lines starting at index i. */
  function Block(lines: seq<string>, i: nat): (b: seq<string>)
    requires i <= |lines|
    ensures i + |b| <= |lines|
    ensures forall k | 0 <= k < |b| :: !IsBlank(b[k])
    decreases |lines| - i
  {
    if i == |lines| || IsBlank(lines[i]) then [] else [lines[i]] + Block(lines, i + 1)
  }

  /**
   * The text copied for a click on line lineIndex of text, or None when
   * nothing is copied: the text is empty, the index is outside the lines,
   * or the clicked line is blank.
   */
  function CopiedBlock(text: string, lineIndex: int): (r: Option<string>)
    ensures r.Some? ==> !IsBlank(r.value)
  {
    if text == [] then None
    else
      var lines := SplitLines(text);
      if !(0 <= lineIndex < |lines|) || IsBlank(lines[lineIndex]) then None
      else Some(Join(NL, Block(lines, lineIndex)))
  }

  /** ContentTextBox_Click, block part: collect lines until a blank one, then join. */
  method ExtractBlock(text: string, lineIndex: int) returns (copied: Option<string>)
    ensures copied == CopiedBlock(text, lineIndex)
  {
    if text == [] {
      return None;
    }
    var lines := SplitLines(text);
    if !(0 <= lineIndex < |lines|) {
      return None;
    }
    var line := lines[lineIndex];
    if IsBlank(line) {
      return None;
    }
    var linesToCopy := [line];
    var i := lineIndex + 1;
    while i < |lines|
      invariant lineIndex < i <= |lines|
      invariant linesToCopy + Block(lines, i) == Block(lines, lineIndex)
    {
      if IsBlank(lines[i]) {
        break;
      }
      linesToCopy := linesToCopy + [lines[i]];
      i := i + 1;
    }
    assert Block(lines, i) == [];
    assert linesToCopy == Block(lines, lineIndex);
    copied := Some(Join(NL, linesToCopy));
  }

  /**
   * Block(lines, i) is the maximal run of non-blank lines starting at i: a
   * slice of lines, every line of it non-blank, followed by the end of the
   * lines or by a blank line.
   */
  lemma {:induction false} BlockIsMaximalRun(lines: seq<string>, i: nat)
    requires i <= |lines|
    ensures var b := Block(lines, i);
      && i + |b| <= |lines|
      && b == lines[i..i + |b|]
      && (forall k | 0 <= k < |b| :: !IsBlank(b[k]))
      && (i + |b| == |lines| || IsBlank(lines[i + |b|]))
    decreases |lines| - i
  {
    if i < |lines| && !IsBlank(lines[i]) {
      BlockIsMaximalRun(lines, i + 1);
      var b := Block(lines, i + 1);
      assert lines[i..i + 1 + |b|] == [lines[i]] + lines[i + 1..i + 1 + |b|];
    }
  }

  /** The block depends only on the clicked line and the lines below it. */
  lemma BlockLooksForwardOnly(before: seq<string>, after: seq<string>)
    ensures Block(before + after, |before|) == Block(after, 0)
  {
    var lines := before + after;
    BlockIsMaximalRun(after, 0);
    var b := Block(after, 0);
    assert lines[|before|..|before| + |b|] == after[..|b|];
    if |b| < |after| {
      assert lines[|before| + |b|] == after[|b|];
    }
    BlockUnique(lines, |before|, b);
  }

  /** A maximal run of non-blank lines starting at i is Block(lines, i). */
  lemma {:induction false} BlockUnique(lines: seq<string>, i: nat, b: seq<string>)
    requires i + |b| <= |lines| && b == lines[i..i + |b|]
    requires forall k | 0 <= k < |b| :: !IsBlank(b[k])
    requires i + |b| == |lines| || IsBlank(lines[i + |b|])
    ensures Block(lines, i) == b
    decreases |b|
  {
    if b != [] {
      assert b[0] == lines[i];
      assert b[1..] == lines[i + 1..i + 1 + |b[1..]|];
      BlockUnique(lines, i + 1, b[1..]);
      assert b == [b[0]] + b[1..];
    }
  }

  /**
   * What is copied: nothing exactly when the text is empty, the index is out
   * of range or the clicked line is blank; otherwise a text that starts with
   * the clicked line and splits back into the maximal run of non-blank lines
   * from the clicked line on.
   */
  lemma CopiedBlockProperties(text: string, lineIndex: int)
    ensures var lines := SplitLines(text);
      && (CopiedBlock(text, lineIndex).None? <==>
            text == [] || !(0 <= lineIndex < |lines|) || IsBlank(lines[lineIndex]))
      && (CopiedBlock(text, lineIndex).Some? ==>
            var copied := CopiedBlock(text, lineIndex).value;
            var b := Block(lines, lineIndex);
            && |b| >= 1 && b[0] == lines[lineIndex] && lineIndex + |b| <= |lines|
            && lines[lineIndex] == copied[..|lines[lineIndex]|]
            && SplitLines(copied) == b
            && b == lines[lineIndex..lineIndex + |b|]
            && (forall k | 0 <= k < |b| :: !IsBlank(b[k]))
            && (lineIndex + |b| == |lines| || IsBlank(lines[lineIndex + |b|])))
  {
    var lines := SplitLines(text);
    if CopiedBlock(text, lineIndex).Some? {
      var b := Block(lines, lineIndex);
      BlockIsMaximalRun(lines, lineIndex);
      forall k | 0 <= k < |b| ensures NoTerminator(b[k]) {
        assert b[k] == lines[lineIndex + k];
      }
      SplitJoin(b);
    }
  }

  /** In "line1", "line2", "", "line4" a click on either of the first two lines copies the rest of their run. */
  lemma BlockExample(lines: seq<string>)
    requires lines == ["line1", "line2", "", "line4"]
    ensures Block(lines, 0) == ["line1", "line2"]
    ensures Block(lines, 1) == ["line2"]
    ensures Block(lines, 3) == ["line4"]
  {
    LettersAreNotWhiteSpace('l');
    assert lines[0][0] == 'l' && lines[1][0] == 'l' && lines[3][0] == 'l';
    assert IsBlank(lines[2]);
    assert Block(lines, 2) == [] && Block(lines, 4) == [];
  }
}
