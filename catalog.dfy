/**
 * The snippet catalog LoadSnippetFiles builds (one SnippetFile per *.md file,
 * with its parsed headings) and the two searches that restore the selection
 * saved by the previous session.  Directory enumeration and file reading are
 * not modelled: the catalog is built from the (path, name, content) triples
 * they would produce, in enumeration order.
 */
module Catalog {
  import opened Text
  import opened HeadingParser

  /** One *.md file as found on disk: full path, file name, UTF-8 text. */
  datatype FileEntry = FileEntry(filePath: string, fileName: string, content: string)

  /** SnippetFile: a loaded file and its headings. */
  datatype SnippetFile = SnippetFile(filePath: string, fileName: string, content: string, headings: seq<Heading>)

  /** A SnippetFile whose headings are those of its content. */
  predicate Parsed(f: SnippetFile) {
    f.headings == ParsedHeadings(f.content)
  }

  /** The file list LoadSnippetFiles builds from the entries, in order. */
  method LoadFiles(entries: seq<FileEntry>) returns (files: seq<SnippetFile>)
    ensures |files| == |entries|
    ensures forall i | 0 <= i < |files| ::
      files[i] == SnippetFile(entries[i].filePath, entries[i].fileName, entries[i].content,
                              ParsedHeadings(entries[i].content))
    ensures forall i | 0 <= i < |files| :: Parsed(files[i])
  {
    files := [];
    for i := 0 to |entries|
      invariant |files| == i
      invariant forall k | 0 <= k < i ::
        files[k] == SnippetFile(entries[k].filePath, entries[k].fileName, entries[k].content,
                                ParsedHeadings(entries[k].content))
    {
      var entry := entries[i];
      var headings := ParseHeadings(entry.content);
      files := files + [SnippetFile(entry.filePath, entry.fileName, entry.content, headings)];
    }
  }

  /** The file list box items: the file names, in catalog order. */
  function FileNames(files: seq<SnippetFile>): (names: seq<string>)
    ensures |names| == |files|
    ensures forall i | 0 <= i < |files| :: names[i] == files[i].fileName
  {
    seq(|files|, i requires 0 <= i < |files| => files[i].fileName)
  }

  /** The heading titles of a heading list, in order. */
  function Titles(hs: seq<Heading>): (titles: seq<string>)
    ensures |titles| == |hs|
    ensures forall i | 0 <= i < |hs| :: titles[i] == hs[i].title
  {
    seq(|hs|, i requires 0 <= i < |hs| => hs[i].title)
  }

  /** Index of the first occurrence of x in xs, or -1. */
  function FirstIndexOf(xs: seq<string>, x: string): (r: int)
    ensures -1 <= r < |xs|
    ensures r >= 0 ==> xs[r] == x && forall j | 0 <= j < r :: xs[j] != x
    ensures r == -1 ==> forall j | 0 <= j < |xs| :: xs[j] != x
  {
    if xs == [] then -1
    else if xs[0] == x then 0
    else
      var r := FirstIndexOf(xs[1..], x);
      if r < 0 then -1 else r + 1
  }

  /**
   * The file selected at startup: the first file whose name is the saved
   * name, or the first file when the saved name is empty or not found.
   */
  function RestoredFileIndex(names: seq<string>, savedName: string): (r: int)
    requires |names| > 0
    ensures 0 <= r < |names|
    ensures savedName == [] || savedName !in names ==> r == 0
    ensures savedName != [] && savedName in names ==> names[r] == savedName && savedName !in names[..r]
  {
    if savedName == [] then 0
    else
      var k := FirstIndexOf(names, savedName);
      if k < 0 then 0 else k
  }

  /**
   * The heading selected at startup: the first heading whose title is the
   * saved title, or -1 (no selection) when the title is empty or not found.
   */
  function RestoredHeadingIndex(titles: seq<string>, savedTitle: string): (r: int)
    ensures -1 <= r < |titles|
    ensures savedTitle == [] || savedTitle !in titles ==> r == -1
    ensures savedTitle != [] && savedTitle in titles ==> 0 <= r && titles[r] == savedTitle && savedTitle !in titles[..r]
  {
    if savedTitle == [] then -1 else FirstIndexOf(titles, savedTitle)
  }

  /** The first restore loop of LoadSnippetFiles. */
  method FindFileIndex(files: seq<SnippetFile>, savedName: string) returns (fileIndex: int)
    requires |files| > 0
    ensures fileIndex == RestoredFileIndex(FileNames(files), savedName)
  {
    fileIndex := 0;
    if savedName != [] {
      var i := 0;
      while i < |files|
        invariant 0 <= i <= |files|
        invariant forall j | 0 <= j < i :: files[j].fileName != savedName
      {
        if files[i].fileName == savedName {
          fileIndex := i;
          break;
        }
        i := i + 1;
      }
      FirstIndexIs(FileNames(files), savedName, if i < |files| then i else -1);
    }
  }

  /** The second restore loop of LoadSnippetFiles, over the shown headings. */
  method FindHeadingIndex(hs: seq<Heading>, savedTitle: string) returns (headingIndex: int)
    ensures headingIndex == RestoredHeadingIndex(Titles(hs), savedTitle)
  {
    headingIndex := -1;
    if savedTitle != [] {
      var i := 0;
      while i < |hs|
        invariant 0 <= i <= |hs|
        invariant forall j | 0 <= j < i :: hs[j].title != savedTitle
      {
        if hs[i].title == savedTitle {
          headingIndex := i;
          break;
        }
        i := i + 1;
      }
      FirstIndexIs(Titles(hs), savedTitle, headingIndex);
    }
  }

  /** FirstIndexOf is pinned down by its contract. */
  lemma FirstIndexIs(xs: seq<string>, x: string, r: int)
    requires -1 <= r < |xs|
    requires r >= 0 ==> xs[r] == x && forall j | 0 <= j < r :: xs[j] != x
    requires r == -1 ==> forall j | 0 <= j < |xs| :: xs[j] != x
    ensures FirstIndexOf(xs, x) == r
  {
    var q := FirstIndexOf(xs, x);
    if q >= 0 && r >= 0 {
      assert !(q < r) && !(r < q);
    }
  }

  /**
   * Saving a file selection and restoring it finds the same file when the
   * file names are distinct (as the names of one directory are).
   */
  lemma RestoreFindsSavedFile(names: seq<string>, k: int)
    requires 0 <= k < |names|
    requires names[k] != []
    requires forall i, j | 0 <= i < j < |names| :: names[i] != names[j]
    ensures RestoredFileIndex(names, names[k]) == k
  {
    FirstIndexIs(names, names[k], k);
  }

  /**
   * Saving a heading selection and restoring it selects a heading with the
   * saved title, the first one of that title, provided the title is still
   * among the shown titles.
   */
  lemma RestoreFindsSavedHeading(titles: seq<string>, title: string)
    requires title != [] && title in titles
    ensures var r := RestoredHeadingIndex(titles, title);
      0 <= r < |titles| && titles[r] == title && title !in titles[..r]
  {
  }

  /** Restoring with a saved name no file has falls back to the first file. */
  lemma UnknownNameRestoresFirstFile(names: seq<string>, savedName: string)
    requires |names| > 0 && savedName !in names
    ensures RestoredFileIndex(names, savedName) == 0
  {
  }

  /** Parsed headings always have a non-empty title, so a saved selection can be restored. */
  lemma ParsedTitlesAreRestorable(f: SnippetFile, k: int)
    requires Parsed(f) && 0 <= k < |f.headings|
    ensures f.headings[k].title != []
    ensures RestoredHeadingIndex(Titles(f.headings), f.headings[k].title) >= 0
  {
    assert f.headings[k].title in Titles(f.headings);
  }
}
