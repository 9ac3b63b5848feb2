# SnippetViewer, modelled in Dafny

SnippetViewer is a small WinForms browser for a folder of markdown snippet
files. Its window has three columns:

- the file list;
- the heading outline of the selected file, with a search box above it;
- the body of the selected heading, with a second search box.

Clicking a line of the body copies that line and the non-blank lines below it
to the clipboard.

This project models the text logic of `MainForm` and the view state it drives:

- `text.dfy` (module `Text`) holds the .NET string operations the form relies on:
  - `Split` on `"\r\n"`, `"\r"` and `"\n"`, with `"\r\n"` tried first;
  - `string.Join`, `Trim` and `IsNullOrWhiteSpace`, using the exact `Char.IsWhiteSpace` set;
  - ASCII `ToLower` and ordinal `Contains`;
  - `Environment.NewLine`, fixed as `NL = "\r\n"`, the Windows value.
- `heading_parser.dfy` (module `HeadingParser`) holds `ParseHeadings`:
  - the pattern `^(#{1,6})\s+(.+)$` is written out as a function, `MatchHeading`, including the backtracking case;
  - a lemma proves that `MatchHeading` is the pattern, read declaratively;
  - the imperative parser is proved equal to the specification function `ParsedHeadings`.
- `filters.dfy` (module `Filters`) holds:
  - the heading filter of `UpdateHeadingList`;
  - `GetIndent` and the list items;
  - the content-line filter of `ContentSearchBox_TextChanged`.
- `block_extractor.dfy` (module `BlockExtractor`) holds the block copied by `ContentTextBox_Click`.
- `settings.dfy` (module `Settings`) holds `AppSettings`, its defaults, and what `LoadSettings` and `SaveSettings` read and write.
- `catalog.dfy` (module `Catalog`) holds the `SnippetFile` records and the two restore loops of `LoadSnippetFiles`.
- `main_form.dfy` (module `Viewer`) holds the class `MainForm`:
  - its fields are the lists, selections and texts the handlers use;
  - its methods are the handlers;
  - the toolkit's event rules are explicit. Assigning a selected index or a text raises the change event only when the value changes. Clearing a list box's items drops its selection to -1;
  - the invariant `Valid` every handler keeps says that the lists are consistent and that, once a file is selected, the heading source is that file's heading list.

Behaviour of the code that is easy to misread:

- **Blank search terms.** Both filters treat only the EMPTY search text as "no filter", because the code tests `IsNullOrEmpty` (SnippetViewer/SnippetViewer.cs:460 and :488). A search text of spaces is a real filter.
- **Title after backtracking.** A line of one to six `#` followed only by two or more white-space characters is a heading. The pattern's `.+` takes back the last white-space character, so the title is that character. `MatchHeadingIsPattern` states the cut the pattern makes.
- **Block line ending.** The copied block is joined with `Environment.NewLine` (`"\r\n"`), not `"\n"`.
- **Settings round trip.** Restarting writes back the selection that was restored, not the names that were read, so two saved names can be lost:
  - a saved file name that no file has is replaced, on the next save, by the first file's name (`Viewer.UnknownSavedNameIsReplaced`);
  - a saved heading title that no shown heading has restores no heading, so the next save records `""` (`Viewer.UnknownSavedTitleIsDropped`).

  A null name in the document loads as `""` and is saved again as `""`, so the values the form restores do not change; only the document's text differs (`Settings.NullNamesAreNotPreserved`).

## Model

| member | source | states |
|---|---|---|
| Text.TrimProperties | SnippetViewer/SnippetViewer.cs:378 | `Trim` removes white space at the two ends and nothing else: the result is a slice of the input whose prefix before it and suffix after it are blank; it is "" exactly for an all-white-space string |
| Text.Trim | SnippetViewer/SnippetViewer.cs:378 | the trimmed text is no longer than its input and neither starts nor ends with white space (`TrimProperties` adds that it is the input minus blank ends) |
| Text.Join | SnippetViewer/SnippetViewer.cs:371-372 | a join of at least one part starts with the first part (`SplitJoin` gives its inverse) |
| Text.SplitLines | SnippetViewer/SnippetViewer.cs:348 | splitting yields at least one line, and no line contains "\r" or "\n" (`SplitJoin` gives its inverse) |
| Text.SplitJoin | SnippetViewer/SnippetViewer.cs:348 | splitting on the three terminators undoes joining terminator-free lines with NL |
| Text.SplitNormalises | SnippetViewer/SnippetViewer.cs:348 | re-splitting text whose lines were joined with NL gives the same lines |
| HeadingParser.MatchHeadingIsPattern | SnippetViewer/SnippetViewer.cs:349-357 | a line matches `^(#{1,6})\s+(.+)$` iff it can be cut into 1-6 `#`, white space, and at least one more character; the level is the number of leading `#`, and the title is the suffix a backtracking matcher leaves (the latest possible start) |
| HeadingParser.MatchHeading | SnippetViewer/SnippetViewer.cs:349-357 | a successful match has a level 1..6 and a non-empty title no longer than the line (`MatchHeadingIsPattern` pins down which cut) |
| HeadingParser.NextHeading | SnippetViewer/SnippetViewer.cs:360-369 | the end of a heading's span is the first heading line after it, or the end of the lines; no line before it is a heading line |
| HeadingParser.MakeHeading | SnippetViewer/SnippetViewer.cs:356-379 | a heading built from a matching line has level 1..6, a non-empty title and that line's index |
| HeadingParser.ParseHeadings | SnippetViewer/SnippetViewer.cs:345-385 | the nested loops return exactly `ParsedHeadings(content)` |
| HeadingParser.ParsedHeadings | SnippetViewer/SnippetViewer.cs:345-385 | every parsed heading is well formed (level 1..6, non-empty title) and names a line of the text |
| HeadingParser.HeadingsUpTo | SnippetViewer/SnippetViewer.cs:351-381 | every heading found in the first n lines is well formed (`HeadingsUpToStructure` gives the rest) |
| HeadingParser.HeadingsUpToStructure | SnippetViewer/SnippetViewer.cs:351-381 | the headings of the first n lines are one per matching line, built from that line, in strictly increasing line order, covering every matching line |
| HeadingParser.ParsedHeadingsAreHeadingLines | SnippetViewer/SnippetViewer.cs:351-381 | every parsed heading sits on a matching line, has that line's number of leading `#` (1..6) as its level and the matched title; line numbers strictly increase; every matching line has a heading |
| HeadingParser.HeadingContentSpan | SnippetViewer/SnippetViewer.cs:360-378 | a heading's content is the trimmed NL-join of the lines after it up to the next heading's line, or to the end; none of those lines is a heading line |
| HeadingParser.AdjacentHeadingHasEmptyContent | SnippetViewer/SnippetViewer.cs:360-378 | a heading line directly followed by another heading line gets content "" |
| HeadingParser.NoHeadingLineNoHeadings | SnippetViewer/SnippetViewer.cs:347-384 | text with no matching line yields no headings |
| HeadingParser.ParseExample | SnippetViewer/SnippetViewer.cs:345-385 | `"# A\ntext\n## B\nmore\n"` parses to (1, "A", "text", 0) and (2, "B", "more", 2) |
| Filters.Where | SnippetViewer/SnippetViewer.cs:462 | `Where` keeps exactly the elements satisfying the predicate and never more than the input |
| Filters.WhereAppend | SnippetViewer/SnippetViewer.cs:462 | `Where` distributes over concatenation, so it keeps relative order |
| Filters.WhereIdempotent | SnippetViewer/SnippetViewer.cs:462 | filtering twice with the same predicate equals filtering once |
| Filters.FilterHeadings | SnippetViewer/SnippetViewer.cs:459-462 | an empty search text leaves the list unchanged; otherwise a heading is kept iff its lowercased title contains the lowercased search text |
| Filters.FilterHeadingsKeepsOrder | SnippetViewer/SnippetViewer.cs:459-462 | the heading filter distributes over concatenation, so shown headings keep their file order |
| Filters.FilterHeadingsIdempotent | SnippetViewer/SnippetViewer.cs:459-462 | applying the same heading search to its own result changes nothing |
| Filters.FilterHeadingsIgnoresCase | SnippetViewer/SnippetViewer.cs:459-462 | a search text and its lowercase form show the same headings |
| Filters.HeadingFoundByOwnTitle | SnippetViewer/SnippetViewer.cs:459-462 | typing a heading's own title keeps that heading in the list |
| Filters.FilterHeadingsNarrows | SnippetViewer/SnippetViewer.cs:459-462 | extending the search text only removes headings from the list |
| Filters.FilterHeadingsExample | SnippetViewer/SnippetViewer.cs:459-462 | searching "WORLD" keeps "Hello World" and drops "Other" |
| Filters.GetIndent | SnippetViewer/SnippetViewer.cs:387-391 | the indent of level n is n-1 ideographic spaces (U+3000) |
| Filters.HeadingItems | SnippetViewer/SnippetViewer.cs:464-468 | there is one list item per shown heading, and item k is the indent of heading k's level followed by its title |
| Filters.BuildHeadingItems | SnippetViewer/SnippetViewer.cs:464-468 | the item loop builds exactly `HeadingItems` |
| Filters.ItemShowsLevelAndTitle | SnippetViewer/SnippetViewer.cs:467 | a list item reads back as its heading: level-1 leading ideographic spaces, then the title (for a title not starting with U+3000) |
| Filters.ShownContent | SnippetViewer/SnippetViewer.cs:487-505 | an empty content search text shows the heading's body unchanged |
| Filters.MatchingLines | SnippetViewer/SnippetViewer.cs:502-503 | the kept lines are exactly the lines of the body whose lowercase form contains the lowercased search text, never more than the body has |
| Filters.ShownContentIsMatchingLines | SnippetViewer/SnippetViewer.cs:499-504 | with a search text, the shown text is "" iff no line matches; otherwise it splits back into exactly the lines whose lowercase form contains the lowercased search text, in order |
| Filters.ShownContentIdempotent | SnippetViewer/SnippetViewer.cs:499-504 | searching the shown text again with the same text shows the same text |
| BlockExtractor.ExtractBlock | SnippetViewer/SnippetViewer.cs:510-540 | the copy loop returns exactly `CopiedBlock(text, lineIndex)` |
| BlockExtractor.BlockIsMaximalRun | SnippetViewer/SnippetViewer.cs:526-537 | the block from line i is a slice of the lines starting at i, all non-blank, ended by a blank line or the end |
| BlockExtractor.Block | SnippetViewer/SnippetViewer.cs:526-537 | the block from line i fits within the lines and holds no blank line (`BlockIsMaximalRun` adds that it is the maximal such run) |
| BlockExtractor.CopiedBlock | SnippetViewer/SnippetViewer.cs:510-539 | whatever is copied is never blank (`CopiedBlockProperties` states when and what) |
| BlockExtractor.BlockUnique | SnippetViewer/SnippetViewer.cs:526-537 | any maximal run of non-blank lines from i is the block, so the block is determined by that description |
| BlockExtractor.BlockLooksForwardOnly | SnippetViewer/SnippetViewer.cs:530 | the lines above the clicked line never affect the block |
| BlockExtractor.CopiedBlockProperties | SnippetViewer/SnippetViewer.cs:510-539 | nothing is copied iff the text is empty, the index is outside the lines, or the clicked line is blank; otherwise the copy starts with the clicked line and splits back into the maximal non-blank run from it |
| BlockExtractor.BlockExample | SnippetViewer/SnippetViewer.cs:526-539 | in "line1", "line2", "", "line4", the blocks from lines 0, 1 and 3 are ["line1","line2"], ["line2"] and ["line4"] |
| Settings.OrEmpty | SnippetViewer/SnippetViewer.cs:236-237 | a null name becomes "", any other name is kept |
| Settings.LoadSettings | SnippetViewer/SnippetViewer.cs:220-244 | with no stored document the initial layout stays and nothing is to be restored; otherwise the stored sizes are taken and null names become "" |
| Settings.DefaultsMatchInitialLayout | SnippetViewer/SnippetViewer.cs:551-559 | loading the default document gives the same state as loading none |
| Settings.SelectedName | SnippetViewer/SnippetViewer.cs:254-261 | a selection index inside the list records that element's name; any other index records "" |
| Settings.MakeSettings | SnippetViewer/SnippetViewer.cs:263-271 | the saved document never holds a null name |
| Settings.SaveThenLoad | SnippetViewer/SnippetViewer.cs:263-271 | reading back a saved document gives the saved layout and names |
| Settings.NullNamesAreNotPreserved | SnippetViewer/SnippetViewer.cs:236-237 | a document with a null file name is not reproduced by loading and saving it |
| Catalog.LoadFiles | SnippetViewer/SnippetViewer.cs:295-305 | one file record per entry, in order, with the entry's path, name and content, and the headings parsed from that content |
| Catalog.FileNames | SnippetViewer/SnippetViewer.cs:307-311 | the file list shows one item per file: its name, in catalog order |
| Catalog.FirstIndexOf | SnippetViewer/SnippetViewer.cs:319-326 | the result is the index of the first occurrence, or -1 when there is none |
| Catalog.RestoredFileIndex | SnippetViewer/SnippetViewer.cs:315-328 | the restored file is the first file with the saved name when that name is non-empty and present; otherwise it is the first file |
| Catalog.RestoredHeadingIndex | SnippetViewer/SnippetViewer.cs:331-341 | the restored heading is the first heading with the saved title when that title is non-empty and present; otherwise no heading is selected (-1) |
| Catalog.FindFileIndex | SnippetViewer/SnippetViewer.cs:315-328 | the first restore loop picks the first file with the saved name, or 0 when the name is empty or absent |
| Catalog.FindHeadingIndex | SnippetViewer/SnippetViewer.cs:331-341 | the second restore loop finds the first shown heading with the saved title, or -1 when the title is empty or absent |
| Catalog.RestoreFindsSavedFile | SnippetViewer/SnippetViewer.cs:315-328 | with distinct names, restoring a file's own name selects that file |
| Catalog.RestoreFindsSavedHeading | SnippetViewer/SnippetViewer.cs:331-341 | a non-empty title present in the list restores its first occurrence |
| Catalog.UnknownNameRestoresFirstFile | SnippetViewer/SnippetViewer.cs:315-328 | a saved name that no file has selects the first file |
| Catalog.ParsedTitlesAreRestorable | SnippetViewer/SnippetViewer.cs:331-341 | a parsed heading's title is non-empty, so saving it and restoring it finds a heading |
| Viewer.MainForm.constructor | SnippetViewer/SnippetViewer.cs:40-47 | after construction the view is consistent; the layout and the names to restore come from the settings; the files come from the entries; with no files nothing is selected and the heading list and body are empty, otherwise the saved selection is restored as in `LoadSnippetFiles` |
| Viewer.MainForm.LoadSnippetFiles | SnippetViewer/SnippetViewer.cs:283-343 | with no files nothing is selected and the heading list and body stay empty; otherwise the file `RestoredFileIndex` picks is selected, its whole heading list is shown, and the heading `RestoredHeadingIndex` picks is selected with its body shown |
| Viewer.MainForm.RestoreSelection | SnippetViewer/SnippetViewer.cs:313-342 | the file `RestoredFileIndex` picks is selected and its whole heading list shown; then the heading `RestoredHeadingIndex` picks among the shown headings is selected with its body shown, or none when the saved title is empty or absent |
| Viewer.MainForm.UpdateHeadingList | SnippetViewer/SnippetViewer.cs:457-469 | the shown headings become `FilterHeadings(allHeadings, search text)` with one item each, the heading selection drops to -1, and nothing else changes |
| Viewer.MainForm.SetHeadingSearchText | SnippetViewer/SnippetViewer.cs:471-474 | a changed heading search text re-filters the list from all headings and drops the selection; the body text is left as it was; an unchanged text changes nothing |
| Viewer.MainForm.SetFileIndex | SnippetViewer/SnippetViewer.cs:393-403 | selecting a different file shows its whole heading list, with no heading selected and both search texts and the body cleared; re-selecting the same file, or selecting -1, changes only the index |
| Viewer.MainForm.FileListBoxSelectedIndexChanged | SnippetViewer/SnippetViewer.cs:393-403 | a negative index changes nothing; otherwise, although the list is first filtered with the old search text, clearing that text leaves the file's whole heading list shown |
| Viewer.MainForm.SetHeadingIndex | SnippetViewer/SnippetViewer.cs:476-483 | selecting a different heading shows its body and clears the content search; nothing else changes |
| Viewer.MainForm.HeadingListBoxSelectedIndexChanged | SnippetViewer/SnippetViewer.cs:476-483 | a negative index changes nothing; otherwise the body becomes the selected heading's content and the content search is cleared |
| Viewer.MainForm.SetContentSearchText | SnippetViewer/SnippetViewer.cs:485-506 | a changed content search text shows `ShownContent` of the selected heading, or leaves the body unchanged when no heading is selected |
| Viewer.MainForm.ContentSearchBoxTextChanged | SnippetViewer/SnippetViewer.cs:485-506 | the body becomes `ShownContent` of the selected heading's content when the index is in range; otherwise it is left unchanged |
| Viewer.MainForm.ContentTextBoxClick | SnippetViewer/SnippetViewer.cs:508-548 | a click on a line of the body yields `CopiedBlock` of the shown text |
| Viewer.MainForm.SaveSettings | SnippetViewer/SnippetViewer.cs:246-271 | the saved document holds the layout, the selected file's name and the selected shown heading's title, with "" for an index out of range |
| Viewer.SaveThenRestoreSelection | SnippetViewer/SnippetViewer.cs:313-341 | with distinct non-empty file names, a restart after saving selects the same file and a heading with the same title as the one shown selected, even if the list was filtered |
| Viewer.UnknownSavedNameIsReplaced | SnippetViewer/SnippetViewer.cs:315-328 | a saved file name that no file has is replaced, on the next save, by the first file's name |
| Viewer.UnknownSavedTitleIsDropped | SnippetViewer/SnippetViewer.cs:331-341 | a saved heading title that no shown heading has is recorded as "" on the next save |
| Viewer.RestartRestoresSelection | SnippetViewer/SnippetViewer.cs:246-271 | for a consistent form with a file and a heading selected and distinct non-empty file names, the document `SaveSettings` writes loads back to the same layout, a name that restores the same file, and a title that restores a heading with the selected heading's title from that file's whole heading list |

## Left out

- Layout and construction of the controls (`InitializeComponents`, splitters, fonts), `PositionWindowAtCursor`, and the `Shown` activation. Only the initial window and panel sizes are kept, as `Settings.InitialLayout`.
- Exit on deactivation or on Escape, and the single-instance mutex in `Program.Main`: these are window-manager and process policy.
- Hit-testing for hover selection (`FileListBox_MouseMove`, `HeadingListBox_MouseMove`). Its effect is an index assignment, which `SetFileIndex` and `SetHeadingIndex` model for the index under the pointer.
- Opening the file or its folder on double-click (`FileListBox_DoubleClick`): this launches a process.
- The clipboard write in `ContentTextBox_Click`. `ContentTextBoxClick` returns the text that would be copied. The character-offset-to-line mapping `GetLineFromCharIndex` is a toolkit call, so its result `lineIndex` is an input.
- JSON serialisation and the settings file:
  - a missing or unreadable file is modelled as `None`;
  - a partial load interrupted by an exception is not modelled;
  - the toolkit's adjustment of an assigned window size is not modelled.
- Directory scanning and file reading in `LoadSnippetFiles`, including creating a missing `snippets` folder. The catalog is given as a sequence of entries, and a missing folder is the empty sequence.
- Text.ToLower: lowercases ASCII letters only; culture-specific case mappings of other letters are not modelled.
- Filters.GetIndent: requires a level of at least 1. The source would throw for a smaller level, and parsed headings never have one.

