/**
 * The view state of MainForm and the event handlers that drive it.  The
 * list boxes and text boxes are represented by what the handlers read and
 * write: the items, the selected index and the text.  The toolkit's own
 * event rules are part of the model:
 *  - assigning a selected index or a text raises the change event only when
 *    the value actually changes;
 *  - clearing a list box's items resets its selection to -1, whose change
 *    event the handlers ignore.
 */
module Viewer {
  import opened Text
  import opened HeadingParser
  import opened Filters
  import opened BlockExtractor
  import opened Settings
  import opened Catalog

  /** Every heading of hs has a level 1..6 and a non-empty title. */
  predicate AllWellFormed(hs: seq<Heading>) {
    forall k | 0 <= k < |hs| :: WellFormed(hs[k])
  }

  /**
   * The file list and the heading source are consistent: every file holds
   * its parsed headings, the list items are the file names, the selection
   * is -1 or a file, and the heading source is well formed.
   */
  ghost predicate FilesConsistent(files: seq<SnippetFile>, items: seq<string>, fileIndex: int, all: seq<Heading>) {
    && (forall i | 0 <= i < |files| :: Parsed(files[i]))
    && items == FileNames(files)
    && -1 <= fileIndex < |files|
    && AllWellFormed(all)
  }

  /**
   * The heading list shows the headings the search text selects, one item
   * per heading, and its selection is -1 or one of them.
   */
  ghost predicate HeadingListConsistent(all: seq<Heading>, searchText: string, shown: seq<Heading>,
                                        shownItems: seq<string>, headingIndex: int) {
    && shown == FilterHeadings(all, searchText)
    && AllWellFormed(shown)
    && shownItems == HeadingItems(shown)
    && -1 <= headingIndex < |shown|
  }

  /** The heading source is the selected file's heading list, once a file is selected. */
  ghost predicate ShowsFile(files: seq<SnippetFile>, fileIndex: int, all: seq<Heading>) {
    0 <= fileIndex < |files| ==> all == files[fileIndex].headings
  }

  /** A snapshot of every field of the form. */
  datatype FormView = FormView(
    snippetFiles: seq<SnippetFile>,
    fileItems: seq<string>,
    selectedFileIndex: int,
    allHeadings: seq<Heading>,
    filteredHeadings: seq<Heading>,
    headingItems: seq<string>,
    selectedHeadingIndex: int,
    headingSearchText: string,
    contentSearchText: string,
    contentText: string,
    savedSelectedFileName: string,
    savedSelectedHeadingTitle: string,
    layout: Layout)

  class MainForm {
    var snippetFiles: seq<SnippetFile>
    /** fileListBox.Items and fileListBox.SelectedIndex */
    var fileItems: seq<string>
    var selectedFileIndex: int
    /** The headings of the file last selected. */
    var allHeadings: seq<Heading>
    /** The headings shown, headingListBox.Items, headingListBox.SelectedIndex */
    var filteredHeadings: seq<Heading>
    var headingItems: seq<string>
    var selectedHeadingIndex: int
    /** headingSearchBox.Text, contentSearchBox.Text, contentTextBox.Text */
    var headingSearchText: string
    var contentSearchText: string
    var contentText: string
    /** The selection read from the settings, to be restored at startup. */
    var savedSelectedFileName: string
    var savedSelectedHeadingTitle: string
    /** Window size and panel widths. */
    var layout: Layout

    ghost function View(): FormView
      reads this
    {
      FormView(snippetFiles, fileItems, selectedFileIndex, allHeadings, filteredHeadings, headingItems,
               selectedHeadingIndex, headingSearchText, contentSearchText, contentText,
               savedSelectedFileName, savedSelectedHeadingTitle, layout)
    }

    /** The file list and the heading source are consistent. */
    ghost predicate FilesValid()
      reads this
    {
      FilesConsistent(snippetFiles, fileItems, selectedFileIndex, allHeadings)
    }

    ghost predicate ShowsSelectedFile()
      reads this
    {
      ShowsFile(snippetFiles, selectedFileIndex, allHeadings)
    }

    /** Consistent files and a consistent heading list. */
    ghost predicate ListsValid()
      reads this
    {
      && FilesValid()
      && HeadingListConsistent(allHeadings, headingSearchText, filteredHeadings, headingItems, selectedHeadingIndex)
    }

    /**
     * The invariant every handler keeps: consistent lists, showing the
     * headings of the selected file.  Only between the assignment of
     * fileListBox.SelectedIndex and the end of its change handler does the
     * second half not hold.
     */
    ghost predicate Valid()
      reads this
    {
      ListsValid() && ShowsSelectedFile()
    }

    /**
     * The form after construction: the layout and the names to restore come
     * from the stored settings, the files from the entries, and when there
     * is a file the saved selection is restored.
     */
    constructor(entries: seq<FileEntry>, stored: Option<AppSettings>)
      ensures Valid()
      ensures |snippetFiles| == |entries|
      ensures forall i | 0 <= i < |entries| ::
        snippetFiles[i] == SnippetFile(entries[i].filePath, entries[i].fileName, entries[i].content,
                                       ParsedHeadings(entries[i].content))
      ensures layout == LoadSettings(stored).layout
      ensures savedSelectedFileName == LoadSettings(stored).savedFileName
      ensures savedSelectedHeadingTitle == LoadSettings(stored).savedHeadingTitle
      ensures headingSearchText == [] && contentSearchText == []
      ensures entries == [] ==>
        && selectedFileIndex == -1 && selectedHeadingIndex == -1 && contentText == []
        && allHeadings == [] && filteredHeadings == [] && headingItems == []
      ensures entries != [] ==>
        && selectedFileIndex == RestoredFileIndex(FileNames(snippetFiles), savedSelectedFileName)
        && allHeadings == snippetFiles[selectedFileIndex].headings
        && filteredHeadings == allHeadings
        && selectedHeadingIndex == RestoredHeadingIndex(Titles(allHeadings), savedSelectedHeadingTitle)
        && contentText == (if selectedHeadingIndex < 0 then [] else allHeadings[selectedHeadingIndex].content)
    {
      snippetFiles := [];
      fileItems := [];
      selectedFileIndex := -1;
      allHeadings := [];
      filteredHeadings := [];
      headingItems := [];
      selectedHeadingIndex := -1;
      headingSearchText := [];
      contentSearchText := [];
      contentText := [];
      var loaded := LoadSettings(stored);
      layout := loaded.layout;
      savedSelectedFileName := loaded.savedFileName;
      savedSelectedHeadingTitle := loaded.savedHeadingTitle;
      new;
      LoadSnippetFiles(entries);
    }

    /**
     * LoadSnippetFiles, for a form that has no files yet: parse every file,
     * fill the file list, then select the saved file (or the first) and the
     * first shown heading with the saved title.
     */
    method LoadSnippetFiles(entries: seq<FileEntry>)
      requires Valid() && snippetFiles == [] && selectedFileIndex == -1 && selectedHeadingIndex == -1
      requires allHeadings == [] && headingSearchText == [] && contentSearchText == [] && contentText == []
      modifies this
      ensures Valid()
      ensures |snippetFiles| == |entries|
      ensures forall i | 0 <= i < |entries| ::
        snippetFiles[i] == SnippetFile(entries[i].filePath, entries[i].fileName, entries[i].content,
                                       ParsedHeadings(entries[i].content))
      ensures layout == old(layout)
      ensures savedSelectedFileName == old(savedSelectedFileName)
      ensures savedSelectedHeadingTitle == old(savedSelectedHeadingTitle)
      ensures headingSearchText == [] && contentSearchText == []
      ensures entries == [] ==>
        && selectedFileIndex == -1 && selectedHeadingIndex == -1 && contentText == []
        && allHeadings == [] && filteredHeadings == [] && headingItems == []
      ensures entries != [] ==>
        && selectedFileIndex == RestoredFileIndex(FileNames(snippetFiles), savedSelectedFileName)
        && allHeadings == snippetFiles[selectedFileIndex].headings
        && filteredHeadings == allHeadings
        && selectedHeadingIndex == RestoredHeadingIndex(Titles(allHeadings), savedSelectedHeadingTitle)
        && contentText == (if selectedHeadingIndex < 0 then [] else allHeadings[selectedHeadingIndex].content)
    {
      var files := LoadFiles(entries);
      snippetFiles := files;
      // Items.Clear() with nothing selected raises no event.
      fileItems := FileNames(files);
      if |fileItems| > 0 {
        RestoreSelection();
      }
    }

    /**
     * The restore part of LoadSnippetFiles: select the file with the saved
     * name (or the first file), then the first shown heading with the saved
     * title, if there is one.
     */
    method RestoreSelection()
      requires Valid() && |snippetFiles| > 0 && selectedFileIndex == -1 && selectedHeadingIndex == -1
      requires headingSearchText == [] && contentSearchText == [] && contentText == []
      modifies this
      ensures Valid()
      ensures snippetFiles == old(snippetFiles) && fileItems == old(fileItems) && layout == old(layout)
      ensures savedSelectedFileName == old(savedSelectedFileName)
      ensures savedSelectedHeadingTitle == old(savedSelectedHeadingTitle)
      ensures headingSearchText == [] && contentSearchText == []
      ensures selectedFileIndex == RestoredFileIndex(FileNames(snippetFiles), savedSelectedFileName)
      ensures allHeadings == snippetFiles[selectedFileIndex].headings
      ensures filteredHeadings == allHeadings
      ensures selectedHeadingIndex == RestoredHeadingIndex(Titles(allHeadings), savedSelectedHeadingTitle)
      ensures contentText == (if selectedHeadingIndex < 0 then [] else allHeadings[selectedHeadingIndex].content)
    {
      var fileIndex := FindFileIndex(snippetFiles, savedSelectedFileName);
      SetFileIndex(fileIndex);
      if savedSelectedHeadingTitle != [] {
        var headingIndex := FindHeadingIndex(filteredHeadings, savedSelectedHeadingTitle);
        if headingIndex >= 0 {
          SetHeadingIndex(headingIndex);
        }
      }
    }

    /**
     * UpdateHeadingList: recompute the shown headings from the search text
     * and rebuild the list items; clearing the items drops the selection.
     */
    method UpdateHeadingList()
      requires FilesValid() && ShowsSelectedFile()
      modifies this
      ensures Valid()
      ensures View() == old(View()).(
        filteredHeadings := FilterHeadings(old(allHeadings), old(headingSearchText)),
        headingItems := headingItems,
        selectedHeadingIndex := -1)
    {
      var shown := FilterHeadings(allHeadings, headingSearchText);
      forall k | 0 <= k < |shown| ensures WellFormed(shown[k]) {
        assert shown[k] in allHeadings;
      }
      var items := BuildHeadingItems(shown);
      assert HeadingListConsistent(allHeadings, headingSearchText, shown, items, -1);
      filteredHeadings, headingItems, selectedHeadingIndex := shown, items, -1;
    }

    /** Typing into the heading search box (its TextChanged event runs UpdateHeadingList). */
    method SetHeadingSearchText(text: string)
      requires Valid()
      modifies this
      ensures Valid()
      ensures text == old(headingSearchText) ==> View() == old(View())
      ensures text != old(headingSearchText) ==>
        View() == old(View()).(
          headingSearchText := text,
          filteredHeadings := FilterHeadings(old(allHeadings), text),
          headingItems := headingItems,
          selectedHeadingIndex := -1)
    {
      if text != headingSearchText {
        headingSearchText := text;
        UpdateHeadingList();
      }
    }

    /**
     * Assigning fileListBox.SelectedIndex (a click, the pointer resting on
     * an item, or the startup restore).
     */
    method SetFileIndex(index: int)
      requires Valid() && -1 <= index < |snippetFiles|
      modifies this
      ensures Valid()
      ensures index == old(selectedFileIndex) || index < 0 ==>
        View() == old(View()).(selectedFileIndex := index)
      ensures index != old(selectedFileIndex) && index >= 0 ==>
        View() == old(View()).(
          selectedFileIndex := index,
          allHeadings := old(snippetFiles)[index].headings,
          filteredHeadings := old(snippetFiles)[index].headings,
          headingItems := headingItems,
          selectedHeadingIndex := -1,
          headingSearchText := [],
          contentSearchText := [],
          contentText := [])
    {
      if index != selectedFileIndex {
        selectedFileIndex := index;
        FileListBoxSelectedIndexChanged();
      }
    }

    /**
     * FileListBox_SelectedIndexChanged: show the selected file's headings
     * with both searches and the content box cleared.  The list is updated
     * with the old search text first; clearing that text then updates it
     * again with an empty search, so the whole heading list is shown.
     */
    method FileListBoxSelectedIndexChanged()
      requires ListsValid()
      modifies this
      ensures Valid()
      ensures old(selectedFileIndex) < 0 ==> View() == old(View())
      ensures old(selectedFileIndex) >= 0 ==>
        View() == old(View()).(
          allHeadings := old(snippetFiles)[old(selectedFileIndex)].headings,
          filteredHeadings := old(snippetFiles)[old(selectedFileIndex)].headings,
          headingItems := headingItems,
          selectedHeadingIndex := -1,
          headingSearchText := [],
          contentSearchText := [],
          contentText := [])
    {
      if selectedFileIndex < 0 {
        return;
      }
      var selectedFile := snippetFiles[selectedFileIndex];
      assert Parsed(selectedFile);
      allHeadings := selectedFile.headings;
      UpdateHeadingList();
      contentText := [];
      SetHeadingSearchText([]);
      assert View() == old(View()).(
        allHeadings := selectedFile.headings,
        filteredHeadings := selectedFile.headings,
        headingItems := headingItems,
        selectedHeadingIndex := -1,
        headingSearchText := [],
        contentText := []);
      SetContentSearchText([]);
    }

    /** Assigning headingListBox.SelectedIndex (a click, the pointer, or the startup restore). */
    method SetHeadingIndex(index: int)
      requires Valid() && -1 <= index < |filteredHeadings|
      modifies this
      ensures Valid()
      ensures index == old(selectedHeadingIndex) || index < 0 ==>
        View() == old(View()).(selectedHeadingIndex := index)
      ensures index != old(selectedHeadingIndex) && index >= 0 ==>
        View() == old(View()).(
          selectedHeadingIndex := index,
          contentText := old(filteredHeadings)[index].content,
          contentSearchText := [])
    {
      if index != selectedHeadingIndex {
        selectedHeadingIndex := index;
        HeadingListBoxSelectedIndexChanged();
      }
    }

    /** HeadingListBox_SelectedIndexChanged: show the selected heading's body, unsearched. */
    method HeadingListBoxSelectedIndexChanged()
      requires Valid()
      modifies this
      ensures Valid()
      ensures old(selectedHeadingIndex) < 0 ==> View() == old(View())
      ensures old(selectedHeadingIndex) >= 0 ==>
        View() == old(View()).(
          contentText := old(filteredHeadings)[old(selectedHeadingIndex)].content,
          contentSearchText := [])
    {
      if selectedHeadingIndex < 0 {
        return;
      }
      var selectedHeading := filteredHeadings[selectedHeadingIndex];
      contentText := selectedHeading.content;
      SetContentSearchText([]);
    }

    /** Typing into the content search box (its TextChanged event). */
    method SetContentSearchText(text: string)
      requires Valid()
      modifies this
      ensures Valid()
      ensures text == old(contentSearchText) ==> View() == old(View())
      ensures text != old(contentSearchText) ==>
        View() == old(View()).(
          contentSearchText := text,
          contentText :=
            if 0 <= selectedHeadingIndex < |filteredHeadings|
            then ShownContent(filteredHeadings[selectedHeadingIndex].content, text)
            else old(contentText))
    {
      if text != contentSearchText {
        contentSearchText := text;
        ContentSearchBoxTextChanged();
      }
    }

    /**
     * ContentSearchBox_TextChanged: with an empty search the selected
     * heading's body is shown again; otherwise only its matching lines.
     * Without a selected heading the content box keeps its text.
     */
    method ContentSearchBoxTextChanged()
      requires Valid()
      modifies this
      ensures Valid()
      ensures View() == old(View()).(
        contentText :=
          if 0 <= selectedHeadingIndex < |filteredHeadings|
          then ShownContent(filteredHeadings[selectedHeadingIndex].content, contentSearchText)
          else old(contentText))
    {
      var filter := ToLower(contentSearchText);
      if filter == [] {
        if 0 <= selectedHeadingIndex < |filteredHeadings| {
          contentText := filteredHeadings[selectedHeadingIndex].content;
        }
        return;
      }
      if 0 <= selectedHeadingIndex < |filteredHeadings| {
        var content := filteredHeadings[selectedHeadingIndex].content;
        var lines := SplitLines(content);
        var matchedLines := Where(lines, LineFilter(filter));
        contentText := Join(NL, matchedLines);
      }
    }

    /**
     * ContentTextBox_Click: the text to put on the clipboard for a click on
     * line lineIndex of the content box, or None when nothing is copied.
     */
    method ContentTextBoxClick(lineIndex: int) returns (copied: Option<string>)
      ensures copied == CopiedBlock(contentText, lineIndex)
    {
      copied := ExtractBlock(contentText, lineIndex);
    }

    /**
     * SaveSettings: the document written on closing.  A selection index
     * outside its list records "".
     */
    method SaveSettings() returns (settings: AppSettings)
      ensures settings == MakeSettings(layout,
        SelectedName(FileNames(snippetFiles), selectedFileIndex),
        SelectedName(Titles(filteredHeadings), selectedHeadingIndex))
    {
      var selectedFileName := "";
      var selectedHeadingTitle := "";
      if selectedFileIndex >= 0 && selectedFileIndex < |snippetFiles| {
        selectedFileName := snippetFiles[selectedFileIndex].fileName;
      }
      if selectedHeadingIndex >= 0 && selectedHeadingIndex < |filteredHeadings| {
        selectedHeadingTitle := filteredHeadings[selectedHeadingIndex].title;
      }
      settings := AppSettings(layout.windowWidth, layout.windowHeight, layout.leftPanelWidth,
                              layout.centerPanelWidth, Some(selectedFileName), Some(selectedHeadingTitle));
    }
  }

  /**
   * Closing and restarting restores the selection: SaveSettings records the
   * selected file's name and the selected shown heading's title, and at the
   * next start the same file is selected (its name is unique) together with
   * a heading of the same title, found among the file's whole heading list
   * because the search texts start empty.
   */
  lemma SaveThenRestoreSelection(files: seq<SnippetFile>, fileIndex: int, searchText: string, headingIndex: int)
    requires forall i | 0 <= i < |files| :: Parsed(files[i])
    requires forall i, j | 0 <= i < j < |files| :: files[i].fileName != files[j].fileName
    requires forall i | 0 <= i < |files| :: files[i].fileName != []
    requires 0 <= fileIndex < |files|
    requires 0 <= headingIndex < |FilterHeadings(files[fileIndex].headings, searchText)|
    ensures var names := FileNames(files);
      var shown := FilterHeadings(files[fileIndex].headings, searchText);
      var savedName := SelectedName(names, fileIndex);
      var savedTitle := SelectedName(Titles(shown), headingIndex);
      var all := files[RestoredFileIndex(names, savedName)].headings;
      var restored := RestoredHeadingIndex(Titles(all), savedTitle);
      && RestoredFileIndex(names, savedName) == fileIndex
      && 0 <= restored < |all|
      && all[restored].title == shown[headingIndex].title
  {
    var names := FileNames(files);
    RestoreFindsSavedFile(names, fileIndex);
    var all := files[fileIndex].headings;
    var shown := FilterHeadings(all, searchText);
    var h := shown[headingIndex];
    assert h in all;
    var k :| 0 <= k < |all| && all[k] == h;
    ParsedTitlesAreRestorable(files[fileIndex], k);
    assert h.title in Titles(all) by {
      assert Titles(all)[k] == h.title;
    }
    RestoreFindsSavedHeading(Titles(all), h.title);
  }

  /**
   * A restart does not write back the settings it read: when the saved file
   * name belongs to no file, the first file is selected, and closing records
   * that file's name instead of the one that was read.
   */
  lemma UnknownSavedNameIsReplaced(files: seq<SnippetFile>, savedName: string)
    requires |files| > 0
    requires savedName !in FileNames(files)
    ensures var names := FileNames(files);
      SelectedName(names, RestoredFileIndex(names, savedName)) == files[0].fileName != savedName
  {
    var names := FileNames(files);
    UnknownNameRestoresFirstFile(names, savedName);
    assert names[0] in names;
  }

  /**
   * Closing a consistent form and starting again restores what was shown:
   * the document SaveSettings writes for a form with a file and a heading
   * selected loads back as the same layout, a saved name that selects the
   * same file, and a saved title that selects a heading with the shown
   * heading's title in that file's whole heading list.
   */
  lemma RestartRestoresSelection(form: MainForm)
    requires form.Valid()
    requires forall i, j | 0 <= i < j < |form.snippetFiles| :: form.snippetFiles[i].fileName != form.snippetFiles[j].fileName
    requires forall i | 0 <= i < |form.snippetFiles| :: form.snippetFiles[i].fileName != []
    requires 0 <= form.selectedFileIndex && 0 <= form.selectedHeadingIndex
    ensures var names := FileNames(form.snippetFiles);
      var saved := MakeSettings(form.layout,
        SelectedName(names, form.selectedFileIndex),
        SelectedName(Titles(form.filteredHeadings), form.selectedHeadingIndex));
      var loaded := LoadSettings(Some(saved));
      var all := form.allHeadings;
      var restored := RestoredHeadingIndex(Titles(all), loaded.savedHeadingTitle);
      && loaded.layout == form.layout
      && RestoredFileIndex(names, loaded.savedFileName) == form.selectedFileIndex
      && all == form.snippetFiles[form.selectedFileIndex].headings
      && 0 <= restored < |all|
      && all[restored].title == form.filteredHeadings[form.selectedHeadingIndex].title
  {
    var names := FileNames(form.snippetFiles);
    var fileName := SelectedName(names, form.selectedFileIndex);
    var title := SelectedName(Titles(form.filteredHeadings), form.selectedHeadingIndex);
    SaveThenLoad(form.layout, fileName, title);
    SaveThenRestoreSelection(form.snippetFiles, form.selectedFileIndex, form.headingSearchText,
                             form.selectedHeadingIndex);
  }

  /**
   * A saved heading title that no shown heading has is not kept either: no
   * heading is selected at startup, so the next save records "".
   */
  lemma UnknownSavedTitleIsDropped(titles: seq<string>, savedTitle: string)
    requires savedTitle !in titles
    ensures SelectedName(titles, RestoredHeadingIndex(titles, savedTitle)) == ""
  {
  }
}
