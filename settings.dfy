/**
 * AppSettings, the persisted window layout and last selection, and the two
 * points where MainForm touches it: LoadSettings copies a stored document
 * into the form, SaveSettings builds one from the form.  The JSON text and
 * the settings file are not modelled; a stored document is a value, and a
 * missing or unreadable file is the absence of one.
 */
module Settings {
  import opened Text

  /**
   * The settings document.  The two names are nullable in the document
   * (JSON null); None stands for null.
   */
  datatype AppSettings = AppSettings(
    windowWidth: int,
    windowHeight: int,
    leftPanelWidth: int,
    centerPanelWidth: int,
    selectedFileName: Option<string>,
    selectedHeadingTitle: Option<string>)

  /** The property initialisers of AppSettings. */
  const DefaultSettings: AppSettings := AppSettings(1200, 700, 200, 350, Some(""), Some(""))

  /** The window size and the widths of the two left panels. */
  datatype Layout = Layout(windowWidth: int, windowHeight: int, leftPanelWidth: int, centerPanelWidth: int)

  /** The layout InitializeComponents gives the form before any settings are read. */
  const InitialLayout: Layout := Layout(1200, 700, 200, 350)

  /** The `??` operator on a nullable string with "" as the fallback. */
  function OrEmpty(s: Option<string>): (r: string)
    ensures s.Some? ==> r == s.value
    ensures s.None? ==> r == ""
  {
    if s.Some? then s.value else ""
  }

  /** What LoadSettings leaves in the form: the layout and the two names to restore. */
  datatype Loaded = Loaded(layout: Layout, savedFileName: string, savedHeadingTitle: string)

  /**
   * LoadSettings: without a stored document the initial layout stays and
   * nothing is to be restored; with one, its sizes are taken and its null
   * names become "".
   */
  function LoadSettings(stored: Option<AppSettings>): (r: Loaded)
    ensures stored.None? ==> r == Loaded(InitialLayout, "", "")
    ensures stored.Some? ==>
      && r.layout == Layout(stored.value.windowWidth, stored.value.windowHeight,
                            stored.value.leftPanelWidth, stored.value.centerPanelWidth)
      && r.savedFileName == OrEmpty(stored.value.selectedFileName)
      && r.savedHeadingTitle == OrEmpty(stored.value.selectedHeadingTitle)
  {
    match stored
    case None => Loaded(InitialLayout, "", "")
    case Some(s) =>
      Loaded(Layout(s.windowWidth, s.windowHeight, s.leftPanelWidth, s.centerPanelWidth),
             OrEmpty(s.selectedFileName), OrEmpty(s.selectedHeadingTitle))
  }

  /** The stored defaults and the initial layout of the form agree. */
  lemma DefaultsMatchInitialLayout()
    ensures LoadSettings(Some(DefaultSettings)) == LoadSettings(None)
  {
  }

  /**
   * The name SaveSettings records for a list selection: the selected
   * element's name when the index is inside the list, "" otherwise.
   */
  function SelectedName(names: seq<string>, index: int): (r: string)
    ensures 0 <= index < |names| ==> r == names[index]
    ensures !(0 <= index < |names|) ==> r == ""
  {
    if 0 <= index < |names| then names[index] else ""
  }

  /** The document SaveSettings writes for a layout and the two selected names. */
  function MakeSettings(layout: Layout, fileName: string, headingTitle: string): (s: AppSettings)
    ensures s.selectedFileName.Some? && s.selectedHeadingTitle.Some?
  {
    AppSettings(layout.windowWidth, layout.windowHeight, layout.leftPanelWidth, layout.centerPanelWidth,
                Some(fileName), Some(headingTitle))
  }

  /** Reading back what SaveSettings wrote gives the same layout and names. */
  lemma SaveThenLoad(layout: Layout, fileName: string, headingTitle: string)
    ensures LoadSettings(Some(MakeSettings(layout, fileName, headingTitle)))
         == Loaded(layout, fileName, headingTitle)
  {
  }

  /**
   * A stored document whose name fields are null does not survive a load
   * followed by a save unchanged: the names come back as "", not null.
   */
  lemma NullNamesAreNotPreserved(s: AppSettings)
    requires s.selectedFileName.None?
    ensures var loaded := LoadSettings(Some(s));
      MakeSettings(loaded.layout, loaded.savedFileName, loaded.savedHeadingTitle) != s
  {
  }
}
