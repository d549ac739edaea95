/**
 * The app state store: layout flags and sizes, the selected folder, the
 * opened project ids, the settings, and `openItem`, which decides which
 * page an item id opens. The stored state, the database lookups and the
 * PDF check are inputs.
 */
module AppState {
  import opened Wrappers
  import opened Seqs
  import opened Models
  import opened DialogController

  /** The saved app state, as `getState` builds it. */
  datatype StateRecord = StateRecord(
    ribbonToggledBtnUid: string,
    leftMenuSize: int,
    showLeftMenu: bool,
    showPDFMenuView: bool,
    libraryRightMenuSize: int,
    showLibraryRightMenu: bool,
    selectedFolderId: string,
    currentItemId: string,
    openedProjectIds: seq<string>,
    settings: map<string, string>)

  /** The app state as read back from the database: any field may be missing. */
  datatype Stored = Stored(
    ribbonToggledBtnUid: Option<string>,
    leftMenuSize: Option<int>,
    showLeftMenu: Option<bool>,
    showPDFMenuView: Option<bool>,
    libraryRightMenuSize: Option<int>,
    showLibraryRightMenu: Option<bool>,
    selectedFolderId: Option<string>,
    currentItemId: Option<string>,
    openedProjectIds: Option<seq<string>>,
    settings: Option<map<string, string>>)

  /** The settings a fresh store starts with. */
  const DEFAULT_SETTINGS: map<string, string> := map[
    "theme" := "dark", "fontSize" := "16px",
    "translateLanguage" := "Français (fr)", "citeKeyRule" := "author_title_year"]

  /** `stored || current` for a number: 0 and a missing value are falsy. */
  function OrInt(stored: Option<int>, current: int): (r: int)
    ensures stored.Some? && stored.value != 0 ==> r == stored.value
    ensures stored.None? || stored.value == 0 ==> r == current
  {
    if stored.Some? && stored.value != 0 then stored.value else current
  }

  /** `stored || current` for a flag: only a stored `true` wins. */
  function OrBool(stored: Option<bool>, current: bool): (r: bool)
    ensures r <==> stored == Some(true) || current
  {
    if stored == Some(true) then true else current
  }

  /** `stored || current` for a text: "" and a missing value are falsy. */
  function OrString(stored: Option<string>, current: string): (r: string)
    ensures stored.Some? && stored.value != "" ==> r == stored.value
    ensures stored.None? || stored.value == "" ==> r == current
  {
    if stored.Some? && stored.value != "" then stored.value else current
  }

  /** `Object.assign(settings, stored)`: stored keys override, the others
      keep their value. */
  function MergeSettings(current: map<string, string>, stored: Option<map<string, string>>): (r: map<string, string>)
    ensures r.Keys == current.Keys + (if stored.Some? then stored.value.Keys else {})
    ensures forall k :: k in r ==> r[k] == (if stored.Some? && k in stored.value then stored.value[k] else current[k])
  {
    if stored.Some? then current + stored.value else current
  }

  /** The state after `loadState(stored)`: truthy stored scalars replace
      the current ones, the opened ids become a set, settings merge. */
  function Loaded(current: StateRecord, s: Stored): (r: StateRecord)
    ensures NoDuplicates(r.openedProjectIds)
    ensures forall id :: id in r.openedProjectIds <==> s.openedProjectIds.Some? && id in s.openedProjectIds.value
  {
    StateRecord(
      OrString(s.ribbonToggledBtnUid, current.ribbonToggledBtnUid),
      OrInt(s.leftMenuSize, current.leftMenuSize),
      OrBool(s.showLeftMenu, current.showLeftMenu),
      OrBool(s.showPDFMenuView, current.showPDFMenuView),
      OrInt(s.libraryRightMenuSize, current.libraryRightMenuSize),
      OrBool(s.showLibraryRightMenu, current.showLibraryRightMenu),
      OrString(s.selectedFolderId, current.selectedFolderId),
      OrString(s.currentItemId, current.currentItemId),
      Dedup(if s.openedProjectIds.Some? then s.openedProjectIds.value else []),
      MergeSettings(current.settings, s.settings))
  }

  /** A record written back to the database, with every field present. */
  function AsStored(r: StateRecord): (s: Stored)
    ensures s.openedProjectIds == Some(r.openedProjectIds) && s.settings == Some(r.settings)
  {
    Stored(
      Some(r.ribbonToggledBtnUid), Some(r.leftMenuSize), Some(r.showLeftMenu),
      Some(r.showPDFMenuView), Some(r.libraryRightMenuSize), Some(r.showLibraryRightMenu),
      Some(r.selectedFolderId), Some(r.currentItemId), Some(r.openedProjectIds), Some(r.settings))
  }

  /** Loading the state a store saved gives that store's state back: a
      falsy saved value keeps the (equal) current one. */
  lemma LoadSavedRoundTrip(r: StateRecord)
    requires NoDuplicates(r.openedProjectIds)
    ensures Loaded(r, AsStored(r)) == r
  {
    DedupOfDistinct(r.openedProjectIds);
    assert r.settings + r.settings == r.settings;
  }

  /** A stored state with nothing truthy in it keeps every scalar; the
      opened ids are replaced all the same. */
  lemma LoadFalsyKeeps(current: StateRecord, s: Stored)
    requires s.ribbonToggledBtnUid in {None, Some("")} && s.selectedFolderId in {None, Some("")}
    requires s.currentItemId in {None, Some("")}
    requires s.leftMenuSize in {None, Some(0)} && s.libraryRightMenuSize in {None, Some(0)}
    requires s.showLeftMenu != Some(true) && s.showPDFMenuView != Some(true) && s.showLibraryRightMenu != Some(true)
    requires s.settings.None?
    ensures var r := Loaded(current, s);
      r == current.(openedProjectIds := r.openedProjectIds)
  {
  }

  /** Loading twice is loading once: the result is a fixed point. */
  lemma LoadIdempotent(current: StateRecord, s: Stored)
    ensures Loaded(Loaded(current, s), s) == Loaded(current, s)
  {
    var r := Loaded(current, s);
    DedupOfDistinct(r.openedProjectIds);
    if s.settings.Some? {
      assert current.settings + s.settings.value + s.settings.value == current.settings + s.settings.value;
    }
  }

  /** An item found by id: a project, a note or an annotation. */
  datatype Item = ProjectItem(project: Project) | NoteItem(note: Note) | AnnotationItem(annot: AnnotationData)

  /** What `openItem` does: the project it opens and the page, if any. */
  datatype ItemOpen = ItemOpen(openedProject: Option<string>, page: Option<Page>)

  /** The document behind an item id: a note when the id contains "/", a
      project otherwise, and an annotation when that finds nothing. */
  function FindItem(itemId: string, notes: string -> Option<Note>, projects: string -> Option<Project>,
                    annotations: string -> Option<AnnotationData>): (r: Option<Item>)
    ensures '/' in itemId && notes(itemId).Some? ==> r == Some(NoteItem(notes(itemId).value))
    ensures '/' !in itemId && projects(itemId).Some? ==> r == Some(ProjectItem(projects(itemId).value))
    ensures r.Some? && r.value.AnnotationItem? ==> annotations(itemId) == Some(r.value.annot)
    ensures r.None? ==> annotations(itemId).None?
  {
    if '/' in itemId && notes(itemId).Some? then Some(NoteItem(notes(itemId).value))
    else if '/' !in itemId && projects(itemId).Some? then Some(ProjectItem(projects(itemId).value))
    else if annotations(itemId).Some? then Some(AnnotationItem(annotations(itemId).value))
    else None
  }

  /** `item.projectId || itemId`: a project has no project id of its own. */
  function ProjectToOpen(item: Item, itemId: string): (r: string)
    ensures item.ProjectItem? ==> r == itemId
    ensures item.NoteItem? ==> r == (if item.note.projectId != "" then item.note.projectId else itemId)
    ensures item.AnnotationItem? ==> r == (if item.annot.projectId != "" then item.annot.projectId else itemId)
  {
    match item
    case ProjectItem(_) => itemId
    case NoteItem(n) => if n.projectId != "" then n.projectId else itemId
    case AnnotationItem(a) => if a.projectId != "" then a.projectId else itemId
  }

  /** The outcome of `openItem(itemId)`. */
  function OpenItem(itemId: string, notes: string -> Option<Note>, projects: string -> Option<Project>,
                    annotations: string -> Option<AnnotationData>, hasPdf: string -> bool): (r: ItemOpen)
    ensures itemId == "" ==> r == ItemOpen(None, None)
    ensures r.page.Some? ==> r.openedProject.Some?
    ensures r.openedProject.None? ==> r.page.None?
  {
    if itemId == "" then ItemOpen(None, None)
    else
      var found := FindItem(itemId, notes, projects, annotations);
      if found.None? then ItemOpen(None, None)
      else
        var item := found.value;
        var pid := ProjectToOpen(item, itemId);
        match item
        case ProjectItem(p) =>
          if hasPdf(itemId) then ItemOpen(Some(pid), Some(Page(itemId, ReaderPage, p.name, None, None)))
          else ItemOpen(Some(pid), None)
        case NoteItem(n) =>
          var t := if n.noteType == Markdown then NotePage else ExcalidrawPage;
          ItemOpen(Some(pid), Some(Page(itemId, t, n.name, None, None)))
        case AnnotationItem(a) =>
          var owner := projects(a.projectId);
          if owner.None? then ItemOpen(Some(pid), None)
          else
            ItemOpen(Some(pid), Some(Page(owner.value.id, ReaderPage, owner.value.name, None,
                                          Some(PageData(None, Some(itemId))))))
  }

  /** A project id opens its reader page exactly when it has a PDF, and
      opens the project either way. */
  lemma OpenProjectNeedsPdf(itemId: string, notes: string -> Option<Note>, projects: string -> Option<Project>,
                            annotations: string -> Option<AnnotationData>, hasPdf: string -> bool)
    requires itemId != "" && '/' !in itemId && projects(itemId).Some?
    ensures var r := OpenItem(itemId, notes, projects, annotations, hasPdf);
      r.openedProject == Some(itemId)
      && (r.page.Some? <==> hasPdf(itemId))
      && (r.page.Some? ==> r.page.value == Page(itemId, ReaderPage, projects(itemId).value.name, None, None))
  {
  }

  /** A note id opens a note page or a drawing page by the note's type. */
  lemma OpenNoteByType(itemId: string, notes: string -> Option<Note>, projects: string -> Option<Project>,
                       annotations: string -> Option<AnnotationData>, hasPdf: string -> bool)
    requires '/' in itemId && notes(itemId).Some?
    ensures var r := OpenItem(itemId, notes, projects, annotations, hasPdf);
      var n := notes(itemId).value;
      r.page.Some? && r.page.value.id == itemId && r.page.value.name == n.name
      && (r.page.value.pageType == NotePage <==> n.noteType == Markdown)
      && (r.page.value.pageType == ExcalidrawPage <==> n.noteType == Excalidraw)
  {
    assert itemId != [];
  }

  /** An annotation id opens the reader page of its project, focused on the
      annotation. */
  lemma OpenAnnotationFocuses(itemId: string, notes: string -> Option<Note>, projects: string -> Option<Project>,
                              annotations: string -> Option<AnnotationData>, hasPdf: string -> bool)
    requires itemId != ""
    requires '/' in itemId ==> notes(itemId).None?
    requires '/' !in itemId ==> projects(itemId).None?
    requires annotations(itemId).Some? && projects(annotations(itemId).value.projectId).Some?
    ensures var r := OpenItem(itemId, notes, projects, annotations, hasPdf);
      var owner := projects(annotations(itemId).value.projectId).value;
      r.page == Some(Page(owner.id, ReaderPage, owner.name, None, Some(PageData(None, Some(itemId)))))
  {
  }

  /** An id no lookup finds opens nothing. */
  lemma OpenUnknownItem(itemId: string, notes: string -> Option<Note>, projects: string -> Option<Project>,
                        annotations: string -> Option<AnnotationData>, hasPdf: string -> bool)
    requires '/' in itemId ==> notes(itemId).None?
    requires '/' !in itemId ==> projects(itemId).None?
    requires annotations(itemId).None?
    ensures OpenItem(itemId, notes, projects, annotations, hasPdf) == ItemOpen(None, None)
  {
  }

  class Store {
    var ready: bool
    var ribbonToggledBtnUid: string
    var leftMenuSize: int
    var showLeftMenu: bool
    var showPDFMenuView: bool
    var libraryRightMenuSize: int
    var showLibraryRightMenu: bool
    var showWelcomeCarousel: bool
    var selectedFolderId: string
    /** a set: no id twice */
    var openedProjectIds: seq<string>
    var settings: map<string, string>
    var currentItemId: string

    constructor()
      ensures !ready && ribbonToggledBtnUid == "" && leftMenuSize == 20 && !showLeftMenu
      ensures !showPDFMenuView && libraryRightMenuSize == 30 && !showLibraryRightMenu
      ensures showWelcomeCarousel && selectedFolderId == SF_LIBRARY && openedProjectIds == []
      ensures settings == DEFAULT_SETTINGS && currentItemId == LIBRARY
    {
      ready := false;
      ribbonToggledBtnUid := "";
      leftMenuSize := 20;
      showLeftMenu := false;
      showPDFMenuView := false;
      libraryRightMenuSize := 30;
      showLibraryRightMenu := false;
      showWelcomeCarousel := true;
      selectedFolderId := SF_LIBRARY;
      openedProjectIds := [];
      settings := DEFAULT_SETTINGS;
      currentItemId := LIBRARY;
    }

    /** The saved part of the store, as a record. */
    function State(): StateRecord
      reads this
    {
      StateRecord(ribbonToggledBtnUid, leftMenuSize, showLeftMenu, showPDFMenuView,
                  libraryRightMenuSize, showLibraryRightMenu, selectedFolderId, currentItemId,
                  openedProjectIds, settings)
    }

    /** `loadState()` with the stored state as input. */
    method LoadState(s: Stored)
      modifies this`ribbonToggledBtnUid, this`leftMenuSize, this`showLeftMenu, this`showPDFMenuView,
               this`libraryRightMenuSize, this`showLibraryRightMenu, this`selectedFolderId,
               this`currentItemId, this`openedProjectIds, this`settings
      ensures State() == Loaded(old(State()), s)
    {
      var next := Loaded(State(), s);
      leftMenuSize := next.leftMenuSize;
      showLeftMenu := next.showLeftMenu;
      showPDFMenuView := next.showPDFMenuView;
      libraryRightMenuSize := next.libraryRightMenuSize;
      showLibraryRightMenu := next.showLibraryRightMenu;
      ribbonToggledBtnUid := next.ribbonToggledBtnUid;
      selectedFolderId := next.selectedFolderId;
      currentItemId := next.currentItemId;
      openedProjectIds := next.openedProjectIds;
      settings := next.settings;
    }

    /** `getState()`. */
    method GetState() returns (r: StateRecord)
      ensures r == State()
    {
      r := State();
    }

    /** `saveAppState()`: nothing until ready; otherwise the state with the
      ids of the opened projects (in order, repeats kept). */
    method SaveAppState(openedProjects: seq<Project>) returns (written: Option<StateRecord>)
      ensures !ready ==> written.None?
      ensures ready ==> (
        written.Some?
        && written.value == State().(openedProjectIds := written.value.openedProjectIds)
        && |written.value.openedProjectIds| == |openedProjects|
        && forall i :: 0 <= i < |openedProjects| ==> written.value.openedProjectIds[i] == openedProjects[i].id)
    {
      if !ready {
        return None;
      }
      var state := GetState();
      var ids := seq(|openedProjects|, i requires 0 <= i < |openedProjects| => openedProjects[i].id);
      written := Some(state.(openedProjectIds := ids));
    }

    method ToggleWelcome(visible: Option<bool>)
      modifies this`showWelcomeCarousel
      ensures showWelcomeCarousel == Toggled(old(showWelcomeCarousel), visible)
    {
      showWelcomeCarousel := Toggled(showWelcomeCarousel, visible);
    }

    method ToggleLeftMenu(visible: Option<bool>)
      modifies this`showLeftMenu
      ensures showLeftMenu == Toggled(old(showLeftMenu), visible)
    {
      showLeftMenu := Toggled(showLeftMenu, visible);
    }

    method TogglePDFMenuView(visible: Option<bool>)
      modifies this`showPDFMenuView
      ensures showPDFMenuView == Toggled(old(showPDFMenuView), visible)
    {
      showPDFMenuView := Toggled(showPDFMenuView, visible);
    }
  }
}
