/**
 * The records the backend and the stores pass around: projects with their
 * bibliographic meta, notes, the folder/note tree of a project, annotations,
 * the window layout tree and plugin status. Only the fields some modelled
 * operation reads or writes are kept. The source's `label` field is called
 * `name` here, since `label` is a Dafny keyword.
 */
module Models {
  import opened Wrappers

  /** An author as citation data stores it; a literal name stands in for
      family and given names. */
  datatype Author = Author(family: Option<string>, given: Option<string>, literal: Option<string>)

  /** `original-title` is either absent, a text, or (in imported data) an array. */
  datatype OriginalTitle = NoOriginalTitle | TitleText(text: string) | TitleList(items: seq<string>)

  datatype NoteType = Markdown | Excalidraw

  datatype Note = Note(id: string, projectId: string, path: string, name: string, noteType: NoteType)

  /** What a tree node was read as; `Untyped` is a directory entry that
      came without a children list and so got no data type. */
  datatype DataKind = FolderKind | NoteKind | Untyped

  /** A node of a project's note tree: a folder with children, or a note
      (whose children list is empty). */
  datatype FolderOrNote = FolderOrNote(
    id: string, name: string, kind: DataKind,
    noteType: Option<NoteType>, children: seq<FolderOrNote>)

  /** A project: a reference or a notebook, with its meta data. */
  datatype Project = Project(
    id: string,
    name: string,
    title: string,
    originalTitle: OriginalTitle,
    citationKey: string,
    author: seq<Author>,
    /** `issued["date-parts"]`, when `issued` is present */
    issued: Option<seq<seq<int>>>,
    timestampAdded: int,
    timestampModified: int,
    path: Option<string>,
    tags: seq<string>,
    categories: seq<string>,
    favorite: bool,
    children: seq<FolderOrNote>,
    projType: string)

  /** The special categories of the library page. */
  const LIBRARY: string := "library"
  const ADDED: string := "added"
  const FAVORITES: string := "favorites"

  /** The special folder id of the pre-0.17 folder tree. */
  const SF_LIBRARY: string := "SFlibrary"

  datatype AnnotationType =
    | Cursor | Comment | Highlight | Rectangle | Underline | Strikeout | Ink | Eraser
    /** any other text found in the type column of an old database */
    | OtherType(name: string)

  /** The text of an annotation type, as stored. */
  function AnnotationTypeName(t: AnnotationType): string {
    match t
    case Cursor => "cursor"
    case Comment => "comment"
    case Highlight => "highlight"
    case Rectangle => "rectangle"
    case Underline => "underline"
    case Strikeout => "strikeout"
    case Ink => "ink"
    case Eraser => "eraser"
    case OtherType(name) => name
  }

  /** A legacy annotation rectangle, in percent of the page. */
  datatype Rect = Rect(height: real, left: real, top: real, width: real)

  /** `timestampAdded == 0` stands for a missing (falsy) timestamp. */
  datatype AnnotationData = AnnotationData(
    id: string, timestampAdded: int, timestampModified: int,
    projectId: string, pageNumber: int, content: string, color: string,
    rects: seq<Rect>, annotType: AnnotationType)

  /** The saved view of a project's PDF. */
  datatype PdfState = PdfState(
    id: string, projectId: string, pagesCount: int, currentPageNumber: int,
    currentScale: real, currentScaleValue: string, spreadMode: int,
    darkMode: bool, tool: AnnotationType, color: string,
    inkThickness: int, inkOpacity: int, scrollLeft: int, scrollTop: int)

  datatype PageType = LibraryPage | ReaderPage | NotePage | ExcalidrawPage | HelpPage | SettingsPage

  datatype PageData = PageData(path: Option<string>, focusAnnotId: Option<string>)

  /** A page (tab) of the window; `visible` absent means not visible. */
  datatype Page = Page(id: string, pageType: PageType, name: string, visible: Option<bool>, data: Option<PageData>)

  /** The window layout: rows and columns split space among their children,
      a stack holds pages. */
  datatype Layout =
    | Row(id: string, split: int, children: seq<Layout>)
    | Col(id: string, split: int, children: seq<Layout>)
    | Stack(id: string, pages: seq<Page>)

  /** An entry of a recursive directory listing: files have no children,
      directories usually carry their children list. */
  datatype FileEntry = FileEntry(path: string, name: string, isFile: bool, hasChildren: bool, children: seq<FileEntry>)

  datatype PluginStatus = PluginStatus(enabled: bool, updatable: bool)

  /** A node of the category tree. */
  datatype CategoryNode = CategoryNode(id: string, children: seq<CategoryNode>)
}
