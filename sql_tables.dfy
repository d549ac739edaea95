/**
 * The SQLite index as tables of rows. Each table is a sequence the
 * statements of the backend rewrite; "DELETE then INSERT" is an upsert and
 * "INSERT ... WHERE NOT EXISTS" an insert of an absent row. Only the
 * columns some modelled statement reads or writes are kept, under one
 * logical name per column.
 */
module SqlTables {
  import opened Wrappers
  import opened Models

  /** A row of the tags or the categories table. */
  datatype Pair = Pair(projectId: string, value: string)

  datatype AuthorRow = AuthorRow(projectId: string, given: string, family: string, literal: string, affiliation: string)

  /** A row of the metas table; `favorite` and `issued` hold the text the
      driver stored. */
  datatype MetaRow = MetaRow(
    id: string, projType: string, citationKey: string, originalTitle: Option<string>,
    title: string, issued: string, favorite: string, timestampAdded: int, timestampModified: int)

  datatype ContentRow = ContentRow(projectId: string, page: string, content: string)

  datatype NoteRow = NoteRow(noteId: string, projectId: string, noteType: NoteType,
                             content: string, timestampAdded: int, timestampModified: int)

  datatype AnnotRow = AnnotRow(annotId: string, projectId: string, annotType: AnnotationType,
                               color: string, pageNumber: int, content: string,
                               timestampAdded: int, timestampModified: int)

  datatype Link = Link(source: string, target: string)

  class Database {
    var metas: seq<MetaRow>
    var authors: seq<AuthorRow>
    var categories: seq<Pair>
    var tags: seq<Pair>
    var contents: seq<ContentRow>
    var annotations: seq<AnnotRow>
    var notes: seq<NoteRow>
    var links: seq<Link>

    constructor ()
      ensures metas == [] && authors == [] && categories == [] && tags == []
      ensures contents == [] && annotations == [] && notes == [] && links == []
    {
      metas, authors, categories, tags := [], [], [], [];
      contents, annotations, notes, links := [], [], [], [];
    }
  }
}
