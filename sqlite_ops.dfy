/**
 * The SQL side of the project store: the statements that insert, update and
 * delete a project's rows, and the decoding of the rows `getProject` and
 * `getProjects` read back.
 *
 * The SELECT queries with their joins and `GROUP_CONCAT`s are not
 * evaluated; `getProjects` takes the rows they return. `JSON.parse` of the
 * `issued` column is a parameter.
 */
module SqliteOps {
  import opened Wrappers
  import opened Strings
  import opened Seqs
  import opened Models
  import opened SqlTables
  import opened ProjectUtils
  import opened ProjectIndex

  // ------------------------------------------------ row selections by key

  function MetasWithout(metas: seq<MetaRow>, id: string): (r: seq<MetaRow>)
    ensures forall m :: m in r <==> m in metas && m.id != id
  {
    Filter(metas, (m: MetaRow) => m.id != id)
  }

  function MetasOf(metas: seq<MetaRow>, id: string): (r: seq<MetaRow>)
    ensures forall m :: m in r <==> m in metas && m.id == id
  {
    Filter(metas, (m: MetaRow) => m.id == id)
  }

  /** The metas row just inserted is the only one of its id. */
  lemma MetasOfInserted(metas: seq<MetaRow>, row: MetaRow)
    ensures MetasOf(MetasWithout(metas, row.id) + [row], row.id) == [row]
  {
    var rest := MetasWithout(metas, row.id);
    FilterAppend(rest, [row], (m: MetaRow) => m.id == row.id);
    FilterKeepsAll([row], (m: MetaRow) => m.id == row.id);
  }

  function AuthorsOf(authors: seq<AuthorRow>, projectId: string): (r: seq<AuthorRow>)
    ensures forall a :: a in r <==> a in authors && a.projectId == projectId
  {
    Filter(authors, (a: AuthorRow) => a.projectId == projectId)
  }

  function AuthorsWithout(authors: seq<AuthorRow>, projectId: string): (r: seq<AuthorRow>)
    ensures forall a :: a in r <==> a in authors && a.projectId != projectId
  {
    Filter(authors, (a: AuthorRow) => a.projectId != projectId)
  }

  function ContentsWithout(contents: seq<ContentRow>, projectId: string): (r: seq<ContentRow>)
    ensures forall c :: c in r <==> c in contents && c.projectId != projectId
  {
    Filter(contents, (c: ContentRow) => c.projectId != projectId)
  }

  function AnnotationsWithout(annots: seq<AnnotRow>, projectId: string): (r: seq<AnnotRow>)
    ensures forall a :: a in r <==> a in annots && a.projectId != projectId
  {
    Filter(annots, (a: AnnotRow) => a.projectId != projectId)
  }

  function NotesWithout(notes: seq<NoteRow>, projectId: string): (r: seq<NoteRow>)
    ensures forall n :: n in r <==> n in notes && n.projectId != projectId
  {
    Filter(notes, (n: NoteRow) => n.projectId != projectId)
  }

  /** The links with neither end at the project. */
  function LinksWithout(links: seq<Link>, projectId: string): (r: seq<Link>)
    ensures forall l :: l in r <==> l in links && l.source != projectId && l.target != projectId
  {
    Filter(links, (l: Link) => !(l.source == projectId || l.target == projectId))
  }

  // --------------------------------------------- insertTags / insertCategories

  function PairsOf(projectId: string, values: seq<string>): (r: seq<Pair>)
    ensures |r| == |values|
    ensures forall i :: 0 <= i < |r| ==> r[i] == Pair(projectId, values[i])
  {
    seq(|values|, i requires 0 <= i < |values| => Pair(projectId, values[i]))
  }

  /** The rows of one project. */
  function OfProject(rows: seq<Pair>, projectId: string): (r: seq<Pair>)
    ensures forall x :: x in r <==> x in rows && x.projectId == projectId
  {
    Filter(rows, (x: Pair) => x.projectId == projectId)
  }

  /** The rows of every other project. */
  function OtherProjects(rows: seq<Pair>, projectId: string): (r: seq<Pair>)
    ensures forall x :: x in r <==> x in rows && x.projectId != projectId
  {
    Filter(rows, (x: Pair) => x.projectId != projectId)
  }

  lemma OfProjectAppend(a: seq<Pair>, b: seq<Pair>, projectId: string)
    ensures OfProject(a + b, projectId) == OfProject(a, projectId) + OfProject(b, projectId)
    ensures OtherProjects(a + b, projectId) == OtherProjects(a, projectId) + OtherProjects(b, projectId)
  {
    FilterAppend(a, b, (x: Pair) => x.projectId == projectId);
    FilterAppend(a, b, (x: Pair) => x.projectId != projectId);
  }

  lemma OfProjectAll(rows: seq<Pair>, projectId: string)
    requires forall x :: x in rows ==> x.projectId == projectId
    ensures OfProject(rows, projectId) == rows
    ensures OtherProjects(rows, projectId) == []
  {
    FilterKeepsAll(rows, (x: Pair) => x.projectId == projectId);
  }

  lemma OfProjectNone(rows: seq<Pair>, projectId: string)
    requires forall x :: x in rows ==> x.projectId != projectId
    ensures OfProject(rows, projectId) == []
    ensures OtherProjects(rows, projectId) == rows
  {
    FilterKeepsAll(rows, (x: Pair) => x.projectId != projectId);
  }

  /** The delete of a project's rows followed by one insert-if-absent per
      value, as `insertTags` and `insertCategories` run them on their
      table: the other projects' rows, then each value once, in first-seen
      order. */
  method InsertValues(rows: seq<Pair>, projectId: string, values: seq<string>) returns (r: seq<Pair>)
    ensures r == OtherProjects(rows, projectId) + PairsOf(projectId, Dedup(values))
  {
    var others := OtherProjects(rows, projectId);
    r := others;
    var i := 0;
    while i < |values|
      invariant 0 <= i <= |values|
      invariant r == others + PairsOf(projectId, Dedup(values[..i]))
    {
      r := InsertIfAbsent(others, projectId, values, i, r);
      i := i + 1;
    }
    assert values[..i] == values;
  }

  /** The insert of `values[i]`, ignored when the row is already there. */
  method InsertIfAbsent(ghost others: seq<Pair>, projectId: string, values: seq<string>, i: int, r: seq<Pair>)
    returns (r': seq<Pair>)
    requires 0 <= i < |values|
    requires forall x :: x in others ==> x.projectId != projectId
    requires r == others + PairsOf(projectId, Dedup(values[..i]))
    ensures r' == others + PairsOf(projectId, Dedup(values[..i + 1]))
  {
    var row := Pair(projectId, values[i]);
    InsertStep(others, projectId, values, i);
    if row !in r {
      r' := r + [row];
    } else {
      r' := r;
    }
  }

  /** One insert-if-absent extends the rows by the next first-seen value. */
  lemma InsertStep(others: seq<Pair>, projectId: string, values: seq<string>, i: int)
    requires 0 <= i < |values|
    requires forall x :: x in others ==> x.projectId != projectId
    ensures var r := others + PairsOf(projectId, Dedup(values[..i]));
      var row := Pair(projectId, values[i]);
      (if row in r then r else r + [row]) == others + PairsOf(projectId, Dedup(values[..i + 1]))
  {
    assert values[..i + 1][..i] == values[..i];
    assert values[..i + 1] == values[..i] + [values[i]];
    PairInRows(others, projectId, Dedup(values[..i]), values[i]);
    if values[i] !in Dedup(values[..i]) {
      assert PairsOf(projectId, Dedup(values[..i]) + [values[i]])
        == PairsOf(projectId, Dedup(values[..i])) + [Pair(projectId, values[i])];
    }
  }

  lemma PairInRows(others: seq<Pair>, projectId: string, values: seq<string>, v: string)
    requires forall x :: x in others ==> x.projectId != projectId
    ensures Pair(projectId, v) in others + PairsOf(projectId, values) <==> v in values
  {
    var ps := PairsOf(projectId, values);
    if v in values {
      var k :| 0 <= k < |values| && values[k] == v;
      assert ps[k] == Pair(projectId, v);
    }
  }

  lemma PairsOfDistinct(projectId: string, values: seq<string>)
    requires NoDuplicates(values)
    ensures NoDuplicates(PairsOf(projectId, values))
  {
  }

  /** After the insert the project's rows are its values, each exactly once,
      and the other projects' rows are untouched. */
  lemma InsertedValuesUnique(rows: seq<Pair>, projectId: string, values: seq<string>)
    ensures var r := OtherProjects(rows, projectId) + PairsOf(projectId, Dedup(values));
      OfProject(r, projectId) == PairsOf(projectId, Dedup(values))
      && NoDuplicates(OfProject(r, projectId))
      && (forall v :: Pair(projectId, v) in r <==> v in values)
      && OtherProjects(r, projectId) == OtherProjects(rows, projectId)
  {
    var others := OtherProjects(rows, projectId);
    var ps := PairsOf(projectId, Dedup(values));
    InsertedSplit(others, ps, projectId);
    PairsOfDistinct(projectId, Dedup(values));
    forall v ensures Pair(projectId, v) in others + ps <==> v in values {
      PairInRows(others, projectId, Dedup(values), v);
    }
  }

  /** Rows of other projects followed by rows of the project split back
      into the two. */
  lemma InsertedSplit(others: seq<Pair>, ps: seq<Pair>, projectId: string)
    requires forall x :: x in others ==> x.projectId != projectId
    requires forall x :: x in ps ==> x.projectId == projectId
    ensures OfProject(others + ps, projectId) == ps
    ensures OtherProjects(others + ps, projectId) == others
  {
    OfProjectAppend(others, ps, projectId);
    OfProjectNone(others, projectId);
    OfProjectAll(ps, projectId);
    assert OfProject(others + ps, projectId) == [] + ps;
    assert OtherProjects(others + ps, projectId) == others + [];
    assert [] + ps == ps && others + [] == others;
  }

  method InsertTags(db: Database, projectId: string, tags: seq<string>)
    modifies db`tags
    ensures db.tags == OtherProjects(old(db.tags), projectId) + PairsOf(projectId, Dedup(tags))
  {
    db.tags := InsertValues(db.tags, projectId, tags);
  }

  method InsertCategories(db: Database, projectId: string, categories: seq<string>)
    modifies db`categories
    ensures db.categories == OtherProjects(old(db.categories), projectId) + PairsOf(projectId, Dedup(categories))
  {
    db.categories := InsertValues(db.categories, projectId, categories);
  }

  // ---------------------------------------------------- insertContent

  function OtherPages(rows: seq<ContentRow>, projectId: string, page: string): (r: seq<ContentRow>)
    ensures forall x :: x in r <==> x in rows && !(x.projectId == projectId && x.page == page)
  {
    Filter(rows, (x: ContentRow) => !(x.projectId == projectId && x.page == page))
  }

  function ContentReplaced(rows: seq<ContentRow>, projectId: string, page: string, content: string): seq<ContentRow> {
    OtherPages(rows, projectId, page) + [ContentRow(projectId, page, content)]
  }

  /** `insertContent` replaces exactly the row of that page. */
  method InsertContent(db: Database, projectId: string, page: string, content: string)
    modifies db`contents
    ensures db.contents == ContentReplaced(old(db.contents), projectId, page, content)
  {
    db.contents := OtherPages(db.contents, projectId, page);
    db.contents := db.contents + [ContentRow(projectId, page, content)];
  }

  /** One row per (project, page) remains, holding the new text; every other
      row stays. */
  lemma ContentReplacedOnce(rows: seq<ContentRow>, projectId: string, page: string, content: string)
    ensures var r := ContentReplaced(rows, projectId, page, content);
      (forall x :: x in r && x.projectId == projectId && x.page == page ==> x.content == content)
      && ContentRow(projectId, page, content) in r
      && (forall x: ContentRow :: !(x.projectId == projectId && x.page == page) ==> (x in r <==> x in rows))
  {
    var r := ContentReplaced(rows, projectId, page, content);
    assert r[|r| - 1] == ContentRow(projectId, page, content);
  }

  // ------------------------------------------------ insertAuthors, insertMeta

  /** `x || ""` for an optional text. */
  function OrEmpty(o: Option<string>): string {
    if o.Some? then o.value else ""
  }

  /** The row inserted for an author; the affiliation column receives the
      literal name, as the code passes `author.literal` for it. */
  function AuthorRowOf(projectId: string, a: Author): AuthorRow {
    AuthorRow(projectId, OrEmpty(a.given), OrEmpty(a.family), OrEmpty(a.literal), OrEmpty(a.literal))
  }

  function AuthorRowsOf(projectId: string, authors: seq<Author>): (r: seq<AuthorRow>)
    ensures |r| == |authors|
    ensures forall i :: 0 <= i < |authors| ==> r[i] == AuthorRowOf(projectId, authors[i])
  {
    seq(|authors|, i requires 0 <= i < |authors| => AuthorRowOf(projectId, authors[i]))
  }

  method InsertAuthors(db: Database, projectId: string, authors: seq<Author>)
    modifies db`authors
    ensures db.authors == old(db.authors) + AuthorRowsOf(projectId, authors)
  {
    var i := 0;
    while i < |authors|
      invariant 0 <= i <= |authors|
      invariant |db.authors| == |old(db.authors)| + i
      invariant db.authors[..|old(db.authors)|] == old(db.authors)
      invariant forall k :: 0 <= k < i ==> db.authors[|old(db.authors)| + k] == AuthorRowOf(projectId, authors[k])
    {
      db.authors := db.authors + [AuthorRowOf(projectId, authors[i])];
      i := i + 1;
    }
    assert db.authors == old(db.authors) + AuthorRowsOf(projectId, authors);
  }

  /** The metas row of a project; the driver's text for `issued` and for an
      original title are given, and a favourite is stored as "true". */
  function MetaRowOf(p: Project, issuedText: string, originalTitleText: Option<string>): MetaRow {
    MetaRow(p.id, p.projType, p.citationKey, originalTitleText, p.title, issuedText,
            if p.favorite then "true" else "false", p.timestampAdded, p.timestampModified)
  }

  method InsertMeta(db: Database, p: Project, issuedText: string, originalTitleText: Option<string>)
    modifies db`metas
    ensures db.metas == MetasWithout(old(db.metas), p.id) + [MetaRowOf(p, issuedText, originalTitleText)]
  {
    db.metas := MetasWithout(db.metas, p.id);
    db.metas := db.metas + [MetaRowOf(p, issuedText, originalTitleText)];
  }

  /** `addProject` on the SQL store. */
  method AddProject(db: Database, p: Project, issuedText: string, originalTitleText: Option<string>)
    modifies db`metas, db`tags, db`categories, db`authors
    ensures db.metas == MetasWithout(old(db.metas), p.id) + [MetaRowOf(p, issuedText, originalTitleText)]
    ensures db.tags == OtherProjects(old(db.tags), p.id) + PairsOf(p.id, Dedup(p.tags))
    ensures db.categories == OtherProjects(old(db.categories), p.id) + PairsOf(p.id, Dedup(p.categories))
    ensures db.authors == old(db.authors) + AuthorRowsOf(p.id, p.author)
  {
    InsertMeta(db, p, issuedText, originalTitleText);
    InsertTags(db, p.id, p.tags);
    InsertCategories(db, p.id, p.categories);
    InsertAuthors(db, p.id, p.author);
  }

  // ------------------------------------------------------- getProject

  /** The rows of `SELECT <column> FROM <table> WHERE projectId = $1`, each
      a record from column name to value. */
  function Selected(rows: seq<Pair>, projectId: string, column: string): (r: seq<map<string, string>>)
    ensures |r| == |OfProject(rows, projectId)|
  {
    var mine := OfProject(rows, projectId);
    seq(|mine|, i requires 0 <= i < |mine| => map[column := mine[i].value])
  }

  /** `results.map((result) => result[key])`: an absent key reads as
      undefined. */
  function Read(results: seq<map<string, string>>, key: string): (r: seq<Option<string>>)
    ensures |r| == |results|
  {
    seq(|results|, i requires 0 <= i < |results| =>
      if key in results[i] then Some(results[i][key]) else None)
  }

  /** The tag list as `getProject` builds it: the tag rows are selected by
      their `tag` column but read by `category`, so every tag of the
      project reads as undefined. */
  function TagsAsWritten(tags: seq<Pair>, projectId: string): (r: seq<Option<string>>)
    ensures |r| == |OfProject(tags, projectId)|
    ensures forall t :: t in r ==> t.None?
  {
    var sel := Selected(tags, projectId, "tag");
    forall i | 0 <= i < |sel| ensures "category" !in sel[i] {
      assert sel[i].Keys == {"tag"};
      assert "category" != "tag" by { assert "category"[0] != "tag"[0]; }
    }
    Read(sel, "category")
  }

  /** The tag list with the selected column read back. */
  function TagsRead(tags: seq<Pair>, projectId: string): seq<Option<string>> {
    Read(Selected(tags, projectId, "tag"), "tag")
  }

  /** A project with the tag "x" as an example: the code reads [undefined]. */
  lemma TagsAsWrittenExample(projectId: string)
    ensures TagsAsWritten([Pair(projectId, "x")], projectId) == [None]
    ensures TagsRead([Pair(projectId, "x")], projectId) == [Some("x")]
  {
    OfProjectAll([Pair(projectId, "x")], projectId);
  }

  /** Reading the selected column gives back the project's values in
      table order. */
  lemma TagsReadValues(tags: seq<Pair>, projectId: string)
    ensures var mine := OfProject(tags, projectId);
      TagsRead(tags, projectId) == seq(|mine|, i requires 0 <= i < |mine| => Some(mine[i].value))
  {
  }

  function ValuesOf(rows: seq<Pair>, projectId: string): (r: seq<string>)
    ensures forall v :: v in r <==> Pair(projectId, v) in rows
  {
    var mine := OfProject(rows, projectId);
    var r := seq(|mine|, i requires 0 <= i < |mine| => mine[i].value);
    forall v ensures v in r <==> Pair(projectId, v) in mine {
      if Pair(projectId, v) in mine {
        var k :| 0 <= k < |mine| && mine[k] == Pair(projectId, v);
        assert r[k] == v;
      }
      if v in r {
        var k :| 0 <= k < |r| && r[k] == v;
        assert mine[k] in mine;
        assert mine[k] == Pair(projectId, v);
      }
    }
    r
  }

  /** `JSON.parse(favorite || "false")`; any other text fails to parse. */
  function ParseFavorite(s: string): (r: Result<bool>)
    ensures r == Ok(true) <==> s == "true"
    ensures r == Ok(false) <==> s == "" || s == "false"
  {
    if s == "true" then Ok(true)
    else if s == "" || s == "false" then Ok(false)
    else Err("Unexpected token")
  }

  function AuthorOfRow(a: AuthorRow): Author {
    Author(Some(a.family), Some(a.given), Some(a.literal))
  }

  /** `getProject` on the SQL store, with tags read from their own column.
      The row's columns keep their SQL names, so the project has no
      "original-title" or "citation-key" and its label is the title. A
      favourite text that does not parse makes the lookup fail. */
  function ProjectFromTables(metas: seq<MetaRow>, authors: seq<AuthorRow>, categories: seq<Pair>, tags: seq<Pair>,
                             projectId: string, parseIssued: string -> Option<seq<seq<int>>>): (r: Option<Project>)
    ensures r.Some? ==> (exists m :: m in metas && m.id == projectId)
    ensures r.Some? ==> (r.value.id == projectId
      && (forall c :: c in r.value.categories <==> Pair(projectId, c) in categories)
      && (forall t :: t in r.value.tags <==> Pair(projectId, t) in tags))
  {
    var found := MetasOf(metas, projectId);
    if |found| == 0 then None
    else
      var m := found[0];
      assert m in found;
      var favorite := ParseFavorite(m.favorite);
      if favorite.Err? then None
      else
        var mine := AuthorsOf(authors, projectId);
        var p := Project(m.id, m.title, m.title, NoOriginalTitle, "",
                         seq(|mine|, i requires 0 <= i < |mine| => AuthorOfRow(mine[i])),
                         parseIssued(m.issued), m.timestampAdded, m.timestampModified, None,
                         ValuesOf(tags, projectId), ValuesOf(categories, projectId),
                         favorite.value, [], m.projType);
        Some(p.(name := GetTitle(p, false)))
  }

  /** Round trip: after `addProject` the SQL store gives back the project's
      id, title, favourite flag, timestamps and, without repeats, its
      categories and tags. */
  lemma {:induction false} AddThenGetProject(metas: seq<MetaRow>, authors: seq<AuthorRow>, categories: seq<Pair>, tags: seq<Pair>,
                           p: Project, issuedText: string, originalTitleText: Option<string>,
                           parseIssued: string -> Option<seq<seq<int>>>)
    ensures var r := ProjectFromTables(
        MetasWithout(metas, p.id) + [MetaRowOf(p, issuedText, originalTitleText)],
        authors + AuthorRowsOf(p.id, p.author),
        OtherProjects(categories, p.id) + PairsOf(p.id, Dedup(p.categories)),
        OtherProjects(tags, p.id) + PairsOf(p.id, Dedup(p.tags)),
        p.id, parseIssued);
      r.Some? && r.value.id == p.id && r.value.title == p.title && r.value.favorite == p.favorite
      && r.value.timestampAdded == p.timestampAdded && r.value.timestampModified == p.timestampModified
      && (forall c :: c in r.value.categories <==> c in p.categories)
      && (forall t :: t in r.value.tags <==> t in p.tags)
  {
    var row := MetaRowOf(p, issuedText, originalTitleText);
    var ms := MetasWithout(metas, p.id) + [row];
    var cs := OtherProjects(categories, p.id) + PairsOf(p.id, Dedup(p.categories));
    var ts := OtherProjects(tags, p.id) + PairsOf(p.id, Dedup(p.tags));
    MetasOfInserted(metas, row);
    FoundRow(ms, authors + AuthorRowsOf(p.id, p.author), cs, ts, p, issuedText, originalTitleText, parseIssued);
    var r := ProjectFromTables(ms, authors + AuthorRowsOf(p.id, p.author), cs, ts, p.id, parseIssued);
    InsertedValuesRead(categories, p.id, p.categories, r.value.categories);
    InsertedValuesRead(tags, p.id, p.tags, r.value.tags);
  }

  /** The project read back from its metas row, the only one of its id. */
  lemma FoundRow(ms: seq<MetaRow>, authors: seq<AuthorRow>, cs: seq<Pair>, ts: seq<Pair>,
                 p: Project, issuedText: string, originalTitleText: Option<string>,
                 parseIssued: string -> Option<seq<seq<int>>>)
    requires MetasOf(ms, p.id) == [MetaRowOf(p, issuedText, originalTitleText)]
    ensures var r := ProjectFromTables(ms, authors, cs, ts, p.id, parseIssued);
      r.Some? && r.value.id == p.id && r.value.title == p.title && r.value.favorite == p.favorite
      && r.value.timestampAdded == p.timestampAdded && r.value.timestampModified == p.timestampModified
      && (forall c :: c in r.value.categories <==> Pair(p.id, c) in cs)
      && (forall t :: t in r.value.tags <==> Pair(p.id, t) in ts)
  {
    var row := MetaRowOf(p, issuedText, originalTitleText);
    assert MetasOf(ms, p.id)[0] == row;
    assert ParseFavorite(row.favorite) == Ok(p.favorite);
  }

  /** The values read back after the insert are the inserted ones. */
  lemma InsertedValuesRead(rows: seq<Pair>, projectId: string, values: seq<string>, got: seq<string>)
    requires forall v :: v in got <==> Pair(projectId, v) in OtherProjects(rows, projectId) + PairsOf(projectId, Dedup(values))
    ensures forall v :: v in got <==> v in values
  {
    InsertedValuesUnique(rows, projectId, values);
  }

  // ------------------------------------------------------ deleteProject

  /** `deleteProject` removes every row that refers to the project, and
      every link from or to it. */
  method DeleteProject(db: Database, projectId: string)
    modifies db
    ensures db.metas == MetasWithout(old(db.metas), projectId)
    ensures db.authors == AuthorsWithout(old(db.authors), projectId)
    ensures db.categories == OtherProjects(old(db.categories), projectId)
    ensures db.tags == OtherProjects(old(db.tags), projectId)
    ensures db.contents == ContentsWithout(old(db.contents), projectId)
    ensures db.annotations == AnnotationsWithout(old(db.annotations), projectId)
    ensures db.notes == NotesWithout(old(db.notes), projectId)
    ensures db.links == LinksWithout(old(db.links), projectId)
    ensures forall m :: m in db.metas ==> m.id != projectId
    ensures forall l :: l in db.links ==> l.source != projectId && l.target != projectId
    ensures forall n :: n in db.notes ==> n.projectId != projectId
  {
    db.metas := MetasWithout(db.metas, projectId);
    db.authors := AuthorsWithout(db.authors, projectId);
    db.categories := OtherProjects(db.categories, projectId);
    db.tags := OtherProjects(db.tags, projectId);
    db.contents := ContentsWithout(db.contents, projectId);
    db.annotations := AnnotationsWithout(db.annotations, projectId);
    db.notes := NotesWithout(db.notes, projectId);
    db.links := LinksWithout(db.links, projectId);
  }

  // ------------------------------------------------------ updateProject

  /** The links statement of an id change: each end equal to the old id
      becomes the new id. */
  function RelinkedLink(l: Link, from: string, to: string): Link {
    Link(if l.source == from then to else l.source, if l.target == from then to else l.target)
  }

  function Relinked(links: seq<Link>, from: string, to: string): (r: seq<Link>)
    ensures |r| == |links|
    ensures from != to ==> forall l :: l in r ==> l.source != from && l.target != from
  {
    seq(|links|, i requires 0 <= i < |links| => RelinkedLink(links[i], from, to))
  }

  function ReownedNotes(notes: seq<NoteRow>, from: string, to: string): seq<NoteRow> {
    seq(|notes|, i requires 0 <= i < |notes| =>
      if notes[i].projectId == from then notes[i].(projectId := to) else notes[i])
  }

  function ReownedAnnotations(annots: seq<AnnotRow>, from: string, to: string): seq<AnnotRow> {
    seq(|annots|, i requires 0 <= i < |annots| =>
      if annots[i].projectId == from then annots[i].(projectId := to) else annots[i])
  }

  function ReownedContents(contents: seq<ContentRow>, from: string, to: string): seq<ContentRow> {
    seq(|contents|, i requires 0 <= i < |contents| =>
      if contents[i].projectId == from then contents[i].(projectId := to) else contents[i])
  }

  /** The statements run when the id changes: annotations, notes and
      contents move to the new id and every link end at the old id is
      redirected to it. */
  method FollowIdChange(db: Database, from: string, to: string)
    modifies db`annotations, db`notes, db`links, db`contents
    ensures db.annotations == ReownedAnnotations(old(db.annotations), from, to)
    ensures db.notes == ReownedNotes(old(db.notes), from, to)
    ensures db.links == Relinked(old(db.links), from, to)
    ensures db.contents == ReownedContents(old(db.contents), from, to)
  {
    db.annotations := ReownedAnnotations(db.annotations, from, to);
    db.notes := ReownedNotes(db.notes, from, to);
    db.links := Relinked(db.links, from, to);
    db.contents := ReownedContents(db.contents, from, to);
  }

  /** The project `updateProject` writes back: the stored one with the
      patch applied, or nothing for an unknown id. */
  function Updated(metas: seq<MetaRow>, authors: seq<AuthorRow>, categories: seq<Pair>, tags: seq<Pair>,
                   projectId: string, patch: Patch, parseIssued: string -> Option<seq<seq<int>>>): (r: Option<Project>)
    ensures r.Some? <==> ProjectFromTables(metas, authors, categories, tags, projectId, parseIssued).Some?
  {
    var found := ProjectFromTables(metas, authors, categories, tags, projectId, parseIssued);
    if found.None? then None else Some(ApplyPatch(found.value, patch))
  }

  /** `updateProject` on the SQL store: nothing happens to an unknown
      project; otherwise the patched project replaces the old rows and, on
      an id change, the annotations, notes, links and contents follow it. */
  method UpdateProject(db: Database, projectId: string, patch: Patch,
                       parseIssued: string -> Option<seq<seq<int>>>,
                       issuedText: string, originalTitleText: Option<string>)
    modifies db
    ensures var u := Updated(old(db.metas), old(db.authors), old(db.categories), old(db.tags), projectId, patch, parseIssued);
      u.None? ==> (db.metas == old(db.metas) && db.authors == old(db.authors) && db.links == old(db.links)
        && db.tags == old(db.tags) && db.categories == old(db.categories) && db.notes == old(db.notes)
        && db.annotations == old(db.annotations) && db.contents == old(db.contents))
    ensures var u := Updated(old(db.metas), old(db.authors), old(db.categories), old(db.tags), projectId, patch, parseIssued);
      u.Some? ==> (
        db.metas == MetasWithout(MetasWithout(old(db.metas), projectId), u.value.id) + [MetaRowOf(u.value, issuedText, originalTitleText)]
        && db.authors == AuthorsWithout(old(db.authors), projectId) + AuthorRowsOf(u.value.id, u.value.author)
        && db.categories == OtherProjects(OtherProjects(old(db.categories), projectId), u.value.id) + PairsOf(u.value.id, Dedup(u.value.categories))
        && db.tags == OtherProjects(OtherProjects(old(db.tags), projectId), u.value.id) + PairsOf(u.value.id, Dedup(u.value.tags)))
    ensures var u := Updated(old(db.metas), old(db.authors), old(db.categories), old(db.tags), projectId, patch, parseIssued);
      u.Some? && u.value.id != projectId ==> (
        db.links == Relinked(old(db.links), projectId, u.value.id)
        && db.notes == ReownedNotes(old(db.notes), projectId, u.value.id)
        && db.annotations == ReownedAnnotations(old(db.annotations), projectId, u.value.id)
        && db.contents == ReownedContents(old(db.contents), projectId, u.value.id))
    ensures var u := Updated(old(db.metas), old(db.authors), old(db.categories), old(db.tags), projectId, patch, parseIssued);
      u.Some? && u.value.id == projectId ==> (
        db.links == old(db.links) && db.notes == old(db.notes)
        && db.annotations == old(db.annotations) && db.contents == old(db.contents))
  {
    var u := Updated(db.metas, db.authors, db.categories, db.tags, projectId, patch, parseIssued);
    if u.None? {
      return;
    }
    var project := u.value;
    ReplaceRows(db, projectId, project, issuedText, originalTitleText);
    if projectId != project.id {
      FollowIdChange(db, projectId, project.id);
    }
  }

  /** The deletes of `updateProject` followed by `addProject`. */
  method ReplaceRows(db: Database, projectId: string, project: Project, issuedText: string, originalTitleText: Option<string>)
    modifies db`metas, db`tags, db`categories, db`authors
    ensures db.metas == MetasWithout(MetasWithout(old(db.metas), projectId), project.id) + [MetaRowOf(project, issuedText, originalTitleText)]
    ensures db.authors == AuthorsWithout(old(db.authors), projectId) + AuthorRowsOf(project.id, project.author)
    ensures db.categories == OtherProjects(OtherProjects(old(db.categories), projectId), project.id) + PairsOf(project.id, Dedup(project.categories))
    ensures db.tags == OtherProjects(OtherProjects(old(db.tags), projectId), project.id) + PairsOf(project.id, Dedup(project.tags))
  {
    db.metas := MetasWithout(db.metas, projectId);
    db.authors := AuthorsWithout(db.authors, projectId);
    db.categories := OtherProjects(db.categories, projectId);
    db.tags := OtherProjects(db.tags, projectId);
    AddProject(db, project, issuedText, originalTitleText);
  }

  /** After an id change nothing in the notes, annotations, contents or
      links refers to the old id any more. */
  lemma IdChangeLeavesNoOldId(notes: seq<NoteRow>, annots: seq<AnnotRow>, contents: seq<ContentRow>,
                              links: seq<Link>, from: string, to: string)
    requires from != to
    ensures forall n :: n in ReownedNotes(notes, from, to) ==> n.projectId != from
    ensures forall a :: a in ReownedAnnotations(annots, from, to) ==> a.projectId != from
    ensures forall c :: c in ReownedContents(contents, from, to) ==> c.projectId != from
    ensures forall l :: l in Relinked(links, from, to) ==> l.source != from && l.target != from
    ensures |ReownedNotes(notes, from, to)| == |notes| && |Relinked(links, from, to)| == |links|
  {
  }

  // ------------------------------------------------------ getProjects

  /** The three queries of `getProjects`. */
  datatype QueryShape = FavoritesQuery | AddedQuery | CategoryQuery

  function ShapeOf(category: string): QueryShape {
    if category == FAVORITES then FavoritesQuery
    else if category == ADDED then AddedQuery
    else CategoryQuery
  }

  /** The "added" query looks 30 days back. */
  const THIRTY_DAYS_MS: int := 30 * 24 * 60 * 60 * 1000

  /** The WHERE clause of each query; `now` is the clock. */
  predicate Selects(category: string, now: int, m: MetaRow, categories: seq<Pair>) {
    match ShapeOf(category)
    case FavoritesQuery => m.favorite == "true"
    case AddedQuery => m.timestampAdded >= now - THIRTY_DAYS_MS
    case CategoryQuery => Pair(m.id, category) in categories
  }

  function SelectedMetas(metas: seq<MetaRow>, categories: seq<Pair>, category: string, now: int): (r: seq<MetaRow>)
    ensures forall m :: m in r <==> m in metas && Selects(category, now, m, categories)
  {
    Filter(metas, (m: MetaRow) => Selects(category, now, m, categories))
  }

  /** `GROUP_CONCAT(x, sep)`: NULL over no rows. */
  function GroupConcat(values: seq<string>, sep: string): (r: Option<string>)
    ensures r.None? <==> |values| == 0
  {
    if |values| == 0 then None else Some(Join(values, sep))
  }

  /** The separator of the tag and category concatenations: the category
      query passes "|", the other two leave SQLite's default ",". */
  function ListSeparator(concat: QueryShape): string {
    if concat == CategoryQuery then "|" else ","
  }

  function AuthorSeparator(concat: QueryShape): string {
    if concat == CategoryQuery then "|" else ", "
  }

  /** An author in the concatenation: "family,given" in the category query,
      "given family" in the other two. */
  function AuthorName(concat: QueryShape, a: AuthorRow): string {
    if concat == CategoryQuery then a.family + "," + a.given else a.given + " " + a.family
  }

  function AuthorNames(concat: QueryShape, rows: seq<AuthorRow>): (r: seq<string>)
    ensures |r| == |rows|
    ensures forall i :: 0 <= i < |rows| ==> r[i] == AuthorName(concat, rows[i])
  {
    seq(|rows|, i requires 0 <= i < |rows| => AuthorName(concat, rows[i]))
  }

  /** The row a query returns for a selected project, its lists concatenated
      in the form `concat` writes them. The category query keeps only the
      join rows of the asked category, so its category column is that
      category. */
  function QueryRow(shape: QueryShape, concat: QueryShape, category: string, m: MetaRow,
                    authors: seq<AuthorRow>, categories: seq<Pair>, tags: seq<Pair>): (r: ProjectData)
    ensures r.id == m.id && r.title == m.title && r.favorite == m.favorite
    ensures r.authors.None? <==> |AuthorsOf(authors, m.id)| == 0
  {
    ProjectData(m.id, m.projType, m.citationKey, m.originalTitle, m.title, m.issued, m.favorite,
                m.timestampAdded, m.timestampModified,
                GroupConcat(ValuesOf(tags, m.id), ListSeparator(concat)),
                GroupConcat(if shape == CategoryQuery then [category] else ValuesOf(categories, m.id), ListSeparator(concat)),
                GroupConcat(AuthorNames(concat, AuthorsOf(authors, m.id)), AuthorSeparator(concat)))
  }

  function QueryRows(metas: seq<MetaRow>, authors: seq<AuthorRow>, categories: seq<Pair>, tags: seq<Pair>,
                     category: string, now: int, concat: QueryShape): (r: seq<ProjectData>)
    ensures |r| == |SelectedMetas(metas, categories, category, now)|
    ensures forall i :: 0 <= i < |r| ==> r[i] == QueryRow(ShapeOf(category), concat, category,
      SelectedMetas(metas, categories, category, now)[i], authors, categories, tags)
  {
    var sel := SelectedMetas(metas, categories, category, now);
    seq(|sel|, i requires 0 <= i < |sel| => QueryRow(ShapeOf(category), concat, category, sel[i], authors, categories, tags))
  }

  /** A row of the `getProjects` queries; NULL columns are `None`. */
  datatype ProjectData = ProjectData(
    id: string, projType: string, citationKey: string, originalTitle: Option<string>,
    title: string, issued: string, favorite: string,
    timestampAdded: int, timestampModified: int,
    tags: Option<string>, categories: Option<string>, authors: Option<string>)

  /** `row.x ? row.x.split("|") : []`: NULL and "" both give []. */
  function DecodeList(column: Option<string>): (r: seq<string>)
    ensures column.None? || column.value == "" ==> r == []
    ensures column.Some? && column.value != "" ==> Join(r, "|") == column.value
  {
    if column.None? || column.value == "" then []
    else
      JoinSplit(column.value, '|');
      Split(column.value, '|')
  }

  /** Decoding inverts the "|" concatenation when no value is empty or
      holds a "|". */
  lemma DecodeGroupConcat(values: seq<string>)
    requires forall i :: 0 <= i < |values| ==> values[i] != "" && '|' !in values[i]
    ensures DecodeList(GroupConcat(values, "|")) == values
  {
    if |values| > 0 {
      JoinNonEmpty(values);
      assert "|" == ['|'];
      SplitJoin(values, '|');
    }
  }

  lemma {:induction false} JoinNonEmpty(values: seq<string>)
    requires |values| > 0 && values[0] != ""
    ensures Join(values, "|") != ""
  {
    if |values| > 1 {
      assert Join(values, "|") == values[0] + "|" + Join(values[1..], "|");
    }
  }

  /** `const [family, given] = name.split(",")`. */
  function AuthorOfName(name: string): (r: Author)
    ensures r.family == Some(Split(name, ',')[0]) && r.literal.None?
  {
    var parts := Split(name, ',');
    Author(Some(parts[0]), if |parts| > 1 then Some(parts[1]) else None, None)
  }

  /** The concatenated "family,given" of an author reads back as that
      author, given neither name holds a comma. */
  lemma AuthorOfNameRoundTrip(family: string, given: string)
    requires ',' !in family && ',' !in given
    ensures AuthorOfName(family + "," + given) == Author(Some(family), Some(given), None)
  {
    SplitTwo(family, given, ',');
    assert family + "," + given == family + [','] + given;
  }

  /** A row decoded as `getProjects` maps it. `row.authors.split` on a
      NULL column throws; that is the `Err` case. */
  function DecodeRowAsWritten(row: ProjectData, parseIssued: string -> Option<seq<seq<int>>>): (r: Result<Project>)
    ensures r.Err? <==> row.authors.None?
  {
    if row.authors.None? then Err("Cannot read properties of null (reading 'split')")
    else Ok(DecodedProject(row, Split(row.authors.value, '|'), parseIssued))
  }

  /** The decoding with a NULL author column read as no authors, as the tag
      and category columns are. */
  function DecodeRow(row: ProjectData, parseIssued: string -> Option<seq<seq<int>>>): (r: Project)
    ensures r.id == row.id && r.title == row.title && r.name == row.title
    ensures r.favorite <==> row.favorite == "true"
    ensures r.tags == DecodeList(row.tags) && r.categories == DecodeList(row.categories)
    ensures r.originalTitle == TitleText(
      if row.originalTitle.Some? && row.originalTitle.value != "" && row.originalTitle.value != "[]"
      then row.originalTitle.value else "")
    ensures row.authors.None? ==> r.author == []
    ensures row.authors.Some? ==> (|r.author| == |Split(row.authors.value, '|')|
      && forall i :: 0 <= i < |r.author| ==> r.author[i] == AuthorOfName(Split(row.authors.value, '|')[i]))
  {
    DecodedProject(row, if row.authors.None? then [] else Split(row.authors.value, '|'), parseIssued)
  }

  function DecodedProject(row: ProjectData, names: seq<string>, parseIssued: string -> Option<seq<seq<int>>>): Project {
    var original := if row.originalTitle.Some? && row.originalTitle.value != "" && row.originalTitle.value != "[]"
                    then row.originalTitle.value else "";
    Project(row.id, row.title, row.title, TitleText(original), row.citationKey,
            seq(|names|, i requires 0 <= i < |names| => AuthorOfName(names[i])),
            parseIssued(row.issued), row.timestampAdded, row.timestampModified, Some(""),
            DecodeList(row.tags), DecodeList(row.categories), row.favorite == "true", [], row.projType)
  }

  /** `getProjects` after the query: the decoded rows, or [] when decoding
      any row throws. */
  function DecodeRowsAsWritten(rows: seq<ProjectData>, parseIssued: string -> Option<seq<seq<int>>>): (r: seq<Project>)
    ensures (exists i :: 0 <= i < |rows| && rows[i].authors.None?) ==> r == []
    ensures (forall i :: 0 <= i < |rows| ==> rows[i].authors.Some?) ==> |r| == |rows|
  {
    if exists i :: 0 <= i < |rows| && rows[i].authors.None? then []
    else seq(|rows|, i requires 0 <= i < |rows| => DecodeRowAsWritten(rows[i], parseIssued).value)
  }

  function DecodeRows(rows: seq<ProjectData>, parseIssued: string -> Option<seq<seq<int>>>): (r: seq<Project>)
    ensures |r| == |rows|
    ensures forall i :: 0 <= i < |rows| ==> r[i] == DecodeRow(rows[i], parseIssued)
  {
    seq(|rows|, i requires 0 <= i < |rows| => DecodeRow(rows[i], parseIssued))
  }

  /** `getProjects` as written: three differently concatenated queries,
      one decoding. */
  function GetProjectsAsWritten(metas: seq<MetaRow>, authors: seq<AuthorRow>, categories: seq<Pair>, tags: seq<Pair>,
                                category: string, now: int, parseIssued: string -> Option<seq<seq<int>>>): (r: seq<Project>)
    ensures var sel := SelectedMetas(metas, categories, category, now);
      r == [] || (|r| == |sel| && forall i :: 0 <= i < |r| ==> r[i].id == sel[i].id)
  {
    var rows := QueryRows(metas, authors, categories, tags, category, now, ShapeOf(category));
    var r := DecodeRowsAsWritten(rows, parseIssued);
    forall i | 0 <= i < |r| ensures r[i].id == rows[i].id {
      DecodeRowAgrees(rows[i], parseIssued);
    }
    r
  }

  /** `getProjects` with every query concatenating as the category query
      does and a NULL author column read as no authors. */
  function GetProjects(metas: seq<MetaRow>, authors: seq<AuthorRow>, categories: seq<Pair>, tags: seq<Pair>,
                       category: string, now: int, parseIssued: string -> Option<seq<seq<int>>>): (r: seq<Project>)
    ensures |r| == |SelectedMetas(metas, categories, category, now)|
    ensures forall i :: 0 <= i < |r| ==> r[i].id == SelectedMetas(metas, categories, category, now)[i].id
  {
    DecodeRows(QueryRows(metas, authors, categories, tags, category, now, CategoryQuery), parseIssued)
  }

  /** The projects listed are exactly those the query's WHERE clause
      selects. */
  lemma GetProjectsSelects(metas: seq<MetaRow>, authors: seq<AuthorRow>, categories: seq<Pair>, tags: seq<Pair>,
                           category: string, now: int, parseIssued: string -> Option<seq<seq<int>>>)
    ensures forall p :: p in GetProjects(metas, authors, categories, tags, category, now, parseIssued) ==>
      exists m :: m in metas && m.id == p.id && Selects(category, now, m, categories)
    ensures forall m :: m in metas && Selects(category, now, m, categories) ==>
      exists p :: p in GetProjects(metas, authors, categories, tags, category, now, parseIssued) && p.id == m.id
  {
    var r := GetProjects(metas, authors, categories, tags, category, now, parseIssued);
    var sel := SelectedMetas(metas, categories, category, now);
    forall p | p in r ensures exists m :: m in metas && m.id == p.id && Selects(category, now, m, categories) {
      var k :| 0 <= k < |r| && r[k] == p;
      assert sel[k] in sel;
    }
    forall m | m in metas && Selects(category, now, m, categories)
      ensures exists p :: p in r && p.id == m.id
    {
      assert m in sel;
      var k :| 0 <= k < |sel| && sel[k] == m;
      assert r[k] in r;
    }
  }

  /** `getAllProjects`: the projects filed under the "library" category,
      every one of them and no other. */
  function GetAllProjects(metas: seq<MetaRow>, authors: seq<AuthorRow>, categories: seq<Pair>, tags: seq<Pair>,
                          now: int, parseIssued: string -> Option<seq<seq<int>>>): (r: seq<Project>)
    ensures forall p :: p in r ==> exists m :: m in metas && m.id == p.id && Pair(m.id, LIBRARY) in categories
    ensures forall m :: m in metas && Pair(m.id, LIBRARY) in categories ==> exists p :: p in r && p.id == m.id
  {
    assert ShapeOf(LIBRARY) == CategoryQuery by {
      assert LIBRARY[0] != FAVORITES[0] && LIBRARY[0] != ADDED[0];
    }
    GetProjectsSelects(metas, authors, categories, tags, LIBRARY, now, parseIssued);
    GetProjects(metas, authors, categories, tags, LIBRARY, now, parseIssued)
  }

  /** Each listed project reads back its own tags and authors from the
      concatenations, when no tag is empty and no name holds a "|" or ",". */
  lemma GetProjectsReadsBack(metas: seq<MetaRow>, authors: seq<AuthorRow>, categories: seq<Pair>, tags: seq<Pair>,
                             category: string, now: int, parseIssued: string -> Option<seq<seq<int>>>, i: int)
    requires 0 <= i < |GetProjects(metas, authors, categories, tags, category, now, parseIssued)|
    requires forall t :: t in tags ==> t.value != "" && '|' !in t.value
    requires forall a :: a in authors ==> '|' !in a.family && ',' !in a.family && '|' !in a.given && ',' !in a.given
    ensures var p := GetProjects(metas, authors, categories, tags, category, now, parseIssued)[i];
      var mine := AuthorsOf(authors, p.id);
      p.tags == ValuesOf(tags, p.id)
      && |p.author| == |mine|
      && forall k :: 0 <= k < |mine| ==> p.author[k] == Author(Some(mine[k].family), Some(mine[k].given), None)
  {
    var sel := SelectedMetas(metas, categories, category, now);
    var rows := QueryRows(metas, authors, categories, tags, category, now, CategoryQuery);
    assert GetProjects(metas, authors, categories, tags, category, now, parseIssued)[i] == DecodeRow(rows[i], parseIssued);
    RowReadsBack(sel[i], authors, categories, tags, category, parseIssued);
  }

  /** The row of one project reads back its tags and authors. */
  lemma RowReadsBack(m: MetaRow, authors: seq<AuthorRow>, categories: seq<Pair>, tags: seq<Pair>,
                     category: string, parseIssued: string -> Option<seq<seq<int>>>)
    requires forall t :: t in tags ==> t.value != "" && '|' !in t.value
    requires forall a :: a in authors ==> '|' !in a.family && ',' !in a.family && '|' !in a.given && ',' !in a.given
    ensures var p := DecodeRow(QueryRow(ShapeOf(category), CategoryQuery, category, m, authors, categories, tags), parseIssued);
      var mine := AuthorsOf(authors, m.id);
      p.tags == ValuesOf(tags, m.id)
      && |p.author| == |mine|
      && forall k :: 0 <= k < |mine| ==> p.author[k] == Author(Some(mine[k].family), Some(mine[k].given), None)
  {
    var vs := ValuesOf(tags, m.id);
    forall k | 0 <= k < |vs| ensures vs[k] != "" && '|' !in vs[k] {
      assert vs[k] in vs;
    }
    DecodeGroupConcat(vs);
    AuthorsReadBack(AuthorsOf(authors, m.id));
  }

  /** The concatenated names of a project's authors read back as those
      authors. */
  lemma AuthorsReadBack(mine: seq<AuthorRow>)
    requires forall a :: a in mine ==> '|' !in a.family && ',' !in a.family && '|' !in a.given && ',' !in a.given
    ensures var column := GroupConcat(AuthorNames(CategoryQuery, mine), AuthorSeparator(CategoryQuery));
      var names := if column.None? then [] else Split(column.value, '|');
      |names| == |mine|
      && forall k :: 0 <= k < |mine| ==> AuthorOfName(names[k]) == Author(Some(mine[k].family), Some(mine[k].given), None)
  {
    var names := AuthorNames(CategoryQuery, mine);
    if |names| > 0 {
      forall k | 0 <= k < |names| ensures names[k] != "" && '|' !in names[k] {
        assert mine[k] in mine;
        assert names[k] == mine[k].family + "," + mine[k].given;
        assert names[k][|mine[k].family|] == ',';
      }
      DecodeGroupConcat(names);
      forall k | 0 <= k < |mine|
        ensures AuthorOfName(names[k]) == Author(Some(mine[k].family), Some(mine[k].given), None)
      {
        assert mine[k] in mine;
        AuthorOfNameRoundTrip(mine[k].family, mine[k].given);
      }
    }
  }

  /** The row the favourites query returns for a favourite with the tags
      a and b and one author, concatenated in the form `concat`. */
  lemma FavoriteRow(m: MetaRow, author: AuthorRow, a: string, b: string, now: int, concat: QueryShape)
    requires m.favorite == "true" && author.projectId == m.id
    ensures var rows := QueryRows([m], [author], [], [Pair(m.id, a), Pair(m.id, b)], FAVORITES, now, concat);
      |rows| == 1 && rows[0].authors.Some?
      && rows[0].tags == Some(Join([a, b], ListSeparator(concat)))
  {
    var tags := [Pair(m.id, a), Pair(m.id, b)];
    assert Selects(FAVORITES, now, m, []);
    assert SelectedMetas([m], [], FAVORITES, now) == [m] by {
      FilterKeepsAll([m], (x: MetaRow) => Selects(FAVORITES, now, x, []));
    }
    OfProjectAll(tags, m.id);
    assert ValuesOf(tags, m.id) == [a, b];
    OfAuthor(author);
  }

  /** As written, a favourite with the tags a and b reads back the single
      tag "a,b", since the favourites query joins with "," and the decoding
      splits at "|". Read with the category query's concatenation, the two
      tags come back. */
  lemma FavoriteTagsMergedAsWritten(m: MetaRow, author: AuthorRow, a: string, b: string,
                                    now: int, parseIssued: string -> Option<seq<seq<int>>>)
    requires m.favorite == "true" && author.projectId == m.id
    requires '|' !in a && '|' !in b
    ensures var tags := [Pair(m.id, a), Pair(m.id, b)];
      var ps := GetProjectsAsWritten([m], [author], [], tags, FAVORITES, now, parseIssued);
      |ps| == 1 && ps[0].tags == [a + "," + b]
      && (var qs := GetProjects([m], [author], [], tags, FAVORITES, now, parseIssued);
      |qs| == 1 && qs[0].tags == [a, b])
  {
    FavoriteTagsAsWritten(m, author, a, b, now, parseIssued);
    FavoriteTagsCorrected(m, author, a, b, now, parseIssued);
  }

  lemma FavoriteTagsAsWritten(m: MetaRow, author: AuthorRow, a: string, b: string,
                              now: int, parseIssued: string -> Option<seq<seq<int>>>)
    requires m.favorite == "true" && author.projectId == m.id
    requires '|' !in a && '|' !in b
    ensures var tags := [Pair(m.id, a), Pair(m.id, b)];
      var ps := GetProjectsAsWritten([m], [author], [], tags, FAVORITES, now, parseIssued);
      |ps| == 1 && ps[0].tags == [a + "," + b]
  {
    var tags := [Pair(m.id, a), Pair(m.id, b)];
    FavoriteRow(m, author, a, b, now, FavoritesQuery);
    var rows := QueryRows([m], [author], [], tags, FAVORITES, now, FavoritesQuery);
    assert GetProjectsAsWritten([m], [author], [], tags, FAVORITES, now, parseIssued)
      == DecodeRowsAsWritten(rows, parseIssued);
    SingleRowAsWritten(rows, parseIssued);
    CommaJoinedTags(a, b);
  }

  lemma FavoriteTagsCorrected(m: MetaRow, author: AuthorRow, a: string, b: string,
                              now: int, parseIssued: string -> Option<seq<seq<int>>>)
    requires m.favorite == "true" && author.projectId == m.id
    requires '|' !in a && '|' !in b
    ensures var tags := [Pair(m.id, a), Pair(m.id, b)];
      var qs := GetProjects([m], [author], [], tags, FAVORITES, now, parseIssued);
      |qs| == 1 && qs[0].tags == [a, b]
  {
    var tags := [Pair(m.id, a), Pair(m.id, b)];
    FavoriteRow(m, author, a, b, now, CategoryQuery);
    var rows := QueryRows([m], [author], [], tags, FAVORITES, now, CategoryQuery);
    assert GetProjects([m], [author], [], tags, FAVORITES, now, parseIssued)
      == DecodeRows(rows, parseIssued);
    BarJoinedTags(a, b);
  }

  /** The one row of a result, decoded as written. */
  lemma SingleRowAsWritten(rows: seq<ProjectData>, parseIssued: string -> Option<seq<seq<int>>>)
    requires |rows| == 1 && rows[0].authors.Some?
    ensures |DecodeRowsAsWritten(rows, parseIssued)| == 1
    ensures DecodeRowsAsWritten(rows, parseIssued)[0].tags == DecodeList(rows[0].tags)
  {
    assert DecodeRowsAsWritten(rows, parseIssued)[0] == DecodeRowAsWritten(rows[0], parseIssued).value;
  }

  /** Tags joined by "," come back as one tag. */
  lemma CommaJoinedTags(a: string, b: string)
    requires '|' !in a && '|' !in b
    ensures DecodeList(Some(Join([a, b], ","))) == [a + "," + b]
  {
    assert Join([a, b], ",") == a + "," + b;
    assert '|' !in a + "," + b;
    SplitWithoutSeparator(a + "," + b, '|');
  }

  /** Tags joined by "|" come back as they were. */
  lemma BarJoinedTags(a: string, b: string)
    requires '|' !in a && '|' !in b
    ensures DecodeList(Some(Join([a, b], "|"))) == [a, b]
  {
    assert Join([a, b], "|") == a + ['|'] + b;
    SplitTwo(a, b, '|');
  }

  lemma OfAuthor(author: AuthorRow)
    ensures AuthorsOf([author], author.projectId) == [author]
  {
    FilterKeepsAll([author], (a: AuthorRow) => a.projectId == author.projectId);
  }

  /** As written, one project without authors in the list empties the
      whole result; the corrected decoding keeps every row. */
  lemma ProjectWithoutAuthorsHidesAll(withAuthors: ProjectData, without: ProjectData,
                                      parseIssued: string -> Option<seq<seq<int>>>)
    requires withAuthors.authors.Some? && without.authors.None?
    ensures DecodeRowsAsWritten([withAuthors, without], parseIssued) == []
    ensures |DecodeRows([withAuthors, without], parseIssued)| == 2
    ensures DecodeRows([withAuthors, without], parseIssued)[1].author == []
  {
    assert [withAuthors, without][1].authors.None?;
  }

  /** Where both decodings succeed they agree. */
  lemma DecodeRowAgrees(row: ProjectData, parseIssued: string -> Option<seq<seq<int>>>)
    requires row.authors.Some?
    ensures DecodeRowAsWritten(row, parseIssued) == Ok(DecodeRow(row, parseIssued))
  {
  }

  /** As written, `getProject` reads back after `addProject` one undefined
      tag for each distinct tag of the project. */
  lemma AddThenGetTagsAsWritten(tags: seq<Pair>, p: Project)
    ensures var read := TagsAsWritten(OtherProjects(tags, p.id) + PairsOf(p.id, Dedup(p.tags)), p.id);
      |read| == |Dedup(p.tags)| && forall t :: t in read ==> t.None?
  {
    var ts := OtherProjects(tags, p.id) + PairsOf(p.id, Dedup(p.tags));
    InsertedValuesUnique(tags, p.id, p.tags);
  }

  /** As written, `getProjects` lists nothing as soon as one selected
      project has no author. */
  lemma GetProjectsAsWrittenEmpty(metas: seq<MetaRow>, authors: seq<AuthorRow>, categories: seq<Pair>, tags: seq<Pair>,
                                  category: string, now: int, parseIssued: string -> Option<seq<seq<int>>>, m: MetaRow)
    requires m in SelectedMetas(metas, categories, category, now) && |AuthorsOf(authors, m.id)| == 0
    ensures GetProjectsAsWritten(metas, authors, categories, tags, category, now, parseIssued) == []
  {
    var sel := SelectedMetas(metas, categories, category, now);
    var rows := QueryRows(metas, authors, categories, tags, category, now, ShapeOf(category));
    var k :| 0 <= k < |sel| && sel[k] == m;
    assert rows[k].authors.None?;
  }

  /** When each selected project has an author, `getProjects` as written
      lists the selected projects in table order. */
  lemma GetProjectsAsWrittenLists(metas: seq<MetaRow>, authors: seq<AuthorRow>, categories: seq<Pair>, tags: seq<Pair>,
                                  category: string, now: int, parseIssued: string -> Option<seq<seq<int>>>)
    requires forall m :: m in SelectedMetas(metas, categories, category, now) ==> |AuthorsOf(authors, m.id)| > 0
    ensures var sel := SelectedMetas(metas, categories, category, now);
      var w := GetProjectsAsWritten(metas, authors, categories, tags, category, now, parseIssued);
      |w| == |sel| && forall i :: 0 <= i < |w| ==> w[i] == DecodeRow(QueryRows(metas, authors, categories, tags, category, now, ShapeOf(category))[i], parseIssued)
  {
    var sel := SelectedMetas(metas, categories, category, now);
    var rows := QueryRows(metas, authors, categories, tags, category, now, ShapeOf(category));
    forall i | 0 <= i < |rows| ensures rows[i].authors.Some? {
      assert sel[i] in sel;
    }
    var w := DecodeRowsAsWritten(rows, parseIssued);
    forall i | 0 <= i < |w| ensures w[i] == DecodeRow(rows[i], parseIssued) {
      DecodeRowAgrees(rows[i], parseIssued);
    }
  }

  /** For the category query, `getProjects` as written agrees with the
      corrected `GetProjects` when each selected project has an author. */
  lemma GetProjectsAsWrittenAgrees(metas: seq<MetaRow>, authors: seq<AuthorRow>, categories: seq<Pair>, tags: seq<Pair>,
                                   category: string, now: int, parseIssued: string -> Option<seq<seq<int>>>)
    requires ShapeOf(category) == CategoryQuery
    requires forall m :: m in SelectedMetas(metas, categories, category, now) ==> |AuthorsOf(authors, m.id)| > 0
    ensures GetProjectsAsWritten(metas, authors, categories, tags, category, now, parseIssued)
      == GetProjects(metas, authors, categories, tags, category, now, parseIssued)
  {
    GetProjectsAsWrittenLists(metas, authors, categories, tags, category, now, parseIssued);
  }

  /** As written, `getAllProjects` gives every project filed under
      "library" when each of them has an author, and nothing otherwise. */
  lemma GetAllProjectsAsWritten(metas: seq<MetaRow>, authors: seq<AuthorRow>, categories: seq<Pair>, tags: seq<Pair>,
                                now: int, parseIssued: string -> Option<seq<seq<int>>>)
    ensures (forall m :: m in metas && Pair(m.id, LIBRARY) in categories ==> |AuthorsOf(authors, m.id)| > 0) ==>
      GetProjectsAsWritten(metas, authors, categories, tags, LIBRARY, now, parseIssued)
        == GetAllProjects(metas, authors, categories, tags, now, parseIssued)
    ensures (exists m :: m in metas && Pair(m.id, LIBRARY) in categories && |AuthorsOf(authors, m.id)| == 0) ==>
      GetProjectsAsWritten(metas, authors, categories, tags, LIBRARY, now, parseIssued) == []
  {
    assert ShapeOf(LIBRARY) == CategoryQuery by {
      assert LIBRARY[0] != FAVORITES[0] && LIBRARY[0] != ADDED[0];
    }
    var sel := SelectedMetas(metas, categories, LIBRARY, now);
    assert forall m :: m in sel <==> m in metas && Pair(m.id, LIBRARY) in categories;
    if exists m :: m in metas && Pair(m.id, LIBRARY) in categories && |AuthorsOf(authors, m.id)| == 0 {
      var m :| m in metas && Pair(m.id, LIBRARY) in categories && |AuthorsOf(authors, m.id)| == 0;
      GetProjectsAsWrittenEmpty(metas, authors, categories, tags, LIBRARY, now, parseIssued, m);
    } else {
      GetProjectsAsWrittenAgrees(metas, authors, categories, tags, LIBRARY, now, parseIssued);
    }
  }
}
