/**
 * The scanner that brings the SQLite index up to date with the files of
 * the storage folder: it drops the rows of projects whose folder is gone,
 * walks the listing for files modified since the last scan and hands each
 * to an extractor chosen by its extension.
 *
 * What the extractors read from disk comes in a `Disk` of functions: the
 * file times, the text of a file, the parsed Excalidraw elements, the
 * matches of the link pattern, the parsed annotation, the text items of
 * each PDF page and the project `getProject` finds.
 */
module Scan {
  import opened Wrappers
  import opened Strings
  import opened Seqs
  import opened Models
  import opened TauriPath
  import opened ProjectUtils
  import opened SqlTables
  import opened SqliteOps

  /** An element of an Excalidraw drawing. */
  datatype Element = Element(elemType: string, isDeleted: bool, text: string)

  datatype Disk = Disk(
    createdAt: string -> int,
    modifiedAt: string -> int,
    readText: string -> string,
    /** `JSON.parse(text).elements` */
    elementsOf: string -> seq<Element>,
    /** `content.match(regex) || []` for the link pattern */
    linkMatchesOf: string -> seq<string>,
    /** `JSON.parse(text)` of an annotation file */
    annotOf: string -> AnnotRow,
    /** the text items of each page of a PDF file */
    pdfPagesOf: string -> seq<seq<string>>,
    /** `getProject` */
    projectOf: string -> Option<Project>,
    /** the driver's text for `issued` and the original title of a project */
    issuedTextOf: Project -> string,
    originalTitleOf: Project -> Option<string>)

  // ------------------------------------------------------ processEntries

  /** The files `processEntries` hands on, depth first and in listing
      order: files modified after the last scan; other entries are descended
      into when they carry children. */
  function Walked(entries: seq<FileEntry>, lastScanTime: int, modifiedAt: string -> int): seq<FileEntry>
    decreases entries
  {
    if |entries| == 0 then []
    else Walked(entries[..|entries| - 1], lastScanTime, modifiedAt) + Visited(entries[|entries| - 1], lastScanTime, modifiedAt)
  }

  function Visited(e: FileEntry, lastScanTime: int, modifiedAt: string -> int): seq<FileEntry>
    decreases e
  {
    if e.isFile && modifiedAt(e.path) > lastScanTime then [e]
    else if e.hasChildren then Walked(e.children, lastScanTime, modifiedAt)
    else []
  }

  method ProcessEntries(entries: seq<FileEntry>, lastScanTime: int, modifiedAt: string -> int) returns (files: seq<FileEntry>)
    ensures files == Walked(entries, lastScanTime, modifiedAt)
    decreases entries
  {
    files := [];
    var i := 0;
    while i < |entries|
      invariant 0 <= i <= |entries|
      invariant files == Walked(entries[..i], lastScanTime, modifiedAt)
    {
      assert entries[..i + 1][..i] == entries[..i];
      var entry := entries[i];
      if entry.isFile && modifiedAt(entry.path) > lastScanTime {
        files := files + [entry];
      } else if entry.hasChildren {
        var sub := ProcessEntries(entry.children, lastScanTime, modifiedAt);
        files := files + sub;
      }
      i := i + 1;
    }
    assert entries[..i] == entries;
  }

  /** Only files modified after the last scan are handed on. */
  lemma {:induction false} WalkedAreFresh(entries: seq<FileEntry>, lastScanTime: int, modifiedAt: string -> int)
    ensures forall f :: f in Walked(entries, lastScanTime, modifiedAt) ==> f.isFile && modifiedAt(f.path) > lastScanTime
    decreases entries
  {
    if |entries| > 0 {
      var e := entries[|entries| - 1];
      WalkedAreFresh(entries[..|entries| - 1], lastScanTime, modifiedAt);
      if !(e.isFile && modifiedAt(e.path) > lastScanTime) && e.hasChildren {
        WalkedAreFresh(e.children, lastScanTime, modifiedAt);
      }
    }
  }

  /** Every top-level file modified after the last scan is handed on. */
  lemma {:induction false} WalkedHasFreshFiles(entries: seq<FileEntry>, lastScanTime: int, modifiedAt: string -> int)
    ensures forall f :: f in entries && f.isFile && modifiedAt(f.path) > lastScanTime ==> f in Walked(entries, lastScanTime, modifiedAt)
    decreases entries
  {
    if |entries| > 0 {
      var init := entries[..|entries| - 1];
      WalkedHasFreshFiles(init, lastScanTime, modifiedAt);
      assert entries == init + [entries[|entries| - 1]];
    }
  }

  /** A listing walks in two halves. */
  lemma {:induction false} WalkedAppend(a: seq<FileEntry>, b: seq<FileEntry>, lastScanTime: int, modifiedAt: string -> int)
    ensures Walked(a + b, lastScanTime, modifiedAt) == Walked(a, lastScanTime, modifiedAt) + Walked(b, lastScanTime, modifiedAt)
    decreases |b|
  {
    if |b| > 0 {
      assert (a + b)[..|a + b| - 1] == a + b[..|b| - 1];
      WalkedAppend(a, b[..|b| - 1], lastScanTime, modifiedAt);
    } else {
      assert a + b == a;
    }
  }

  // ------------------------------------------------------- dispatch

  /** What the scan does with a file. */
  datatype Extraction = FolderNoteMeta | NoteContentAndLinks | ExcalidrawContent | PdfContent | AnnotContent | Skip

  /** `file.name.slice(0, -3)`. */
  function DropLast3(name: string): string {
    if |name| >= 3 then name[..|name| - 3] else ""
  }

  /** The id a project's own note has when the file is named `name`. */
  function FolderNoteId(name: string): string {
    DropLast3(name) + "/" + DropLast3(name) + ".md"
  }

  /** The extractor the scan picks for a file, by extension; an "md"
      file whose id is "base/base.md" is the project note. */
  function Dispatch(storagePath: string, f: FileEntry): (r: Extraction)
    ensures r == FolderNoteMeta <==> Extname(f.path) == Some("md") && PathToId(storagePath, f.path) == FolderNoteId(f.name)
    ensures r == NoteContentAndLinks <==> Extname(f.path) == Some("md") && PathToId(storagePath, f.path) != FolderNoteId(f.name)
    ensures r == AnnotContent <==> Extname(f.path) == Some("json") && StartsWith(f.name, "SA")
    ensures r == Skip ==> Extname(f.path) != Some("md")
  {
    var ext := Extname(f.path);
    if ext == Some("md") then
      if PathToId(storagePath, f.path) == FolderNoteId(f.name) then FolderNoteMeta else NoteContentAndLinks
    else if ext == Some("excalidraw") then ExcalidrawContent
    else if ext == Some("pdf") then PdfContent
    else if ext == Some("json") && StartsWith(f.name, "SA") then AnnotContent
    else Skip
  }

  /** The first segments of two ids with a "/" each agree. */
  lemma SameFirstSegment(a: string, x: string, b: string, y: string)
    requires '/' !in a && '/' !in b
    requires a + "/" + x == b + "/" + y
    ensures a == b
  {
    FirstPartBefore(a, '/', x);
    FirstPartBefore(b, '/', y);
    assert a + "/" + x == a + ['/'] + x;
    assert b + "/" + y == b + ['/'] + y;
    SplitWithoutSeparator(a, '/');
    SplitWithoutSeparator(b, '/');
  }

  /** The markdown note named after its project folder is read for meta;
      any other markdown note of the folder is read for content and links. */
  lemma DispatchMarkdown(storagePath: string, projectId: string, stem: string)
    requires '/' !in projectId && '/' !in stem
    ensures var f := FileEntry(IdToPath(storagePath, projectId + "/" + stem + ".md"), stem + ".md", true, false, []);
      Dispatch(storagePath, f) == (if stem == projectId then FolderNoteMeta else NoteContentAndLinks)
  {
    var id := projectId + "/" + stem + ".md";
    var name := stem + ".md";
    var path := IdToPath(storagePath, id);
    IdToPathIsPrefixed(storagePath, id);
    PathToIdOfIdToPath(storagePath, id);
    assert path == (storagePath + "/" + projectId) + "/" + stem + "." + "md";
    assert '/' !in "md" && '.' !in "md";
    ExtnameOfFile(storagePath + "/" + projectId, stem, "md");
    assert DropLast3(name) == stem;
    assert FolderNoteId(name) == stem + "/" + (stem + ".md");
    assert id == projectId + "/" + (stem + ".md");
    if stem != projectId && id == FolderNoteId(name) {
      SameFirstSegment(projectId, stem + ".md", stem, stem + ".md");
    }
  }

  // ----------------------------------------------- content extraction

  /** The row of a note: its id, and its project as the first segment. */
  function NoteRowOf(storagePath: string, path: string, noteType: NoteType, content: string, disk: Disk): (r: NoteRow)
    ensures r.noteId == PathToId(storagePath, path) && r.projectId == Split(r.noteId, '/')[0]
  {
    var noteId := PathToId(storagePath, path);
    NoteRow(noteId, Split(noteId, '/')[0], noteType, content, disk.createdAt(path), disk.modifiedAt(path))
  }

  predicate IsDrawnText(e: Element) {
    e.elemType == "text" && !e.isDeleted
  }

  /** The texts of the drawing's non-deleted text elements, in order. */
  function DrawnTexts(elements: seq<Element>): (r: seq<string>)
    ensures |r| <= |elements|
    ensures forall t :: t in r ==> exists e :: e in elements && IsDrawnText(e) && e.text == t
    decreases |elements|
  {
    if |elements| == 0 then []
    else
      var init := elements[..|elements| - 1];
      var last := elements[|elements| - 1];
      assert forall e :: e in init ==> e in elements;
      if IsDrawnText(last) then DrawnTexts(init) + [last.text] else DrawnTexts(init)
  }

  /** The loop of `extractExcalidrawContent`. */
  method ExcalidrawText(elements: seq<Element>) returns (content: string)
    ensures content == Join(DrawnTexts(elements), "\n")
  {
    var texts: seq<string> := [];
    var i := 0;
    while i < |elements|
      invariant 0 <= i <= |elements|
      invariant texts == DrawnTexts(elements[..i])
    {
      assert elements[..i + 1][..i] == elements[..i];
      if elements[i].elemType == "text" && !elements[i].isDeleted {
        texts := texts + [elements[i].text];
      }
      i := i + 1;
    }
    assert elements[..i] == elements;
    content := Join(texts, "\n");
  }

  /** Each drawn text is one line of the content, when none holds a line
      break. */
  lemma ExcalidrawLines(elements: seq<Element>)
    requires |DrawnTexts(elements)| > 0
    requires forall e :: e in elements ==> '\n' !in e.text
    ensures Split(Join(DrawnTexts(elements), "\n"), '\n') == DrawnTexts(elements)
  {
    var texts := DrawnTexts(elements);
    forall i | 0 <= i < |texts| ensures '\n' !in texts[i] {
      assert texts[i] in texts;
    }
    assert "\n" == ['\n'];
    SplitJoin(texts, '\n');
  }

  // ----------------------------------------------------- link targets

  function LastIndexOfItem(s: string, c: char): (r: int)
    ensures -1 <= r < |s|
    ensures r == -1 <==> c !in s
    ensures r >= 0 ==> s[r] == c && forall k :: r < k < |s| ==> s[k] != c
    decreases |s|
  {
    if |s| == 0 then -1
    else if s[|s| - 1] == c then |s| - 1
    else
      var init := s[..|s| - 1];
      assert s == init + [s[|s| - 1]];
      LastIndexOfItem(init, c)
  }

  /** `match.match(/\(.*\)/)[0].slice(1, -1)`: the text from after the
      first "(" to before the last ")" that follows it. */
  function Parenthesised(m: string): (r: Option<string>)
    ensures r.Some? ==> '(' in m
  {
    var open := IndexOfItem(m, '(');
    if open < 0 then None
    else
      var rest := m[open + 1..];
      var close := LastIndexOfItem(rest, ')');
      if close < 0 then None else Some(rest[..close])
  }

  /** The id a link match points to: the text in parentheses up to the
      first "#", decoded by `linkToId`. */
  function LinkTarget(m: string): Option<string> {
    var inner := Parenthesised(m);
    if inner.None? then None else Some(LinkToId(Split(inner.value, '#')[0]))
  }

  /** A character other than those of "%20" appears in an encoded id only
      where it appears in the id. */
  lemma {:induction false} IdToLinkLacks(id: string, c: char)
    requires c !in id && c != '%' && c != '2' && c != '0'
    ensures c !in IdToLink(id)
    decreases |id|
  {
    if |id| > 0 {
      IdToLinkUnfold(id);
      IdToLinkLacks(id[1..], c);
      assert c !in id[1..] by {
        assert forall k :: 0 <= k < |id[1..]| ==> id[1..][k] == id[k + 1];
      }
    }
  }

  lemma ParenthesisedLink(text: string, inner: string)
    requires '(' !in text && ')' !in inner
    ensures Parenthesised("[" + text + "](" + inner + ")") == Some(inner)
  {
    var m := "[" + text + "](" + inner + ")";
    var open := |text| + 2;
    assert m[open] == '(';
    assert m[..open] == "[" + text + "]";
    assert '(' !in m[..open];
    assert IndexOfItem(m, '(') == open;
    var rest := m[open + 1..];
    assert rest == inner + ")";
    assert LastIndexOfItem(rest, ')') == |inner|;
    assert rest[..|inner|] == inner;
  }

  /** A markdown link written by `idToLink`, with or without a block
      anchor, leads back to the id. */
  lemma LinkTargetOfLink(text: string, id: string, anchor: string)
    requires '(' !in text
    requires '(' !in id && ')' !in id && '#' !in id
    requires !Contains(id, "%20") && !Contains(id, OPEN_ITEM)
    requires anchor == "" || anchor[0] == '#'
    requires ')' !in anchor
    ensures LinkTarget("[" + text + "](" + IdToLink(id) + anchor + ")") == Some(id)
  {
    var link := IdToLink(id);
    IdToLinkLacks(id, ')');
    AnchoredLinkParenthesised(text, link, anchor);
    LinkTargetOf("[" + text + "](" + link + anchor + ")", link + anchor);
    BeforeAnchor(id, anchor);
  }

  lemma AnchoredLinkParenthesised(text: string, link: string, anchor: string)
    requires '(' !in text && ')' !in link && ')' !in anchor
    ensures Parenthesised("[" + text + "](" + link + anchor + ")") == Some(link + anchor)
  {
    assert "[" + text + "](" + link + anchor + ")" == "[" + text + "](" + (link + anchor) + ")";
    ParenthesisedLink(text, link + anchor);
  }

  lemma LinkTargetOf(m: string, inner: string)
    requires Parenthesised(m) == Some(inner)
    ensures LinkTarget(m) == Some(LinkToId(Split(inner, '#')[0]))
  {
  }

  lemma BeforeAnchor(id: string, anchor: string)
    requires '#' !in id
    requires !Contains(id, "%20") && !Contains(id, OPEN_ITEM)
    requires anchor == "" || anchor[0] == '#'
    ensures LinkToId(Split(IdToLink(id) + anchor, '#')[0]) == id
  {
    var link := IdToLink(id);
    IdToLinkLacks(id, '#');
    SplitWithoutSeparator(link, '#');
    if anchor == "" {
      assert link + anchor == link;
    } else {
      assert link + anchor == link + ['#'] + anchor[1..];
      FirstPartBefore(link, '#', anchor[1..]);
    }
    LinkToIdOfIdToLink(id);
  }

  // -------------------------------------------------- removeDanglingData

  /** The ids `removeDanglingData` collects: set ids whose folder is gone. */
  function DanglingIds(metaIds: seq<Option<string>>, storagePath: string, fs: set<string>): (r: seq<string>)
    ensures forall id :: id in r <==> Some(id) in metaIds && id != "" && IdToPath(storagePath, id) !in fs
    decreases |metaIds|
  {
    if |metaIds| == 0 then []
    else
      var init := metaIds[..|metaIds| - 1];
      var last := metaIds[|metaIds| - 1];
      assert metaIds == init + [last];
      var r := DanglingIds(init, storagePath, fs);
      if last.Some? && last.value != "" && IdToPath(storagePath, last.value) !in fs then r + [last.value] else r
  }

  method CollectDanglingIds(metaIds: seq<Option<string>>, storagePath: string, fs: set<string>) returns (removed: seq<string>)
    ensures removed == DanglingIds(metaIds, storagePath, fs)
  {
    removed := [];
    var i := 0;
    while i < |metaIds|
      invariant 0 <= i <= |metaIds|
      invariant removed == DanglingIds(metaIds[..i], storagePath, fs)
    {
      assert metaIds[..i + 1][..i] == metaIds[..i];
      var id := metaIds[i];
      if id.Some? && id.value != "" && IdToPath(storagePath, id.value) !in fs {
        removed := removed + [id.value];
      }
      i := i + 1;
    }
    assert metaIds[..i] == metaIds;
  }

  function MetasNotIn(metas: seq<MetaRow>, ids: seq<string>): (r: seq<MetaRow>)
    ensures forall m :: m in r <==> m in metas && m.id !in ids
  {
    Filter(metas, (m: MetaRow) => m.id !in ids)
  }

  function AuthorsNotIn(authors: seq<AuthorRow>, ids: seq<string>): (r: seq<AuthorRow>)
    ensures forall a :: a in r <==> a in authors && a.projectId !in ids
  {
    Filter(authors, (a: AuthorRow) => a.projectId !in ids)
  }

  function ContentsNotIn(contents: seq<ContentRow>, ids: seq<string>): (r: seq<ContentRow>)
    ensures forall c :: c in r <==> c in contents && c.projectId !in ids
  {
    Filter(contents, (c: ContentRow) => c.projectId !in ids)
  }

  function NotesNotIn(notes: seq<NoteRow>, ids: seq<string>): (r: seq<NoteRow>)
    ensures forall n :: n in r <==> n in notes && n.projectId !in ids
  {
    Filter(notes, (n: NoteRow) => n.projectId !in ids)
  }

  function AnnotationsNotIn(annots: seq<AnnotRow>, ids: seq<string>): (r: seq<AnnotRow>)
    ensures forall a :: a in r <==> a in annots && a.projectId !in ids
  {
    Filter(annots, (a: AnnotRow) => a.projectId !in ids)
  }

  function PairsNotIn(rows: seq<Pair>, ids: seq<string>): (r: seq<Pair>)
    ensures forall x :: x in r <==> x in rows && x.projectId !in ids
  {
    Filter(rows, (x: Pair) => x.projectId !in ids)
  }

  function LinksNotIn(links: seq<Link>, ids: seq<string>): (r: seq<Link>)
    ensures forall l :: l in r <==> l in links && l.source !in ids && l.target !in ids
  {
    Filter(links, (l: Link) => !(l.source in ids || l.target in ids))
  }

  /** `removeDanglingData`: the rows of projects whose folder is gone are
      deleted from every table the statements name; the categories table
      is not among them. */
  method RemoveDanglingData(db: Database, metaIds: seq<Option<string>>, storagePath: string, fs: set<string>)
    modifies db
    ensures var ids := DanglingIds(metaIds, storagePath, fs);
      db.metas == MetasNotIn(old(db.metas), ids)
      && db.authors == AuthorsNotIn(old(db.authors), ids)
      && db.contents == ContentsNotIn(old(db.contents), ids)
      && db.notes == NotesNotIn(old(db.notes), ids)
      && db.annotations == AnnotationsNotIn(old(db.annotations), ids)
      && db.tags == PairsNotIn(old(db.tags), ids)
      && db.links == LinksNotIn(old(db.links), ids)
      && db.categories == old(db.categories)
  {
    var ids := CollectDanglingIds(metaIds, storagePath, fs);
    db.metas := MetasNotIn(db.metas, ids);
    db.authors := AuthorsNotIn(db.authors, ids);
    db.contents := ContentsNotIn(db.contents, ids);
    db.notes := NotesNotIn(db.notes, ids);
    db.annotations := AnnotationsNotIn(db.annotations, ids);
    db.tags := PairsNotIn(db.tags, ids);
    db.links := LinksNotIn(db.links, ids);
  }

  // ------------------------------------------------------ upserts

  /** `insertLink`: an insert of an absent pair. */
  function LinkInserted(links: seq<Link>, l: Link): (r: seq<Link>)
    ensures l in r && forall x :: x in r <==> x in links || x == l
    ensures NoDuplicates(links) ==> NoDuplicates(r)
  {
    if l in links then links else links + [l]
  }

  /** A pair is added only when absent. */
  lemma LinkInsertedLength(links: seq<Link>, l: Link)
    ensures |LinkInserted(links, l)| == |links| + (if l in links then 0 else 1)
  {
  }

  method InsertLink(db: Database, l: Link)
    modifies db`links
    ensures db.links == LinkInserted(old(db.links), l)
  {
    if l !in db.links {
      db.links := db.links + [l];
    }
  }

  /** At most one row per note id. */
  predicate OneRowPerNote(notes: seq<NoteRow>) {
    NoDuplicates(notes) && forall x, y :: x in notes && y in notes && x.noteId == y.noteId ==> x == y
  }

  predicate OneRowPerAnnot(annots: seq<AnnotRow>) {
    NoDuplicates(annots) && forall x, y :: x in annots && y in annots && x.annotId == y.annotId ==> x == y
  }

  /** `insertNote`: the row of that note id replaced. */
  function NoteUpserted(notes: seq<NoteRow>, n: NoteRow): seq<NoteRow> {
    Filter(notes, (x: NoteRow) => x.noteId != n.noteId) + [n]
  }

  function AnnotUpserted(annots: seq<AnnotRow>, a: AnnotRow): seq<AnnotRow> {
    Filter(annots, (x: AnnotRow) => x.annotId != a.annotId) + [a]
  }

  /** After `insertNote` the note's row is the new one and the other
      notes' rows stay; a table with one row per note id keeps that
      property. */
  lemma NoteUpsertedUnique(notes: seq<NoteRow>, n: NoteRow)
    ensures var r := NoteUpserted(notes, n);
      n in r
      && (forall x :: x in r && x.noteId == n.noteId ==> x == n)
      && (forall x: NoteRow :: x.noteId != n.noteId ==> (x in r <==> x in notes))
      && (OneRowPerNote(notes) ==> OneRowPerNote(r))
  {
    var rest := Filter(notes, (x: NoteRow) => x.noteId != n.noteId);
    if OneRowPerNote(notes) {
      FilterNoDuplicates(notes, (x: NoteRow) => x.noteId != n.noteId);
      assert n !in rest;
    }
  }

  lemma AnnotUpsertedUnique(annots: seq<AnnotRow>, a: AnnotRow)
    ensures var r := AnnotUpserted(annots, a);
      a in r
      && (forall x :: x in r && x.annotId == a.annotId ==> x == a)
      && (forall x: AnnotRow :: x.annotId != a.annotId ==> (x in r <==> x in annots))
      && (OneRowPerAnnot(annots) ==> OneRowPerAnnot(r))
  {
    var rest := Filter(annots, (x: AnnotRow) => x.annotId != a.annotId);
    if OneRowPerAnnot(annots) {
      FilterNoDuplicates(annots, (x: AnnotRow) => x.annotId != a.annotId);
      assert a !in rest;
    }
  }

  method InsertNote(db: Database, n: NoteRow)
    modifies db`notes
    ensures db.notes == NoteUpserted(old(db.notes), n)
  {
    db.notes := Filter(db.notes, (x: NoteRow) => x.noteId != n.noteId);
    db.notes := db.notes + [n];
  }

  method InsertAnnot(db: Database, a: AnnotRow)
    modifies db`annotations
    ensures db.annotations == AnnotUpserted(old(db.annotations), a)
  {
    db.annotations := Filter(db.annotations, (x: AnnotRow) => x.annotId != a.annotId);
    db.annotations := db.annotations + [a];
  }

  // ------------------------------------------------------ extractors

  /** The links of a note after one `insertLink` per target, in order. */
  function LinksAdded(links: seq<Link>, source: string, targets: seq<string>): (r: seq<Link>)
    ensures forall t :: t in targets ==> Link(source, t) in r
    ensures forall l :: l in links ==> l in r
    ensures forall l :: l in r ==> l in links || (l.source == source && l.target in targets)
    ensures NoDuplicates(links) ==> NoDuplicates(r)
    decreases |targets|
  {
    if |targets| == 0 then links
    else
      var init := targets[..|targets| - 1];
      var prev := LinksAdded(links, source, init);
      assert targets == init + [targets[|targets| - 1]];
      LinkInserted(prev, Link(source, targets[|targets| - 1]))
  }

  lemma LinksAddedStep(links: seq<Link>, source: string, done: seq<string>, target: string)
    ensures LinksAdded(links, source, done + [target]) == LinkInserted(LinksAdded(links, source, done), Link(source, target))
  {
    assert (done + [target])[..|done|] == done;
  }

  /** The targets of a note's link matches, up to the first match without
      parentheses: the pattern never yields one, and a throw would end the
      loop there. */
  function Targets(matches: seq<string>): seq<string>
    decreases |matches|
  {
    if |matches| == 0 || LinkTarget(matches[0]).None? then []
    else [LinkTarget(matches[0]).value] + Targets(matches[1..])
  }

  /** `extractMarkdownLinks`. */
  method ExtractMarkdownLinks(db: Database, source: string, matches: seq<string>)
    modifies db`links
    ensures db.links == LinksAdded(old(db.links), source, Targets(matches))
  {
    var i := 0;
    ghost var done: seq<string> := [];
    while i < |matches| && LinkTarget(matches[i]).Some?
      invariant 0 <= i <= |matches|
      invariant Targets(matches) == done + Targets(matches[i..])
      invariant db.links == LinksAdded(old(db.links), source, done)
    {
      var target := LinkTarget(matches[i]).value;
      assert matches[i..][1..] == matches[i + 1..];
      assert Targets(matches[i..]) == [target] + Targets(matches[i + 1..]);
      assert done + Targets(matches[i..]) == (done + [target]) + Targets(matches[i + 1..]);
      LinksAddedStep(old(db.links), source, done, target);
      InsertLink(db, Link(source, target));
      done := done + [target];
      i := i + 1;
    }
    assert Targets(matches[i..]) == [];
    assert done + [] == done;
  }

  /** `extractMarkdownContent` followed by `extractMarkdownLinks`. */
  method ExtractMarkdown(db: Database, storagePath: string, path: string, disk: Disk)
    modifies db`notes, db`links
    ensures var text := disk.readText(path);
      db.notes == NoteUpserted(old(db.notes), NoteRowOf(storagePath, path, Markdown, text, disk))
      && db.links == LinksAdded(old(db.links), PathToId(storagePath, path), Targets(disk.linkMatchesOf(text)))
  {
    var text := disk.readText(path);
    InsertNote(db, NoteRowOf(storagePath, path, Markdown, text, disk));
    ExtractMarkdownLinks(db, PathToId(storagePath, path), disk.linkMatchesOf(text));
  }

  /** `extractExcalidrawContent`. */
  method ExtractExcalidraw(db: Database, storagePath: string, path: string, disk: Disk)
    modifies db`notes
    ensures db.notes == NoteUpserted(old(db.notes), NoteRowOf(storagePath, path, Excalidraw,
      Join(DrawnTexts(disk.elementsOf(disk.readText(path))), "\n"), disk))
  {
    var content := ExcalidrawText(disk.elementsOf(disk.readText(path)));
    InsertNote(db, NoteRowOf(storagePath, path, Excalidraw, content, disk));
  }

  /** A page and the text stored for it. */
  datatype PageText = PageText(page: string, text: string)

  /** The pages of a PDF, numbered from 1, each with its items' text
      joined. */
  function PdfPageTexts(pages: seq<seq<string>>): (r: seq<PageText>)
    ensures |r| == |pages|
    ensures forall i :: 0 <= i < |r| ==> r[i] == PageText(NatToString(i + 1), Join(pages[i], ""))
  {
    seq(|pages|, i requires 0 <= i < |pages| => PageText(NatToString(i + 1), Join(pages[i], "")))
  }

  /** The contents table after one `insertContent` per page, in order. */
  function ContentsAfter(rows: seq<ContentRow>, projectId: string, texts: seq<PageText>): seq<ContentRow>
    decreases |texts|
  {
    if |texts| == 0 then rows
    else
      var last := texts[|texts| - 1];
      ContentReplaced(ContentsAfter(rows, projectId, texts[..|texts| - 1]), projectId, last.page, last.text)
  }

  lemma ContentsAfterSnoc(rows: seq<ContentRow>, projectId: string, texts: seq<PageText>, i: nat)
    requires i < |texts|
    ensures ContentsAfter(rows, projectId, texts[..i + 1])
      == ContentReplaced(ContentsAfter(rows, projectId, texts[..i]), projectId, texts[i].page, texts[i].text)
  {
    assert texts[..i + 1][..i] == texts[..i];
  }

  /** A page no later page replaces keeps a row holding its text. */
  lemma {:induction false} ContentsAfterStored(rows: seq<ContentRow>, projectId: string, texts: seq<PageText>, k: nat)
    requires k < |texts|
    requires forall j :: k < j < |texts| ==> texts[j].page != texts[k].page
    ensures ContentRow(projectId, texts[k].page, texts[k].text) in ContentsAfter(rows, projectId, texts)
    decreases |texts|
  {
    var n := |texts| - 1;
    var init := texts[..n];
    var prev := ContentsAfter(rows, projectId, init);
    assert ContentsAfter(rows, projectId, texts) == ContentReplaced(prev, projectId, texts[n].page, texts[n].text);
    if k == n {
      ContentReplacedOnce(prev, projectId, texts[n].page, texts[n].text);
    } else {
      assert init[k] == texts[k];
      forall j | k < j < |init| ensures init[j].page != init[k].page {
        assert init[j] == texts[j];
      }
      ContentsAfterStored(rows, projectId, init, k);
      ContentReplacedKeeps(prev, projectId, texts[n].page, texts[n].text, ContentRow(projectId, texts[k].page, texts[k].text));
    }
  }

  /** A row of a page no later page replaces holds that page's text. */
  lemma {:induction false} ContentsAfterOnce(rows: seq<ContentRow>, projectId: string, texts: seq<PageText>, k: nat, x: ContentRow)
    requires k < |texts|
    requires forall j :: k < j < |texts| ==> texts[j].page != texts[k].page
    requires x in ContentsAfter(rows, projectId, texts) && x.projectId == projectId && x.page == texts[k].page
    ensures x.content == texts[k].text
    decreases |texts|
  {
    var n := |texts| - 1;
    var init := texts[..n];
    var prev := ContentsAfter(rows, projectId, init);
    assert ContentsAfter(rows, projectId, texts) == ContentReplaced(prev, projectId, texts[n].page, texts[n].text);
    if k == n {
      ContentReplacedOnce(prev, projectId, texts[n].page, texts[n].text);
    } else {
      assert init[k] == texts[k];
      forall j | k < j < |init| ensures init[j].page != init[k].page {
        assert init[j] == texts[j];
      }
      ContentReplacedKeeps(prev, projectId, texts[n].page, texts[n].text, x);
      ContentsAfterOnce(rows, projectId, init, k, x);
    }
  }

  /** Page numbers are distinct, so no page of a PDF replaces another. */
  lemma PdfPagesDistinct(pages: seq<seq<string>>, k: nat)
    requires k < |pages|
    ensures forall j :: k < j < |pages| ==> PdfPageTexts(pages)[j].page != PdfPageTexts(pages)[k].page
  {
    forall j | k < j < |pages| ensures PdfPageTexts(pages)[j].page != PdfPageTexts(pages)[k].page {
      NatToStringDistinct(j + 1, k + 1);
    }
  }

  /** Each stored page has a row holding its text, under its number. */
  lemma PdfPagesStored(rows: seq<ContentRow>, projectId: string, pages: seq<seq<string>>, k: nat)
    requires 1 <= k <= |pages|
    ensures ContentRow(projectId, NatToString(k), Join(pages[k - 1], ""))
      in ContentsAfter(rows, projectId, PdfPageTexts(pages))
  {
    var texts := PdfPageTexts(pages);
    assert texts[k - 1] == PageText(NatToString(k), Join(pages[k - 1], ""));
    PdfPagesDistinct(pages, k - 1);
    ContentsAfterStored(rows, projectId, texts, k - 1);
  }

  /** No stored page has a row holding any other text. */
  lemma PdfPagesOnce(rows: seq<ContentRow>, projectId: string, pages: seq<seq<string>>, k: nat, x: ContentRow)
    requires 1 <= k <= |pages|
    requires x in ContentsAfter(rows, projectId, PdfPageTexts(pages)) && x.projectId == projectId && x.page == NatToString(k)
    ensures x.content == Join(pages[k - 1], "")
  {
    var texts := PdfPageTexts(pages);
    assert texts[k - 1] == PageText(NatToString(k), Join(pages[k - 1], ""));
    PdfPageOnce(rows, projectId, texts, pages, k - 1, x);
  }

  lemma PdfPageOnce(rows: seq<ContentRow>, projectId: string, texts: seq<PageText>, pages: seq<seq<string>>,
                    k: nat, x: ContentRow)
    requires k < |pages| && texts == PdfPageTexts(pages)
    requires x in ContentsAfter(rows, projectId, texts) && x.projectId == projectId && x.page == texts[k].page
    ensures x.content == texts[k].text
  {
    PdfPagesDistinct(pages, k);
    ContentsAfterOnce(rows, projectId, texts, k, x);
  }

  lemma ContentReplacedKeeps(rows: seq<ContentRow>, projectId: string, page: string, content: string, x: ContentRow)
    requires x.page != page
    ensures x in ContentReplaced(rows, projectId, page, content) <==> x in rows
  {
  }

  /** `extractPDFContent`: one `insertContent` per page, numbered from 1. */
  method ExtractPdf(db: Database, storagePath: string, path: string, disk: Disk)
    modifies db`contents
    ensures var pages := disk.pdfPagesOf(path);
      db.contents == ContentsAfter(old(db.contents), Split(PathToId(storagePath, path), '/')[0], PdfPageTexts(pages))
  {
    var projectId := Split(PathToId(storagePath, path), '/')[0];
    var pages := disk.pdfPagesOf(path);
    ghost var texts := PdfPageTexts(pages);
    var pageNumber := 1;
    while pageNumber <= |pages|
      invariant 1 <= pageNumber <= |pages| + 1
      invariant db.contents == ContentsAfter(old(db.contents), projectId, texts[..pageNumber - 1])
    {
      ContentsAfterSnoc(old(db.contents), projectId, texts, pageNumber - 1);
      InsertContent(db, projectId, NatToString(pageNumber), Join(pages[pageNumber - 1], ""));
      pageNumber := pageNumber + 1;
    }
    assert texts[..|pages|] == texts;
  }

  /** `extractMetaFromMarkdown`: the project's rows are written again; an
      unknown project throws before anything is written. */
  method ExtractMeta(db: Database, storagePath: string, path: string, disk: Disk)
    modifies db`metas, db`authors, db`tags, db`categories
    ensures var projectId := Split(PathToId(storagePath, path), '/')[0];
      disk.projectOf(projectId).None? ==>
        (db.metas == old(db.metas) && db.authors == old(db.authors)
         && db.tags == old(db.tags) && db.categories == old(db.categories))
    ensures var projectId := Split(PathToId(storagePath, path), '/')[0];
      var p := disk.projectOf(projectId);
      p.Some? ==>
        (db.metas == MetasWithout(old(db.metas), p.value.id)
                     + [MetaRowOf(p.value, disk.issuedTextOf(p.value), disk.originalTitleOf(p.value))]
         && db.authors == old(db.authors) + AuthorRowsOf(projectId, p.value.author)
         && db.tags == OtherProjects(old(db.tags), projectId) + PairsOf(projectId, Dedup(p.value.tags))
         && db.categories == OtherProjects(old(db.categories), projectId) + PairsOf(projectId, Dedup(p.value.categories)))
  {
    var projectId := Split(PathToId(storagePath, path), '/')[0];
    var p := disk.projectOf(projectId);
    if p.Some? {
      var project := p.value;
      InsertMeta(db, project, disk.issuedTextOf(project), disk.originalTitleOf(project));
      InsertAuthors(db, projectId, project.author);
      InsertTags(db, projectId, project.tags);
      InsertCategories(db, projectId, project.categories);
    }
  }

  /** The eight tables of the database as one value. */
  datatype Tables = Tables(metas: seq<MetaRow>, authors: seq<AuthorRow>, categories: seq<Pair>, tags: seq<Pair>,
                           contents: seq<ContentRow>, annotations: seq<AnnotRow>, notes: seq<NoteRow>, links: seq<Link>)

  function TablesOf(db: Database): Tables
    reads db
  {
    Tables(db.metas, db.authors, db.categories, db.tags, db.contents, db.annotations, db.notes, db.links)
  }

  /** The invariant the scan keeps: no link twice and at most one row per
      note id and per annotation id. */
  predicate TablesUpserted(t: Tables) {
    NoDuplicates(t.links) && OneRowPerNote(t.notes) && OneRowPerAnnot(t.annotations)
  }

  predicate Upserted(db: Database)
    reads db
  {
    TablesUpserted(TablesOf(db))
  }

  /** The tables after the extractor `Dispatch` picks has run on one file:
      the project note rewrites its project's metas, authors, tags and
      categories (an unknown project changes nothing); a note or drawing
      replaces its note row, a note also adds its links; a PDF stores one
      content row per page; an annotation file replaces its annotation row. */
  function FileProcessed(t: Tables, storagePath: string, f: FileEntry, disk: Disk): Tables {
    match Dispatch(storagePath, f)
    case FolderNoteMeta =>
      var projectId := Split(PathToId(storagePath, f.path), '/')[0];
      (match disk.projectOf(projectId)
       case None => t
       case Some(p) =>
         t.(metas := MetasWithout(t.metas, p.id) + [MetaRowOf(p, disk.issuedTextOf(p), disk.originalTitleOf(p))],
            authors := t.authors + AuthorRowsOf(projectId, p.author),
            tags := OtherProjects(t.tags, projectId) + PairsOf(projectId, Dedup(p.tags)),
            categories := OtherProjects(t.categories, projectId) + PairsOf(projectId, Dedup(p.categories))))
    case NoteContentAndLinks =>
      var text := disk.readText(f.path);
      t.(notes := NoteUpserted(t.notes, NoteRowOf(storagePath, f.path, Markdown, text, disk)),
         links := LinksAdded(t.links, PathToId(storagePath, f.path), Targets(disk.linkMatchesOf(text))))
    case ExcalidrawContent =>
      t.(notes := NoteUpserted(t.notes, NoteRowOf(storagePath, f.path, Excalidraw,
                                                   Join(DrawnTexts(disk.elementsOf(disk.readText(f.path))), "\n"), disk)))
    case PdfContent =>
      t.(contents := ContentsAfter(t.contents, Split(PathToId(storagePath, f.path), '/')[0], PdfPageTexts(disk.pdfPagesOf(f.path))))
    case AnnotContent =>
      t.(annotations := AnnotUpserted(t.annotations, disk.annotOf(disk.readText(f.path))))
    case Skip => t
  }

  /** The tables after the files have been processed one by one, in order. */
  function FilesProcessed(t: Tables, storagePath: string, files: seq<FileEntry>, disk: Disk): Tables
    decreases |files|
  {
    if |files| == 0 then t
    else FileProcessed(FilesProcessed(t, storagePath, files[..|files| - 1], disk), storagePath, files[|files| - 1], disk)
  }

  /** The tables once the rows of the dangling projects are gone. */
  function WithoutDangling(t: Tables, ids: seq<string>): Tables {
    t.(metas := MetasNotIn(t.metas, ids), authors := AuthorsNotIn(t.authors, ids),
       contents := ContentsNotIn(t.contents, ids), notes := NotesNotIn(t.notes, ids),
       annotations := AnnotationsNotIn(t.annotations, ids), tags := PairsNotIn(t.tags, ids),
       links := LinksNotIn(t.links, ids))
  }

  /** Processing any file keeps the invariant. */
  lemma FileProcessedKeepsUpserted(t: Tables, storagePath: string, f: FileEntry, disk: Disk)
    requires TablesUpserted(t)
    ensures TablesUpserted(FileProcessed(t, storagePath, f, disk))
  {
    match Dispatch(storagePath, f)
    case NoteContentAndLinks =>
      NoteUpsertedUnique(t.notes, NoteRowOf(storagePath, f.path, Markdown, disk.readText(f.path), disk));
    case ExcalidrawContent =>
      NoteUpsertedUnique(t.notes, NoteRowOf(storagePath, f.path, Excalidraw,
        Join(DrawnTexts(disk.elementsOf(disk.readText(f.path))), "\n"), disk));
    case AnnotContent =>
      AnnotUpsertedUnique(t.annotations, disk.annotOf(disk.readText(f.path)));
    case _ =>
  }

  /** Processing any run of files keeps the invariant. */
  lemma {:induction false} FilesProcessedKeepsUpserted(t: Tables, storagePath: string, files: seq<FileEntry>, disk: Disk)
    requires TablesUpserted(t)
    ensures TablesUpserted(FilesProcessed(t, storagePath, files, disk))
    decreases |files|
  {
    if |files| > 0 {
      FilesProcessedKeepsUpserted(t, storagePath, files[..|files| - 1], disk);
      FileProcessedKeepsUpserted(FilesProcessed(t, storagePath, files[..|files| - 1], disk), storagePath, files[|files| - 1], disk);
    }
  }

  /** A file the scan skips changes no table. */
  lemma SkippedFileUnchanged(t: Tables, storagePath: string, f: FileEntry, disk: Disk)
    requires Extname(f.path) !in {Some("md"), Some("excalidraw"), Some("pdf"), Some("json")}
    ensures FileProcessed(t, storagePath, f, disk) == t
  {
  }

  /** After a scan, a note file handed on last has exactly one row, the
      one read from its current text. */
  lemma LastNoteStored(t: Tables, storagePath: string, files: seq<FileEntry>, disk: Disk)
    requires |files| > 0
    requires var f := files[|files| - 1];
      Extname(f.path) == Some("md") && PathToId(storagePath, f.path) != FolderNoteId(f.name)
    ensures var f := files[|files| - 1];
      var n := NoteRowOf(storagePath, f.path, Markdown, disk.readText(f.path), disk);
      var r := FilesProcessed(t, storagePath, files, disk).notes;
      n in r && forall x :: x in r && x.noteId == n.noteId ==> x == n
  {
    var f := files[|files| - 1];
    NoteUpsertedUnique(FilesProcessed(t, storagePath, files[..|files| - 1], disk).notes,
                       NoteRowOf(storagePath, f.path, Markdown, disk.readText(f.path), disk));
  }

  /** The callback `indexFiles` hands to `processEntries`. */
  method ProcessFile(db: Database, storagePath: string, f: FileEntry, disk: Disk)
    modifies db
    ensures TablesOf(db) == FileProcessed(old(TablesOf(db)), storagePath, f, disk)
  {
    match Dispatch(storagePath, f)
    case FolderNoteMeta =>
      ExtractMeta(db, storagePath, f.path, disk);
    case NoteContentAndLinks =>
      ExtractMarkdown(db, storagePath, f.path, disk);
    case ExcalidrawContent =>
      ExtractExcalidraw(db, storagePath, f.path, disk);
    case PdfContent =>
      ExtractPdf(db, storagePath, f.path, disk);
    case AnnotContent =>
      InsertAnnot(db, disk.annotOf(disk.readText(f.path)));
    case Skip =>
  }

  /** Dropping rows keeps the invariant. */
  lemma DanglingRemovalKeepsUpserted(t: Tables, ids: seq<string>)
    requires TablesUpserted(t)
    ensures TablesUpserted(WithoutDangling(t, ids))
  {
    FilterNoDuplicates(t.links, (l: Link) => !(l.source in ids || l.target in ids));
    FilterNoDuplicates(t.notes, (n: NoteRow) => n.projectId !in ids);
    FilterNoDuplicates(t.annotations, (a: AnnotRow) => a.projectId !in ids);
  }

  /** `indexFiles`: the dangling rows go, then every file modified since
      the last scan is extracted, in walk order. */
  method IndexFiles(db: Database, storagePath: string, entries: seq<FileEntry>, lastScanTime: int,
                    metaIds: seq<Option<string>>, fs: set<string>, disk: Disk)
    modifies db
    ensures TablesOf(db) == FilesProcessed(WithoutDangling(old(TablesOf(db)), DanglingIds(metaIds, storagePath, fs)),
                                           storagePath, Walked(entries, lastScanTime, disk.modifiedAt), disk)
    ensures old(Upserted(db)) ==> Upserted(db)
  {
    RemoveDanglingData(db, metaIds, storagePath, fs);
    ghost var cleaned := TablesOf(db);
    var files := ProcessEntries(entries, lastScanTime, disk.modifiedAt);
    var i := 0;
    while i < |files|
      invariant 0 <= i <= |files|
      invariant TablesOf(db) == FilesProcessed(cleaned, storagePath, files[..i], disk)
    {
      assert files[..i + 1][..i] == files[..i];
      ProcessFile(db, storagePath, files[i], disk);
      i := i + 1;
    }
    assert files[..i] == files;
    if old(Upserted(db)) {
      DanglingRemovalKeepsUpserted(old(TablesOf(db)), DanglingIds(metaIds, storagePath, fs));
      FilesProcessedKeepsUpserted(cleaned, storagePath, files, disk);
    }
  }
}
