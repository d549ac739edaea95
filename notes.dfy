/**
 * Notes of a project: choosing a free name for a new note or folder,
 * reading a note's description from its id, renaming, listing the notes
 * under a folder, building the folder/note tree of a project, and the
 * placeholder list of the bulk delete.
 *
 * The file system is the set of paths that exist; the translated base
 * name ("New note", "New folder") is a parameter.
 */
module Notes {
  import opened Wrappers
  import opened Strings
  import opened Models
  import opened TauriPath
  import opened ProjectUtils
  import Seqs

  // ------------------------------------------------------ free names

  /** The i-th name tried: the base name, then "base 1", "base 2", … */
  function Candidate(base: string, i: nat): (r: string)
    ensures i == 0 ==> r == base
    ensures i > 0 ==> |r| > |base| && r[..|base|] == base
  {
    if i == 0 then base else base + " " + NatToString(i)
  }

  lemma CandidateInjective(base: string, i: nat, j: nat)
    requires Candidate(base, i) == Candidate(base, j)
    ensures i == j
  {
    if i > 0 && j > 0 {
      var n := |base| + 1;
      assert Candidate(base, i)[n..] == NatToString(i);
      assert Candidate(base, j)[n..] == NatToString(j);
      NatToStringInjective(i, j);
    }
  }

  /** The path of the i-th candidate in `dir`. */
  function CandidatePath(dir: string, base: string, ext: string, i: nat): string {
    dir + "/" + Candidate(base, i) + ext
  }

  lemma CandidatePathInjective(dir: string, base: string, ext: string, i: nat, j: nat)
    requires CandidatePath(dir, base, ext, i) == CandidatePath(dir, base, ext, j)
    ensures i == j
  {
    var p := CandidatePath(dir, base, ext, i);
    var a := Candidate(base, i);
    var b := Candidate(base, j);
    assert |a| == |b|;
    assert p[|dir| + 1..|dir| + 1 + |a|] == a;
    assert p[|dir| + 1..|dir| + 1 + |b|] == b;
    CandidateInjective(base, i, j);
  }

  /** `name` is the first candidate whose path is free. */
  ghost predicate FirstFree(dir: string, base: string, ext: string, fs: set<string>, name: string) {
    exists k: nat :: name == Candidate(base, k)
      && CandidatePath(dir, base, ext, k) !in fs
      && forall j: nat :: j < k ==> CandidatePath(dir, base, ext, j) in fs
  }

  /** The naming loop of `createNote` and `createFolder`: tries the
      candidates in order until one does not exist. */
  /** The paths of the first `n` candidates. */
  function Tried(dir: string, base: string, ext: string, n: nat): set<string> {
    if n == 0 then {} else Tried(dir, base, ext, n - 1) + {CandidatePath(dir, base, ext, n - 1)}
  }

  lemma {:induction false} TriedExcludesLater(dir: string, base: string, ext: string, n: nat, m: nat)
    requires m >= n
    ensures CandidatePath(dir, base, ext, m) !in Tried(dir, base, ext, n)
    decreases n
  {
    if n > 0 {
      TriedExcludesLater(dir, base, ext, n - 1, m);
      if CandidatePath(dir, base, ext, m) == CandidatePath(dir, base, ext, n - 1) {
        CandidatePathInjective(dir, base, ext, m, n - 1);
      }
    }
  }

  lemma {:induction false} TriedHolds(dir: string, base: string, ext: string, n: nat, j: nat)
    requires j < n
    ensures CandidatePath(dir, base, ext, j) in Tried(dir, base, ext, n)
    decreases n
  {
    if j < n - 1 {
      TriedHolds(dir, base, ext, n - 1, j);
    }
  }

  /** The naming loop of `createNote` and `createFolder`: tries the
      candidates in order until one does not exist. */
  method FindFreeName(dir: string, base: string, ext: string, fs: set<string>) returns (name: string, path: string)
    ensures path == dir + "/" + name + ext
    ensures path !in fs
    ensures FirstFree(dir, base, ext, fs, name)
  {
    name := base;
    path := dir + "/" + name + ext;
    var i := 1;
    while path in fs
      invariant i >= 1
      invariant name == Candidate(base, i - 1)
      invariant path == CandidatePath(dir, base, ext, i - 1)
      invariant Tried(dir, base, ext, i - 1) <= fs
      decreases |fs - Tried(dir, base, ext, i - 1)|
    {
      TriedExcludesLater(dir, base, ext, i - 1, i - 1);
      assert fs - Tried(dir, base, ext, i) < fs - Tried(dir, base, ext, i - 1);
      name := base + " " + NatToString(i);
      path := dir + "/" + name + ext;
      i := i + 1;
    }
    forall j: nat | j < i - 1 ensures CandidatePath(dir, base, ext, j) in fs {
      TriedHolds(dir, base, ext, i - 1, j);
    }
  }

  // ------------------------------------------------------ createNote

  /** The extensions of Markdown and Excalidraw notes, without the dot. */
  const MD: string := "md"
  const EXCALIDRAW: string := "excalidraw"

  function NoteExt(t: NoteType): string {
    match t
    case Markdown => ".md"
    case Excalidraw => ".excalidraw"
  }

  /** The note with file name `fileName` inside folder `folderId`. */
  function NoteAt(storagePath: string, folderId: string, t: NoteType, fileName: string): (r: Note)
    ensures r.id == folderId + "/" + fileName && r.name == fileName && r.noteType == t
    ensures r.path == IdToPath(storagePath, r.id)
  {
    IdToPathIsPrefixed(storagePath, folderId + "/" + fileName);
    Note(folderId + "/" + fileName, Split(folderId, '/')[0], storagePath + "/" + folderId + "/" + fileName, fileName, t)
  }

  /** The directory of a folder id under the storage path, as `join` of
      the storage path and the id's segments gives it. */
  lemma FolderDir(storagePath: string, folderId: string)
    ensures PathJoin([storagePath] + Split(folderId, '/')) == storagePath + "/" + folderId
  {
    var splits := Split(folderId, '/');
    assert ([storagePath] + splits)[1..] == splits;
    JoinSplit(folderId, '/');
  }

  /** `createNote`: a note named after the first free candidate, with the
      extension of its type, in folder `folderId`; `projectId` is the
      folder's first segment. */
  method CreateNote(storagePath: string, folderId: string, t: NoteType, base: string, fs: set<string>)
    returns (note: Note)
    ensures note.path !in fs
    ensures exists name :: FirstFree(storagePath + "/" + folderId, base, NoteExt(t), fs, name)
                        && note == NoteAt(storagePath, folderId, t, name + NoteExt(t))
    ensures note.projectId == Split(folderId, '/')[0] && note.noteType == t
  {
    var splits := Split(folderId, '/');
    var projectId := splits[0];
    var ext := NoteExt(t);
    FolderDir(storagePath, folderId);
    var dir := PathJoin([storagePath] + splits);
    var name, path := FindFreeName(dir, base, ext, fs);
    JoinAppend([storagePath] + splits, name + ext, "/");
    assert PathJoin([storagePath] + splits + [name + ext]) == path;
    var noteId := PathToId(storagePath, path);
    PathToIdOfIdToPath(storagePath, folderId + "/" + (name + ext));
    IdToPathIsPrefixed(storagePath, folderId + "/" + (name + ext));
    note := Note(noteId, projectId, path, name + ext, t);
  }

  /** `createFolder`: a folder named after the first free candidate inside
      the parent folder, with no children. */
  method CreateFolder(storagePath: string, parentFolderId: string, base: string, fs: set<string>)
    returns (folder: FolderOrNote)
    ensures IdToPath(storagePath, folder.id) !in fs
    ensures FirstFree(IdToPath(storagePath, parentFolderId), base, "", fs, folder.name)
    ensures folder == FolderOrNote(parentFolderId + "/" + folder.name, folder.name, FolderKind, None, [])
  {
    var dir := IdToPath(storagePath, parentFolderId);
    var name, path := FindFreeName(dir, base, "", fs);
    PathJoinTwo(dir, name);
    IdToPathIsPrefixed(storagePath, parentFolderId);
    PathToIdOfIdToPath(storagePath, parentFolderId + "/" + name);
    IdToPathIsPrefixed(storagePath, parentFolderId + "/" + name);
    assert path == storagePath + "/" + (parentFolderId + "/" + name);
    folder := FolderOrNote(PathToId(storagePath, path), name, FolderKind, None, []);
  }

  // --------------------------------------------------------- getNote

  predicate IsNoteExt(ext: Option<string>) {
    ext == Some(MD) || ext == Some(EXCALIDRAW)
  }

  /** `getNote`: nothing unless the id has extension md or excalidraw;
      otherwise the note with the id's first segment as project and its last
      segment as label, Markdown exactly for md. */
  function GetNote(storagePath: string, noteId: string): (r: Option<Note>)
    ensures r.Some? <==> IsNoteExt(Extname(noteId))
    ensures r.Some? ==> (r.value.id == noteId && r.value.name == Basename(noteId)
                         && r.value.projectId == Split(noteId, '/')[0]
                         && r.value.path == IdToPath(storagePath, noteId)
                         && (r.value.noteType == Markdown <==> Extname(noteId) == Some(MD)))
  {
    var ext := Extname(noteId);
    if !IsNoteExt(ext) then None
    else
      Some(Note(noteId, Split(noteId, '/')[0], IdToPath(storagePath, noteId), Basename(noteId),
                if ext == Some(MD) then Markdown else Excalidraw))
  }

  lemma GetNoteOfFile(storagePath: string, folderId: string, t: NoteType, name: string, ext: string)
    requires '/' !in name && '/' !in ext && '.' !in ext && NoteExt(t) == "." + ext
    ensures GetNote(storagePath, NoteAt(storagePath, folderId, t, name + NoteExt(t)).id)
            == Some(NoteAt(storagePath, folderId, t, name + NoteExt(t)))
  {
    var fileName := name + NoteExt(t);
    assert fileName == name + "." + ext;
    var note := NoteAt(storagePath, folderId, t, fileName);
    NoteIdParts(folderId, name, ext);
    assert IsNoteExt(Some(ext)) && (ext == MD <==> t == Markdown) by {
      assert ("." + ext)[1..] == ext;
    }
  }

  /** The segments and extension of the id of file `name.ext` in a folder. */
  lemma NoteIdParts(folderId: string, name: string, ext: string)
    requires '/' !in name && '/' !in ext && '.' !in ext
    ensures var id := folderId + "/" + (name + "." + ext);
      Extname(id) == Some(ext) && Basename(id) == name + "." + ext
      && Split(id, '/')[0] == Split(folderId, '/')[0]
  {
    ExtnameOfFile(folderId, name, ext);
    assert folderId + "/" + (name + "." + ext) == folderId + "/" + name + "." + ext;
    assert folderId + "/" + (name + "." + ext) == folderId + ['/'] + (name + "." + ext);
    FirstPartBefore(folderId, '/', name + "." + ext);
  }

  /** A created note is read back unchanged from its id. */
  lemma GetNoteOfCreated(storagePath: string, folderId: string, t: NoteType, name: string)
    requires '/' !in name
    ensures GetNote(storagePath, NoteAt(storagePath, folderId, t, name + NoteExt(t)).id)
            == Some(NoteAt(storagePath, folderId, t, name + NoteExt(t)))
  {
    if t == Markdown {
      GetNoteOfFile(storagePath, folderId, t, name, MD);
    } else {
      GetNoteOfFile(storagePath, folderId, t, name, EXCALIDRAW);
    }
  }

  // ------------------------------------------------------ renameNote

  /** `renameNote`'s result: the old extension (read from the old path) is
      appended unless the new id already ends with it; an old id without
      extension makes the rename fail. */
  function RenamedNote(storagePath: string, oldNoteId: string, newNoteId: string): (r: Option<Note>)
    ensures r.Some? <==> Extname(IdToPath(storagePath, oldNoteId)).Some?
    ensures r.Some? ==>
      var dotExt := "." + Extname(IdToPath(storagePath, oldNoteId)).value;
      EndsWith(r.value.id, dotExt)
      && r.value.id == (if EndsWith(newNoteId, dotExt) then newNoteId else newNoteId + dotExt)
      && r.value.projectId == Split(r.value.id, '/')[0]
      && r.value.name == Basename(r.value.id)
      && r.value.path == IdToPath(storagePath, r.value.id)
  {
    match Extname(IdToPath(storagePath, oldNoteId))
    case None => None
    case Some(ext) =>
      var id := if EndsWith(newNoteId, "." + ext) then newNoteId else newNoteId + "." + ext;
      assert EndsWith(id, "." + ext) by {
        if !EndsWith(newNoteId, "." + ext) {
          assert id[|id| - |"." + ext|..] == "." + ext;
        }
      }
      Some(Note(id, Split(id, '/')[0], IdToPath(storagePath, id), Basename(id),
                if ext == MD then Markdown else Excalidraw))
  }

  /** Renaming to an id that already carries the extension keeps it. */
  lemma RenameKeepsExtendedId(storagePath: string, oldNoteId: string, newNoteId: string)
    requires RenamedNote(storagePath, oldNoteId, newNoteId).Some?
    ensures RenamedNote(storagePath, oldNoteId, RenamedNote(storagePath, oldNoteId, newNoteId).value.id).value.id
            == RenamedNote(storagePath, oldNoteId, newNoteId).value.id
  {
  }

  // -------------------------------------------------------- getNotes

  /** The note a listed file stands for, if any: files with extension md
      or excalidraw, except the project note `projectId/projectId.md`. */
  function FileNote(storagePath: string, e: FileEntry): (r: Option<Note>)
    ensures r.Some? ==> IsNoteExt(Extname(e.path)) && r.value.path == e.path
    ensures r.Some? ==> r.value.id == PathToId(storagePath, e.path)
    ensures r.Some? ==> var s := Split(r.value.id, '/'); r.value.id != s[0] + "/" + s[0] + ".md"
  {
    var ext := Extname(e.path);
    if !IsNoteExt(ext) then None
    else
      var noteId := PathToId(storagePath, e.path);
      var splits := Split(noteId, '/');
      var projectId := splits[0];
      if noteId == projectId + "/" + projectId + ".md" then None
      else Some(Note(noteId, projectId, e.path, splits[|splits| - 1],
                     if ext == Some(MD) then Markdown else Excalidraw))
  }

  /** The notes of a listing, depth first and in listing order. */
  function ListedNotes(storagePath: string, entries: seq<FileEntry>): seq<Note>
    decreases entries
  {
    if |entries| == 0 then []
    else ListedNotes(storagePath, entries[..|entries| - 1]) + EntryNotes(storagePath, entries[|entries| - 1])
  }

  function EntryNotes(storagePath: string, e: FileEntry): seq<Note>
    decreases e
  {
    if e.isFile then (match FileNote(storagePath, e) case None => [] case Some(n) => [n])
    else if e.hasChildren then ListedNotes(storagePath, e.children)
    else []
  }

  /** Every listed note comes from a note file of the listing. */
  lemma {:induction false} ListedNotesAreNotes(storagePath: string, entries: seq<FileEntry>)
    ensures forall n :: n in ListedNotes(storagePath, entries) ==>
      IsNoteExt(Extname(n.path)) && n.id == PathToId(storagePath, n.path)
    decreases entries
  {
    if |entries| > 0 {
      ListedNotesAreNotes(storagePath, entries[..|entries| - 1]);
      var e := entries[|entries| - 1];
      if !e.isFile && e.hasChildren {
        ListedNotesAreNotes(storagePath, e.children);
      }
    }
  }

  /** `processEntries` inside `getNotes`: walks the listing, keeping note
      files and descending into directories. */
  method CollectNotes(storagePath: string, entries: seq<FileEntry>) returns (notes: seq<Note>)
    ensures notes == ListedNotes(storagePath, entries)
    decreases entries
  {
    notes := [];
    var i := 0;
    while i < |entries|
      invariant 0 <= i <= |entries|
      invariant notes == ListedNotes(storagePath, entries[..i])
    {
      assert entries[..i + 1][..i] == entries[..i];
      var entry := entries[i];
      if entry.isFile {
        var note := FileNote(storagePath, entry);
        if note.Some? {
          notes := notes + [note.value];
        }
      } else if entry.hasChildren {
        var sub := CollectNotes(storagePath, entry.children);
        notes := notes + sub;
      }
      i := i + 1;
    }
    assert entries[..i] == entries;
  }

  /** Label order: no note's label is less than an earlier one's. */
  predicate SortedByLabel(s: seq<Note>) {
    forall i, j :: 0 <= i < j < |s| ==> NotBefore(s[j], s[i])
  }

  /** `a` may come after `b`: its label is not less than `b`'s. */
  predicate NotBefore(a: Note, b: Note) {
    !StrLess(a.name, b.name)
  }

  function InsertNote(s: seq<Note>, x: Note): (r: seq<Note>)
    ensures multiset(r) == multiset(s) + multiset{x}
    decreases |s|
  {
    if |s| == 0 then [x]
    else if StrLess(x.name, s[|s| - 1].name) then
      assert s == s[..|s| - 1] + [s[|s| - 1]];
      InsertNote(s[..|s| - 1], x) + [s[|s| - 1]]
    else s + [x]
  }

  lemma {:induction false} InsertNoteSorted(s: seq<Note>, x: Note)
    requires SortedByLabel(s)
    ensures SortedByLabel(InsertNote(s, x))
    decreases |s|
  {
    if |s| > 0 {
      var last := s[|s| - 1];
      var init := s[..|s| - 1];
      assert s == init + [last];
      if StrLess(x.name, last.name) {
        assert SortedByLabel(init) by {
          assert forall i :: 0 <= i < |init| ==> init[i] == s[i];
        }
        InsertNoteSorted(init, x);
        NoteMovesLeft(init, last, x);
        AppendSorted(InsertNote(init, x), last);
      } else {
        NoteAtEnd(s, x);
        AppendSorted(s, x);
      }
    }
  }

  /** Every note of the insert into the rest may come before `last`. */
  lemma NoteMovesLeft(init: seq<Note>, last: Note, x: Note)
    requires SortedByLabel(init + [last]) && StrLess(x.name, last.name)
    ensures forall i :: 0 <= i < |InsertNote(init, x)| ==> NotBefore(last, InsertNote(init, x)[i])
  {
    var s := init + [last];
    var r0 := InsertNote(init, x);
    forall i | 0 <= i < |r0| ensures NotBefore(last, r0[i]) {
      var e := r0[i];
      assert e in multiset(r0);
      assert e in multiset(init) || e == x;
      if e == x {
        StrLessAsymmetric(x.name, last.name);
      } else {
        var k :| 0 <= k < |init| && init[k] == e;
        assert s[k] == e && s[|s| - 1] == last;
      }
    }
  }

  /** A note not below the last one of a sorted list is not below any. */
  lemma NoteAtEnd(s: seq<Note>, x: Note)
    requires SortedByLabel(s) && |s| > 0 && !StrLess(x.name, s[|s| - 1].name)
    ensures forall i :: 0 <= i < |s| ==> NotBefore(x, s[i])
  {
    var last := s[|s| - 1];
    forall i | 0 <= i < |s| ensures NotBefore(x, s[i]) {
      if i < |s| - 1 {
        assert NotBefore(last, s[i]);
        if StrLess(x.name, s[i].name) {
          StrLessSplit(s[i].name, last.name, x.name);
        }
      }
    }
  }

  lemma AppendSorted(s: seq<Note>, x: Note)
    requires SortedByLabel(s)
    requires forall i :: 0 <= i < |s| ==> NotBefore(x, s[i])
    ensures SortedByLabel(s + [x])
  {
  }

  function SortNotes(s: seq<Note>): (r: seq<Note>)
    ensures multiset(r) == multiset(s)
    ensures SortedByLabel(r)
    decreases |s|
  {
    if |s| == 0 then []
    else
      assert s == s[..|s| - 1] + [s[|s| - 1]];
      InsertNoteSorted(SortNotes(s[..|s| - 1]), s[|s| - 1]);
      InsertNote(SortNotes(s[..|s| - 1]), s[|s| - 1])
  }

  /** What one row of the SQL branch of `getNotes` gives. */
  function RowNotes(storagePath: string, ids: seq<string>): (r: seq<Option<Note>>)
    ensures |r| == |ids|
    ensures forall i :: 0 <= i < |ids| ==> r[i] == GetNote(storagePath, ids[i])
  {
    seq(|ids|, i requires 0 <= i < |ids| => GetNote(storagePath, ids[i]))
  }

  /** The ids `SELECT _id FROM notes WHERE _id LIKE '$1%'` returns as
      written: the pattern sits inside quotes, so it is the literal text
      "$1%", the folder id bound to `$1` plays no part, and only ids that
      start with "$1" match. */
  function LikeRowsAsWritten(noteIds: seq<string>, folderId: string): (r: seq<string>)
    ensures forall x :: x in r <==> x in noteIds && StartsWith(x, "$1")
  {
    Seqs.Filter(noteIds, (x: string) => StartsWith(x, "$1"))
  }

  /** The note ids under the folder, in table order: what the statement
      evidently means to select. */
  function FolderRows(noteIds: seq<string>, folderId: string): (r: seq<string>)
    ensures forall x :: x in r <==> x in noteIds && StartsWith(x, folderId)
    ensures |r| <= |noteIds|
  {
    Seqs.Filter(noteIds, (x: string) => StartsWith(x, folderId))
  }

  /** With no note id starting with "$", the statement as written returns
      nothing for any folder, so `getNotes` always falls back to listing
      the folder. */
  lemma {:induction false} LikeRowsAsWrittenIgnoresFolder(noteIds: seq<string>, folderId: string)
    requires forall x :: x in noteIds ==> |x| == 0 || x[0] != '$'
    ensures LikeRowsAsWritten(noteIds, folderId) == []
    decreases |noteIds|
  {
    if |noteIds| > 0 {
      var init := noteIds[..|noteIds| - 1];
      var last := noteIds[|noteIds| - 1];
      assert last in noteIds;
      if |last| >= 2 {
        assert last[..2][0] == last[0];
      }
      assert !StartsWith(last, "$1");
      LikeRowsAsWrittenIgnoresFolder(init, folderId);
    }
  }

  /** The note "p/a.md" of folder "p" is not returned as written, and is
      returned by the intended selection. */
  lemma LikeRowsAsWrittenMissesFolder()
    ensures LikeRowsAsWritten(["p/a.md"], "p") == []
    ensures FolderRows(["p/a.md"], "p") == ["p/a.md"]
  {
    LikeRowsAsWrittenIgnoresFolder(["p/a.md"], "p");
    var r := FolderRows(["p/a.md"], "p");
    assert StartsWith("p/a.md", "p");
    assert "p/a.md" in r;
    assert forall x :: x in r ==> x == "p/a.md";
    assert |r| == 1;
  }

  /** `getNotes`: the notes of the ids the notes table holds under the
      folder, when there are any; otherwise the notes of the folder's
      listing, sorted by label. */
  method GetNotes(storagePath: string, folderId: string, noteIds: seq<string>, entries: seq<FileEntry>)
    returns (notes: seq<Option<Note>>)
    ensures |FolderRows(noteIds, folderId)| > 0 ==> notes == RowNotes(storagePath, FolderRows(noteIds, folderId))
    ensures |FolderRows(noteIds, folderId)| == 0 ==>
      var s := SortNotes(ListedNotes(storagePath, entries));
      notes == seq(|s|, i requires 0 <= i < |s| => Some(s[i]))
  {
    var rows := FolderRows(noteIds, folderId);
    if |rows| > 0 {
      var result: seq<Option<Note>> := [];
      var i := 0;
      while i < |rows|
        invariant 0 <= i <= |rows|
        invariant result == RowNotes(storagePath, rows[..i])
      {
        result := result + [GetNote(storagePath, rows[i])];
        i := i + 1;
      }
      assert rows[..i] == rows;
      return result;
    }
    var found := CollectNotes(storagePath, entries);
    var sorted := SortNotes(found);
    notes := seq(|sorted|, i requires 0 <= i < |sorted| => Some(sorted[i]));
  }

  // ----------------------------------------------------- getNoteTree

  /** The tree node one listed entry becomes, if any: a note file (md or
      excalidraw, not named after the project), a folder with its own
      tree, or a bare node for a directory that came without children. */
  function EntryNode(storagePath: string, projectId: string, e: FileEntry): (r: Option<FolderOrNote>)
    ensures r.Some? ==> r.value.id == PathToId(storagePath, e.path) && r.value.name == e.name
    ensures r.Some? && e.isFile ==> r.value.kind == NoteKind && r.value.children == []
    ensures r.None? <==> e.isFile && (!IsNoteExt(Extname(e.path)) || e.name == projectId + ".md")
    decreases e, 1
  {
    var id := PathToId(storagePath, e.path);
    if e.isFile then
      var ext := Extname(e.path);
      if !IsNoteExt(ext) || e.name == projectId + ".md" then None
      else Some(FolderOrNote(id, e.name, NoteKind, Some(if ext == Some(MD) then Markdown else Excalidraw), []))
    else if e.hasChildren then
      Some(FolderOrNote(id, e.name, FolderKind, None, NoteTree(storagePath, projectId, e.children)))
    else Some(FolderOrNote(id, e.name, Untyped, None, []))
  }

  /** The tree of a listing, in listing order. */
  function NoteTree(storagePath: string, projectId: string, entries: seq<FileEntry>): (r: seq<FolderOrNote>)
    ensures |r| <= |entries|
    decreases entries, 0
  {
    if |entries| == 0 then []
    else
      var rest := NoteTree(storagePath, projectId, entries[..|entries| - 1]);
      match EntryNode(storagePath, projectId, entries[|entries| - 1])
      case None => rest
      case Some(n) => rest + [n]
  }

  /** The number of directory entries of a listing (at its top level). */
  function CountDirs(entries: seq<FileEntry>): nat {
    if |entries| == 0 then 0
    else CountDirs(entries[..|entries| - 1]) + (if entries[|entries| - 1].isFile then 0 else 1)
  }

  function CountFolderNodes(nodes: seq<FolderOrNote>): nat {
    if |nodes| == 0 then 0
    else CountFolderNodes(nodes[..|nodes| - 1]) + (if nodes[|nodes| - 1].kind != NoteKind then 1 else 0)
  }

  /** No directory is dropped from the tree: only files are filtered. */
  lemma {:induction false} NoteTreeKeepsDirs(storagePath: string, projectId: string, entries: seq<FileEntry>)
    ensures CountFolderNodes(NoteTree(storagePath, projectId, entries)) == CountDirs(entries)
    decreases |entries|
  {
    if |entries| > 0 {
      NoteTreeKeepsDirs(storagePath, projectId, entries[..|entries| - 1]);
      var rest := NoteTree(storagePath, projectId, entries[..|entries| - 1]);
      var node := EntryNode(storagePath, projectId, entries[|entries| - 1]);
      if node.Some? {
        assert (rest + [node.value])[..|rest|] == rest;
      }
    }
  }

  /** Every note node of the tree, at any depth, is a note file not named
      after the project. */
  predicate NoteNodesValid(projectId: string, nodes: seq<FolderOrNote>)
    decreases nodes
  {
    forall i :: 0 <= i < |nodes| ==>
      (nodes[i].kind == NoteKind ==> nodes[i].name != projectId + ".md" && nodes[i].noteType.Some?)
      && NoteNodesValid(projectId, nodes[i].children)
  }

  lemma {:induction false} NoteTreeValid(storagePath: string, projectId: string, entries: seq<FileEntry>)
    ensures NoteNodesValid(projectId, NoteTree(storagePath, projectId, entries))
    decreases entries
  {
    if |entries| > 0 {
      NoteTreeValid(storagePath, projectId, entries[..|entries| - 1]);
      var e := entries[|entries| - 1];
      if !e.isFile && e.hasChildren {
        NoteTreeValid(storagePath, projectId, e.children);
      }
    }
  }

  /** `_dfs` of `getNoteTree`: one loop over the entries, a recursive call
      for each directory's children. */
  method BuildNoteTree(storagePath: string, projectId: string, entries: seq<FileEntry>) returns (children: seq<FolderOrNote>)
    ensures children == NoteTree(storagePath, projectId, entries)
    decreases entries
  {
    children := [];
    var i := 0;
    while i < |entries|
      invariant 0 <= i <= |entries|
      invariant children == NoteTree(storagePath, projectId, entries[..i])
    {
      assert entries[..i + 1][..i] == entries[..i];
      var entry := entries[i];
      var id := PathToId(storagePath, entry.path);
      if entry.isFile {
        var ext := Extname(entry.path);
        if IsNoteExt(ext) && entry.name != projectId + ".md" {
          children := children + [FolderOrNote(id, entry.name, NoteKind, Some(if ext == Some(MD) then Markdown else Excalidraw), [])];
        }
      } else if entry.hasChildren {
        var sub := BuildNoteTree(storagePath, projectId, entry.children);
        children := children + [FolderOrNote(id, entry.name, FolderKind, None, sub)];
      } else {
        children := children + [FolderOrNote(id, entry.name, Untyped, None, [])];
      }
      i := i + 1;
    }
    assert entries[..i] == entries;
  }

  // ---------------------------------------------------- deleteFolder

  /** The i-th placeholder, "$i". */
  function Placeholder(i: nat): string {
    "$" + NatToString(i)
  }

  /** `noteIds.map((_, index) => "$" + (index + 1)).join(", ")`. */
  function Placeholders(n: nat): (r: string) {
    Join(seq(n, i requires 0 <= i < n => Placeholder(i + 1)), ", ")
  }

  /** One "$" per note id, so every id gets a parameter. */
  function CountChar(s: string, c: char): nat {
    if |s| == 0 then 0 else (if s[0] == c then 1 else 0) + CountChar(s[1..], c)
  }

  lemma {:induction false} CountCharConcat(a: string, b: string, c: char)
    ensures CountChar(a + b, c) == CountChar(a, c) + CountChar(b, c)
    decreases |a|
  {
    if |a| > 0 {
      assert (a + b)[1..] == a[1..] + b;
      CountCharConcat(a[1..], b, c);
    } else {
      assert a + b == b;
    }
  }

  lemma {:induction false} CountDigits(n: nat)
    ensures CountChar(NatToString(n), '$') == 0
    decreases n
  {
    var s := NatToString(n);
    if |s| > 0 {
      assert s[0] != '$';
      var t := s[1..];
      assert forall i :: 0 <= i < |t| ==> t[i] == s[i + 1];
      DigitsNoDollar(t);
    }
  }

  lemma {:induction false} DigitsNoDollar(s: string)
    requires forall i :: 0 <= i < |s| ==> '0' <= s[i] <= '9'
    ensures CountChar(s, '$') == 0
    decreases |s|
  {
    if |s| > 0 {
      DigitsNoDollar(s[1..]);
    }
  }

  lemma {:induction false} PlaceholdersCount(n: nat, k: nat)
    ensures CountChar(Join(seq(n, i requires 0 <= i < n => Placeholder(i + k + 1)), ", "), '$') == n
    decreases n
  {
    var parts := seq(n, i requires 0 <= i < n => Placeholder(i + k + 1));
    if n > 0 {
      CountDigits(k + 1);
      assert CountChar(Placeholder(k + 1), '$') == 1 by {
        assert Placeholder(k + 1)[1..] == NatToString(k + 1);
      }
      if n > 1 {
        var rest := seq(n - 1, i requires 0 <= i < n - 1 => Placeholder(i + (k + 1) + 1));
        assert parts[1..] == rest;
        PlaceholdersCount(n - 1, k + 1);
        assert Join(parts, ", ") == Placeholder(k + 1) + ", " + Join(rest, ", ");
        CountCharConcat(Placeholder(k + 1) + ", ", Join(rest, ", "), '$');
        CountCharConcat(Placeholder(k + 1), ", ", '$');
      }
    }
  }

  /** The list holds exactly one parameter marker per note id. */
  lemma PlaceholdersOnePerId(n: nat)
    ensures CountChar(Placeholders(n), '$') == n
  {
    PlaceholdersCount(n, 0);
    assert seq(n, i requires 0 <= i < n => Placeholder(i + 1)) == seq(n, i requires 0 <= i < n => Placeholder(i + 0 + 1));
  }

  /** The list inside the parentheses of the links statement, as written:
      the template puts a literal "$" in front of the placeholder list. */
  function LinksInListAsWritten(n: nat): string {
    "$" + Placeholders(n)
  }

  /** The list as intended: the placeholder list itself, as the notes
      statement uses it. */
  function LinksInList(n: nat): string {
    Placeholders(n)
  }

  /** The corrected list names one parameter per note id. */
  lemma LinksInListParameters(n: nat)
    ensures CountChar(LinksInList(n), '$') == n
  {
    PlaceholdersOnePerId(n);
  }

  /** As written, the list carries one marker more than there are
      parameters, whatever the number of notes. */
  lemma LinksInListAsWrittenExtra(n: nat)
    ensures CountChar(LinksInListAsWritten(n), '$') == n + 1
  {
    PlaceholdersOnePerId(n);
    assert CountChar("$", '$') == 1;
    CountCharConcat("$", Placeholders(n), '$');
  }

  /** For a folder holding one note the list reads "$$1" instead of "$1". */
  lemma LinksInListOneNote()
    ensures LinksInList(1) == "$1"
    ensures LinksInListAsWritten(1) == "$$1"
  {
    assert NatToString(1) == "1";
    var parts := seq(1, i requires 0 <= i < 1 => Placeholder(i + 1));
    assert parts[0] == "$1";
    assert parts == ["$1"];
  }
}
