/**
 * The file store of projects: each project folder holds a markdown note
 * named after the project whose fenced "```json" block carries the
 * project's meta data; the store lists project folders, filters them by
 * category and finds and renames a project's PDF.
 *
 * The clock (`new Date()` less 30 days), directory listings and the JSON
 * text of a project are parameters; `JSON.stringify`/`JSON.parse` are not
 * modelled, the meta block is carried as text.
 */
module ProjectFileOps {
  import opened Wrappers
  import opened Strings
  import opened Models
  import opened TauriPath
  import opened ProjectUtils
  import opened Meta

  // ------------------------------------------------ project note framing

  const JSON_FENCE: string := "```json"
  const FENCE: string := "```"

  /** The lines above the meta block: the auto-managed notice, the label as
      a heading, the author and abstract lines, a blank line and "## meta".
      The text starts with a newline, as the template literal does. */
  function NoteHeader(notice: string, name: string, authorLine: string, abstractLine: string): string {
    "\n" + notice + "\n# " + name + "\n" + authorLine + "\n" + abstractLine + "\n\n## meta"
  }

  /** The note text `saveProjectNote` writes: the header, then the JSON text
      between a "```json" line and a "```" line, then a final newline. */
  function ProjectNoteText(header: string, json: string): string {
    header + "\n" + JSON_FENCE + "\n" + json + "\n" + FENCE + "\n"
  }

  /** A rendered `cond && text` inside a template: the text, or "false". */
  function WhenProject(isProject: bool, text: string): string {
    if isProject then text else "false"
  }

  /** `saveProjectNote`: the text written to `<id>/<id>.md`. The words of
      the notice, "author" and "abstract" are the translated strings. */
  method SaveProjectNote(project: Project, isProject: bool, abstractText: Option<string>,
                         notice: string, authorWord: string, abstractWord: string, json: string)
    returns (text: string)
    ensures text == ProjectNoteText(
      NoteHeader(notice, project.name,
        WhenProject(isProject, authorWord) + ": " + Join(AuthorNames(seq(|project.author|, i requires 0 <= i < |project.author| => Some(project.author[i]))), ", "),
        WhenProject(isProject, abstractWord) + ": " + (if abstractText.Some? then abstractText.value else "")),
      json)
  {
    var authors := seq(|project.author|, i requires 0 <= i < |project.author| => Some(project.author[i]));
    var authorText := AuthorToString(Some(authors));
    var abstractLine := WhenProject(isProject, abstractWord) + ": " + (if abstractText.Some? then abstractText.value else "");
    var header := NoteHeader(notice, project.name, WhenProject(isProject, authorWord) + ": " + authorText, abstractLine);
    text := ProjectNoteText(header, json);
  }

  /** `loadProjectNote` up to `JSON.parse`: the lines strictly between the
      first "```json" line and the first "```" line, joined by newlines. It
      fails when there is no "```json" line, no "```" line, or the first
      "```" line comes before the first "```json" line. */
  function LoadProjectNote(text: string): (r: Result<string>)
    ensures r.Ok? <==> (JSON_FENCE in Split(text, '\n') && FENCE in Split(text, '\n')
      && IndexOfItem(Split(text, '\n'), JSON_FENCE) < IndexOfItem(Split(text, '\n'), FENCE))
    ensures r.Ok? ==>
      exists s, e :: 0 <= s < e < |Split(text, '\n')|
        && Split(text, '\n')[s] == JSON_FENCE && Split(text, '\n')[e] == FENCE
        && JSON_FENCE !in Split(text, '\n')[..s] && FENCE !in Split(text, '\n')[..e]
        && r.value == Join(Split(text, '\n')[s + 1..e], "\n")
  {
    var lines := Split(text, '\n');
    var start := IndexOfItem(lines, JSON_FENCE);
    var end := IndexOfItem(lines, FENCE);
    if start == -1 || start > end then Err("Cannot find meta data of project")
    else
      assert start != end by {
        assert lines[start] == JSON_FENCE && lines[end] == FENCE;
        assert JSON_FENCE[3] != FENCE[2];
      }
      Ok(Join(lines[start + 1..end], "\n"))
  }

  lemma FenceLines()
    ensures Split(FENCE + "\n", '\n') == [FENCE, ""]
    ensures '\n' !in JSON_FENCE && '\n' !in FENCE
    ensures JSON_FENCE != FENCE
  {
    assert FENCE + "\n" == FENCE + ['\n'] + "";
    assert '\n' !in FENCE;
    SplitAfterPart(FENCE, '\n', "");
    assert JSON_FENCE[3] != FENCE[2];
  }

  /** The lines of a note `saveProjectNote` writes. */
  lemma {:induction false} ProjectNoteLines(header: string, json: string)
    ensures Split(ProjectNoteText(header, json), '\n')
      == Split(header, '\n') + [JSON_FENCE] + Split(json, '\n') + [FENCE, ""]
  {
    FenceLines();
    var tail := json + "\n" + FENCE + "\n";
    assert ProjectNoteText(header, json) == header + ['\n'] + (JSON_FENCE + ['\n'] + tail);
    SplitConcat(header, '\n', JSON_FENCE + ['\n'] + tail);
    SplitAfterPart(JSON_FENCE, '\n', tail);
    assert tail == json + ['\n'] + (FENCE + "\n");
    SplitConcat(json, '\n', FENCE + "\n");
  }

  /** Round trip: the block `saveProjectNote` writes is what
      `loadProjectNote` reads back, as long as no header line is a fence
      and the JSON text has no "```" line. */
  lemma SaveLoadProjectNote(header: string, json: string)
    requires JSON_FENCE !in Split(header, '\n') && FENCE !in Split(header, '\n')
    requires FENCE !in Split(json, '\n')
    ensures LoadProjectNote(ProjectNoteText(header, json)) == Ok(json)
  {
    FenceLines();
    ProjectNoteLines(header, json);
    var h := Split(header, '\n');
    var j := Split(json, '\n');
    BetweenFences(h, j);
    JoinSplit(json, '\n');
  }

  /** In the lines `h`, "```json", `j`, "```", "" the fences are found
      right around `j`. */
  lemma BetweenFences(h: seq<string>, j: seq<string>)
    requires JSON_FENCE !in h && FENCE !in h && FENCE !in j
    ensures var lines := h + [JSON_FENCE] + j + [FENCE, ""];
      IndexOfItem(lines, JSON_FENCE) == |h|
      && IndexOfItem(lines, FENCE) == |h| + 1 + |j|
      && lines[|h| + 1..|h| + 1 + |j|] == j
  {
    FenceLines();
    var lines := h + [JSON_FENCE] + j + [FENCE, ""];
    assert lines[|h|] == JSON_FENCE && lines[..|h|] == h;
    FirstIndex(lines, JSON_FENCE, |h|);
    var e := |h| + 1 + |j|;
    assert lines[e] == FENCE && lines[..e] == h + [JSON_FENCE] + j;
    FirstIndex(lines, FENCE, e);
    assert lines[|h| + 1..e] == j;
  }

  /** Without a "```json" line there is no meta data. */
  lemma LoadWithoutJsonFence(text: string)
    requires JSON_FENCE !in Split(text, '\n')
    ensures LoadProjectNote(text).Err?
  {
  }

  /** A "```" line before the "```json" line hides the meta data. */
  lemma LoadWithEarlierFence(before: seq<string>, after: seq<string>, text: string)
    requires JSON_FENCE !in before
    requires Split(text, '\n') == before + [FENCE] + after
    ensures LoadProjectNote(text).Err?
  {
    FenceLines();
    var lines := before + [FENCE] + after;
    if JSON_FENCE in lines {
      var s := IndexOfItem(lines, JSON_FENCE);
      assert lines[|before|] == FENCE;
      assert s > |before|;
      assert IndexOfItem(lines, FENCE) <= |before|;
    }
  }

  // ------------------------------------------------------- getProjects

  /** Projects added after the cutoff, in their order. */
  function AddedAfter(projects: seq<Project>, cutoff: int): (r: seq<Project>)
    ensures forall p :: p in r <==> p in projects && p.timestampAdded > cutoff
    ensures multiset(r) <= multiset(projects)
  {
    if |projects| == 0 then []
    else
      var init := AddedAfter(projects[..|projects| - 1], cutoff);
      var last := projects[|projects| - 1];
      assert projects == projects[..|projects| - 1] + [last];
      if last.timestampAdded > cutoff then init + [last] else init
  }

  predicate NewestFirst(s: seq<Project>) {
    forall i, j :: 0 <= i < j < |s| ==> s[i].timestampAdded >= s[j].timestampAdded
  }

  /** One step of the stable sort with `b.timestampAdded - a.timestampAdded`. */
  function InsertByAdded(s: seq<Project>, x: Project): (r: seq<Project>)
    ensures multiset(r) == multiset(s) + multiset{x}
    decreases |s|
  {
    if |s| > 0 && s[|s| - 1].timestampAdded < x.timestampAdded then
      assert s == s[..|s| - 1] + [s[|s| - 1]];
      InsertByAdded(s[..|s| - 1], x) + [s[|s| - 1]]
    else s + [x]
  }

  lemma {:induction false} InsertByAddedSorted(s: seq<Project>, x: Project)
    requires NewestFirst(s)
    ensures NewestFirst(InsertByAdded(s, x))
    decreases |s|
  {
    if |s| > 0 && s[|s| - 1].timestampAdded < x.timestampAdded {
      var last := s[|s| - 1];
      var init := s[..|s| - 1];
      InsertByAddedSorted(init, x);
      var r0 := InsertByAdded(init, x);
      forall i | 0 <= i < |r0| ensures r0[i].timestampAdded >= last.timestampAdded {
        assert r0[i] in multiset(r0);
        if r0[i] != x {
          assert r0[i] in multiset(init);
          var k :| 0 <= k < |init| && init[k] == r0[i];
          assert s[k] == r0[i];
        }
      }
    }
  }

  function SortNewestFirst(s: seq<Project>): (r: seq<Project>)
    ensures multiset(r) == multiset(s)
    ensures NewestFirst(r)
    decreases |s|
  {
    if |s| == 0 then []
    else
      assert s == s[..|s| - 1] + [s[|s| - 1]];
      var init := SortNewestFirst(s[..|s| - 1]);
      InsertByAddedSorted(init, s[|s| - 1]);
      InsertByAdded(init, s[|s| - 1])
  }

  function Favorites(projects: seq<Project>): (r: seq<Project>)
    ensures forall p :: p in r <==> p in projects && p.favorite
  {
    if |projects| == 0 then []
    else
      var init := Favorites(projects[..|projects| - 1]);
      var last := projects[|projects| - 1];
      assert projects == projects[..|projects| - 1] + [last];
      if last.favorite then init + [last] else init
  }

  function InCategory(projects: seq<Project>, category: string): (r: seq<Project>)
    ensures forall p :: p in r <==> p in projects && category in p.categories
  {
    if |projects| == 0 then []
    else
      var init := InCategory(projects[..|projects| - 1], category);
      var last := projects[|projects| - 1];
      assert projects == projects[..|projects| - 1] + [last];
      if category in last.categories then init + [last] else init
  }

  /** The category switch of `getProjects`; `cutoff` is the time 30 days
      before now. */
  function FilterProjects(projects: seq<Project>, category: string, cutoff: int): (r: seq<Project>)
    ensures category == LIBRARY ==> r == projects
    ensures category == ADDED ==> (NewestFirst(r)
      && multiset(r) == multiset(AddedAfter(projects, cutoff)))
    ensures category == FAVORITES ==> forall p :: p in r <==> p in projects && p.favorite
    ensures category !in {LIBRARY, ADDED, FAVORITES} ==>
      forall p :: p in r <==> p in projects && category in p.categories
  {
    if category == LIBRARY then projects
    else if category == ADDED then SortNewestFirst(AddedAfter(projects, cutoff))
    else if category == FAVORITES then Favorites(projects)
    else InCategory(projects, category)
  }

  /** The optional attachments: the first PDF as `path`, the note tree as
      `children`. */
  function Attach(p: Project, includePDF: bool, includeNotes: bool,
                  pdfOf: string -> Option<string>, treeOf: string -> seq<FolderOrNote>): (r: Project)
    ensures r.id == p.id && r.categories == p.categories && r.timestampAdded == p.timestampAdded
    ensures r.path == (if includePDF then pdfOf(p.id) else p.path)
    ensures r.children == (if includeNotes then treeOf(p.id) else p.children)
  {
    var p1 := if includePDF then p.(path := pdfOf(p.id)) else p;
    if includeNotes then p1.(children := treeOf(p.id)) else p1
  }

  /** `getProjects`: filter, then attach PDF paths and note trees. */
  method GetProjects(all: seq<Project>, category: string, cutoff: int,
                     includePDF: bool, includeNotes: bool,
                     pdfOf: string -> Option<string>, treeOf: string -> seq<FolderOrNote>)
    returns (projects: seq<Project>)
    ensures |projects| == |FilterProjects(all, category, cutoff)|
    ensures forall i :: 0 <= i < |projects| ==>
      projects[i] == Attach(FilterProjects(all, category, cutoff)[i], includePDF, includeNotes, pdfOf, treeOf)
  {
    projects := FilterProjects(all, category, cutoff);
    ghost var filtered := projects;
    var i := 0;
    while i < |projects|
      invariant 0 <= i <= |projects| == |filtered|
      invariant forall k :: 0 <= k < i ==> projects[k] == Attach(filtered[k], includePDF, includeNotes, pdfOf, treeOf)
      invariant forall k :: i <= k < |projects| ==> projects[k] == filtered[k]
    {
      var project := projects[i];
      if includePDF {
        project := project.(path := pdfOf(project.id));
      }
      if includeNotes {
        project := project.(children := treeOf(project.id));
      }
      projects := projects[i := project];
      i := i + 1;
    }
  }

  // ---------------------------------------------------- getAllProjects

  /** The projects of the folder listing: hidden folders and folders whose
      note does not load are skipped. */
  function ListedProjects(folders: seq<string>, load: string -> Option<Project>): (r: seq<Project>)
    decreases |folders|
  {
    if |folders| == 0 then []
    else
      var init := ListedProjects(folders[..|folders| - 1], load);
      var f := folders[|folders| - 1];
      if StartsWith(f, ".") || load(f).None? then init else init + [load(f).value]
  }

  /** Every listed project was loaded from a visible folder. */
  lemma {:induction false} ListedProjectsFromVisible(folders: seq<string>, load: string -> Option<Project>)
    ensures forall p :: p in ListedProjects(folders, load) ==>
      exists f :: f in folders && !StartsWith(f, ".") && load(f) == Some(p)
    decreases |folders|
  {
    if |folders| > 0 {
      var init := folders[..|folders| - 1];
      ListedProjectsFromVisible(init, load);
      forall p | p in ListedProjects(folders, load)
        ensures exists f :: f in folders && !StartsWith(f, ".") && load(f) == Some(p)
      {
        if p in ListedProjects(init, load) {
          var f :| f in init && !StartsWith(f, ".") && load(f) == Some(p);
          assert f in folders;
        } else {
          assert folders[|folders| - 1] in folders;
        }
      }
    }
  }

  /** A visible folder whose note loads contributes its project. */
  lemma {:induction false} VisibleFolderListed(folders: seq<string>, load: string -> Option<Project>, i: nat)
    requires i < |folders| && !StartsWith(folders[i], ".") && load(folders[i]).Some?
    ensures load(folders[i]).value in ListedProjects(folders, load)
    decreases |folders|
  {
    if i < |folders| - 1 {
      var init := folders[..|folders| - 1];
      assert init[i] == folders[i];
      VisibleFolderListed(init, load, i);
    }
  }

  /** `getAllProjects`: the push loop over the storage folder's entries. */
  method GetAllProjects(folders: seq<string>, load: string -> Option<Project>,
                        includePDF: bool, includeNotes: bool,
                        pdfOf: string -> Option<string>, treeOf: string -> seq<FolderOrNote>)
    returns (projects: seq<Project>)
    ensures |projects| == |ListedProjects(folders, load)|
    ensures forall i :: 0 <= i < |projects| ==>
      projects[i] == Attach(ListedProjects(folders, load)[i], includePDF, includeNotes, pdfOf, treeOf)
  {
    projects := [];
    var n := 0;
    while n < |folders|
      invariant 0 <= n <= |folders|
      invariant |projects| == |ListedProjects(folders[..n], load)|
      invariant forall i :: 0 <= i < |projects| ==>
        projects[i] == Attach(ListedProjects(folders[..n], load)[i], includePDF, includeNotes, pdfOf, treeOf)
    {
      assert folders[..n + 1][..n] == folders[..n];
      var folder := folders[n];
      n := n + 1;
      if StartsWith(folder, ".") {
        continue;
      }
      var project := load(folder);
      if project.None? {
        continue;
      }
      var p := project.value;
      if includePDF {
        p := p.(path := pdfOf(p.id));
      }
      if includeNotes {
        p := p.(children := treeOf(p.id));
      }
      projects := projects + [p];
    }
    assert folders[..n] == folders;
  }

  // ------------------------------------------------- getPDF, renamePDF

  const PDF_EXT: string := "pdf"

  predicate IsPdf(e: FileEntry) {
    Extname(e.path) == Some(PDF_EXT)
  }

  /** `getPDF`: the path of the first entry of the project folder whose
      extension is "pdf". */
  method GetPDF(entries: seq<FileEntry>) returns (r: Option<string>)
    ensures r.None? <==> forall j :: 0 <= j < |entries| ==> !IsPdf(entries[j])
    ensures r.Some? ==>
      exists i :: 0 <= i < |entries| && IsPdf(entries[i])
        && entries[i].path == r.value && forall j :: 0 <= j < i ==> !IsPdf(entries[j])
  {
    var i := 0;
    while i < |entries|
      invariant 0 <= i <= |entries|
      invariant forall j :: 0 <= j < i ==> !IsPdf(entries[j])
    {
      if IsPdf(entries[i]) {
        return Some(entries[i].path);
      }
      i := i + 1;
    }
    return None;
  }

  /** `renamePDF` as a change of the set of existing paths: nothing happens
      without a project or a PDF; otherwise the PDF moves to
      `<storage>/<id>/<citeKey>.pdf` and the new path is returned. A cite
      key that cannot be built makes the call fail. */
  function RenamePDF(fs: set<string>, storagePath: string, project: Option<Project>,
                     pdf: Option<string>, rule: string): (r: Result<(set<string>, Option<string>)>)
    ensures (project.None? || pdf.None?) ==> r == Ok((fs, None))
    ensures project.Some? && pdf.Some? ==>
      (r.Ok? <==> CiteKey(project.value, rule, false).Ok?) && (r.Ok? ==> r.value.1.Some?)
    ensures r.Ok? && r.value.1.Some? ==>
      project.Some? && pdf.Some? && CiteKey(project.value, rule, false).Ok?
      && r.value.0 == fs - {pdf.value} + {r.value.1.value}
      && r.value.1.value == storagePath + "/" + project.value.id + "/" + CiteKey(project.value, rule, false).value + ".pdf"
  {
    if project.None? || pdf.None? then Ok((fs, None))
    else
      var key := CiteKey(project.value, rule, false);
      if key.Err? then Err(key.error)
      else
        var newPath := PathJoin([storagePath, project.value.id, key.value + ".pdf"]);
        PathJoinThree(storagePath, project.value.id, key.value + ".pdf");
        Ok((fs - {pdf.value} + {newPath}, Some(newPath)))
  }

  lemma PathJoinThree(a: string, b: string, c: string)
    ensures PathJoin([a, b, c]) == a + "/" + b + "/" + c
  {
    assert [a, b, c][1..] == [b, c];
    assert [b, c][1..] == [c];
    assert Join([b, c], "/") == b + "/" + c;
    assert Join([a, b, c], "/") == a + "/" + Join([b, c], "/");
  }

  /** The renamed PDF sits in the project folder and keeps the "pdf"
      extension, as long as the cite key has no "/" or "." in it. */
  lemma RenamedPdfInProjectFolder(fs: set<string>, storagePath: string, project: Project, pdf: string, rule: string)
    requires CiteKey(project, rule, false).Ok?
    requires '/' !in CiteKey(project, rule, false).value && '.' !in CiteKey(project, rule, false).value
    ensures RenamePDF(fs, storagePath, Some(project), Some(pdf), rule).Ok?
    ensures var newPath := RenamePDF(fs, storagePath, Some(project), Some(pdf), rule).value.1.value;
      StartsWith(newPath, IdToPath(storagePath, project.id) + "/")
      && Extname(newPath) == Some("pdf")
      && newPath in RenamePDF(fs, storagePath, Some(project), Some(pdf), rule).value.0
  {
    var r := RenamePDF(fs, storagePath, Some(project), Some(pdf), rule);
    var key := CiteKey(project, rule, false).value;
    var newPath := storagePath + "/" + project.id + "/" + key + ".pdf";
    assert r == Ok((fs - {pdf} + {newPath}, Some(newPath)));
    PdfPathInFolder(storagePath, project.id, key);
  }

  lemma PdfPathInFolder(storagePath: string, id: string, key: string)
    requires '/' !in key && '.' !in key
    ensures StartsWith(storagePath + "/" + id + "/" + key + ".pdf", IdToPath(storagePath, id) + "/")
    ensures Extname(storagePath + "/" + id + "/" + key + ".pdf") == Some("pdf")
  {
    var newPath := storagePath + "/" + id + "/" + key + ".pdf";
    IdToPathIsPrefixed(storagePath, id);
    var prefix := storagePath + "/" + id + "/";
    assert newPath == prefix + (key + ".pdf");
    assert newPath[..|prefix|] == prefix;
    ExtnameOfFile(storagePath + "/" + id, key, "pdf");
    assert storagePath + "/" + id + "/" + key + "." + "pdf" == newPath;
  }
}
