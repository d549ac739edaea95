/**
 * Project life cycle on top of the two stores: creation, removal from a
 * category, update with a possible change of id, and lookup with a
 * fallback from the SQL store to the file store.
 *
 * The new-id oracle, the clock, the translated default label and the set of
 * existing paths are parameters.
 */
module ProjectIndex {
  import opened Wrappers
  import opened Models
  import opened TauriPath
  import opened ProjectUtils
  import opened ProjectFileOps

  // ----------------------------------------------------- createProject

  /** `createProject`: a new "SP" project in the library and, unless it is
      the library itself, in the given category. The project type is left
      unset (""). */
  function CreateProject(nanoid: string, now: int, newLabel: string, category: string): (r: Project)
    ensures r.id == "SP" + nanoid
    ensures r.categories == if category != LIBRARY then [LIBRARY, category] else [LIBRARY]
    ensures r.tags == [] && r.author == [] && r.children == [] && !r.favorite && r.path.None?
    ensures r.timestampAdded == now && r.timestampModified == now
    ensures r.name == newLabel && r.title == newLabel
  {
    var p := Project("SP" + nanoid, newLabel, newLabel, NoOriginalTitle, "", [], None,
                     now, now, None, [], [LIBRARY], false, [], "");
    if category != LIBRARY then p.(categories := p.categories + [category]) else p
  }

  /** A project is created in the library (first) and in its category. */
  lemma CreateProjectInCategory(nanoid: string, now: int, newLabel: string, category: string)
    ensures var r := CreateProject(nanoid, now, newLabel, category);
      r.categories[0] == LIBRARY && category in r.categories
      && forall c :: c in r.categories ==> c == LIBRARY || c == category
  {
  }

  // ----------------------------------------------------- deleteProject

  /** What `deleteProject` does with a stored project. */
  datatype DeleteOutcome =
    | RemoveEverywhere
    | SetCategories(categories: seq<string>)
    | Failed(message: string)

  /** `categories.filter(id => id != category)`. */
  function Without(s: seq<string>, x: string): (r: seq<string>)
    ensures x !in r
    ensures forall y :: y != x ==> (y in r <==> y in s)
    ensures |r| <= |s|
  {
    if |s| == 0 then []
    else
      var init := Without(s[..|s| - 1], x);
      var last := s[|s| - 1];
      assert s == s[..|s| - 1] + [last];
      if last != x then init + [last] else init
  }

  /** `deleteProject`: with `deleteFromDB` the project is removed from both
      stores; otherwise a category is needed and only it is dropped. A
      project that cannot be found makes the category branch fail. */
  function DeleteProject(project: Option<Project>, deleteFromDB: bool, category: Option<string>): (r: DeleteOutcome)
    ensures deleteFromDB ==> r == RemoveEverywhere
    ensures !deleteFromDB && category.None? ==> r.Failed?
    ensures !deleteFromDB && category.Some? && project.Some? ==>
      r.SetCategories? && r.categories == Without(project.value.categories, category.value)
  {
    if deleteFromDB then RemoveEverywhere
    else if category.None? then Failed("category is needed")
    else if project.None? then Failed("project not found")
    else SetCategories(Without(project.value.categories, category.value))
  }

  /** Removing a project from a category keeps all its other categories. */
  lemma DeleteProjectKeepsOthers(project: Project, category: string)
    ensures var r := DeleteProject(Some(project), false, Some(category));
      r.SetCategories? && category !in r.categories
      && forall c :: c != category ==> (c in r.categories <==> c in project.categories)
  {
  }

  // ----------------------------------------------------- updateProject

  /** The properties an update may carry, one per property of a project;
      absent ones keep the stored value. */
  datatype Patch = Patch(
    id: Option<string>, name: Option<string>, title: Option<string>,
    originalTitle: Option<OriginalTitle>, citationKey: Option<string>,
    author: Option<seq<Author>>, issued: Option<Option<seq<seq<int>>>>,
    timestampAdded: Option<int>, timestampModified: Option<int>,
    path: Option<Option<string>>, tags: Option<seq<string>>,
    categories: Option<seq<string>>, favorite: Option<bool>,
    children: Option<seq<FolderOrNote>>, projType: Option<string>)

  function Pick<T>(o: Option<T>, d: T): T {
    if o.Some? then o.value else d
  }

  /** The patch that carries nothing. */
  const NoPatch := Patch(None, None, None, None, None, None, None, None, None, None, None, None, None, None, None)

  /** The patch that carries every property of `p`. */
  function FullPatch(p: Project): Patch {
    Patch(Some(p.id), Some(p.name), Some(p.title), Some(p.originalTitle), Some(p.citationKey),
          Some(p.author), Some(p.issued), Some(p.timestampAdded), Some(p.timestampModified),
          Some(p.path), Some(p.tags), Some(p.categories), Some(p.favorite), Some(p.children), Some(p.projType))
  }

  /** `Object.assign(project, props)`: every property the patch carries is
      copied over, every other one keeps the stored value. */
  function ApplyPatch(p: Project, patch: Patch): (r: Project)
    ensures r.id == Pick(patch.id, p.id) && r.categories == Pick(patch.categories, p.categories)
    ensures r.timestampAdded == Pick(patch.timestampAdded, p.timestampAdded)
  {
    Project(Pick(patch.id, p.id), Pick(patch.name, p.name), Pick(patch.title, p.title),
            Pick(patch.originalTitle, p.originalTitle), Pick(patch.citationKey, p.citationKey),
            Pick(patch.author, p.author), Pick(patch.issued, p.issued),
            Pick(patch.timestampAdded, p.timestampAdded), Pick(patch.timestampModified, p.timestampModified),
            Pick(patch.path, p.path), Pick(patch.tags, p.tags), Pick(patch.categories, p.categories),
            Pick(patch.favorite, p.favorite), Pick(patch.children, p.children), Pick(patch.projType, p.projType))
  }

  lemma EmptyPatch(p: Project)
    ensures ApplyPatch(p, NoPatch) == p
  {
  }

  /** Assigning every property of a project yields that project, whatever
      was stored. */
  lemma FullPatchReplaces(p: Project, q: Project)
    ensures ApplyPatch(q, FullPatch(p)) == p
  {
  }

  /** Assigning the same properties twice is assigning them once. */
  lemma ApplyPatchIdempotent(p: Project, patch: Patch)
    ensures ApplyPatch(ApplyPatch(p, patch), patch) == ApplyPatch(p, patch)
  {
  }

  /** The id a changed id ends up as: a fresh suffix is appended when a
      folder of that name already exists. */
  function SettledId(storagePath: string, fs: set<string>, nanoid: string, id: string): (r: string)
    ensures PathJoin([storagePath, id]) !in fs ==> r == id
    ensures PathJoin([storagePath, id]) in fs ==> r == id + nanoid
  {
    if PathJoin([storagePath, id]) in fs then id + nanoid else id
  }

  /** The pdf states after the id change: those of the old project point to
      the new id, all others are unchanged. */
  function MovedStates(states: seq<PdfState>, from: string, to: string): (r: seq<PdfState>)
    ensures |r| == |states|
    ensures forall i :: 0 <= i < |r| ==>
      r[i] == if states[i].projectId == from then states[i].(projectId := to) else states[i]
  {
    seq(|states|, i requires 0 <= i < |states| =>
      if states[i].projectId == from then states[i].(projectId := to) else states[i])
  }

  function MovedAnnotations(annots: seq<AnnotationData>, from: string, to: string): (r: seq<AnnotationData>)
    ensures |r| == |annots|
    ensures forall i :: 0 <= i < |r| ==>
      r[i] == if annots[i].projectId == from then annots[i].(projectId := to) else annots[i]
  {
    seq(|annots|, i requires 0 <= i < |annots| =>
      if annots[i].projectId == from then annots[i].(projectId := to) else annots[i])
  }

  /** After the move nothing refers to the old id, and the records of the
      new project are the old project's and those it already had. */
  lemma MovedStatesLeaveNoOldId(states: seq<PdfState>, from: string, to: string)
    requires from != to
    ensures forall s :: s in MovedStates(states, from, to) ==> s.projectId != from
    ensures forall i :: 0 <= i < |states| ==>
      (MovedStates(states, from, to)[i].projectId == to <==> states[i].projectId in {from, to})
  {
    var r := MovedStates(states, from, to);
    forall s | s in r ensures s.projectId != from {
      var i :| 0 <= i < |r| && r[i] == s;
    }
  }

  lemma MovedAnnotationsLeaveNoOldId(annots: seq<AnnotationData>, from: string, to: string)
    requires from != to
    ensures forall a :: a in MovedAnnotations(annots, from, to) ==> a.projectId != from
  {
    var r := MovedAnnotations(annots, from, to);
    forall a | a in r ensures a.projectId != from {
      var i :| 0 <= i < |r| && r[i] == a;
    }
  }

  /** The renames `updateProject` asks for on an id change: the meta note
      inside the old folder takes the new id's name (`renameFile`), then
      the folder is renamed from the old id to the new one (`renameFolder`). */
  datatype Renames = Renames(metaFrom: string, metaTo: string, folderFrom: string, folderTo: string)

  /** `updateProject` up to the writes to the stores: nothing for an
      unknown project (the error is caught and undefined returned);
      otherwise the patched project with its new modification time and
      settled id, and on an id change the pdf states and annotations moved
      to that id and the renames of the meta note and the folder. */
  method UpdateProject(stored: Option<Project>, projectId: string, patch: Patch, now: int,
                       storagePath: string, fs: set<string>, nanoid: string,
                       states: seq<PdfState>, annots: seq<AnnotationData>)
    returns (project: Option<Project>, newStates: seq<PdfState>, newAnnots: seq<AnnotationData>, renames: Option<Renames>)
    ensures stored.None? ==> project.None? && newStates == states && newAnnots == annots && renames.None?
    ensures stored.Some? ==> var p := ApplyPatch(stored.value, patch);
      project == Some(p.(timestampModified := now,
                         id := if p.id != projectId then SettledId(storagePath, fs, nanoid, p.id) else p.id))
    ensures stored.Some? && ApplyPatch(stored.value, patch).id == projectId ==>
      newStates == states && newAnnots == annots && renames.None?
    ensures stored.Some? && ApplyPatch(stored.value, patch).id != projectId ==>
      var oldPath := PathJoin([storagePath, projectId]);
      newStates == MovedStates(states, projectId, project.value.id)
      && newAnnots == MovedAnnotations(annots, projectId, project.value.id)
      && renames == Some(Renames(PathJoin([oldPath, projectId + ".md"]), PathJoin([oldPath, project.value.id + ".md"]),
                                 projectId, project.value.id))
  {
    newStates, newAnnots, renames := states, annots, None;
    if stored.None? {
      return None, newStates, newAnnots, renames;
    }
    var p := ApplyPatch(stored.value, patch);
    p := p.(timestampModified := now);
    if p.id != projectId {
      var oldPath := PathJoin([storagePath, projectId]);
      if PathJoin([storagePath, p.id]) in fs {
        p := p.(id := p.id + nanoid);
      }
      var i := 0;
      while i < |newStates|
        invariant 0 <= i <= |newStates| == |states|
        invariant forall k :: 0 <= k < i ==> newStates[k] == MovedStates(states, projectId, p.id)[k]
        invariant forall k :: i <= k < |newStates| ==> newStates[k] == states[k]
      {
        if newStates[i].projectId == projectId {
          newStates := newStates[i := newStates[i].(projectId := p.id)];
        }
        i := i + 1;
      }
      i := 0;
      while i < |newAnnots|
        invariant 0 <= i <= |newAnnots| == |annots|
        invariant forall k :: 0 <= k < i ==> newAnnots[k] == MovedAnnotations(annots, projectId, p.id)[k]
        invariant forall k :: i <= k < |newAnnots| ==> newAnnots[k] == annots[k]
      {
        if newAnnots[i].projectId == projectId {
          newAnnots := newAnnots[i := newAnnots[i].(projectId := p.id)];
        }
        i := i + 1;
      }
      renames := Some(Renames(PathJoin([oldPath, projectId + ".md"]), PathJoin([oldPath, p.id + ".md"]), projectId, p.id));
    }
    project := Some(p);
  }

  // -------------------------------------------------------- getProject

  /** `getProject`: the SQL store's project, else the file store's, with
      the optional PDF path and note tree of the asked-for id. */
  function GetProject(projectId: string, fromSql: Option<Project>, fromFile: Option<Project>,
                      includePDF: bool, includeNotes: bool,
                      pdfOf: string -> Option<string>, treeOf: string -> seq<FolderOrNote>): (r: Option<Project>)
    ensures r.None? <==> fromSql.None? && fromFile.None?
    ensures fromSql.Some? ==>
      r.Some? && r.value.id == fromSql.value.id && r.value.categories == fromSql.value.categories
    ensures fromSql.None? && fromFile.Some? ==>
      r.Some? && r.value.id == fromFile.value.id && r.value.categories == fromFile.value.categories
    ensures r.Some? && includePDF ==> r.value.path == pdfOf(projectId)
    ensures r.Some? && includeNotes ==> r.value.children == treeOf(projectId)
    ensures r.Some? ==> var f := if fromSql.Some? then fromSql.value else fromFile.value;
      r.value.(path := f.path, children := f.children) == f
      && (!includePDF ==> r.value.path == f.path)
      && (!includeNotes ==> r.value.children == f.children)
  {
    var found := if fromSql.Some? then fromSql else fromFile;
    if found.None? then None
    else
      var p := found.value;
      var p1 := if includePDF then p.(path := pdfOf(projectId)) else p;
      Some(if includeNotes then p1.(children := treeOf(projectId)) else p1)
  }
}
