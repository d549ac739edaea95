/**
 * The project store of the library page: the loaded projects, the opened
 * ones, the checkbox selection and the selected category. Backend calls
 * (loading projects, the database side of updates and deletions) are
 * inputs: a lookup for single projects and the listed projects of a
 * category.
 */
module ProjectStore {
  import opened Wrappers
  import opened Seqs
  import opened Models
  import opened CategoryEdits

  const NOTEBOOK: string := "notebook"

  /** The part of the app state this store saves and loads. */
  datatype SavedState = SavedState(openedProjectIds: seq<string>, selectedCategory: string)

  /** The ids of a list of projects, in order. */
  function Ids(ps: seq<Project>): (r: seq<string>)
    ensures |r| == |ps| && forall i :: 0 <= i < |ps| ==> r[i] == ps[i].id
  {
    seq(|ps|, i requires 0 <= i < |ps| => ps[i].id)
  }

  /** The filter of `loadProjects`. */
  predicate Shown(p: Project, showReferences: bool, showNotebooks: bool) {
    if showReferences && showNotebooks then true
    else if !showReferences && showNotebooks then p.projType == NOTEBOOK
    else if showReferences && !showNotebooks then p.projType != NOTEBOOK
    else false
  }

  /** The listed projects the filter keeps, in order. */
  function FilterShown(ps: seq<Project>, showReferences: bool, showNotebooks: bool): (r: seq<Project>)
    ensures forall p :: p in r <==> p in ps && Shown(p, showReferences, showNotebooks)
    ensures |r| <= |ps|
    decreases |ps|
  {
    if |ps| == 0 then []
    else
      var init := FilterShown(ps[..|ps| - 1], showReferences, showNotebooks);
      var last := ps[|ps| - 1];
      assert ps == ps[..|ps| - 1] + [last];
      if Shown(last, showReferences, showNotebooks) then init + [last] else init
  }

  /** Both kinds shown keeps every project; neither keeps none; one kind
      keeps exactly that kind. */
  lemma {:induction false} FilterShownCases(ps: seq<Project>, showReferences: bool, showNotebooks: bool)
    ensures showReferences && showNotebooks ==> FilterShown(ps, showReferences, showNotebooks) == ps
    ensures !showReferences && !showNotebooks ==> FilterShown(ps, showReferences, showNotebooks) == []
    ensures !showReferences && showNotebooks ==>
      forall p :: p in FilterShown(ps, showReferences, showNotebooks) <==> p in ps && p.projType == NOTEBOOK
    ensures showReferences && !showNotebooks ==>
      forall p :: p in FilterShown(ps, showReferences, showNotebooks) <==> p in ps && p.projType != NOTEBOOK
    decreases |ps|
  {
    if |ps| > 0 {
      FilterShownCases(ps[..|ps| - 1], showReferences, showNotebooks);
      assert ps == ps[..|ps| - 1] + [ps[|ps| - 1]];
    }
  }

  /** `find(p => p._id === id)`. */
  function FindProject(ps: seq<Project>, id: string): (r: Option<Project>)
    ensures r.None? <==> id !in Ids(ps)
    ensures r.Some? ==> r.value in ps && r.value.id == id
  {
    var k := IndexOfId(ps, id);
    if k < 0 then None else Some(ps[k])
  }

  /** `findIndex(p => p._id === id)`. */
  function IndexOfId(ps: seq<Project>, id: string): (r: int)
    ensures -1 <= r < |ps|
    ensures r >= 0 ==> ps[r].id == id && forall k :: 0 <= k < r ==> ps[k].id != id
    ensures r == -1 <==> id !in Ids(ps)
  {
    if |ps| == 0 then -1
    else if ps[0].id == id then 0
    else
      var k := IndexOfId(ps[1..], id);
      assert Ids(ps) == [ps[0].id] + Ids(ps[1..]);
      if k < 0 then -1 else k + 1
  }

  /** The list with a project appended unless one with its id is there. */
  function AppendIfNew(ps: seq<Project>, p: Project): (r: seq<Project>)
    ensures p.id in Ids(ps) ==> r == ps
    ensures p.id !in Ids(ps) ==> r == ps + [p]
  {
    if p.id in Ids(ps) then ps else ps + [p]
  }

  /** Appending only new ids keeps the ids of a list distinct. */
  lemma AppendIfNewDistinct(ps: seq<Project>, p: Project)
    requires NoDuplicates(Ids(ps))
    ensures NoDuplicates(Ids(AppendIfNew(ps, p)))
    ensures p.id in Ids(AppendIfNew(ps, p))
  {
    var r := AppendIfNew(ps, p);
    if p.id !in Ids(ps) {
      assert Ids(r) == Ids(ps) + [p.id];
    }
  }

  /** The list with the first project with this id overwritten. */
  function ReplaceProject(ps: seq<Project>, id: string, newProject: Project): (r: seq<Project>)
    ensures |r| == |ps|
    ensures id !in Ids(ps) ==> r == ps
    ensures id in Ids(ps) ==> r == ps[IndexOfId(ps, id) := newProject]
  {
    var k := IndexOfId(ps, id);
    if k < 0 then ps else ps[k := newProject]
  }

  /** The list without the entry at `k`. */
  function RemoveAt(ps: seq<Project>, k: nat): (r: seq<Project>)
    requires k < |ps|
    ensures |r| == |ps| - 1
    ensures forall i :: 0 <= i < k ==> r[i] == ps[i]
    ensures forall i :: k <= i < |r| ==> r[i] == ps[i + 1]
  {
    ps[..k] + ps[k + 1..]
  }

  /** Removing the entry of an id from a list with distinct ids leaves
      every other project and no project with that id. */
  lemma RemoveOnly(ps: seq<Project>, id: string)
    requires NoDuplicates(Ids(ps)) && id in Ids(ps)
    ensures var r := RemoveAt(ps, IndexOfId(ps, id));
      id !in Ids(r) && forall p :: p in ps && p.id != id ==> p in r
  {
    var k := IndexOfId(ps, id);
    var r := RemoveAt(ps, k);
    forall i | 0 <= i < |r| ensures r[i].id != id {
      if i >= k {
        assert Ids(ps)[i + 1] != Ids(ps)[k];
      }
    }
    forall p | p in ps && p.id != id ensures p in r {
      var j :| 0 <= j < |ps| && ps[j] == p;
      if j < k {
        assert r[j] == p;
      } else {
        assert j > k;
        assert r[j - 1] == p;
      }
    }
  }

  /** The selection after `deleteProject`, as written: the filter keeps the
      entries whose id EQUALS the deleted one. */
  function SelectionAfterDelete(selected: seq<string>, id: string): (r: seq<string>)
    ensures forall x :: x in r <==> x in selected && x == id
    decreases |selected|
  {
    if |selected| == 0 then []
    else
      var init := SelectionAfterDelete(selected[..|selected| - 1], id);
      var last := selected[|selected| - 1];
      assert selected == selected[..|selected| - 1] + [last];
      if last == id then init + [last] else init
  }

  /** Deleting a project drops every other selected entry and keeps only
      the deleted one (when it was selected). */
  lemma DeleteSelectionInverted(selected: seq<string>, id: string, other: string)
    requires other in selected && other != id
    ensures other !in SelectionAfterDelete(selected, id)
    ensures id in selected ==> SelectionAfterDelete(selected, id) != [] && id in SelectionAfterDelete(selected, id)
  {
  }

  /** The selection the deletion evidently intends: every entry but the
      deleted one, in order. */
  function SelectionWithout(selected: seq<string>, id: string): (r: seq<string>)
    ensures forall x :: x in r <==> x in selected && x != id
    ensures |r| <= |selected|
    decreases |selected|
  {
    if |selected| == 0 then []
    else
      var init := SelectionWithout(selected[..|selected| - 1], id);
      var last := selected[|selected| - 1];
      assert selected == selected[..|selected| - 1] + [last];
      if last != id then init + [last] else init
  }

  /** The intended selection forgets exactly the deleted project, and
      forgetting it twice changes nothing more. */
  lemma {:induction false} SelectionWithoutForgetsDeleted(selected: seq<string>, id: string)
    ensures id !in SelectionWithout(selected, id)
    ensures forall x :: x in selected && x != id ==> x in SelectionWithout(selected, id)
    ensures SelectionWithout(SelectionWithout(selected, id), id) == SelectionWithout(selected, id)
    decreases |selected|
  {
    if |selected| > 0 {
      var init := selected[..|selected| - 1];
      var last := selected[|selected| - 1];
      SelectionWithoutForgetsDeleted(init, id);
      var r := SelectionWithout(init, id);
      if last != id {
        var s := r + [last];
        assert s[..|s| - 1] == r;
      }
    }
  }

  /** The state `saveState` returns: the opened ids without repeats, in
      first-seen order. */
  function Saved(ops: seq<Project>, selectedCategory: string): (r: SavedState)
    ensures NoDuplicates(r.openedProjectIds)
    ensures forall id :: id in r.openedProjectIds <==> id in Ids(ops)
    ensures r.selectedCategory == selectedCategory
  {
    SavedState(Dedup(Ids(ops)), selectedCategory)
  }

  /** The opened projects `loadOpenedProjects` builds: each distinct id
      looked up once, in first-seen order. */
  function OpenedFrom(ids: seq<string>, lookup: string -> Project): (r: seq<Project>)
    ensures |r| == |Dedup(ids)|
    ensures forall i :: 0 <= i < |r| ==> r[i] == lookup(Dedup(ids)[i])
  {
    var u := Dedup(ids);
    seq(|u|, i requires 0 <= i < |u| => lookup(u[i]))
  }

  /** Saving opened projects with distinct ids and loading them back with a
      lookup that finds every project under its id gives the same opened
      projects, and the same category. */
  lemma SaveLoadRoundTrip(ops: seq<Project>, selectedCategory: string, lookup: string -> Project)
    requires NoDuplicates(Ids(ops))
    requires forall p :: p in ops ==> lookup(p.id) == p
    ensures OpenedFrom(Saved(ops, selectedCategory).openedProjectIds, lookup) == ops
    ensures Saved(ops, selectedCategory).selectedCategory == selectedCategory
  {
    DedupOfDistinct(Ids(ops));
    var r := OpenedFrom(Saved(ops, selectedCategory).openedProjectIds, lookup);
    assert Dedup(Dedup(Ids(ops))) == Ids(ops);
    forall i | 0 <= i < |ops| ensures r[i] == ops[i] {
      assert ops[i] in ops;
    }
  }

  class Store {
    var initialized: bool
    var showReferences: bool
    var showNotebooks: bool
    /** the ids of the items selected by checkbox */
    var selected: seq<string>
    var projects: seq<Project>
    var openedProjects: seq<Project>
    var updatedProject: Option<Project>
    var selectedCategory: string

    constructor()
      ensures !initialized && showReferences && showNotebooks
      ensures selected == [] && projects == [] && openedProjects == []
      ensures updatedProject.None? && selectedCategory == LIBRARY
    {
      initialized := false;
      showReferences := true;
      showNotebooks := true;
      selected := [];
      projects := [];
      openedProjects := [];
      updatedProject := None;
      selectedCategory := LIBRARY;
    }

    /** `loadOpenedProjects(ids)`: the loop over the distinct ids. */
    method LoadOpenedProjects(ids: seq<string>, lookup: string -> Project)
      modifies this`openedProjects
      ensures openedProjects == OpenedFrom(ids, lookup)
    {
      var u := Dedup(ids);
      var shown: seq<Project> := [];
      for i := 0 to |u|
        invariant |shown| == i && forall j :: 0 <= j < i ==> shown[j] == lookup(u[j])
      {
        shown := shown + [lookup(u[i])];
      }
      openedProjects := shown;
    }

    /** `loadProjects(category)` with the listed projects as input. */
    method LoadProjects(listed: seq<Project>)
      modifies this`projects
      ensures projects == FilterShown(listed, showReferences, showNotebooks)
    {
      projects := FilterShown(listed, showReferences, showNotebooks);
    }

    /** `loadState(state)`: a no-op once initialized. */
    method LoadState(state: SavedState, lookup: string -> Project, listed: seq<Project>)
      modifies this`initialized, this`selectedCategory, this`openedProjects, this`projects
      ensures old(initialized) ==> (
        initialized && selectedCategory == old(selectedCategory)
        && openedProjects == old(openedProjects) && projects == old(projects))
      ensures !old(initialized) ==> (
        initialized && selectedCategory == state.selectedCategory
        && openedProjects == OpenedFrom(state.openedProjectIds, lookup)
        && projects == FilterShown(listed, showReferences, showNotebooks))
    {
      if initialized {
        return;
      }
      selectedCategory := state.selectedCategory;
      LoadOpenedProjects(state.openedProjectIds, lookup);
      LoadProjects(listed);
      initialized := true;
    }

    /** `saveState()`. */
    method SaveState() returns (state: SavedState)
      ensures state == Saved(openedProjects, selectedCategory)
    {
      state := SavedState(Dedup(Ids(openedProjects)), selectedCategory);
    }

    /** `getProject(id)`. */
    method GetProject(id: string) returns (r: Option<Project>)
      ensures r == FindProject(projects, id)
    {
      r := FindProject(projects, id);
    }

    /** `openProject(id)` with the project the backend returns. */
    method OpenProject(project: Project)
      modifies this`openedProjects
      ensures openedProjects == AppendIfNew(old(openedProjects), project)
    {
      if project.id !in Ids(openedProjects) {
        openedProjects := openedProjects + [project];
      }
    }

    /** `addProject(project)` (the saved project, when it is saved first). */
    method AddProject(project: Project)
      modifies this`projects
      ensures projects == AppendIfNew(old(projects), project)
    {
      var found := GetProject(project.id);
      if found.None? {
        projects := projects + [project];
      }
    }

    /** `_updateProjectUI(id, newProject)`. */
    method UpdateProjectUI(projectId: string, newProject: Project)
      modifies this`projects, this`openedProjects, this`updatedProject
      ensures projects == ReplaceProject(old(projects), projectId, newProject)
      ensures openedProjects == ReplaceProject(old(openedProjects), projectId, newProject)
      ensures updatedProject == Some(newProject)
    {
      projects := ReplaceProject(projects, projectId, newProject);
      openedProjects := ReplaceProject(openedProjects, projectId, newProject);
      updatedProject := Some(newProject);
    }

    /** `deleteProject(id, ...)`, the store side; the database side is the
      project backend's. The selection is filtered as written: it keeps
      only entries equal to the deleted id (`SelectionAfterDelete`). */
    method DeleteProject(projectId: string)
      modifies this`projects, this`selected
      ensures projectId !in Ids(old(projects)) ==> projects == old(projects) && selected == old(selected)
      ensures projectId in Ids(old(projects)) ==> (
        projects == RemoveAt(old(projects), IndexOfId(old(projects), projectId))
        && selected == SelectionAfterDelete(old(selected), projectId))
    {
      var ind := IndexOfId(projects, projectId);
      if ind > -1 {
        projects := RemoveAt(projects, ind);
        selected := SelectionAfterDelete(selected, projectId);
      }
    }

    /** The loop of `updateCategory` and `deleteCategory` over the loaded
      projects. */
    method EditCategories(e: CategoryEdit)
      modifies this`projects
      ensures |projects| == |old(projects)|
      ensures forall i :: 0 <= i < |projects| ==>
        projects[i] == old(projects)[i].(categories := Edited(old(projects)[i].categories, e))
    {
      for i := 0 to |projects|
        invariant |projects| == |old(projects)|
        invariant forall j :: 0 <= j < i ==>
          projects[j] == old(projects)[j].(categories := Edited(old(projects)[j].categories, e))
        invariant forall j :: i <= j < |projects| ==> projects[j] == old(projects)[j]
      {
        projects := projects[i := projects[i].(categories := Edited(projects[i].categories, e))];
      }
    }

    /** `updateCategory(old, new)`: the first occurrence of the old text in
      every category of every loaded project is replaced, with the `$`
      patterns of the new text expanded (`Strings.Replace`), which also
      renames siblings (`CategoryEdits.ReplaceFirstRenamesSibling`). */
    method UpdateCategory(oldCategory: string, newCategory: string)
      modifies this`projects
      ensures |projects| == |old(projects)|
      ensures forall i :: 0 <= i < |projects| ==>
        projects[i] == old(projects)[i].(categories := Edited(old(projects)[i].categories, ReplaceFirstIn(oldCategory, newCategory)))
    {
      EditCategories(ReplaceFirstIn(oldCategory, newCategory));
    }

    /** `deleteCategory(category)`: every category starting with the text is
      removed from every loaded project, which also drops siblings
      (`CategoryEdits.DropPrefixedDropsSibling`). */
    method DeleteCategory(category: string)
      modifies this`projects
      ensures |projects| == |old(projects)|
      ensures forall i :: 0 <= i < |projects| ==>
        projects[i] == old(projects)[i].(categories := Edited(old(projects)[i].categories, DropPrefixed(category)))
    {
      EditCategories(DropPrefixed(category));
    }
  }
}
