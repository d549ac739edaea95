/**
 * The v0.17.0 data migration: folder records (an id, a label and the ids
 * of the subfolders) become category paths, and each project's folder ids
 * become categories. The map from folder id to path is filled by a
 * memoising recursive walk that writes entries as it goes.
 */
module Migration {
  import opened Wrappers
  import opened Models

  /** A folder record of the pre-0.17 store. */
  datatype Folder = Folder(id: string, name: string, children: seq<string>)

  /** A project as the migration reads it: its id and its folder ids
      (absent in some records). */
  datatype LegacyProject = LegacyProject(id: string, folderIds: Option<seq<string>>)

  /** What the migration hands to `updateProject` for a project: the
      folder ids it settled on and the categories they map to; a folder id
      without an entry maps to `undefined` (None). */
  datatype MigratedProject = MigratedProject(id: string, folderIds: seq<string>, categories: seq<Option<string>>)

  /** The path a folder first gets: "library" for the library folder,
      whatever its label, and the label otherwise. */
  function Entry(f: Folder): string {
    if f.id == SF_LIBRARY then LIBRARY else f.name
  }

  /** Every folder's own path is non-empty, so each entry the walk writes
      counts as set (`if (idToPathMap[folderId])`). */
  predicate EntriesNonEmpty(folders: map<string, Folder>) {
    forall id :: id in folders ==> Entry(folders[id]) != ""
  }

  /** `idToPathMap[k]` is truthy. */
  predicate IsSet(paths: map<string, string>, k: string) {
    k in paths && paths[k] != ""
  }

  /** No set entry is lost from `p` to `q`. */
  predicate Grows(p: map<string, string>, q: map<string, string>) {
    forall k :: k in p && IsSet(p, k) ==> IsSet(q, k)
  }

  /** The folders still without a set entry: the walk's measure. */
  function Pending(folders: map<string, Folder>, paths: map<string, string>): set<string> {
    set k | k in folders.Keys && !IsSet(paths, k)
  }

  lemma PendingShrinks(folders: map<string, Folder>, p: map<string, string>, q: map<string, string>)
    requires Grows(p, q)
    ensures Pending(folders, q) <= Pending(folders, p)
  {
  }

  lemma PendingDrops(folders: map<string, Folder>, p: map<string, string>, id: string, path: string)
    requires id in folders && !IsSet(p, id) && path != ""
    ensures Pending(folders, p[id := path]) < Pending(folders, p)
  {
    assert id in Pending(folders, p) && id !in Pending(folders, p[id := path]);
  }

  // ------------------------------------------------------ as written

  /** `getPath(folderId)`: the memoised entry when it is set, "" for an
      unknown folder, and otherwise the folder's own entry, written to the
      map before each child gets the folder's entry, a "/" and the child's
      own `getPath`. Returns the result and the map afterwards. */
  function GetPath(folders: map<string, Folder>, paths: map<string, string>, id: string): (r: (string, map<string, string>))
    requires EntriesNonEmpty(folders)
    ensures Grows(paths, r.1)
    ensures id in folders ==> IsSet(r.1, id)
    decreases Pending(folders, paths), 0, 0
  {
    if id in paths && paths[id] != "" then (paths[id], paths)
    else if id !in folders then ("", paths)
    else
      var path := Entry(folders[id]);
      PendingDrops(folders, paths, id, path);
      (path, ChildPaths(folders, paths[id := path], path, folders[id].children))
  }

  /** `folder.children.forEach(sub => idToPathMap[sub] = path + "/" + getPath(sub))`. */
  function ChildPaths(folders: map<string, Folder>, paths: map<string, string>, path: string, children: seq<string>): (r: map<string, string>)
    requires EntriesNonEmpty(folders)
    ensures Grows(paths, r)
    decreases Pending(folders, paths), 1, |children|
  {
    if |children| == 0 then paths
    else
      var sub := GetPath(folders, paths, children[0]);
      var next := sub.1[children[0] := path + "/" + sub.0];
      PendingShrinks(folders, paths, next);
      ChildPaths(folders, next, path, children[1..])
  }

  /** Step 1: the folders by id; a later record with the same id wins. */
  function FolderMap(folders: seq<Folder>): (r: map<string, Folder>)
    ensures forall f :: f in folders ==> f.id in r
    ensures forall id :: id in r ==> r[id] in folders && r[id].id == id
    decreases |folders|
  {
    if |folders| == 0 then map[]
    else
      var init := folders[..|folders| - 1];
      var last := folders[|folders| - 1];
      assert folders == init + [last];
      FolderMap(init)[last.id := last]
  }

  predicate LabelsNonEmpty(folders: seq<Folder>) {
    forall i :: 0 <= i < |folders| ==> folders[i].id == SF_LIBRARY || folders[i].name != ""
  }

  /** Step 3: `getPath` for each folder in turn. */
  function PopulateAll(fm: map<string, Folder>, paths: map<string, string>, ids: seq<string>): (r: map<string, string>)
    requires EntriesNonEmpty(fm)
    ensures Grows(paths, r)
    ensures forall i :: 0 <= i < |ids| && ids[i] in fm ==> IsSet(r, ids[i])
    decreases |ids|
  {
    if |ids| == 0 then paths
    else
      var r := PopulateAll(fm, GetPath(fm, paths, ids[0]).1, ids[1..]);
      assert forall i :: 1 <= i < |ids| ==> ids[i] == ids[1..][i - 1];
      r
  }

  function Ids(folders: seq<Folder>): (r: seq<string>)
    ensures |r| == |folders| && forall i :: 0 <= i < |r| ==> r[i] == folders[i].id
  {
    seq(|folders|, i requires 0 <= i < |folders| => folders[i].id)
  }

  lemma FolderMapEntries(folders: seq<Folder>)
    requires LabelsNonEmpty(folders)
    ensures EntriesNonEmpty(FolderMap(folders))
  {
    var fm := FolderMap(folders);
    forall id | id in fm ensures Entry(fm[id]) != "" {
      var i :| 0 <= i < |folders| && folders[i] == fm[id];
    }
  }

  /** `buildIdToPathMap(folders)`. */
  function IdToPathMap(folders: seq<Folder>): map<string, string>
    requires LabelsNonEmpty(folders)
  {
    FolderMapEntries(folders);
    PopulateAll(FolderMap(folders), map[], Ids(folders))
  }

  /** Every folder gets a (non-empty) path. */
  lemma IdToPathMapCovers(folders: seq<Folder>)
    requires LabelsNonEmpty(folders)
    ensures forall i :: 0 <= i < |folders| ==> (folders[i].id in IdToPathMap(folders)
      && IdToPathMap(folders)[folders[i].id] != "")
  {
    FolderMapEntries(folders);
    var r := PopulateAll(FolderMap(folders), map[], Ids(folders));
    assert forall i :: 0 <= i < |folders| ==> IsSet(r, folders[i].id);
  }

  /** A set entry is returned as it is and nothing is written. */
  lemma GetPathMemoised(folders: map<string, Folder>, paths: map<string, string>, id: string)
    requires EntriesNonEmpty(folders) && id in paths && paths[id] != ""
    ensures GetPath(folders, paths, id) == (paths[id], paths)
  {
  }

  /** A child without a folder record maps to its parent's entry and a
      bare "/". */
  lemma MissingChildGetsSlash(folders: map<string, Folder>, paths: map<string, string>, path: string, c: string)
    requires EntriesNonEmpty(folders) && c !in folders && !IsSet(paths, c)
    ensures ChildPaths(folders, paths, path, [c]) == paths[c := path + "/"]
  {
    assert [c][1..] == [];
    assert path + "/" + "" == path + "/";
  }

  // ------------------------------------------------------ the loops

  /** The recursive `getPath`, writing into the map as it goes. */
  method GetPathWalk(folders: map<string, Folder>, paths: map<string, string>, id: string)
    returns (path: string, after: map<string, string>)
    requires EntriesNonEmpty(folders)
    ensures (path, after) == GetPath(folders, paths, id)
    decreases Pending(folders, paths), 0
  {
    if id in paths && paths[id] != "" {
      return paths[id], paths;
    }
    if id !in folders {
      return "", paths;
    }
    path := Entry(folders[id]);
    var start := paths[id := path];
    PendingDrops(folders, paths, id, path);
    after := start;
    var children := folders[id].children;
    var i := 0;
    while i < |children|
      invariant 0 <= i <= |children|
      invariant Grows(start, after)
      invariant ChildPaths(folders, start, path, children) == ChildPaths(folders, after, path, children[i..])
    {
      PendingShrinks(folders, start, after);
      assert Pending(folders, after) < Pending(folders, paths);
      var sub, next := GetPathWalk(folders, after, children[i]);
      assert children[i..][0] == children[i] && children[i..][1..] == children[i + 1..];
      after := next[children[i] := path + "/" + sub];
      i := i + 1;
    }
  }

  /** `buildIdToPathMap`: step 1 fills the folder map, step 3 walks from
      every folder. */
  method BuildIdToPathMap(folders: seq<Folder>) returns (paths: map<string, string>)
    requires LabelsNonEmpty(folders)
    ensures paths == IdToPathMap(folders)
    ensures forall i :: 0 <= i < |folders| ==> (folders[i].id in paths && paths[folders[i].id] != "")
  {
    var fm := BuildFolderMap(folders);
    FolderMapEntries(folders);
    var ids := Ids(folders);
    paths := map[];
    for i := 0 to |ids|
      invariant PopulateAll(fm, map[], ids) == PopulateAll(fm, paths, ids[i..])
    {
      var _, next := GetPathWalk(fm, paths, ids[i]);
      PopulateStep(fm, paths, ids, i);
      paths := next;
    }
    IdToPathMapCovers(folders);
  }

  /** Step 1 of `buildIdToPathMap`: each folder by its id. */
  method BuildFolderMap(folders: seq<Folder>) returns (fm: map<string, Folder>)
    ensures fm == FolderMap(folders)
  {
    fm := map[];
    for i := 0 to |folders|
      invariant fm == FolderMap(folders[..i])
    {
      assert folders[..i + 1][..i] == folders[..i];
      fm := fm[folders[i].id := folders[i]];
    }
    assert folders[..|folders|] == folders;
  }

  lemma PopulateStep(fm: map<string, Folder>, paths: map<string, string>, ids: seq<string>, i: nat)
    requires EntriesNonEmpty(fm) && i < |ids|
    ensures PopulateAll(fm, paths, ids[i..]) == PopulateAll(fm, GetPath(fm, paths, ids[i]).1, ids[i + 1..])
  {
    assert ids[i..][0] == ids[i] && ids[i..][1..] == ids[i + 1..];
  }

  /** The folder ids a project settles on: its own, or the library folder
      when it has none. */
  function SettledFolderIds(p: LegacyProject): (r: seq<string>)
    ensures |r| > 0
    ensures p.folderIds.Some? && |p.folderIds.value| > 0 ==> r == p.folderIds.value
  {
    if p.folderIds.None? || |p.folderIds.value| == 0 then [SF_LIBRARY] else p.folderIds.value
  }

  /** The project's categories: each folder id looked up in the map. */
  function MigrateProject(p: LegacyProject, paths: map<string, string>): (r: MigratedProject)
    ensures r.id == p.id && r.folderIds == SettledFolderIds(p)
    ensures |r.categories| == |r.folderIds|
    ensures forall i :: 0 <= i < |r.categories| ==>
      r.categories[i] == (if r.folderIds[i] in paths then Some(paths[r.folderIds[i]]) else None)
  {
    var ids := SettledFolderIds(p);
    MigratedProject(p.id, ids, seq(|ids|, i requires 0 <= i < |ids| => if ids[i] in paths then Some(paths[ids[i]]) else None))
  }

  /** `changeFolderIdToCategoryPath`: nothing when there is no folder
      store; otherwise every project, in order, with its categories from
      the built map. Removing the folder store afterwards is file I/O. */
  method ChangeFolderIdToCategoryPath(folders: Option<seq<Folder>>, projects: seq<LegacyProject>)
    returns (written: seq<MigratedProject>)
    requires folders.Some? ==> LabelsNonEmpty(folders.value)
    ensures folders.None? ==> written == []
    ensures folders.Some? ==> (|written| == |projects|
      && forall i :: 0 <= i < |projects| ==> written[i] == MigrateProject(projects[i], IdToPathMap(folders.value)))
  {
    written := [];
    if folders.None? {
      return;
    }
    var paths := BuildIdToPathMap(folders.value);
    for i := 0 to |projects|
      invariant |written| == i
      invariant forall j :: 0 <= j < i ==> written[j] == MigrateProject(projects[j], paths)
    {
      written := written + [MigrateProject(projects[i], paths)];
    }
  }

  /** A project without folder ids lands in the library folder's path. */
  lemma UnfiledProjectGoesToLibrary(p: LegacyProject, folders: seq<Folder>)
    requires p.folderIds.None? || p.folderIds == Some([])
    requires LabelsNonEmpty(folders) && exists i :: 0 <= i < |folders| && folders[i].id == SF_LIBRARY
    ensures MigrateProject(p, IdToPathMap(folders)).folderIds == [SF_LIBRARY]
    ensures MigrateProject(p, IdToPathMap(folders)).categories == [Some(IdToPathMap(folders)[SF_LIBRARY])]
  {
    IdToPathMapCovers(folders);
  }

  // ------------------------------------------------------ the example

  const A_ID: string := "SFa"
  const B_ID: string := "SFb"

  /** The library holding a folder `A_ID` labelled `la`, which holds a
      folder `B_ID` labelled `lb`. */
  function ThreeLevels(la: string, lb: string): seq<Folder> {
    [Folder(SF_LIBRARY, "Library", [A_ID]), Folder(A_ID, la, [B_ID]), Folder(B_ID, lb, [])]
  }

  lemma ThreeLevelsIds()
    ensures SF_LIBRARY != A_ID && SF_LIBRARY != B_ID && A_ID != B_ID
  {
    assert SF_LIBRARY[2] != A_ID[2];
    assert SF_LIBRARY[2] != B_ID[2];
    assert A_ID[2] != B_ID[2];
  }

  lemma ThreeLevelsMap(la: string, lb: string)
    requires la != "" && lb != ""
    ensures LabelsNonEmpty(ThreeLevels(la, lb))
    ensures FolderMap(ThreeLevels(la, lb)) == map[SF_LIBRARY := ThreeLevels(la, lb)[0], A_ID := ThreeLevels(la, lb)[1], B_ID := ThreeLevels(la, lb)[2]]
  {
    var fs := ThreeLevels(la, lb);
    assert fs[..2][..1] == fs[..1] && fs[..1][..0] == [];
    assert fs[..2] == fs[..|fs| - 1] && fs[..2][..1] == fs[..2][..|fs[..2]| - 1];
  }

  /** The walk from the library folder, as written. */
  lemma GrandchildWalk(la: string, lb: string)
    requires la != "" && lb != ""
    ensures LabelsNonEmpty(ThreeLevels(la, lb)) && EntriesNonEmpty(FolderMap(ThreeLevels(la, lb)))
    ensures GetPath(FolderMap(ThreeLevels(la, lb)), map[], SF_LIBRARY)
      == (LIBRARY, map[SF_LIBRARY := LIBRARY, A_ID := LIBRARY + "/" + la, B_ID := la + "/" + lb])
  {
    ThreeLevelsIds();
    ThreeLevelsMap(la, lb);
    var fs := ThreeLevels(la, lb);
    var fm := FolderMap(fs);
    FolderMapEntries(fs);
    var p0: map<string, string> := map[];
    var p1 := p0[SF_LIBRARY := LIBRARY];
    var p2 := p1[A_ID := la];
    var p3 := p2[B_ID := lb];
    LeafPath(fm, p2, B_ID);
    var p4 := p3[B_ID := la + "/" + lb];
    ParentPath(fm, p1, A_ID, B_ID, lb, p3);
    ParentPath(fm, p0, SF_LIBRARY, A_ID, la, p4);
    assert p4[A_ID := LIBRARY + "/" + la] == map[SF_LIBRARY := LIBRARY, A_ID := LIBRARY + "/" + la, B_ID := la + "/" + lb];
  }

  /** The walk at a folder without children sets its own entry. */
  lemma LeafPath(fm: map<string, Folder>, paths: map<string, string>, id: string)
    requires EntriesNonEmpty(fm) && id in fm && fm[id].children == [] && !IsSet(paths, id)
    ensures GetPath(fm, paths, id) == (Entry(fm[id]), paths[id := Entry(fm[id])])
  {
  }

  /** The walk at a folder with one child: its own entry, then the child's
      walk, then the child's entry prefixed with the folder's. */
  lemma ParentPath(fm: map<string, Folder>, paths: map<string, string>, id: string,
                   child: string, childPath: string, after: map<string, string>)
    requires EntriesNonEmpty(fm) && id in fm && fm[id].children == [child] && !IsSet(paths, id)
    requires GetPath(fm, paths[id := Entry(fm[id])], child) == (childPath, after)
    ensures GetPath(fm, paths, id) == (Entry(fm[id]), after[child := Entry(fm[id]) + "/" + childPath])
  {
    var next := after[child := Entry(fm[id]) + "/" + childPath];
    assert [child][1..] == [];
    assert ChildPaths(fm, next, Entry(fm[id]), []) == next;
  }

  /** As written, the grandchild's path lacks the root: library / A / B
      gives B the path "A/B", a top-level category, instead of
      "library/A/B". */
  lemma GrandchildLosesRoot(la: string, lb: string)
    requires la != "" && lb != ""
    ensures LabelsNonEmpty(ThreeLevels(la, lb))
    ensures IdToPathMap(ThreeLevels(la, lb))
      == map[SF_LIBRARY := LIBRARY, A_ID := LIBRARY + "/" + la, B_ID := la + "/" + lb]
  {
    GrandchildWalk(la, lb);
    ThreeLevelsIds();
    var fs := ThreeLevels(la, lb);
    var fm := FolderMap(fs);
    var p5 := map[SF_LIBRARY := LIBRARY, A_ID := LIBRARY + "/" + la, B_ID := la + "/" + lb];
    assert Ids(fs) == [SF_LIBRARY, A_ID, B_ID];
    assert [SF_LIBRARY, A_ID, B_ID][1..] == [A_ID, B_ID];
    PopulateAllSet(fm, p5, [A_ID, B_ID]);
  }

  /** Ids whose entries are all set leave the map as it is. */
  lemma {:induction false} PopulateAllSet(fm: map<string, Folder>, paths: map<string, string>, ids: seq<string>)
    requires EntriesNonEmpty(fm) && forall i :: 0 <= i < |ids| ==> IsSet(paths, ids[i])
    ensures PopulateAll(fm, paths, ids) == paths
    decreases |ids|
  {
    if |ids| > 0 {
      GetPathMemoised(fm, paths, ids[0]);
      assert forall i :: 0 <= i < |ids| - 1 ==> ids[1..][i] == ids[i + 1];
      PopulateAllSet(fm, paths, ids[1..]);
    }
  }

  // ------------------------------------------------------- corrected

  /** No set entry changes from `p` to `q`. */
  predicate Keeps(p: map<string, string>, q: map<string, string>) {
    forall k :: k in p && IsSet(p, k) ==> k in q && q[k] == p[k]
  }

  /** The shape the category paths are meant to have: the entry of each
      folder is its own entry, or the entry of a folder that lists it as a
      child followed by "/" and its own entry. */
  predicate Extends(folders: map<string, Folder>, paths: map<string, string>) {
    forall k :: k in folders && IsSet(paths, k) ==>
      paths[k] == Entry(folders[k])
      || exists p :: p in folders && k in folders[p].children && IsSet(paths, p)
                     && paths[k] == paths[p] + "/" + Entry(folders[k])
  }

  /** The walk as evidently intended: each child's path extends its
      parent's full path, not the parent's own entry. */
  function FullPath(folders: map<string, Folder>, paths: map<string, string>, id: string, prefix: string): (r: (string, map<string, string>))
    requires EntriesNonEmpty(folders)
    ensures Grows(paths, r.1) && Keeps(paths, r.1)
    ensures IsSet(r.1, id) ==> r.1[id] == r.0
    ensures id in folders ==> IsSet(r.1, id)
    decreases Pending(folders, paths), 0, 0
  {
    if id in paths && paths[id] != "" then (paths[id], paths)
    else if id !in folders then ("", paths)
    else
      var path := if prefix == "" then Entry(folders[id]) else prefix + "/" + Entry(folders[id]);
      PendingDrops(folders, paths, id, path);
      (path, FullChildPaths(folders, paths[id := path], path, folders[id].children))
  }

  function FullChildPaths(folders: map<string, Folder>, paths: map<string, string>, path: string, children: seq<string>): (r: map<string, string>)
    requires EntriesNonEmpty(folders)
    ensures Grows(paths, r) && Keeps(paths, r)
    decreases Pending(folders, paths), 1, |children|
  {
    if |children| == 0 then paths
    else
      var sub := FullPath(folders, paths, children[0], path);
      var next := if sub.0 == "" then sub.1[children[0] := path + "/"] else sub.1[children[0] := sub.0];
      PendingShrinks(folders, paths, next);
      FullChildPaths(folders, next, path, children[1..])
  }

  function FullPopulateAll(fm: map<string, Folder>, paths: map<string, string>, ids: seq<string>): (r: map<string, string>)
    requires EntriesNonEmpty(fm)
    ensures Grows(paths, r)
    ensures forall i :: 0 <= i < |ids| && ids[i] in fm ==> IsSet(r, ids[i])
    decreases |ids|
  {
    if |ids| == 0 then paths
    else
      var r := FullPopulateAll(fm, FullPath(fm, paths, ids[0], "").1, ids[1..]);
      assert forall i :: 1 <= i < |ids| ==> ids[i] == ids[1..][i - 1];
      r
  }

  function FullIdToPathMap(folders: seq<Folder>): map<string, string>
    requires LabelsNonEmpty(folders)
  {
    FolderMapEntries(folders);
    FullPopulateAll(FolderMap(folders), map[], Ids(folders))
  }

  /** The corrected walk keeps the shape: a folder reached from the top
      gets its own entry, one reached from `parent` the parent's entry, a
      "/" and its own entry. */
  lemma {:induction false} FullPathExtends(folders: map<string, Folder>, paths: map<string, string>,
                                           id: string, prefix: string, parent: string)
    requires EntriesNonEmpty(folders) && Extends(folders, paths)
    requires prefix != "" ==> parent in folders && id in folders[parent].children
                              && IsSet(paths, parent) && paths[parent] == prefix
    ensures Extends(folders, FullPath(folders, paths, id, prefix).1)
    decreases Pending(folders, paths), 0, 0
  {
    if !(id in paths && paths[id] != "") && id in folders {
      var path := if prefix == "" then Entry(folders[id]) else prefix + "/" + Entry(folders[id]);
      PendingDrops(folders, paths, id, path);
      OwnEntryExtends(folders, paths, id, prefix, parent);
      FullChildPathsExtends(folders, paths[id := path], path, folders[id].children, id);
    }
  }

  /** Giving an unset folder its entry under `prefix` keeps the shape. */
  lemma OwnEntryExtends(folders: map<string, Folder>, paths: map<string, string>,
                        id: string, prefix: string, parent: string)
    requires Extends(folders, paths) && id in folders && !IsSet(paths, id)
    requires prefix != "" ==> parent in folders && id in folders[parent].children
                              && IsSet(paths, parent) && paths[parent] == prefix
    ensures Extends(folders, paths[id := if prefix == "" then Entry(folders[id]) else prefix + "/" + Entry(folders[id])])
  {
    var start := paths[id := if prefix == "" then Entry(folders[id]) else prefix + "/" + Entry(folders[id])];
    forall k | k in folders && IsSet(start, k)
      ensures start[k] == Entry(folders[k])
              || exists p :: p in folders && k in folders[p].children && IsSet(start, p)
                             && start[k] == start[p] + "/" + Entry(folders[k])
    {
      if k != id && start[k] != Entry(folders[k]) {
        var p :| p in folders && k in folders[p].children && IsSet(paths, p)
                 && paths[k] == paths[p] + "/" + Entry(folders[k]);
        assert p != id;
      } else if k == id && prefix != "" {
        assert parent != id;
      }
    }
  }

  lemma {:induction false} FullChildPathsExtends(folders: map<string, Folder>, paths: map<string, string>,
                                                 path: string, children: seq<string>, parent: string)
    requires EntriesNonEmpty(folders) && Extends(folders, paths)
    requires parent in folders && IsSet(paths, parent) && paths[parent] == path
    requires forall c :: c in children ==> c in folders[parent].children
    ensures Extends(folders, FullChildPaths(folders, paths, path, children))
    decreases Pending(folders, paths), 1, |children|
  {
    if |children| > 0 {
      var next := ChildStep(folders, paths, path, children[0], parent);
      PendingShrinks(folders, paths, next);
      forall x | x in children[1..] ensures x in folders[parent].children {
        assert x in children;
      }
      FullChildPathsExtends(folders, next, path, children[1..], parent);
    }
  }

  /** One child of the corrected walk: its walk, then its entry. */
  lemma ChildStep(folders: map<string, Folder>, paths: map<string, string>, path: string, c: string, parent: string)
    returns (next: map<string, string>)
    requires EntriesNonEmpty(folders) && Extends(folders, paths)
    requires parent in folders && IsSet(paths, parent) && paths[parent] == path && c in folders[parent].children
    ensures var sub := FullPath(folders, paths, c, path);
      next == if sub.0 == "" then sub.1[c := path + "/"] else sub.1[c := sub.0]
    ensures Extends(folders, next) && Grows(paths, next) && IsSet(next, parent) && next[parent] == path
    decreases Pending(folders, paths), 0, 1
  {
    var sub := FullPath(folders, paths, c, path);
    FullPathExtends(folders, paths, c, path, parent);
    next := if sub.0 == "" then sub.1[c := path + "/"] else sub.1[c := sub.0];
    if IsSet(sub.1, c) {
      assert next == sub.1;
    } else {
      WriteOutsideFolders(folders, sub.1, c, next[c]);
      assert next == sub.1[c := next[c]];
    }
  }

  /** An entry for an id without a folder record leaves the shape alone. */
  lemma WriteOutsideFolders(folders: map<string, Folder>, paths: map<string, string>, c: string, v: string)
    requires c !in folders && Extends(folders, paths)
    ensures Extends(folders, paths[c := v])
  {
    var next := paths[c := v];
    forall k | k in folders && IsSet(next, k)
      ensures next[k] == Entry(folders[k])
              || exists p :: p in folders && k in folders[p].children && IsSet(next, p)
                             && next[k] == next[p] + "/" + Entry(folders[k])
    {
      if next[k] != Entry(folders[k]) {
        var p :| p in folders && k in folders[p].children && IsSet(paths, p)
                 && paths[k] == paths[p] + "/" + Entry(folders[k]);
        assert p != c;
      }
    }
  }

  lemma {:induction false} FullPopulateAllExtends(fm: map<string, Folder>, paths: map<string, string>, ids: seq<string>)
    requires EntriesNonEmpty(fm) && Extends(fm, paths)
    ensures Extends(fm, FullPopulateAll(fm, paths, ids))
    decreases |ids|
  {
    if |ids| > 0 {
      FullPathExtends(fm, paths, ids[0], "", "");
      FullPopulateAllExtends(fm, FullPath(fm, paths, ids[0], "").1, ids[1..]);
    }
  }

  /** For every list of folders, the corrected map gives each folder its
      own entry or the entry of a folder listing it as a child, a "/" and
      its own entry: the root is never lost. */
  lemma FullIdToPathMapExtends(folders: seq<Folder>)
    requires LabelsNonEmpty(folders)
    ensures EntriesNonEmpty(FolderMap(folders))
    ensures Extends(FolderMap(folders), FullIdToPathMap(folders))
  {
    FolderMapEntries(folders);
    FullPopulateAllExtends(FolderMap(folders), map[], Ids(folders));
  }

  /** The map as written does not have that shape: library / A / B gives
      B the entry "A/B", which is neither "B" nor "library/A/B". */
  lemma IdToPathMapBreaksShape(la: string, lb: string)
    requires la != "" && lb != "" && '/' !in la
    ensures LabelsNonEmpty(ThreeLevels(la, lb))
    ensures !Extends(FolderMap(ThreeLevels(la, lb)), IdToPathMap(ThreeLevels(la, lb)))
  {
    GrandchildLosesRoot(la, lb);
    ThreeLevelsMap(la, lb);
    var fm := FolderMap(ThreeLevels(la, lb));
    var m := IdToPathMap(ThreeLevels(la, lb));
    assert m[B_ID] == la + "/" + lb;
    assert Entry(fm[B_ID]) == lb;
    assert la + "/" + lb != lb by {
      assert |la + "/" + lb| > |lb|;
    }
    forall p | p in fm && B_ID in fm[p].children && IsSet(m, p)
      ensures m[B_ID] != m[p] + "/" + Entry(fm[B_ID])
    {
      assert p == A_ID;
      assert m[p] + "/" + lb == LIBRARY + "/" + la + "/" + lb;
      assert |m[p] + "/" + lb| > |la + "/" + lb|;
    }
  }

  /** The corrected walk from the library folder. */
  lemma FullWalk(la: string, lb: string)
    requires la != "" && lb != ""
    ensures LabelsNonEmpty(ThreeLevels(la, lb)) && EntriesNonEmpty(FolderMap(ThreeLevels(la, lb)))
    ensures FullPath(FolderMap(ThreeLevels(la, lb)), map[], SF_LIBRARY, "")
      == (LIBRARY, map[SF_LIBRARY := LIBRARY, A_ID := LIBRARY + "/" + la, B_ID := LIBRARY + "/" + la + "/" + lb])
  {
    ThreeLevelsIds();
    ThreeLevelsMap(la, lb);
    var fs := ThreeLevels(la, lb);
    var fm := FolderMap(fs);
    FolderMapEntries(fs);
    var pa := LIBRARY + "/" + la;
    var pb := pa + "/" + lb;
    var p1 := map[SF_LIBRARY := LIBRARY];
    var p2 := p1[A_ID := pa];
    var p3 := p2[B_ID := pb];
    assert FullPath(fm, p2, B_ID, pa) == (pb, p3) by {
      assert FullChildPaths(fm, p3, pb, []) == p3;
    }
    assert FullPath(fm, p1, A_ID, LIBRARY) == (pa, p3) by {
      assert [B_ID][1..] == [];
      assert FullChildPaths(fm, p2, pa, [B_ID]) == p3;
    }
    assert FullChildPaths(fm, p1, LIBRARY, [A_ID]) == p3 by {
      assert [A_ID][1..] == [];
    }
  }

  /** The corrected walk gives library / A / B the full path
      "library/A/B". */
  lemma FullPathKeepsRoot(la: string, lb: string)
    requires la != "" && lb != ""
    ensures LabelsNonEmpty(ThreeLevels(la, lb))
    ensures FullIdToPathMap(ThreeLevels(la, lb))
      == map[SF_LIBRARY := LIBRARY, A_ID := LIBRARY + "/" + la, B_ID := LIBRARY + "/" + la + "/" + lb]
  {
    FullWalk(la, lb);
    ThreeLevelsIds();
    var fs := ThreeLevels(la, lb);
    var fm := FolderMap(fs);
    var p3 := map[SF_LIBRARY := LIBRARY, A_ID := LIBRARY + "/" + la, B_ID := LIBRARY + "/" + la + "/" + lb];
    assert Ids(fs) == [SF_LIBRARY, A_ID, B_ID];
    assert [SF_LIBRARY, A_ID, B_ID][1..] == [A_ID, B_ID];
    FullPopulateAllSet(fm, p3, [A_ID, B_ID]);
  }

  /** Ids whose entries are all set leave the map as it is. */
  lemma {:induction false} FullPopulateAllSet(fm: map<string, Folder>, paths: map<string, string>, ids: seq<string>)
    requires EntriesNonEmpty(fm) && forall i :: 0 <= i < |ids| ==> IsSet(paths, ids[i])
    ensures FullPopulateAll(fm, paths, ids) == paths
    decreases |ids|
  {
    if |ids| > 0 {
      assert FullPath(fm, paths, ids[0], "") == (paths[ids[0]], paths);
      assert forall i :: 0 <= i < |ids| - 1 ==> ids[1..][i] == ids[i + 1];
      FullPopulateAllSet(fm, paths, ids[1..]);
    }
  }
}
