/**
 * The JSON document store: each document is a file
 * `<storagePath>/.sophosia/<dataType>/<_id>.json`, and the list of
 * workspaces lives in `workspace.json` in the app's config directory.
 * Files are a map from path to document; a JSON round trip is the
 * identity on documents.
 */
module JsonDb {
  import opened Wrappers
  import opened Strings
  import opened Seqs
  import opened TauriPath

  datatype Doc = Doc(id: string, dataType: string, body: string)

  /** The unit value of a store operation that succeeded. */
  datatype Done = Done

  /** The workspace configuration; `storagePaths` is missing in configs
      written by older versions. */
  datatype Config = Config(storagePath: string, lastScanTime: int, storagePaths: Option<seq<string>>)

  const NOT_SET: string := "storagePath not set"

  // ------------------------------------------------------------ routing

  /** The folder `get` reads an id from: the folder of its two-letter
      prefix, or a folder named after the id itself. */
  function FolderFor(id: string): (r: string)
    ensures |id| >= 2 && id[..2] == "SP" ==> r == "project"
    ensures |id| >= 2 && id[..2] == "SA" ==> r == "pdfAnnotation"
    ensures |id| >= 2 && id[..2] == "SS" ==> r == "pdfState"
    ensures |id| >= 2 && id[..2] == "SF" ==> r == "folder"
    ensures !(|id| >= 2 && id[..2] in ["SP", "SA", "SS", "SF"]) ==> r == id
  {
    var code := if |id| >= 2 then id[..2] else id;
    if code == "SP" then "project"
    else if code == "SA" then "pdfAnnotation"
    else if code == "SS" then "pdfState"
    else if code == "SF" then "folder"
    else id
  }

  /** `join(storagePath, ".sophosia", folder, id + ".json")`. */
  function DocPath(storagePath: string, folder: string, id: string): string {
    PathJoin([storagePath, ".sophosia", folder, id + ".json"])
  }

  /** What `get(id)` resolves to. */
  function GetResult(storagePath: string, files: map<string, Doc>, id: string): (r: Result<Doc>)
    ensures storagePath == "" ==> r == Err(NOT_SET)
    ensures storagePath != "" ==> (r.Ok? <==> DocPath(storagePath, FolderFor(id), id) in files)
  {
    if storagePath == "" then Err(NOT_SET)
    else
      var path := DocPath(storagePath, FolderFor(id), id);
      if path in files then Ok(files[path]) else Err("data with id=" + id + " not found")
  }

  lemma DocPathSplit(storagePath: string, folder: string, id: string)
    requires '/' !in folder && '/' !in id
    ensures Split(DocPath(storagePath, folder, id), '/') == Split(storagePath, '/') + [".sophosia", folder, id + ".json"]
  {
    var parts := [storagePath, ".sophosia", folder, id + ".json"];
    assert parts[1..] == [".sophosia", folder, id + ".json"];
    assert parts[1..][1..] == [folder, id + ".json"];
    assert parts[1..][1..][1..] == [id + ".json"];
    var tail := ".sophosia" + "/" + folder + "/" + (id + ".json");
    assert Join(parts[1..][1..][1..], "/") == id + ".json";
    assert Join(parts[1..][1..], "/") == folder + "/" + (id + ".json");
    assert Join(parts[1..], "/") == ".sophosia" + "/" + (folder + "/" + (id + ".json"));
    assert DocPath(storagePath, folder, id) == storagePath + ['/'] + tail;
    SplitConcat(storagePath, '/', tail);
    assert tail == ".sophosia" + ['/'] + (folder + "/" + (id + ".json"));
    assert '/' !in ".sophosia" by {
      assert forall i :: 0 <= i < |".sophosia"| ==> ".sophosia"[i] != '/';
    }
    SplitAfterPart(".sophosia", '/', folder + "/" + (id + ".json"));
    assert folder + "/" + (id + ".json") == folder + ['/'] + (id + ".json");
    SplitTwo(folder, id + ".json", '/');
  }

  /** Documents in different folders, or with different ids, live in
      different files. */
  lemma DocPathInjective(storagePath: string, f1: string, id1: string, f2: string, id2: string)
    requires '/' !in f1 && '/' !in id1 && '/' !in f2 && '/' !in id2
    requires DocPath(storagePath, f1, id1) == DocPath(storagePath, f2, id2)
    ensures f1 == f2 && id1 == id2
  {
    DocPathSplit(storagePath, f1, id1);
    DocPathSplit(storagePath, f2, id2);
    var s1 := Split(storagePath, '/') + [".sophosia", f1, id1 + ".json"];
    var s2 := Split(storagePath, '/') + [".sophosia", f2, id2 + ".json"];
    assert s1[|s1| - 2] == f1 && s2[|s2| - 2] == f2;
    assert s1[|s1| - 1] == id1 + ".json" && s2[|s2| - 1] == id2 + ".json";
    assert id1 == (id1 + ".json")[..|id1|];
    assert id2 == (id2 + ".json")[..|id2|];
  }

  /** `join(storagePath, ".sophosia", dataType)`: the folder of a data type. */
  function DocDir(storagePath: string, dataType: string): string {
    PathJoin([storagePath, ".sophosia", dataType])
  }

  /** A document's file is `<folder of its data type>/<_id>.json`. */
  lemma DocPathInDir(storagePath: string, dataType: string, id: string)
    ensures DocPath(storagePath, dataType, id) == DocDir(storagePath, dataType) + "/" + (id + ".json")
  {
    JoinAppend([storagePath, ".sophosia", dataType], id + ".json", "/");
    assert [storagePath, ".sophosia", dataType] + [id + ".json"] == [storagePath, ".sophosia", dataType, id + ".json"];
  }

  /** `p` names a file directly inside the folder `dir`. */
  predicate InDir(p: string, dir: string) {
    |p| > |dir| && p[..|dir| + 1] == dir + "/" && '/' !in p[|dir| + 1..]
  }

  /** The documents `getDocs(dataType)` parses: those of the files directly
      in the data type's folder. The listing's order is the file system's,
      so the model gives them as a set. */
  function DocsIn(storagePath: string, files: map<string, Doc>, dataType: string): (r: set<Doc>)
    ensures forall d :: d in r <==> exists p :: p in files && InDir(p, DocDir(storagePath, dataType)) && files[p] == d
  {
    set p | p in files && InDir(p, DocDir(storagePath, dataType)) :: files[p]
  }

  /** `getDocs` lists every document `put` wrote under its data type. */
  lemma PutThenListed(storagePath: string, files: map<string, Doc>, doc: Doc)
    requires '/' !in doc.id
    ensures doc in DocsIn(storagePath, PutFiles(storagePath, files, doc), doc.dataType)
  {
    var dir := DocDir(storagePath, doc.dataType);
    var path := DocPath(storagePath, doc.dataType, doc.id);
    DocPathInDir(storagePath, doc.dataType, doc.id);
    assert path[|dir| + 1..] == doc.id + ".json";
    assert '/' !in ".json" by {
      assert forall i :: 0 <= i < |".json"| ==> ".json"[i] != '/';
    }
    assert InDir(path, dir);
  }

  /** What `put(doc)` does to the files. */
  function PutFiles(storagePath: string, files: map<string, Doc>, doc: Doc): map<string, Doc> {
    files[DocPath(storagePath, doc.dataType, doc.id) := doc]
  }

  /** `get` finds a document `put` wrote exactly when its data type is the
      folder `get` routes its id to; otherwise `get` sees what it saw
      before. */
  lemma PutThenGet(storagePath: string, files: map<string, Doc>, doc: Doc)
    requires storagePath != "" && '/' !in doc.id && '/' !in doc.dataType
    ensures doc.dataType == FolderFor(doc.id) ==>
      GetResult(storagePath, PutFiles(storagePath, files, doc), doc.id) == Ok(doc)
    ensures doc.dataType != FolderFor(doc.id) ==>
      GetResult(storagePath, PutFiles(storagePath, files, doc), doc.id) == GetResult(storagePath, files, doc.id)
  {
    if doc.dataType != FolderFor(doc.id) {
      if DocPath(storagePath, FolderFor(doc.id), doc.id) == DocPath(storagePath, doc.dataType, doc.id) {
        DocPathInjective(storagePath, FolderFor(doc.id), doc.id, doc.dataType, doc.id);
      }
    }
  }

  /** `put` leaves every other document's file alone. */
  lemma PutKeepsOthers(storagePath: string, files: map<string, Doc>, doc: Doc, other: Doc)
    requires '/' !in doc.id && '/' !in doc.dataType && '/' !in other.id && '/' !in other.dataType
    requires other.id != doc.id || other.dataType != doc.dataType
    requires DocPath(storagePath, other.dataType, other.id) in files
    ensures PutFiles(storagePath, files, doc)[DocPath(storagePath, other.dataType, other.id)]
      == files[DocPath(storagePath, other.dataType, other.id)]
  {
    if DocPath(storagePath, other.dataType, other.id) == DocPath(storagePath, doc.dataType, doc.id) {
      DocPathInjective(storagePath, other.dataType, other.id, doc.dataType, doc.id);
    }
  }

  // ------------------------------------------------------ the workspaces

  /** `setStoragePath` on the config: the path becomes current and is added
      to the list only when absent; without a config a fresh one lists
      just the path. */
  function SetPathConfig(config: Option<Config>, path: string): (r: Config)
    ensures r.storagePath == path && r.storagePaths.Some? && path in r.storagePaths.value
    ensures config.None? ==> r == Config(path, 0, Some([path]))
    ensures config.Some? ==> r.lastScanTime == config.value.lastScanTime
    ensures config.Some? ==> var before := if config.value.storagePaths.Some? then config.value.storagePaths.value else [];
      r.storagePaths.value == (if path in before then before else before + [path])
  {
    match config
    case None => Config(path, 0, Some([path]))
    case Some(c) =>
      var before := if c.storagePaths.Some? then c.storagePaths.value else [];
      Config(path, c.lastScanTime, Some(if path in before then before else before + [path]))
  }

  /** Setting the same path twice is setting it once. */
  lemma SetPathIdempotent(config: Option<Config>, path: string)
    ensures SetPathConfig(Some(SetPathConfig(config, path)), path) == SetPathConfig(config, path)
  {
  }

  /** Adding a path keeps a list without repeats free of repeats. */
  lemma SetPathKeepsDistinct(config: Config, path: string)
    requires config.storagePaths.Some? && NoDuplicates(config.storagePaths.value)
    ensures NoDuplicates(SetPathConfig(Some(config), path).storagePaths.value)
  {
  }

  /** `getStoragePaths`: the listed paths, or the current path alone when
      the list is missing or empty; nothing without a config. */
  function StoragePathsOf(config: Option<Config>): (r: seq<string>)
    ensures config.None? ==> r == []
    ensures config.Some? && config.value.storagePaths.Some? && |config.value.storagePaths.value| > 0 ==>
      r == config.value.storagePaths.value
    ensures config.Some? && (config.value.storagePaths.None? || |config.value.storagePaths.value| == 0) ==>
      r == (if config.value.storagePath != "" then [config.value.storagePath] else [])
  {
    match config
    case None => []
    case Some(c) =>
      var paths := if c.storagePaths.Some? then c.storagePaths.value else [];
      if |paths| == 0 && c.storagePath != "" then [c.storagePath] else paths
  }

  /** After `setStoragePath` the workspace is among the listed ones. */
  lemma SetPathListed(config: Option<Config>, path: string)
    ensures path in StoragePathsOf(Some(SetPathConfig(config, path)))
  {
  }

  /** Every entry that is not `path`, in order. */
  function Without(paths: seq<string>, path: string): (r: seq<string>)
    ensures forall p :: p in r <==> p in paths && p != path
    ensures |r| <= |paths|
    decreases |paths|
  {
    if |paths| == 0 then []
    else
      var init := Without(paths[..|paths| - 1], path);
      var last := paths[|paths| - 1];
      assert paths == paths[..|paths| - 1] + [last];
      if last != path then init + [last] else init
  }

  /** `removeStoragePath` on the config; a config without a list makes the
      filter throw, and nothing is written. */
  function RemovePathConfig(config: Config, path: string): (r: Config)
    ensures config.storagePaths.None? ==> r == config
    ensures config.storagePaths.Some? ==> (
      r.storagePaths.Some?
      && (forall p :: p in r.storagePaths.value <==> p in config.storagePaths.value && p != path)
      && r.storagePath == (if config.storagePath == path then "" else config.storagePath)
      && r.lastScanTime == config.lastScanTime)
  {
    if config.storagePaths.None? then config
    else
      Config(if config.storagePath == path then "" else config.storagePath, config.lastScanTime,
        Some(Without(config.storagePaths.value, path)))
  }

  /** Removing a path and listing the workspaces never lists that path
      (unless the list was missing and the path was not current). */
  lemma RemovedPathNotListed(config: Config, path: string)
    requires config.storagePaths.Some?
    ensures path !in StoragePathsOf(Some(RemovePathConfig(config, path)))
  {
  }

  /** Every entry equal to `from` replaced by `to`. */
  function Renamed(paths: seq<string>, from: string, to: string): (r: seq<string>)
    ensures |r| == |paths|
    ensures forall i :: 0 <= i < |r| ==> r[i] == (if paths[i] == from then to else paths[i])
  {
    seq(|paths|, i requires 0 <= i < |paths| => if paths[i] == from then to else paths[i])
  }

  /** `moveWorkspace` on the config; without a list the loop throws and
      nothing is written. */
  function MoveConfig(config: Config, from: string, to: string): (r: Config)
    ensures config.storagePaths.None? ==> r == config
  {
    if config.storagePaths.None? then config
    else
      Config(if config.storagePath == from then to else config.storagePath, config.lastScanTime,
        Some(Renamed(config.storagePaths.value, from, to)))
  }

  /** After the move the old path is gone from the list and from the
      current path, the new one takes each of its places, and nothing else
      changes. */
  lemma MoveReplacesOld(config: Config, from: string, to: string)
    requires config.storagePaths.Some? && from != to
    ensures var r := MoveConfig(config, from, to);
      r.storagePaths.Some?
      && from !in r.storagePaths.value && from != r.storagePath
      && |r.storagePaths.value| == |config.storagePaths.value|
      && (from in config.storagePaths.value ==> to in r.storagePaths.value)
      && (forall i :: 0 <= i < |config.storagePaths.value| && config.storagePaths.value[i] != from ==>
            r.storagePaths.value[i] == config.storagePaths.value[i])
  {
    var r := MoveConfig(config, from, to);
    if from in config.storagePaths.value {
      var i :| 0 <= i < |config.storagePaths.value| && config.storagePaths.value[i] == from;
      assert r.storagePaths.value[i] == to;
    }
  }

  /** Moving a workspace to where it already is changes nothing. */
  lemma MoveToSelf(config: Config, path: string)
    ensures MoveConfig(config, path, path) == config
  {
    if config.storagePaths.Some? {
      assert Renamed(config.storagePaths.value, path, path) == config.storagePaths.value;
    }
  }

  // ------------------------------------------------------------ the store

  class JsonDB {
    var storagePath: string
    /** the document files under the workspaces */
    var files: map<string, Doc>
    /** `workspace.json`; None when it does not exist or cannot be read */
    var config: Option<Config>

    constructor(files: map<string, Doc>, config: Option<Config>)
      ensures storagePath == "" && this.files == files && this.config == config
    {
      storagePath := "";
      this.files := files;
      this.config := config;
    }

    /** `get(id)`. */
    method Get(id: string) returns (r: Result<Doc>)
      ensures r == GetResult(storagePath, files, id)
    {
      if storagePath == "" {
        return Err(NOT_SET);
      }
      var path := DocPath(storagePath, FolderFor(id), id);
      if path in files {
        r := Ok(files[path]);
      } else {
        r := Err("data with id=" + id + " not found");
      }
    }

    /** `put(doc)`: fails without a workspace, writes the document's file
      otherwise. */
    method Put(doc: Doc) returns (r: Result<Done>)
      modifies this`files
      ensures old(storagePath) == "" ==> r == Err(NOT_SET) && files == old(files)
      ensures old(storagePath) != "" ==> r == Ok(Done) && files == PutFiles(storagePath, old(files), doc)
    {
      if storagePath == "" {
        return Err(NOT_SET);
      }
      files := PutFiles(storagePath, files, doc);
      r := Ok(Done);
    }

    /** `post(doc)`: the document gets a fresh id (`nanoid`, an input here)
      and is put. */
    method Post(dataType: string, body: string, newId: string) returns (r: Result<Doc>)
      modifies this`files
      ensures storagePath == "" ==> r == Err(NOT_SET) && files == old(files)
      ensures storagePath != "" ==> (
        r == Ok(Doc(newId, dataType, body))
        && files == PutFiles(storagePath, old(files), Doc(newId, dataType, body)))
    {
      if storagePath == "" {
        return Err(NOT_SET);
      }
      var doc := Doc(newId, dataType, body);
      var _ := Put(doc);
      r := Ok(doc);
    }

    /** `remove(doc)`: fails without a workspace and when the file is
      missing; otherwise the file is gone. */
    method Remove(doc: Doc) returns (r: Result<Done>)
      modifies this`files
      ensures storagePath == "" ==> r == Err(NOT_SET) && files == old(files)
      ensures storagePath != "" ==> var path := DocPath(storagePath, doc.dataType, doc.id);
        (path in old(files) ==> r == Ok(Done) && files == old(files) - {path})
        && (path !in old(files) ==> r.Err? && files == old(files))
    {
      if storagePath == "" {
        return Err(NOT_SET);
      }
      var path := DocPath(storagePath, doc.dataType, doc.id);
      if path !in files {
        return Err("cannot remove " + path);
      }
      files := files - {path};
      r := Ok(Done);
    }

    /** `bulkDocs(docs)`: every document put in turn; a failing one is
      logged and skipped. */
    method BulkDocs(docs: seq<Doc>) returns (r: Result<Done>)
      modifies this`files
      ensures storagePath == "" ==> r == Err(NOT_SET) && files == old(files)
      ensures storagePath != "" ==> r == Ok(Done) && files == PutAll(storagePath, old(files), docs)
    {
      if storagePath == "" {
        return Err(NOT_SET);
      }
      for i := 0 to |docs|
        invariant files == PutAll(storagePath, old(files), docs[..i])
      {
        assert docs[..i + 1][..i] == docs[..i];
        var _ := Put(docs[i]);
      }
      assert docs[..|docs|] == docs;
      r := Ok(Done);
    }

    /** `getDocs(dataType)`: fails without a workspace; otherwise the
        documents in the data type's folder. */
    method GetDocs(dataType: string) returns (r: Result<set<Doc>>)
      ensures storagePath == "" ==> r == Err(NOT_SET)
      ensures storagePath != "" ==> r == Ok(DocsIn(storagePath, files, dataType))
    {
      if storagePath == "" {
        return Err(NOT_SET);
      }
      r := Ok(DocsIn(storagePath, files, dataType));
    }

    /** `getStoragePath()`: the configured path becomes current; "" when
      there is no config. */
    method GetStoragePath() returns (path: string)
      modifies this`storagePath
      ensures config.None? ==> path == "" && storagePath == old(storagePath)
      ensures config.Some? ==> path == config.value.storagePath && storagePath == path
    {
      if config.None? {
        return "";
      }
      storagePath := config.value.storagePath;
      path := storagePath;
    }

    /** `setStoragePath(path)`. */
    method SetStoragePath(path: string)
      modifies this`config, this`storagePath
      ensures config == Some(SetPathConfig(old(config), path)) && storagePath == path
    {
      config := Some(SetPathConfig(config, path));
      storagePath := path;
    }

    /** `getStoragePaths()`. */
    method GetStoragePaths() returns (paths: seq<string>)
      ensures paths == StoragePathsOf(config)
    {
      paths := StoragePathsOf(config);
    }

    /** `removeStoragePath(path)`: only the config changes, not the current
      workspace of this store. */
    method RemoveStoragePath(path: string)
      modifies this`config
      ensures old(config).None? ==> config == old(config)
      ensures old(config).Some? ==> config == Some(RemovePathConfig(old(config).value, path))
    {
      if config.Some? {
        config := Some(RemovePathConfig(config.value, path));
      }
    }

    /** `moveWorkspace(from, to)`: the config side; moving the folder on
      disk is file I/O. */
    method MoveWorkspace(from: string, to: string)
      modifies this`config
      ensures old(config).None? ==> config == old(config)
      ensures old(config).Some? ==> config == Some(MoveConfig(old(config).value, from, to))
    {
      if config.Some? {
        var c := config.value;
        if c.storagePaths.Some? {
          var paths := c.storagePaths.value;
          var i := 0;
          while i < |paths|
            invariant 0 <= i <= |paths|
            invariant |paths| == |c.storagePaths.value|
            invariant forall j :: 0 <= j < |paths| ==>
              paths[j] == (if j < i && c.storagePaths.value[j] == from then to else c.storagePaths.value[j])
          {
            if paths[i] == from {
              paths := paths[i := to];
            }
            i := i + 1;
          }
          assert paths == Renamed(c.storagePaths.value, from, to);
          config := Some(Config(if c.storagePath == from then to else c.storagePath, c.lastScanTime, Some(paths)));
        }
      }
    }
  }

  /** The files after putting each document in turn. */
  function PutAll(storagePath: string, files: map<string, Doc>, docs: seq<Doc>): (r: map<string, Doc>)
    ensures forall d :: d in docs ==> DocPath(storagePath, d.dataType, d.id) in r
    ensures files.Keys <= r.Keys
    decreases |docs|
  {
    if |docs| == 0 then files
    else
      var init := docs[..|docs| - 1];
      assert docs == init + [docs[|docs| - 1]];
      PutFiles(storagePath, PutAll(storagePath, files, init), docs[|docs| - 1])
  }
}
