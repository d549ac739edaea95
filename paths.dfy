/**
 * The path functions of the Tauri API the backend calls, with "/" as the
 * separator (the separator the code uses in test mode).
 */
module TauriPath {
  import opened Wrappers
  import opened Strings

  /** The last "/"-segment of a path. */
  function Basename(path: string): (r: string)
    ensures '/' !in r
  {
    LastPartLacks(path, '/');
    LastPart(path, '/')
  }

  /** `extname`: the text after the last "." of the last segment; `None`
      when that segment has no "." (Tauri rejects such a path). */
  function Extname(path: string): (r: Option<string>)
    ensures r.Some? <==> '.' in Basename(path)
    ensures r.Some? ==> '/' !in r.value && '.' !in r.value
  {
    var base := Basename(path);
    if '.' in base then
      LastPartKeeps(base, '.', '/');
      LastPartLacks(base, '.');
      Some(LastPart(base, '.'))
    else None
  }

  /** `join` of path parts. */
  function PathJoin(parts: seq<string>): string {
    Join(parts, "/")
  }

  lemma PathJoinTwo(a: string, b: string)
    ensures PathJoin([a, b]) == a + "/" + b
  {
    assert [a, b][1..] == [b];
    assert Join([a, b], "/") == a + "/" + Join([b], "/");
  }

  /** The last segment of "dir/stem.ext" and its extension. */
  lemma ExtnameOfFile(dir: string, stem: string, ext: string)
    requires '/' !in stem && '/' !in ext && '.' !in ext
    ensures Basename(dir + "/" + stem + "." + ext) == stem + "." + ext
    ensures Extname(dir + "/" + stem + "." + ext) == Some(ext)
  {
    assert dir + "/" + stem + "." + ext == dir + ['/'] + (stem + "." + ext);
    LastPartAfter(dir, '/', stem + "." + ext);
    assert stem + "." + ext == stem + ['.'] + ext;
    LastPartAfter(stem, '.', ext);
  }
}
