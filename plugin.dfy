/**
 * The plugin manager: the status of every installed plugin (in the
 * insertion order of its map), the manifests, the loaded plugin instances
 * and the buttons and views the plugins registered. The files of the
 * plugin folder are inputs: a map from plugin id to the manifest its
 * `manifest.json` holds, and the parsed `status.json`. Calls into a
 * plugin's own code (`enable`, `disable`) are logged in order.
 */
module PluginManager {
  import opened Wrappers
  import opened Seqs
  import opened Strings
  import opened Models

  /** The part of the window a button or view belongs to. */
  datatype Component = Component(name: string)

  /** A button or a view a plugin registers: an id and its component. */
  datatype Item = Item(id: string, component: Component)

  datatype Manifest = Manifest(id: string, name: string, repo: string)

  /** The instance of a plugin's class, made with the plugin's id. */
  datatype Instance = Instance(pluginId: string)

  datatype Call = Enable(pluginId: string) | Disable(pluginId: string)

  datatype StatusEntry = StatusEntry(id: string, status: PluginStatus)

  const NO_MANIFEST: string := "manifest.json cannot be read"

  // ---------------------------------------------------------------------
  // The status map, in insertion order

  function StatusIds(entries: seq<StatusEntry>): (r: seq<string>)
    ensures |r| == |entries|
    decreases |entries|
  {
    if |entries| == 0 then [] else [entries[0].id] + StatusIds(entries[1..])
  }

  /** `statusMap.get(id)`. */
  function StatusOf(entries: seq<StatusEntry>, id: string): Option<PluginStatus>
    decreases |entries|
  {
    if |entries| == 0 then None
    else if entries[0].id == id then Some(entries[0].status)
    else StatusOf(entries[1..], id)
  }

  /** `statusMap.set(id, s)`: an existing key keeps its place, a new key
      goes last. */
  function SetStatus(entries: seq<StatusEntry>, id: string, s: PluginStatus): seq<StatusEntry>
    decreases |entries|
  {
    if |entries| == 0 then [StatusEntry(id, s)]
    else if entries[0].id == id then [StatusEntry(id, s)] + entries[1..]
    else [entries[0]] + SetStatus(entries[1..], id, s)
  }

  /** `statusMap.delete(id)`. */
  function DeleteStatus(entries: seq<StatusEntry>, id: string): seq<StatusEntry>
    decreases |entries|
  {
    if |entries| == 0 then []
    else if entries[0].id == id then DeleteStatus(entries[1..], id)
    else [entries[0]] + DeleteStatus(entries[1..], id)
  }

  /** Setting a key is seen by the next read of it and by no other key,
      and keeps keys distinct. */
  lemma {:induction false} SetStatusSpec(entries: seq<StatusEntry>, id: string, s: PluginStatus)
    ensures StatusOf(SetStatus(entries, id, s), id) == Some(s)
    ensures forall other :: other != id ==> StatusOf(SetStatus(entries, id, s), other) == StatusOf(entries, other)
    ensures NoDuplicates(StatusIds(entries)) ==> NoDuplicates(StatusIds(SetStatus(entries, id, s)))
    ensures forall other :: other in StatusIds(SetStatus(entries, id, s)) <==> other == id || other in StatusIds(entries)
    decreases |entries|
  {
    if |entries| > 0 {
      var e := entries[0];
      var tail := entries[1..];
      SetStatusSpec(tail, id, s);
      assert StatusIds(entries) == [e.id] + StatusIds(tail);
      if e.id == id {
        var r := [StatusEntry(id, s)] + tail;
        assert r[1..] == tail;
        assert StatusIds(r) == [id] + StatusIds(tail);
        if NoDuplicates(StatusIds(entries)) {
          NoDuplicatesTail(e.id, StatusIds(tail));
        }
      } else {
        var rest := SetStatus(tail, id, s);
        var r := [e] + rest;
        assert r[1..] == rest;
        assert StatusIds(r) == [e.id] + StatusIds(rest);
        if NoDuplicates(StatusIds(entries)) {
          NoDuplicatesTail(e.id, StatusIds(tail));
          NoDuplicatesCons(e.id, StatusIds(rest));
        }
      }
    }
  }

  /** Setting a key to the status it already has changes nothing. */
  lemma {:induction false} SetStatusSame(entries: seq<StatusEntry>, id: string, s: PluginStatus)
    requires StatusOf(entries, id) == Some(s)
    ensures SetStatus(entries, id, s) == entries
    decreases |entries|
  {
    if entries[0].id != id {
      SetStatusSame(entries[1..], id, s);
    }
  }

  /** A deleted key is gone and no other key changes. */
  lemma {:induction false} DeleteStatusSpec(entries: seq<StatusEntry>, id: string)
    ensures StatusOf(DeleteStatus(entries, id), id).None?
    ensures forall other :: other != id ==> StatusOf(DeleteStatus(entries, id), other) == StatusOf(entries, other)
    decreases |entries|
  {
    if |entries| > 0 {
      DeleteStatusSpec(entries[1..], id);
      if entries[0].id != id {
        var r := [entries[0]] + DeleteStatus(entries[1..], id);
        assert r[1..] == DeleteStatus(entries[1..], id);
      }
    }
  }

  /** The status of the first entry with an id is what reading it gives. */
  lemma {:induction false} StatusOfFirst(entries: seq<StatusEntry>, i: nat)
    requires i < |entries|
    requires forall j :: 0 <= j < i ==> entries[j].id != entries[i].id
    ensures StatusOf(entries, entries[i].id) == Some(entries[i].status)
    decreases i
  {
    if i > 0 {
      assert forall j :: 0 <= j < i - 1 ==> entries[1..][j] == entries[j + 1];
      StatusOfFirst(entries[1..], i - 1);
    }
  }

  lemma NoDuplicatesCons(x: string, s: seq<string>)
    requires x !in s && NoDuplicates(s)
    ensures NoDuplicates([x] + s)
  {
    var t := [x] + s;
    forall i, j | 0 <= i < j < |t|
      ensures t[i] != t[j]
    {
      assert t[j] == s[j - 1];
      if i > 0 {
        assert t[i] == s[i - 1];
      }
    }
  }

  lemma NoDuplicatesTail(x: string, s: seq<string>)
    requires NoDuplicates([x] + s)
    ensures x !in s && NoDuplicates(s)
  {
    var t := [x] + s;
    forall i | 0 <= i < |s|
      ensures s[i] != x
    {
      assert t[0] == x && t[i + 1] == s[i];
    }
    forall i, j | 0 <= i < j < |s|
      ensures s[i] != s[j]
    {
      assert t[i + 1] == s[i] && t[j + 1] == s[j];
    }
  }

  /** What `toggle` stores: a new status is enabled as asked and not
      updatable; an existing one changes only `enabled`. */
  function Toggled(s: Option<PluginStatus>, enabled: bool): (r: PluginStatus)
    ensures r.enabled == enabled
    ensures r.updatable == (s.Some? && s.value.updatable)
  {
    if s.None? then PluginStatus(enabled, false) else s.value.(enabled := enabled)
  }

  // ---------------------------------------------------------------------
  // Buttons, views and manifests

  /** The id `addButton`/`addView` give a plugin's item. */
  function Prefixed(pluginId: string, id: string): string {
    pluginId + "-" + id
  }

  /** Every item the plugin registered starts with its id and a dash. */
  lemma OwnPrefix(pluginId: string, id: string)
    ensures StartsWith(Prefixed(pluginId, id), pluginId + "-")
  {
    assert Prefixed(pluginId, id)[..|pluginId + "-"|] == pluginId + "-";
  }

  /** The items `toggle` keeps when it disables a plugin, as written: those
      whose id does not start with the plugin's id. */
  function KeptAsWritten(items: seq<Item>, pluginId: string): (r: seq<Item>)
    ensures forall x :: x in r <==> x in items && !StartsWith(x.id, pluginId)
    decreases |items|
  {
    if |items| == 0 then []
    else
      var init := KeptAsWritten(items[..|items| - 1], pluginId);
      var last := items[|items| - 1];
      assert items == items[..|items| - 1] + [last];
      if StartsWith(last.id, pluginId) then init else init + [last]
  }

  /** Disabling a plugin as written also drops the items of every plugin
      whose id extends its id. */
  lemma DisableDropsExtendingPlugin(pluginId: string, suffix: string, id: string, c: Component)
    ensures KeptAsWritten([Item(Prefixed(pluginId + suffix, id), c)], pluginId) == []
  {
    var item := Item(Prefixed(pluginId + suffix, id), c);
    assert item.id[..|pluginId|] == pluginId;
  }

  /** The items kept when disabling a plugin, as evidently intended: those
      not registered under the plugin's id and a dash. */
  function Kept(items: seq<Item>, pluginId: string): (r: seq<Item>)
    ensures forall x :: x in r <==> x in items && !StartsWith(x.id, pluginId + "-")
    decreases |items|
  {
    if |items| == 0 then []
    else
      var init := Kept(items[..|items| - 1], pluginId);
      var last := items[|items| - 1];
      assert items == items[..|items| - 1] + [last];
      if StartsWith(last.id, pluginId + "-") then init else init + [last]
  }

  /** Items of two different dash-free plugins never share the prefix. */
  lemma PrefixesDisjoint(pluginId: string, other: string, id: string)
    requires '-' !in pluginId && '-' !in other && other != pluginId
    ensures !StartsWith(Prefixed(other, id), pluginId + "-")
  {
    var s := Prefixed(other, id);
    var p := pluginId + "-";
    var k: int;
    if |other| > |pluginId| {
      k := |pluginId|;
      assert s[k] == other[k] && p[k] == '-';
    } else if |other| < |pluginId| {
      k := |other|;
      assert s[k] == '-' && p[k] == pluginId[k];
    } else {
      Differ(other, pluginId);
      k :| 0 <= k < |other| && other[k] != pluginId[k];
      assert s[k] == other[k] && p[k] == pluginId[k];
    }
    if |p| <= |s| {
      assert s[..|p|][k] != p[k];
    }
  }

  /** Two different strings of one length differ at some position. */
  lemma Differ(a: string, b: string)
    requires |a| == |b| && a != b
    ensures exists k :: 0 <= k < |a| && a[k] != b[k]
  {
  }

  /** With dash-free plugin ids, the intended filter drops all of a
      plugin's items and keeps those of every other plugin. */
  lemma KeptSeparatesPlugins(items: seq<Item>, pluginId: string, other: string, id: string, c: Component)
    requires '-' !in pluginId && '-' !in other && other != pluginId
    ensures Item(Prefixed(pluginId, id), c) !in Kept(items, pluginId)
    ensures Item(Prefixed(other, id), c) in items ==> Item(Prefixed(other, id), c) in Kept(items, pluginId)
  {
    OwnPrefix(pluginId, id);
    PrefixesDisjoint(pluginId, other, id);
  }

  /** `getButtons(component)` / `getViews(component)`. */
  function OfComponent(items: seq<Item>, c: Component): (r: seq<Item>)
    decreases |items|
  {
    if |items| == 0 then []
    else
      var init := OfComponent(items[..|items| - 1], c);
      if items[|items| - 1].component == c then init + [items[|items| - 1]] else init
  }

  /** Exactly the items of the component, in their order. */
  lemma {:induction false} OfComponentSpec(items: seq<Item>, c: Component)
    ensures forall x :: x in OfComponent(items, c) <==> x in items && x.component == c
    ensures |OfComponent(items, c)| <= |items|
    decreases |items|
  {
    if |items| > 0 {
      OfComponentSpec(items[..|items| - 1], c);
      assert items == items[..|items| - 1] + [items[|items| - 1]];
    }
  }

  function ManifestIds(ms: seq<Manifest>): (r: seq<string>)
    ensures |r| == |ms|
    decreases |ms|
  {
    if |ms| == 0 then [] else [ms[0].id] + ManifestIds(ms[1..])
  }

  /** The manifests after `load`: a manifest is appended only when no
      manifest has its id. */
  function WithManifest(ms: seq<Manifest>, m: Manifest): seq<Manifest> {
    if m.id in ManifestIds(ms) then ms else ms + [m]
  }

  lemma {:induction false} ManifestIdsAppend(ms: seq<Manifest>, m: Manifest)
    ensures ManifestIds(ms + [m]) == ManifestIds(ms) + [m.id]
    decreases |ms|
  {
    if |ms| > 0 {
      assert (ms + [m])[1..] == ms[1..] + [m];
      ManifestIdsAppend(ms[1..], m);
    }
  }

  /** After `load` the manifest's id is present, manifest ids stay
      distinct, and no manifest is lost. */
  lemma WithManifestSpec(ms: seq<Manifest>, m: Manifest)
    ensures m.id in ManifestIds(WithManifest(ms, m))
    ensures NoDuplicates(ManifestIds(ms)) ==> NoDuplicates(ManifestIds(WithManifest(ms, m)))
    ensures forall x :: x in ms ==> x in WithManifest(ms, m)
  {
    ManifestIdsAppend(ms, m);
    if m.id !in ManifestIds(ms) && NoDuplicates(ManifestIds(ms)) {
      var t := ManifestIds(ms) + [m.id];
      forall i, j | 0 <= i < j < |t|
        ensures t[i] != t[j]
      {
        if j == |t| - 1 {
          assert t[i] in ManifestIds(ms);
        }
      }
    }
  }

  /** The manifests after `delete`. */
  function WithoutManifest(ms: seq<Manifest>, id: string): (r: seq<Manifest>)
    ensures forall x :: x in r <==> x in ms && x.id != id
    decreases |ms|
  {
    if |ms| == 0 then []
    else
      var rest := WithoutManifest(ms[1..], id);
      assert ms == [ms[0]] + ms[1..];
      if ms[0].id == id then rest else [ms[0]] + rest
  }

  // ---------------------------------------------------------------------
  // What `loadAll` loads

  /** The call `load` makes into a plugin. */
  function CallFor(id: string, enabled: bool): Call {
    if enabled then Enable(id) else Disable(id)
  }

  /** The ids `loadAll` loads, in order: those with a status and no
      instance yet. */
  function ToLoad(entries: seq<StatusEntry>, loaded: set<string>): (r: seq<StatusEntry>)
    decreases |entries|
  {
    if |entries| == 0 then []
    else if entries[0].id in loaded then ToLoad(entries[1..], loaded)
    else [entries[0]] + ToLoad(entries[1..], loaded + {entries[0].id})
  }

  /** Only status entries without an instance are loaded, each id once,
      and every id with a status ends up loaded. */
  lemma {:induction false} ToLoadSpec(entries: seq<StatusEntry>, loaded: set<string>)
    ensures var r := ToLoad(entries, loaded);
      (forall k :: 0 <= k < |r| ==> r[k] in entries && r[k].id !in loaded)
      && NoDuplicates(StatusIds(r))
      && forall i :: 0 <= i < |entries| ==> entries[i].id in loaded || entries[i].id in StatusIds(r)
    decreases |entries|
  {
    if |entries| > 0 {
      var e := entries[0];
      var tail := entries[1..];
      if e.id in loaded {
        ToLoadSpec(tail, loaded);
        forall i | 0 <= i < |entries|
          ensures entries[i].id in loaded || entries[i].id in StatusIds(ToLoad(entries, loaded))
        {
          if i > 0 {
            assert entries[i] == tail[i - 1];
          }
        }
      } else {
        var loaded' := loaded + {e.id};
        ToLoadSpec(tail, loaded');
        var rest := ToLoad(tail, loaded');
        var r := [e] + rest;
        assert r[1..] == rest;
        assert StatusIds(r) == [e.id] + StatusIds(rest);
        assert e.id !in StatusIds(rest) by {
          if e.id in StatusIds(rest) {
            var k :| 0 <= k < |rest| && StatusIds(rest)[k] == e.id;
            StatusIdsAt(rest, k);
          }
        }
        NoDuplicatesCons(e.id, StatusIds(rest));
        forall i | 0 <= i < |entries|
          ensures entries[i].id in loaded || entries[i].id in StatusIds(r)
        {
          if i > 0 && entries[i].id != e.id {
            assert entries[i] == tail[i - 1];
          }
        }
        forall k | 0 <= k < |r|
          ensures r[k] in entries && r[k].id !in loaded
        {
          if k > 0 {
            assert r[k] == rest[k - 1];
          }
        }
      }
    }
  }

  lemma {:induction false} StatusIdsAt(entries: seq<StatusEntry>, k: nat)
    requires k < |entries|
    ensures StatusIds(entries)[k] == entries[k].id
    decreases k
  {
    if k > 0 {
      StatusIdsAt(entries[1..], k - 1);
    }
  }

  function CallsFor(entries: seq<StatusEntry>): (r: seq<Call>)
    ensures |r| == |entries|
    decreases |entries|
  {
    if |entries| == 0 then [] else [CallFor(entries[0].id, entries[0].status.enabled)] + CallsFor(entries[1..])
  }

  /** The items left after loading one listed plugin: disabling it drops
      the items `toggle` drops. */
  function Toggled1(items: seq<Item>, e: StatusEntry): seq<Item> {
    if e.status.enabled then items else KeptAsWritten(items, e.id)
  }

  /** The items left after loading the plugins in order. */
  function AfterToggles(items: seq<Item>, es: seq<StatusEntry>): seq<Item>
    decreases |es|
  {
    if |es| == 0 then items else AfterToggles(Toggled1(items, es[0]), es[1..])
  }

  /** The manifest list after loading the plugins in order. */
  function AfterManifests(ms: seq<Manifest>, es: seq<StatusEntry>, disk: map<string, Manifest>): seq<Manifest>
    decreases |es|
  {
    if |es| == 0 then ms
    else AfterManifests(if es[0].id in disk then WithManifest(ms, disk[es[0].id]) else ms, es[1..], disk)
  }

  /** Every plugin to load has a readable manifest. */
  predicate Readable(toLoad: seq<StatusEntry>, disk: map<string, Manifest>) {
    forall k :: 0 <= k < |toLoad| ==> toLoad[k].id in disk
  }

  function IdSet(entries: seq<StatusEntry>): set<string> {
    set k | 0 <= k < |entries| :: entries[k].id
  }

  lemma IdSetSnoc(entries: seq<StatusEntry>, i: nat)
    requires i < |entries|
    ensures IdSet(entries[..i + 1]) == IdSet(entries[..i]) + {entries[i].id}
  {
    assert entries[..i + 1] == entries[..i] + [entries[i]];
  }

  lemma ToLoadStep(entries: seq<StatusEntry>, i: nat, loaded: set<string>)
    requires i < |entries|
    ensures entries[i].id in loaded ==> ToLoad(entries[i..], loaded) == ToLoad(entries[i + 1..], loaded)
    ensures entries[i].id !in loaded ==>
      ToLoad(entries[i..], loaded) == [entries[i]] + ToLoad(entries[i + 1..], loaded + {entries[i].id})
  {
    assert entries[i..][1..] == entries[i + 1..];
  }

  lemma ToLoadCons(e: StatusEntry, rest: seq<StatusEntry>, disk: map<string, Manifest>)
    ensures CallsFor([e] + rest) == [CallFor(e.id, e.status.enabled)] + CallsFor(rest)
    ensures Readable([e] + rest, disk) <==> e.id in disk && Readable(rest, disk)
  {
    assert ([e] + rest)[1..] == rest;
    assert ([e] + rest)[0] == e;
    assert forall k :: 0 <= k < |rest| ==> ([e] + rest)[k + 1] == rest[k];
  }

  /** `p` keeps every instance of `p0` and holds a fresh instance for every
      other id it has. */
  predicate Extends(p0: map<string, Instance>, p: map<string, Instance>) {
    (forall id :: id in p0 ==> id in p && p[id] == p0[id])
    && forall id :: id in p && id !in p0 ==> p[id] == Instance(id)
  }

  lemma ExtendsAdd(p0: map<string, Instance>, p: map<string, Instance>, id: string)
    requires Extends(p0, p) && id !in p
    ensures Extends(p0, p[id := Instance(id)])
  {
  }

  /** Every element of `xs` is in `ys`. */
  predicate Within<T(==)>(xs: seq<T>, ys: seq<T>) {
    forall x :: x in xs ==> x in ys
  }

  lemma WithinTrans<T>(xs: seq<T>, ys: seq<T>, zs: seq<T>)
    requires Within(xs, ys) && Within(ys, zs)
    ensures Within(xs, zs)
  {
  }

  /** Toggling keeps the items within what they were. */
  lemma ToggledWithin(items0: seq<Item>, before: seq<Item>, pluginId: string, enabled: bool)
    requires Within(before, items0)
    ensures Within(if enabled then before else KeptAsWritten(before, pluginId), items0)
  {
  }

  /** Loading a manifest loses none. */
  lemma WithManifestWithin(ms0: seq<Manifest>, ms: seq<Manifest>, m: Manifest)
    requires Within(ms0, ms)
    ensures Within(ms0, WithManifest(ms, m))
  {
    WithManifestSpec(ms, m);
  }

  /** The loaded ids after one more entry. */
  lemma KeysStep(entries: seq<StatusEntry>, i: nat, keys0: set<string>, keys: set<string>)
    requires i < |entries| && keys == keys0 + IdSet(entries[..i])
    ensures keys + {entries[i].id} == keys0 + IdSet(entries[..i + 1])
    ensures entries[i].id in keys ==> keys == keys0 + IdSet(entries[..i + 1])
  {
    IdSetSnoc(entries, i);
  }

  /** An id that is not yet loaded has no earlier entry, so the listed status
      is its first. */
  lemma FirstUnloaded(entries: seq<StatusEntry>, i: nat, keys0: set<string>, keys: set<string>)
    requires i < |entries| && keys == keys0 + IdSet(entries[..i]) && entries[i].id !in keys
    ensures StatusOf(entries, entries[i].id) == Some(entries[i].status)
  {
    forall j | 0 <= j < i
      ensures entries[j].id != entries[i].id
    {
      assert entries[j] == entries[..i][j];
    }
    StatusOfFirst(entries, i);
  }

  class Manager {
    /** the status map, in insertion order */
    var statusMap: seq<StatusEntry>
    /** what `status.json` holds */
    var savedStatus: seq<StatusEntry>
    var manifests: seq<Manifest>
    var plugins: map<string, Instance>
    var buttons: seq<Item>
    var views: seq<Item>
    /** the calls into the plugins, oldest first */
    var calls: seq<Call>

    constructor()
      ensures statusMap == [] && savedStatus == [] && manifests == [] && plugins == map[]
      ensures buttons == [] && views == [] && calls == []
    {
      statusMap := [];
      savedStatus := [];
      manifests := [];
      plugins := map[];
      buttons := [];
      views := [];
      calls := [];
    }

    /** `plugin.addButton(button)` as bound by `_load`. */
    method AddButton(pluginId: string, button: Item)
      modifies this`buttons
      ensures buttons == old(buttons) + [button.(id := Prefixed(pluginId, button.id))]
    {
      buttons := buttons + [button.(id := Prefixed(pluginId, button.id))];
    }

    /** `plugin.addView(view)` as bound by `_load`. */
    method AddView(pluginId: string, view: Item)
      modifies this`views
      ensures views == old(views) + [view.(id := Prefixed(pluginId, view.id))]
    {
      views := views + [view.(id := Prefixed(pluginId, view.id))];
    }

    /** `saveStatus()`. */
    method SaveStatus()
      modifies this`savedStatus
      ensures savedStatus == statusMap
    {
      savedStatus := statusMap;
    }

    /** `loadStatus()` with the parsed `status.json`, if the file exists. */
    method LoadStatus(stored: Option<seq<StatusEntry>>)
      modifies this`statusMap
      ensures statusMap == if stored.Some? then stored.value else old(statusMap)
    {
      if stored.Some? {
        statusMap := stored.value;
      }
    }

    /** `toggle(pluginId, enabled)`: nothing for a plugin that is not
      loaded; otherwise the status is stored and saved, the plugin is
      enabled or disabled, and disabling drops every item whose id starts
      with the plugin's id (`KeptAsWritten`). */
    method Toggle(pluginId: string, enabled: bool)
      modifies this`statusMap, this`savedStatus, this`buttons, this`views, this`calls
      ensures pluginId !in plugins ==> (
        statusMap == old(statusMap) && savedStatus == old(savedStatus) && buttons == old(buttons)
        && views == old(views) && calls == old(calls))
      ensures pluginId in plugins ==> (
        statusMap == SetStatus(old(statusMap), pluginId, Toggled(StatusOf(old(statusMap), pluginId), enabled))
        && savedStatus == statusMap && calls == old(calls) + [CallFor(pluginId, enabled)]
        && buttons == (if enabled then old(buttons) else KeptAsWritten(old(buttons), pluginId))
        && views == (if enabled then old(views) else KeptAsWritten(old(views), pluginId)))
    {
      if pluginId !in plugins {
        return;
      }
      var status := StatusOf(statusMap, pluginId);
      statusMap := SetStatus(statusMap, pluginId, Toggled(status, enabled));
      SaveStatus();
      if enabled {
        calls := calls + [Enable(pluginId)];
      } else {
        calls := calls + [Disable(pluginId)];
        buttons := KeptAsWritten(buttons, pluginId);
        views := KeptAsWritten(views, pluginId);
      }
    }

    /** `delete(meta)`: the status, the instance and every manifest with
      the id go, and the status is saved. */
    method Delete(meta: Manifest)
      modifies this`statusMap, this`savedStatus, this`plugins, this`manifests
      ensures statusMap == DeleteStatus(old(statusMap), meta.id) && savedStatus == statusMap
      ensures plugins == old(plugins) - {meta.id}
      ensures manifests == WithoutManifest(old(manifests), meta.id)
    {
      statusMap := DeleteStatus(statusMap, meta.id);
      plugins := plugins - {meta.id};
      manifests := WithoutManifest(manifests, meta.id);
      SaveStatus();
    }

    /** `load(pluginId, enabled)`; `disk` maps the ids whose manifest can
      be read to that manifest. The manifest is registered if its id is
      new, the instance is stored, then the plugin is toggled. */
    method Load(pluginId: string, enabled: bool, disk: map<string, Manifest>) returns (r: Result<()>)
      modifies this`statusMap, this`savedStatus, this`manifests, this`plugins, this`buttons, this`views, this`calls
      ensures pluginId !in disk ==> (
        r == Err(NO_MANIFEST) && statusMap == old(statusMap) && savedStatus == old(savedStatus)
        && manifests == old(manifests) && plugins == old(plugins) && buttons == old(buttons)
        && views == old(views) && calls == old(calls))
      ensures pluginId in disk ==> (
        r.Ok? && manifests == WithManifest(old(manifests), disk[pluginId])
        && plugins == old(plugins)[pluginId := Instance(pluginId)]
        && statusMap == SetStatus(old(statusMap), pluginId, Toggled(StatusOf(old(statusMap), pluginId), enabled))
        && savedStatus == statusMap && calls == old(calls) + [CallFor(pluginId, enabled)]
        && buttons == (if enabled then old(buttons) else KeptAsWritten(old(buttons), pluginId))
        && views == (if enabled then old(views) else KeptAsWritten(old(views), pluginId)))
    {
      if pluginId !in disk {
        return Err(NO_MANIFEST);
      }
      var manifest := disk[pluginId];
      var plugin := Instance(pluginId);
      if manifest.id !in ManifestIds(manifests) {
        manifests := manifests + [manifest];
      }
      plugins := plugins[pluginId := plugin];
      Toggle(pluginId, enabled);
      r := Ok(());
    }

    /** `load` of a plugin without a readable manifest, as `loadAll` calls
      it: it fails and changes nothing. */
    method LoadUnreadable(e: StatusEntry, disk: map<string, Manifest>) returns (r: Result<()>)
      requires e.id !in disk
      modifies this`statusMap, this`savedStatus, this`manifests, this`plugins, this`buttons, this`views, this`calls
      ensures r.Err?
      ensures statusMap == old(statusMap) && manifests == old(manifests) && plugins == old(plugins)
      ensures buttons == old(buttons) && views == old(views) && calls == old(calls)
    {
      r := Load(e.id, e.status.enabled, disk);
    }

    /** `load` of a listed plugin that is not loaded and has a readable
      manifest, as `loadAll` calls it: its status stays as listed. */
    method LoadListed(e: StatusEntry, disk: map<string, Manifest>) returns (r: Result<()>)
      requires e.id !in plugins && e.id in disk && StatusOf(statusMap, e.id) == Some(e.status)
      modifies this`statusMap, this`savedStatus, this`manifests, this`plugins, this`buttons, this`views, this`calls
      ensures r.Ok? && statusMap == old(statusMap)
      ensures plugins == old(plugins)[e.id := Instance(e.id)]
      ensures calls == old(calls) + [CallFor(e.id, e.status.enabled)]
      ensures manifests == WithManifest(old(manifests), disk[e.id])
      ensures buttons == Toggled1(old(buttons), e) && views == Toggled1(old(views), e)
      ensures Within(old(manifests), manifests)
      ensures Within(buttons, old(buttons)) && Within(views, old(views))
    {
      WithManifestWithin(manifests, manifests, disk[e.id]);
      ToggledWithin(buttons, buttons, e.id, e.status.enabled);
      ToggledWithin(views, views, e.id, e.status.enabled);
      ghost var entries := statusMap;
      r := Load(e.id, e.status.enabled, disk);
      SetStatusSame(entries, e.id, e.status);
    }

    /** `loadAll()` with the parsed `status.json` and the readable
      manifests: every id with a status and no instance is loaded, in
      order, with its stored `enabled`; the first unreadable manifest
      stops it. */
    method LoadAll(stored: Option<seq<StatusEntry>>, disk: map<string, Manifest>) returns (r: Result<()>)
      modifies this`statusMap, this`savedStatus, this`manifests, this`plugins, this`buttons, this`views, this`calls
      ensures var entries := if stored.Some? then stored.value else old(statusMap);
        r.Ok? <==> Readable(ToLoad(entries, old(plugins).Keys), disk)
      ensures var entries := if stored.Some? then stored.value else old(statusMap);
        r.Ok? ==> (
          statusMap == entries
          && calls == old(calls) + CallsFor(ToLoad(entries, old(plugins).Keys))
          && plugins.Keys == old(plugins).Keys + IdSet(entries)
          && manifests == AfterManifests(old(manifests), ToLoad(entries, old(plugins).Keys), disk)
          && buttons == AfterToggles(old(buttons), ToLoad(entries, old(plugins).Keys))
          && views == AfterToggles(old(views), ToLoad(entries, old(plugins).Keys)))
      ensures Extends(old(plugins), plugins)
      ensures Within(old(manifests), manifests)
      ensures Within(buttons, old(buttons)) && Within(views, old(views))
    {
      LoadStatus(stored);
      var entries := statusMap;
      ghost var all := ToLoad(entries, plugins.Keys);
      ghost var pending := all;
      r := Ok(());
      for i := 0 to |entries|
        invariant r.Ok?
        invariant statusMap == entries
        invariant plugins.Keys == old(plugins).Keys + IdSet(entries[..i])
        invariant Extends(old(plugins), plugins)
        invariant pending == ToLoad(entries[i..], plugins.Keys)
        invariant calls + CallsFor(pending) == old(calls) + CallsFor(all)
        invariant AfterManifests(manifests, pending, disk) == AfterManifests(old(manifests), all, disk)
        invariant AfterToggles(buttons, pending) == AfterToggles(old(buttons), all)
        invariant AfterToggles(views, pending) == AfterToggles(old(views), all)
        invariant Readable(all, disk) <==> Readable(pending, disk)
        invariant Within(old(manifests), manifests)
        invariant Within(buttons, old(buttons)) && Within(views, old(views))
      {
        var e := entries[i];
        ToLoadStep(entries, i, plugins.Keys);
        KeysStep(entries, i, old(plugins).Keys, plugins.Keys);
        if e.id !in plugins {
          var rest := ToLoad(entries[i + 1..], plugins.Keys + {e.id});
          ToLoadCons(e, rest, disk);
          if e.id !in disk {
            assert !Readable(all, disk);
            r := LoadUnreadable(e, disk);
            return;
          }
          FirstUnloaded(entries, i, old(plugins).Keys, plugins.Keys);
          ghost var callsBefore := calls;
          ghost var keysBefore := plugins.Keys;
          ghost var manifestsBefore := manifests;
          ghost var buttonsBefore := buttons;
          ghost var viewsBefore := views;
          ExtendsAdd(old(plugins), plugins, e.id);
          r := LoadListed(e, disk);
          WithinTrans(old(manifests), manifestsBefore, manifests);
          WithinTrans(buttons, buttonsBefore, old(buttons));
          WithinTrans(views, viewsBefore, old(views));
          assert plugins.Keys == keysBefore + {e.id};
          assert ToLoad(entries[i + 1..], plugins.Keys) == rest;
          assert ([e] + rest)[1..] == rest;
          assert calls == callsBefore + [CallFor(e.id, e.status.enabled)];
          AppendAssoc(callsBefore, [CallFor(e.id, e.status.enabled)], CallsFor(rest));
          pending := rest;
        }
      }
      assert entries[|entries|..] == [] && entries[..|entries|] == entries;
      assert pending == [];
    }

    /** `getButtons(component)`. */
    method GetButtons(c: Component) returns (r: seq<Item>)
      ensures r == OfComponent(buttons, c)
    {
      r := OfComponent(buttons, c);
    }

    /** `getViews(component)`. */
    method GetViews(c: Component) returns (r: seq<Item>)
      ensures r == OfComponent(views, c)
    {
      r := OfComponent(views, c);
    }

    /** `getStatus(pluginId)`. */
    method GetStatus(pluginId: string) returns (r: Option<PluginStatus>)
      ensures r == StatusOf(statusMap, pluginId)
    {
      r := StatusOf(statusMap, pluginId);
    }
  }
}
