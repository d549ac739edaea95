/**
 * The link graph drawn around a project or a note: the item's cluster
 * (the item, its project and the project's notes), the links from or to
 * the item, and the clusters of their ends, each node once.
 *
 * What `getNodeCluster` looks up comes in a `Lookup` of functions: the
 * kind of an id, whether the annotation or project of an id exists, the
 * annotation, the label of a project and the notes of a project.
 */
module Graph {
  import opened Wrappers
  import opened Strings
  import opened Seqs
  import opened Models
  import opened SqlTables

  /** What `getDataType` makes of an id. */
  datatype ItemKind = ProjectItem | NoteItem | AnnotationItem

  datatype NodeKind = ProjectNode | NoteNode | AnnotationNode

  datatype GraphNode = GraphNode(id: string, name: string, kind: NodeKind, parent: Option<string>)

  datatype Lookup = Lookup(
    kindOf: string -> ItemKind,
    annotFound: string -> bool,
    projectFound: string -> bool,
    annotOf: string -> AnnotationData,
    projectLabelOf: string -> string,
    notesOf: string -> seq<Note>)

  // --------------------------------------------------- updateForwardLinks

  /** One link from the note per target, in order. */
  function OutgoingTo(noteId: string, targets: seq<string>): (r: seq<Link>)
    ensures |r| == |targets|
    ensures forall i :: 0 <= i < |r| ==> r[i] == Link(noteId, targets[i])
    decreases |targets|
  {
    if |targets| == 0 then []
    else OutgoingTo(noteId, targets[..|targets| - 1]) + [Link(noteId, targets[|targets| - 1])]
  }

  function NotFrom(links: seq<Link>, noteId: string): (r: seq<Link>)
    ensures forall l :: l in r <==> l in links && l.source != noteId
  {
    Filter(links, (l: Link) => l.source != noteId)
  }

  function From(links: seq<Link>, noteId: string): (r: seq<Link>)
    ensures forall l :: l in r <==> l in links && l.source == noteId
  {
    Filter(links, (l: Link) => l.source == noteId)
  }

  /** `updateForwardLinks`: the note's links are deleted, then one row is
      inserted per target. */
  method UpdateForwardLinks(db: Database, noteId: string, targets: seq<string>)
    modifies db`links
    ensures db.links == NotFrom(old(db.links), noteId) + OutgoingTo(noteId, targets)
  {
    var rest := NotFrom(db.links, noteId);
    var links := rest;
    var i := 0;
    while i < |targets|
      invariant 0 <= i <= |targets|
      invariant links == rest + OutgoingTo(noteId, targets[..i])
    {
      assert targets[..i + 1][..i] == targets[..i];
      links := links + [Link(noteId, targets[i])];
      i := i + 1;
    }
    assert targets[..i] == targets;
    db.links := links;
  }

  /** Afterwards the note's outgoing links are exactly the targets, in
      order. */
  lemma ForwardLinksReplaced(links: seq<Link>, noteId: string, targets: seq<string>)
    ensures From(NotFrom(links, noteId) + OutgoingTo(noteId, targets), noteId) == OutgoingTo(noteId, targets)
  {
    var rest := NotFrom(links, noteId);
    var added := OutgoingTo(noteId, targets);
    FilterAppend(rest, added, (l: Link) => l.source == noteId);
    FilterKeepsAll(added, (l: Link) => l.source == noteId);
    assert From(rest, noteId) == [];
    assert [] + added == added;
  }

  /** ... and every other note's links are as before. */
  lemma OtherLinksKept(links: seq<Link>, noteId: string, targets: seq<string>, other: string)
    requires other != noteId
    ensures From(NotFrom(links, noteId) + OutgoingTo(noteId, targets), other) == From(links, other)
  {
    var rest := NotFrom(links, noteId);
    var added := OutgoingTo(noteId, targets);
    FilterAppend(rest, added, (l: Link) => l.source == other);
    assert From(added, other) == [];
    assert From(rest, other) + [] == From(rest, other);
    FromNotFrom(links, noteId, other);
  }

  lemma {:induction false} FromNotFrom(links: seq<Link>, noteId: string, other: string)
    requires other != noteId
    ensures From(NotFrom(links, noteId), other) == From(links, other)
    decreases |links|
  {
    if |links| > 0 {
      var init := links[..|links| - 1];
      var last := links[|links| - 1];
      assert links == init + [last];
      FromNotFrom(init, noteId, other);
      FilterAppend(init, [last], (l: Link) => l.source != noteId);
      FilterAppend(init, [last], (l: Link) => l.source == other);
      FilterAppend(NotFrom(init, noteId), NotFrom([last], noteId), (l: Link) => l.source == other);
      if last.source == other {
        FilterKeepsAll([last], (l: Link) => l.source != noteId);
      }
    }
  }

  // ------------------------------------------------------ getNodeCluster

  /** The node of the item itself: a note's parent is the first segment
      of its id and its label the last segment with the first "%20" read
      as a space; an annotation's parent is its project and its label its
      type; a project has no parent. */
  function ItemNode(itemId: string, lookup: Lookup): GraphNode {
    match lookup.kindOf(itemId)
    case NoteItem =>
      GraphNode(itemId, ReplaceFirst(LastPart(itemId, '/'), "%20", " "), NoteNode, Some(Split(itemId, '/')[0]))
    case AnnotationItem =>
      var item := lookup.annotOf(itemId);
      GraphNode(itemId, AnnotationTypeName(item.annotType), AnnotationNode, Some(item.projectId))
    case ProjectItem =>
      GraphNode(itemId, lookup.projectLabelOf(itemId), ProjectNode, None)
  }

  /** A note `<projectId>/<path>` hangs under its project; at the top of
      the project its label is its file name with "%20" read as a space. */
  lemma NoteUnderProject(projectId: string, path: string, lookup: Lookup)
    requires '/' !in projectId
    requires lookup.kindOf(projectId + "/" + path) == NoteItem
    ensures ItemNode(projectId + "/" + path, lookup).parent == Some(projectId)
    ensures ItemNode(projectId + "/" + path, lookup).kind == NoteNode
    ensures '/' !in path ==> ItemNode(projectId + "/" + path, lookup).name == ReplaceFirst(path, "%20", " ")
  {
    assert projectId + "/" + path == projectId + ['/'] + path;
    FirstPartBefore(projectId, '/', path);
    SplitWithoutSeparator(projectId, '/');
    if '/' !in path {
      LastPartAfter(projectId, '/', path);
    }
  }

  function NoteNodes(notes: seq<Note>): (r: seq<GraphNode>)
    ensures |r| == |notes|
    ensures forall i :: 0 <= i < |r| ==>
      r[i] == GraphNode(notes[i].id, notes[i].name, NoteNode, Some(notes[i].projectId))
  {
    seq(|notes|, i requires 0 <= i < |notes| => GraphNode(notes[i].id, notes[i].name, NoteNode, Some(notes[i].projectId)))
  }

  /** `getNodeCluster`: a project's notes, then the item, then its parent's
      cluster. `fuel` bounds the chain of parents, which the code does
      not bound. */
  function NodeCluster(itemId: Option<string>, lookup: Lookup, fuel: nat): seq<GraphNode>
    decreases fuel
  {
    if itemId.None? || itemId.value == "" || fuel == 0 then []
    else
      var item := ItemNode(itemId.value, lookup);
      var before := if lookup.kindOf(itemId.value) == ProjectItem then NoteNodes(lookup.notesOf(itemId.value)) else [];
      before + [item] + NodeCluster(item.parent, lookup, fuel - 1)
  }

  /** Whether `getNodeCluster` runs without a TypeError: every annotation
      and every project on the way up to the top is found. A missing one
      comes back `undefined` and reading its fields throws. */
  predicate ClusterResolves(itemId: Option<string>, lookup: Lookup, fuel: nat)
    decreases fuel
  {
    if itemId.None? || itemId.value == "" || fuel == 0 then true
    else
      var id := itemId.value;
      (lookup.kindOf(id) == AnnotationItem ==> lookup.annotFound(id))
      && (lookup.kindOf(id) == ProjectItem ==> lookup.projectFound(id))
      && ClusterResolves(ParentOf(id, lookup), lookup, fuel - 1)
  }

  /** The parent `getNodeCluster` moves up to, as in `ItemNode`. */
  function ParentOf(itemId: string, lookup: Lookup): (r: Option<string>)
    ensures r == ItemNode(itemId, lookup).parent
  {
    match lookup.kindOf(itemId)
    case NoteItem => Some(Split(itemId, '/')[0])
    case AnnotationItem => Some(lookup.annotOf(itemId).projectId)
    case ProjectItem => None
  }

  /** The clusters of both ends of a link resolve. */
  predicate EndsResolve(edge: Link, lookup: Lookup, fuel: nat) {
    ClusterResolves(Some(edge.source), lookup, fuel) && ClusterResolves(Some(edge.target), lookup, fuel)
  }

  /** The clusters of the ends of every link resolve, link by link. */
  predicate AllEndsResolve(edges: seq<Link>, lookup: Lookup, fuel: nat)
    decreases |edges|
  {
    |edges| == 0
    || (AllEndsResolve(edges[..|edges| - 1], lookup, fuel) && EndsResolve(edges[|edges| - 1], lookup, fuel))
  }

  lemma {:induction false} AllEndsResolveEach(edges: seq<Link>, lookup: Lookup, fuel: nat)
    ensures AllEndsResolve(edges, lookup, fuel) <==> forall e :: e in edges ==> EndsResolve(e, lookup, fuel)
    decreases |edges|
  {
    if |edges| > 0 {
      var init := edges[..|edges| - 1];
      AllEndsResolveEach(init, lookup, fuel);
      assert edges == init + [edges[|edges| - 1]];
    }
  }

  /** An annotation that is not found makes its cluster throw. */
  lemma MissingAnnotationThrows(annotId: string, lookup: Lookup, fuel: nat)
    requires annotId != "" && fuel > 0
    requires lookup.kindOf(annotId) == AnnotationItem && !lookup.annotFound(annotId)
    ensures !ClusterResolves(Some(annotId), lookup, fuel)
  {
  }

  /** A note of a project that is found resolves, and so does an annotation
      of one. */
  lemma NoteOfFoundProjectResolves(projectId: string, path: string, lookup: Lookup, fuel: nat)
    requires '/' !in projectId && projectId != "" && fuel >= 2
    requires lookup.kindOf(projectId + "/" + path) == NoteItem
    requires lookup.kindOf(projectId) == ProjectItem && lookup.projectFound(projectId)
    ensures ClusterResolves(Some(projectId + "/" + path), lookup, fuel)
  {
    NoteUnderProject(projectId, path, lookup);
  }

  /** No id, no cluster; otherwise a project's cluster opens with the
      nodes of its notes, then comes the item's own node, then the cluster
      of its parent. */
  lemma ClusterShape(itemId: Option<string>, lookup: Lookup, fuel: nat)
    ensures itemId.None? || itemId.value == "" || fuel == 0 ==> NodeCluster(itemId, lookup, fuel) == []
    ensures itemId.Some? && itemId.value != "" && fuel > 0 ==>
      var r := NodeCluster(itemId, lookup, fuel);
      var before := if lookup.kindOf(itemId.value) == ProjectItem then NoteNodes(lookup.notesOf(itemId.value)) else [];
      |r| > |before| && r[..|before|] == before && r[|before|] == ItemNode(itemId.value, lookup)
      && r[|before| + 1..] == NodeCluster(ItemNode(itemId.value, lookup).parent, lookup, fuel - 1)
  {
    if itemId.Some? && itemId.value != "" && fuel > 0 {
      var r := NodeCluster(itemId, lookup, fuel);
      var item := ItemNode(itemId.value, lookup);
      var before := if lookup.kindOf(itemId.value) == ProjectItem then NoteNodes(lookup.notesOf(itemId.value)) else [];
      assert r == before + [item] + NodeCluster(item.parent, lookup, fuel - 1);
      assert r[..|before|] == before;
      assert r[|before| + 1..] == NodeCluster(item.parent, lookup, fuel - 1);
    }
  }

  // ------------------------------------------------------------ getGraph

  function NodeIds(nodes: seq<GraphNode>): (r: seq<string>)
    ensures |r| == |nodes|
    decreases |nodes|
  {
    if |nodes| == 0 then []
    else NodeIds(nodes[..|nodes| - 1]) + [nodes[|nodes| - 1].id]
  }

  /** Each id once, at its first node. */
  function FirstPerId(nodes: seq<GraphNode>): seq<GraphNode>
    decreases |nodes|
  {
    if |nodes| == 0 then []
    else
      var r := FirstPerId(nodes[..|nodes| - 1]);
      if nodes[|nodes| - 1].id in NodeIds(r) then r else r + [nodes[|nodes| - 1]]
  }

  lemma NodeIdsSnoc(nodes: seq<GraphNode>, n: GraphNode)
    ensures NodeIds(nodes + [n]) == NodeIds(nodes) + [n.id]
  {
    assert (nodes + [n])[..|nodes|] == nodes;
  }

  lemma FirstPerIdSnoc(nodes: seq<GraphNode>, n: GraphNode)
    ensures FirstPerId(nodes + [n]) ==
      if n.id in NodeIds(FirstPerId(nodes)) then FirstPerId(nodes) else FirstPerId(nodes) + [n]
  {
    assert (nodes + [n])[..|nodes|] == nodes;
  }

  /** The first nodes have distinct ids, come from the input, and cover
      every id of the input. */
  lemma {:induction false} FirstPerIdCovers(nodes: seq<GraphNode>)
    ensures NoDuplicates(NodeIds(FirstPerId(nodes)))
    ensures forall n :: n in FirstPerId(nodes) ==> n in nodes
    ensures forall n :: n in nodes ==> n.id in NodeIds(FirstPerId(nodes))
    decreases |nodes|
  {
    if |nodes| > 0 {
      var init := nodes[..|nodes| - 1];
      var last := nodes[|nodes| - 1];
      FirstPerIdCovers(init);
      var r := FirstPerId(init);
      SplitLast(nodes);
      if last.id !in NodeIds(r) {
        assert (r + [last])[..|r|] == r;
        assert NodeIds(r + [last]) == NodeIds(r) + [last.id];
      }
    }
  }

  /** The links from or to the item, in table order. */
  function Touching(links: seq<Link>, itemId: string): (r: seq<Link>)
    ensures forall l :: l in r <==> l in links && (l.source == itemId || l.target == itemId)
  {
    Filter(links, (l: Link) => l.source == itemId || l.target == itemId)
  }

  /** The clusters of both ends of each edge, in order. */
  function EdgeClusters(edges: seq<Link>, lookup: Lookup, fuel: nat): seq<GraphNode>
    decreases |edges|
  {
    if |edges| == 0 then []
    else EdgeClusters(edges[..|edges| - 1], lookup, fuel) + EndClusters(edges[|edges| - 1], lookup, fuel)
  }

  lemma EdgeClustersStep(edges: seq<Link>, i: nat, lookup: Lookup, fuel: nat)
    requires i < |edges|
    ensures EdgeClusters(edges[..i + 1], lookup, fuel) == EdgeClusters(edges[..i], lookup, fuel) + EndClusters(edges[i], lookup, fuel)
  {
    assert edges[..i + 1][..i] == edges[..i];
  }

  function EndClusters(edge: Link, lookup: Lookup, fuel: nat): seq<GraphNode> {
    NodeCluster(Some(edge.source), lookup, fuel) + NodeCluster(Some(edge.target), lookup, fuel)
  }

  /** Adds the nodes of `cluster` whose id is not yet present. */
  method AddUnique(nodes: seq<GraphNode>, ids: seq<string>, cluster: seq<GraphNode>) returns (nodes': seq<GraphNode>, ids': seq<string>)
    requires ids == NodeIds(nodes) && nodes == FirstPerId(nodes)
    ensures ids' == NodeIds(nodes') && nodes' == FirstPerId(nodes + cluster)
  {
    nodes', ids' := nodes, ids;
    var i := 0;
    assert nodes + cluster[..0] == nodes;
    while i < |cluster|
      invariant 0 <= i <= |cluster|
      invariant ids' == NodeIds(nodes') && nodes' == FirstPerId(nodes + cluster[..i])
    {
      AppendSliceStep(nodes, cluster, i);
      FirstPerIdSnoc(nodes + cluster[..i], cluster[i]);
      NodeIdsSnoc(nodes', cluster[i]);
      if cluster[i].id !in ids' {
        nodes' := nodes' + [cluster[i]];
        ids' := ids' + [cluster[i].id];
      }
      i := i + 1;
    }
    assert cluster[..i] == cluster;
  }

  /** Adds the nodes of `more` whose id is not yet among the first nodes
      of `before`. */
  method AddAfter(nodes: seq<GraphNode>, ids: seq<string>, ghost before: seq<GraphNode>, more: seq<GraphNode>)
    returns (nodes': seq<GraphNode>, ids': seq<string>)
    requires ids == NodeIds(nodes) && nodes == FirstPerId(before)
    ensures ids' == NodeIds(nodes') && nodes' == FirstPerId(before + more)
  {
    FirstPerIdIdempotent(before);
    nodes', ids' := AddUnique(nodes, ids, more);
    FirstPerIdAppend(before, more);
  }

  /** `getGraph`: the nodes of the item's cluster and of the clusters of
      the ends of its links, the first of each id; and one edge per link
      from or to the item. It throws, and `ok` is false, exactly when
      one of those clusters meets a missing annotation or project. */
  method GetGraph(itemId: string, links: seq<Link>, lookup: Lookup, fuel: nat)
    returns (ok: bool, nodes: seq<GraphNode>, edges: seq<Link>)
    ensures ok <==> ClusterResolves(Some(itemId), lookup, fuel)
                    && forall e :: e in Touching(links, itemId) ==> EndsResolve(e, lookup, fuel)
    ensures ok ==> nodes == FirstPerId(NodeCluster(Some(itemId), lookup, fuel) + EdgeClusters(Touching(links, itemId), lookup, fuel))
    ensures ok ==> edges == Touching(links, itemId)
  {
    nodes, edges := [], [];
    ok := ClusterResolves(Some(itemId), lookup, fuel);
    if !ok {
      return;
    }
    var home := NodeCluster(Some(itemId), lookup, fuel);
    var ids: seq<string>;
    nodes, ids := AddUnique([], [], home);
    assert [] + home == home;
    ok, nodes, edges := AddAllEdges(nodes, ids, home, Touching(links, itemId), lookup, fuel);
    AllEndsResolveEach(Touching(links, itemId), lookup, fuel);
  }

  /** The loop of `getGraph` over the links: the clusters of both ends of
      each link in turn, until one of them throws. */
  method AddAllEdges(nodes: seq<GraphNode>, ids: seq<string>, ghost home: seq<GraphNode>, data: seq<Link>, lookup: Lookup, fuel: nat)
    returns (ok: bool, nodes': seq<GraphNode>, edges: seq<Link>)
    requires ids == NodeIds(nodes) && nodes == FirstPerId(home)
    ensures ok <==> AllEndsResolve(data, lookup, fuel)
    ensures ok ==> nodes' == FirstPerId(home + EdgeClusters(data, lookup, fuel)) && edges == data
  {
    nodes', edges := nodes, [];
    var ids' := ids;
    var i := 0;
    assert EdgeClusters(data[..0], lookup, fuel) == [];
    assert home + [] == home;
    while i < |data|
      invariant 0 <= i <= |data|
      invariant AllEndsResolve(data[..i], lookup, fuel)
      invariant edges == data[..i]
      invariant ids' == NodeIds(nodes') && nodes' == FirstPerId(home + EdgeClusters(data[..i], lookup, fuel))
    {
      SliceStep(data, i);
      if !EndsResolve(data[i], lookup, fuel) {
        NoneAfterFailure(data, i + 1, lookup, fuel);
        return false, nodes', edges;
      }
      nodes', ids' := AddEdgeEnds(nodes', ids', home, data, i, lookup, fuel);
      edges := edges + [data[i]];
      i := i + 1;
    }
    assert data[..i] == data;
    ok := true;
  }

  /** Once a prefix of the links fails to resolve, so does every longer one. */
  lemma {:induction false} NoneAfterFailure(edges: seq<Link>, k: nat, lookup: Lookup, fuel: nat)
    requires k <= |edges| && !AllEndsResolve(edges[..k], lookup, fuel)
    ensures !AllEndsResolve(edges, lookup, fuel)
    decreases |edges| - k
  {
    if k < |edges| {
      SliceStep(edges, k);
      assert edges[..k + 1][..k] == edges[..k];
      NoneAfterFailure(edges, k + 1, lookup, fuel);
    } else {
      assert edges[..k] == edges;
    }
  }

  /** One step of `getGraph`: the nodes of the clusters of the ends of
      the `i`th edge. */
  method AddEdgeEnds(nodes: seq<GraphNode>, ids: seq<string>, ghost home: seq<GraphNode>, edges: seq<Link>, i: nat, lookup: Lookup, fuel: nat)
    returns (nodes': seq<GraphNode>, ids': seq<string>)
    requires i < |edges|
    requires ids == NodeIds(nodes) && nodes == FirstPerId(home + EdgeClusters(edges[..i], lookup, fuel))
    ensures ids' == NodeIds(nodes') && nodes' == FirstPerId(home + EdgeClusters(edges[..i + 1], lookup, fuel))
  {
    ghost var seen := home + EdgeClusters(edges[..i], lookup, fuel);
    var ends := EndClusters(edges[i], lookup, fuel);
    nodes', ids' := AddAfter(nodes, ids, seen, ends);
    EdgeClustersStep(edges, i, lookup, fuel);
    AppendAssoc(home, EdgeClusters(edges[..i], lookup, fuel), ends);
  }

  /** Taking the first node per id twice changes nothing. */
  lemma FirstPerIdIdempotent(nodes: seq<GraphNode>)
    ensures FirstPerId(FirstPerId(nodes)) == FirstPerId(nodes)
  {
    FirstPerIdCovers(nodes);
    FirstPerIdOfDistinct(FirstPerId(nodes));
  }

  lemma {:induction false} FirstPerIdOfDistinct(nodes: seq<GraphNode>)
    requires NoDuplicates(NodeIds(nodes))
    ensures FirstPerId(nodes) == nodes
    decreases |nodes|
  {
    if |nodes| > 0 {
      var init := nodes[..|nodes| - 1];
      var ids := NodeIds(nodes);
      assert ids == NodeIds(init) + [nodes[|nodes| - 1].id];
      assert NoDuplicates(NodeIds(init)) by {
        forall i, j | 0 <= i < j < |init| ensures NodeIds(init)[i] != NodeIds(init)[j] {
          assert ids[i] == NodeIds(init)[i] && ids[j] == NodeIds(init)[j];
        }
      }
      FirstPerIdOfDistinct(init);
      assert nodes[|nodes| - 1].id !in NodeIds(init) by {
        forall j | 0 <= j < |init| ensures NodeIds(init)[j] != ids[|init|] {
          assert ids[j] == NodeIds(init)[j];
        }
      }
      SplitLast(nodes);
    }
  }

  /** The first nodes of a concatenation: those of the front, then those
      of the back with an id not seen yet. */
  lemma {:induction false} FirstPerIdAppend(a: seq<GraphNode>, b: seq<GraphNode>)
    ensures FirstPerId(a + b) == FirstPerId(FirstPerId(a) + b)
    decreases |b|
  {
    if |b| == 0 {
      assert a + b == a;
      assert FirstPerId(a) + b == FirstPerId(a);
      FirstPerIdIdempotent(a);
    } else {
      var init := b[..|b| - 1];
      var last := b[|b| - 1];
      FirstPerIdAppend(a, init);
      AppendSplitLast(a, b);
      AppendSplitLast(FirstPerId(a), b);
      FirstPerIdSnoc(a + init, last);
      FirstPerIdSnoc(FirstPerId(a) + init, last);
    }
  }

  /** The graph has each node id once, and every node of a cluster drawn
      has its id in the graph. */
  lemma GraphNodesDistinct(itemId: string, links: seq<Link>, lookup: Lookup, fuel: nat)
    ensures var all := NodeCluster(Some(itemId), lookup, fuel) + EdgeClusters(Touching(links, itemId), lookup, fuel);
      NoDuplicates(NodeIds(FirstPerId(all)))
      && forall n :: n in all ==> n.id in NodeIds(FirstPerId(all))
  {
    FirstPerIdCovers(NodeCluster(Some(itemId), lookup, fuel) + EdgeClusters(Touching(links, itemId), lookup, fuel));
  }

  /** The ids of some nodes. */
  function IdsOf(nodes: seq<GraphNode>): set<string>
    decreases |nodes|
  {
    if |nodes| == 0 then {} else IdsOf(nodes[..|nodes| - 1]) + {nodes[|nodes| - 1].id}
  }

  lemma {:induction false} IdsOfMembers(nodes: seq<GraphNode>)
    ensures forall n :: n in nodes ==> n.id in IdsOf(nodes)
    decreases |nodes|
  {
    if |nodes| > 0 {
      IdsOfMembers(nodes[..|nodes| - 1]);
      SplitLast(nodes);
    }
  }

  lemma {:induction false} IdsOfFromNodes(nodes: seq<GraphNode>, x: string)
    requires x in IdsOf(nodes)
    ensures exists n :: n in nodes && n.id == x
    decreases |nodes|
  {
    var init := nodes[..|nodes| - 1];
    SplitLast(nodes);
    if x != nodes[|nodes| - 1].id {
      IdsOfFromNodes(init, x);
      var n :| n in init && n.id == x;
      assert n in nodes;
    }
  }

  lemma {:induction false} NodeIdsMember(nodes: seq<GraphNode>, x: string)
    requires x in NodeIds(nodes)
    ensures exists n :: n in nodes && n.id == x
    decreases |nodes|
  {
    var init := nodes[..|nodes| - 1];
    if x != nodes[|nodes| - 1].id {
      assert x in NodeIds(init);
      NodeIdsMember(init, x);
      var n :| n in init && n.id == x;
      assert n in nodes;
    }
  }

  lemma IdsOfSnoc(init: seq<GraphNode>, last: GraphNode)
    ensures IdsOf(init + [last]) == IdsOf(init) + {last.id}
  {
    assert (init + [last])[..|init|] == init;
  }

  /** The graph holds one node per distinct id of its clusters. */
  lemma {:induction false} FirstPerIdCount(nodes: seq<GraphNode>)
    ensures |FirstPerId(nodes)| == |IdsOf(nodes)|
    decreases |nodes|
  {
    if |nodes| > 0 {
      var init := nodes[..|nodes| - 1];
      var last := nodes[|nodes| - 1];
      FirstPerIdCount(init);
      assert IdsOf(nodes) == IdsOf(init) + {last.id};
      if last.id in NodeIds(FirstPerId(init)) {
        SeenBefore(init, last.id);
        assert IdsOf(nodes) == IdsOf(init);
        assert FirstPerId(nodes) == FirstPerId(init);
      } else {
        NotSeenBefore(init, last.id);
        assert |IdsOf(nodes)| == |IdsOf(init)| + 1;
        assert FirstPerId(nodes) == FirstPerId(init) + [last];
      }
    }
  }

  lemma SeenBefore(init: seq<GraphNode>, x: string)
    requires x in NodeIds(FirstPerId(init))
    ensures x in IdsOf(init)
  {
    FirstPerIdCovers(init);
    NodeIdsMember(FirstPerId(init), x);
    var n :| n in FirstPerId(init) && n.id == x;
    IdsOfMembers(init);
  }

  lemma NotSeenBefore(init: seq<GraphNode>, x: string)
    requires x !in NodeIds(FirstPerId(init))
    ensures x !in IdsOf(init)
  {
    FirstPerIdCovers(init);
    if x in IdsOf(init) {
      IdsOfFromNodes(init, x);
      assert false;
    }
  }

  lemma IdsOfOne(n: GraphNode)
    ensures IdsOf([n]) == {n.id}
  {
    assert [n][..0] == [];
  }

  lemma {:induction false} IdsOfAppend(a: seq<GraphNode>, b: seq<GraphNode>)
    ensures IdsOf(a + b) == IdsOf(a) + IdsOf(b)
    decreases |b|
  {
    if |b| == 0 {
      EmptyFront(a, b);
      AppendEmpty(a);
    } else {
      var init := b[..|b| - 1];
      IdsOfAppend(a, init);
      AppendSplitLast(a, b);
      IdsOfSnoc(a + init, b[|b| - 1]);
    }
  }

  /** The cluster of a note whose project holds just that note: the
      note, its project, and nothing else. */
  lemma LoneNoteCluster(noteId: string, projectId: string, lookup: Lookup, fuel: nat)
    requires noteId != "" && projectId != "" && fuel >= 2
    requires lookup.kindOf(noteId) == NoteItem && Split(noteId, '/')[0] == projectId
    requires lookup.kindOf(projectId) == ProjectItem
    requires |lookup.notesOf(projectId)| == 1 && lookup.notesOf(projectId)[0].id == noteId
    ensures IdsOf(NodeCluster(Some(noteId), lookup, fuel)) == {noteId, projectId}
  {
    var note := lookup.notesOf(projectId)[0];
    var inner := NodeCluster(Some(projectId), lookup, fuel - 1);
    assert NodeCluster(None, lookup, fuel - 2) == [];
    var noteNode := NoteNodes([note])[0];
    assert inner == [noteNode] + [ItemNode(projectId, lookup)] + [];
    assert NodeCluster(Some(noteId), lookup, fuel) == [ItemNode(noteId, lookup)] + inner;
    IdsOfOne(noteNode);
    IdsOfOne(ItemNode(projectId, lookup));
    IdsOfOne(ItemNode(noteId, lookup));
    IdsOfAppend([noteNode], [ItemNode(projectId, lookup)]);
    AppendEmpty([noteNode] + [ItemNode(projectId, lookup)]);
    IdsOfAppend([ItemNode(noteId, lookup)], inner);
  }

  /** The links table after `updateForwardLinks(n1, [n2])` and then
      `updateForwardLinks(n0, [n1])` on an empty table. */
  lemma ChainLinks(n0: string, n1: string, n2: string)
    requires n0 != n1
    ensures NotFrom(NotFrom([], n1) + OutgoingTo(n1, [n2]), n0) + OutgoingTo(n0, [n1]) == [Link(n1, n2), Link(n0, n1)]
  {
    assert NotFrom([], n1) == [];
    assert OutgoingTo(n1, [n2]) == [Link(n1, n2)];
    FilterKeepsAll([Link(n1, n2)], (l: Link) => l.source != n0);
    assert OutgoingTo(n0, [n1]) == [Link(n0, n1)];
  }

  lemma TwoEdgeClusters(a: Link, b: Link, lookup: Lookup, fuel: nat)
    ensures EdgeClusters([a, b], lookup, fuel) == EndClusters(a, lookup, fuel) + EndClusters(b, lookup, fuel)
  {
    assert [a, b][..1] == [a];
    assert [a][..0] == [];
    assert EdgeClusters([a], lookup, fuel) == [] + EndClusters(a, lookup, fuel);
    assert [] + EndClusters(a, lookup, fuel) == EndClusters(a, lookup, fuel);
  }

  lemma ChainIds(c0: seq<GraphNode>, c1: seq<GraphNode>, c2: seq<GraphNode>,
                 p0: string, p1: string, p2: string, n0: string, n1: string, n2: string)
    requires NoDuplicates([p0, p1, p2, n0, n1, n2])
    requires IdsOf(c0) == {n0, p0} && IdsOf(c1) == {n1, p1} && IdsOf(c2) == {n2, p2}
    ensures |IdsOf(c1 + ((c1 + c2) + (c0 + c1)))| == 6
  {
    IdsOfAppend(c1, c2);
    IdsOfAppend(c0, c1);
    IdsOfAppend(c1 + c2, c0 + c1);
    IdsOfAppend(c1, (c1 + c2) + (c0 + c1));
    assert IdsOf(c1 + ((c1 + c2) + (c0 + c1))) == {p0, p1, p2, n0, n1, n2};
    SixDistinct([p0, p1, p2, n0, n1, n2]);
  }

  lemma SixDistinct(ids: seq<string>)
    requires |ids| == 6 && NoDuplicates(ids)
    ensures |{ids[0], ids[1], ids[2], ids[3], ids[4], ids[5]}| == 6
  {
    assert ids[5] !in {ids[0], ids[1], ids[2], ids[3], ids[4]};
    assert ids[4] !in {ids[0], ids[1], ids[2], ids[3]};
    assert ids[3] !in {ids[0], ids[1], ids[2]};
    assert ids[2] !in {ids[0], ids[1]};
  }

  /** Distinct projects p0, p1, p2 holding one note each, n0, n1, n2. */
  predicate ThreeProjects(p0: string, p1: string, p2: string, n0: string, n1: string, n2: string, lookup: Lookup) {
    NoDuplicates([p0, p1, p2, n0, n1, n2]) && "" !in [p0, p1, p2, n0, n1, n2]
    && lookup.kindOf(p0) == ProjectItem && lookup.kindOf(p1) == ProjectItem && lookup.kindOf(p2) == ProjectItem
    && lookup.kindOf(n0) == NoteItem && lookup.kindOf(n1) == NoteItem && lookup.kindOf(n2) == NoteItem
    && Split(n0, '/')[0] == p0 && Split(n1, '/')[0] == p1 && Split(n2, '/')[0] == p2
    && |lookup.notesOf(p0)| == 1 && lookup.notesOf(p0)[0].id == n0
    && |lookup.notesOf(p1)| == 1 && lookup.notesOf(p1)[0].id == n1
    && |lookup.notesOf(p2)| == 1 && lookup.notesOf(p2)[0].id == n2
  }

  /** The example of the graph tests: notes n0, n1, n2 in projects p0, p1,
      p2, n0 linking to n1 and n1 to n2 by `updateForwardLinks`. The
      graph of n1 has the three notes and the three projects as nodes,
      and both links as edges. */
  lemma ChainOfThreeNotes(p0: string, p1: string, p2: string, n0: string, n1: string, n2: string,
                          lookup: Lookup, fuel: nat)
    requires ThreeProjects(p0, p1, p2, n0, n1, n2, lookup) && fuel >= 2
    ensures var links := NotFrom(NotFrom([], n1) + OutgoingTo(n1, [n2]), n0) + OutgoingTo(n0, [n1]);
      |FirstPerId(NodeCluster(Some(n1), lookup, fuel) + EdgeClusters(Touching(links, n1), lookup, fuel))| == 6
      && |Touching(links, n1)| == 2
  {
    var ps := [p0, p1, p2, n0, n1, n2];
    assert n0 != n1 by {
      assert ps[3] == n0 && ps[4] == n1;
    }
    ChainTouching(n0, n1, n2);
    ChainNodes(p0, p1, p2, n0, n1, n2, lookup, fuel);
  }

  /** Both links of the chain touch n1. */
  lemma ChainTouching(n0: string, n1: string, n2: string)
    requires n0 != n1
    ensures Touching(NotFrom(NotFrom([], n1) + OutgoingTo(n1, [n2]), n0) + OutgoingTo(n0, [n1]), n1)
      == [Link(n1, n2), Link(n0, n1)]
  {
    var links := NotFrom(NotFrom([], n1) + OutgoingTo(n1, [n2]), n0) + OutgoingTo(n0, [n1]);
    var chain := [Link(n1, n2), Link(n0, n1)];
    ChainLinks(n0, n1, n2);
    assert links == chain;
    TouchingAll(chain, n1);
    assert Touching(links, n1) == Touching(chain, n1);
  }

  /** Links that all touch an item are all its touching links. */
  lemma TouchingAll(links: seq<Link>, itemId: string)
    requires forall l :: l in links ==> l.source == itemId || l.target == itemId
    ensures Touching(links, itemId) == links
  {
    FilterKeepsAll(links, (l: Link) => l.source == itemId || l.target == itemId);
  }

  lemma ChainNodes(p0: string, p1: string, p2: string, n0: string, n1: string, n2: string,
                   lookup: Lookup, fuel: nat)
    requires ThreeProjects(p0, p1, p2, n0, n1, n2, lookup) && fuel >= 2
    ensures |FirstPerId(NodeCluster(Some(n1), lookup, fuel) + EdgeClusters([Link(n1, n2), Link(n0, n1)], lookup, fuel))| == 6
  {
    var ps := [p0, p1, p2, n0, n1, n2];
    assert ps[0] == p0 && ps[1] == p1 && ps[2] == p2 && ps[3] == n0 && ps[4] == n1 && ps[5] == n2;
    LoneNoteCluster(n0, p0, lookup, fuel);
    LoneNoteCluster(n1, p1, lookup, fuel);
    LoneNoteCluster(n2, p2, lookup, fuel);
    var c0 := NodeCluster(Some(n0), lookup, fuel);
    var c1 := NodeCluster(Some(n1), lookup, fuel);
    var c2 := NodeCluster(Some(n2), lookup, fuel);
    TwoEdgeClusters(Link(n1, n2), Link(n0, n1), lookup, fuel);
    ChainIds(c0, c1, c2, p0, p1, p2, n0, n1, n2);
    FirstPerIdCount(c1 + ((c1 + c2) + (c0 + c1)));
  }
}
