/**
 * Categories: `/`-separated paths such as "library/physics/plasma" that
 * projects list in their `categories`. The category tree is a prefix tree
 * of those paths; renaming and deleting a category rewrite the lists of
 * the projects (the file store) and the `categories` table (the SQL
 * store).
 */
module Category {
  import opened Wrappers
  import opened Strings
  import opened Seqs
  import opened Models
  import opened SqlTables
  import opened ProjectUtils

  // ----------------------------------------------------------- the tree

  /** How the walk down the tree recognises an existing child: by the
      category path up to the current segment, or (in the older builder)
      by the bare segment. */
  datatype ChildKey = ByPath | BySegment

  /** `parts.slice(0, d + 1).join("/")`. */
  function PathOf(parts: seq<string>, d: nat): string
    requires d < |parts|
  {
    Join(parts[..d + 1], "/")
  }

  /** `children.find(child => child._id === key)`, as an index. */
  function FindChild(nodes: seq<CategoryNode>, key: string): (r: int)
    ensures -1 <= r < |nodes|
    ensures r >= 0 ==> nodes[r].id == key
    ensures r == -1 <==> forall j :: 0 <= j < |nodes| ==> nodes[j].id != key
    decreases |nodes|
  {
    if |nodes| == 0 then -1
    else if nodes[0].id == key then 0
    else
      var k := FindChild(nodes[1..], key);
      assert forall j :: 1 <= j < |nodes| ==> nodes[j] == nodes[1..][j - 1];
      if k == -1 then -1 else k + 1
  }

  /** The walk for one category from depth `d` on, among the children
      `nodes` of the current node: the child for segment `d` is reused
      when found and created with the path as its id otherwise, and the
      walk goes on into it. */
  function InsertParts(nodes: seq<CategoryNode>, parts: seq<string>, d: nat, key: ChildKey): seq<CategoryNode>
    decreases |parts| - d
  {
    if d >= |parts| then nodes
    else
      var k := FindChild(nodes, if key == ByPath then PathOf(parts, d) else parts[d]);
      if k < 0 then nodes + [CategoryNode(PathOf(parts, d), InsertParts([], parts, d + 1, key))]
      else nodes[k := CategoryNode(nodes[k].id, InsertParts(nodes[k].children, parts, d + 1, key))]
  }

  /** The children of the root after inserting the categories in order. */
  function BuildTree(categories: seq<string>, key: ChildKey): seq<CategoryNode>
    decreases |categories|
  {
    if |categories| == 0 then []
    else InsertParts(BuildTree(categories[..|categories| - 1], key), Split(categories[|categories| - 1], '/'), 0, key)
  }

  /** The loop of the tree builders over the (distinct) categories. */
  method BuildCategoryTree(categories: seq<string>, key: ChildKey) returns (tree: seq<CategoryNode>)
    ensures tree == BuildTree(categories, key)
  {
    tree := [];
    var i := 0;
    while i < |categories|
      invariant 0 <= i <= |categories|
      invariant tree == BuildTree(categories[..i], key)
    {
      assert categories[..i + 1][..i] == categories[..i];
      tree := InsertParts(tree, Split(categories[i], '/'), 0, key);
      i := i + 1;
    }
    assert categories[..i] == categories;
  }

  // ------------------------------------------------- ids in the tree

  function SubtreeIds(n: CategoryNode): set<string>
    decreases n, 1
  {
    {n.id} + AllIds(n.children)
  }

  /** The ids of all nodes of a forest. */
  function AllIds(nodes: seq<CategoryNode>): set<string>
    decreases nodes, 0
  {
    if |nodes| == 0 then {} else SubtreeIds(nodes[0]) + AllIds(nodes[1..])
  }

  /** The paths of the segments `d` and deeper of a category. */
  function Prefixes(parts: seq<string>, d: nat): set<string>
    decreases |parts| - d
  {
    if d >= |parts| then {} else {PathOf(parts, d)} + Prefixes(parts, d + 1)
  }

  /** Every deeper path of a category is among its prefixes. */
  lemma {:induction false} PrefixesContain(parts: seq<string>, d: nat, k: nat)
    requires d <= k < |parts|
    ensures PathOf(parts, k) in Prefixes(parts, d)
    decreases k - d
  {
    if d < k {
      PrefixesContain(parts, d + 1, k);
    }
  }

  lemma {:induction false} AllIdsAppend(a: seq<CategoryNode>, b: seq<CategoryNode>)
    ensures AllIds(a + b) == AllIds(a) + AllIds(b)
    decreases |a|
  {
    if |a| == 0 {
      assert a + b == b;
    } else {
      assert (a + b)[1..] == a[1..] + b;
      AllIdsAppend(a[1..], b);
    }
  }

  lemma AllIdsAround(nodes: seq<CategoryNode>, k: nat)
    requires k < |nodes|
    ensures AllIds(nodes) == AllIds(nodes[..k]) + SubtreeIds(nodes[k]) + AllIds(nodes[k + 1..])
  {
    assert nodes == nodes[..k] + ([nodes[k]] + nodes[k + 1..]);
    AllIdsAppend(nodes[..k], [nodes[k]] + nodes[k + 1..]);
    assert ([nodes[k]] + nodes[k + 1..])[1..] == nodes[k + 1..];
  }

  lemma AllIdsReplaced(nodes: seq<CategoryNode>, k: nat, x: CategoryNode)
    requires k < |nodes|
    ensures AllIds(nodes[k := x]) == AllIds(nodes[..k]) + SubtreeIds(x) + AllIds(nodes[k + 1..])
  {
    var r := nodes[k := x];
    AllIdsAround(r, k);
    assert r[..k] == nodes[..k] && r[k + 1..] == nodes[k + 1..];
  }

  /** Inserting a category adds exactly the paths of its segments from the
      current depth on: the tree has a node for every category and for
      every `/`-prefix of one, and for nothing else. */
  lemma {:induction false} InsertPartsIds(nodes: seq<CategoryNode>, parts: seq<string>, d: nat)
    ensures AllIds(InsertParts(nodes, parts, d, ByPath)) == AllIds(nodes) + Prefixes(parts, d)
    decreases |parts| - d
  {
    if d < |parts| {
      var k := FindChild(nodes, PathOf(parts, d));
      if k < 0 {
        InsertPartsIds([], parts, d + 1);
        AllIdsAppend(nodes, [CategoryNode(PathOf(parts, d), InsertParts([], parts, d + 1, ByPath))]);
      } else {
        InsertPartsIds(nodes[k].children, parts, d + 1);
        AllIdsAround(nodes, k);
        AllIdsReplaced(nodes, k, CategoryNode(nodes[k].id, InsertParts(nodes[k].children, parts, d + 1, ByPath)));
      }
    }
  }

  /** The ids of the whole tree: the paths of all prefixes of all
      categories. */
  lemma {:induction false} BuildTreeIds(categories: seq<string>)
    ensures forall x :: x in AllIds(BuildTree(categories, ByPath)) <==>
      exists i :: 0 <= i < |categories| && x in Prefixes(Split(categories[i], '/'), 0)
    decreases |categories|
  {
    if |categories| > 0 {
      var init := categories[..|categories| - 1];
      BuildTreeIds(init);
      InsertPartsIds(BuildTree(init, ByPath), Split(categories[|categories| - 1], '/'), 0);
      forall x | x in AllIds(BuildTree(categories, ByPath))
        ensures exists i :: 0 <= i < |categories| && x in Prefixes(Split(categories[i], '/'), 0)
      {
        if x !in Prefixes(Split(categories[|categories| - 1], '/'), 0) {
          var i :| 0 <= i < |init| && x in Prefixes(Split(init[i], '/'), 0);
          assert init[i] == categories[i];
        }
      }
      forall x, i | 0 <= i < |categories| && x in Prefixes(Split(categories[i], '/'), 0)
        ensures x in AllIds(BuildTree(categories, ByPath))
      {
        if i < |init| {
          assert init[i] == categories[i];
        }
      }
    }
  }

  // ---------------------------------------------- distinct siblings

  predicate DistinctIds(nodes: seq<CategoryNode>) {
    forall i, j :: 0 <= i < j < |nodes| ==> nodes[i].id != nodes[j].id
  }

  /** No two children of a node, and no two roots, share an id. */
  predicate SiblingsDistinct(nodes: seq<CategoryNode>)
    decreases nodes
  {
    DistinctIds(nodes) && forall i :: 0 <= i < |nodes| ==> SiblingsDistinct(nodes[i].children)
  }

  /** Reusing the child found by path keeps siblings distinct. */
  lemma {:induction false} InsertPartsDistinct(nodes: seq<CategoryNode>, parts: seq<string>, d: nat)
    requires SiblingsDistinct(nodes)
    ensures SiblingsDistinct(InsertParts(nodes, parts, d, ByPath))
    decreases |parts| - d
  {
    if d < |parts| {
      var k := FindChild(nodes, PathOf(parts, d));
      var r := InsertParts(nodes, parts, d, ByPath);
      if k < 0 {
        InsertPartsDistinct([], parts, d + 1);
        var added := CategoryNode(PathOf(parts, d), InsertParts([], parts, d + 1, ByPath));
        assert r == nodes + [added];
        forall i | 0 <= i < |r| ensures SiblingsDistinct(r[i].children) {
          if i < |nodes| { assert r[i] == nodes[i]; }
        }
      } else {
        InsertPartsDistinct(nodes[k].children, parts, d + 1);
        forall i | 0 <= i < |r| ensures SiblingsDistinct(r[i].children) {
          if i != k { assert r[i] == nodes[i]; }
        }
      }
    }
  }

  lemma {:induction false} BuildTreeDistinct(categories: seq<string>)
    ensures SiblingsDistinct(BuildTree(categories, ByPath))
    decreases |categories|
  {
    if |categories| > 0 {
      BuildTreeDistinct(categories[..|categories| - 1]);
      InsertPartsDistinct(BuildTree(categories[..|categories| - 1], ByPath), Split(categories[|categories| - 1], '/'), 0);
    }
  }

  // --------------------------------------------- children extend paths

  /** Each child's id is its parent's id, a "/" and the child's last
      segment, all the way down. */
  predicate ChildrenExtend(n: CategoryNode)
    decreases n
  {
    forall j :: 0 <= j < |n.children| ==>
      (n.children[j].id == n.id + "/" + LastPart(n.children[j].id, '/') && ChildrenExtend(n.children[j]))
  }

  predicate Nested(nodes: seq<CategoryNode>) {
    forall i :: 0 <= i < |nodes| ==> ChildrenExtend(nodes[i])
  }

  predicate NoSeparator(parts: seq<string>) {
    forall i :: 0 <= i < |parts| ==> '/' !in parts[i]
  }

  /** The path of a segment extends the path of the segment before it. */
  lemma PathOfStep(parts: seq<string>, d: nat)
    requires d + 1 < |parts| && '/' !in parts[d + 1]
    ensures PathOf(parts, d + 1) == PathOf(parts, d) + "/" + parts[d + 1]
    ensures LastPart(PathOf(parts, d + 1), '/') == parts[d + 1]
  {
    assert parts[..d + 2] == parts[..d + 1] + [parts[d + 1]];
    JoinAppend(parts[..d + 1], parts[d + 1], "/");
    assert PathOf(parts, d) + "/" + parts[d + 1] == PathOf(parts, d) + ['/'] + parts[d + 1];
    LastPartAfter(PathOf(parts, d), '/', parts[d + 1]);
  }

  /** A walk keeps the tree nested; every node it leaves at the current
      depth is an old one (same id, same place) or the path of the
      current segment. */
  lemma {:induction false} InsertPartsNested(nodes: seq<CategoryNode>, parts: seq<string>, d: nat)
    requires Nested(nodes) && NoSeparator(parts)
    ensures var r := InsertParts(nodes, parts, d, ByPath);
      Nested(r) && |r| >= |nodes|
      && forall i :: 0 <= i < |r| ==> (i < |nodes| && r[i].id == nodes[i].id) || (d < |parts| && r[i].id == PathOf(parts, d))
    decreases |parts| - d
  {
    if d < |parts| {
      var k := FindChild(nodes, PathOf(parts, d));
      var below := if k < 0 then [] else nodes[k].children;
      if k >= 0 {
        assert ChildrenExtend(nodes[k]);
      }
      InsertPartsNested(below, parts, d + 1);
      var cs := InsertParts(below, parts, d + 1, ByPath);
      NewChildExtends(below, cs, parts, d);
      var x := CategoryNode(PathOf(parts, d), cs);
      if k >= 0 {
        assert InsertParts(nodes, parts, d, ByPath) == nodes[k := x];
        ReplaceNested(nodes, k, x);
      } else {
        assert InsertParts(nodes, parts, d, ByPath) == nodes + [x];
        AppendNested(nodes, x);
      }
    }
  }

  /** A nested node in place of one with the same id keeps the list
      nested and its ids. */
  lemma ReplaceNested(nodes: seq<CategoryNode>, k: int, x: CategoryNode)
    requires Nested(nodes) && 0 <= k < |nodes| && ChildrenExtend(x) && x.id == nodes[k].id
    ensures Nested(nodes[k := x]) && forall i :: 0 <= i < |nodes| ==> nodes[k := x][i].id == nodes[i].id
  {
  }

  /** A nested node appended keeps the list nested. */
  lemma AppendNested(nodes: seq<CategoryNode>, x: CategoryNode)
    requires Nested(nodes) && ChildrenExtend(x)
    ensures Nested(nodes + [x]) && forall i :: 0 <= i < |nodes| ==> (nodes + [x])[i].id == nodes[i].id
  {
  }

  /** The node for segment `d` with the walked children: old children
      extend its path already, new ones are the next segment's path. */
  lemma NewChildExtends(below: seq<CategoryNode>, cs: seq<CategoryNode>, parts: seq<string>, d: nat)
    requires d < |parts| && NoSeparator(parts)
    requires forall j :: 0 <= j < |below| ==> below[j].id == PathOf(parts, d) + "/" + LastPart(below[j].id, '/')
    requires Nested(cs)
    requires forall j :: 0 <= j < |cs| ==>
      (j < |below| && cs[j].id == below[j].id) || (d + 1 < |parts| && cs[j].id == PathOf(parts, d + 1))
    ensures ChildrenExtend(CategoryNode(PathOf(parts, d), cs))
  {
    var x := CategoryNode(PathOf(parts, d), cs);
    forall j | 0 <= j < |cs|
      ensures cs[j].id == x.id + "/" + LastPart(cs[j].id, '/') && ChildrenExtend(cs[j])
    {
      if !(j < |below| && cs[j].id == below[j].id) {
        assert d + 1 < |parts| && '/' !in parts[d + 1];
        PathOfStep(parts, d);
      }
      assert ChildrenExtend(cs[j]);
    }
  }

  lemma {:induction false} BuildTreeNested(categories: seq<string>)
    ensures Nested(BuildTree(categories, ByPath))
    decreases |categories|
  {
    if |categories| > 0 {
      var last := categories[|categories| - 1];
      BuildTreeNested(categories[..|categories| - 1]);
      SplitPartsLackSeparator(last, '/');
      InsertPartsNested(BuildTree(categories[..|categories| - 1], ByPath), Split(last, '/'), 0);
    }
  }

  // ------------------------------------------------------- sortTree

  /** The category tree as `sortTree` sees it: category nodes carry no
      label, and every node counts as having children. */
  function AsTreeNode(n: CategoryNode): (r: TreeNode)
    ensures r.id == n.id && r.hasChildren && r.name.None? && |r.children| == |n.children|
    decreases n
  {
    TreeNode(n.id, None, true, seq(|n.children|, i requires 0 <= i < |n.children| => AsTreeNode(n.children[i])))
  }

  lemma {:induction false} AsTreeNodeUnlabelled(n: CategoryNode)
    ensures Unlabelled(AsTreeNode(n))
    decreases n
  {
    forall i | 0 <= i < |n.children| ensures Unlabelled(AsTreeNode(n.children[i])) {
      AsTreeNodeUnlabelled(n.children[i]);
    }
  }

  /** The folder module's `sortTree(root)` (the project utilities' label
      sort) on the built tree: no node has a label, so no comparison holds,
      and the tree comes back exactly as built, in insertion order. */
  lemma SortTreeKeepsCategoryOrder(tree: seq<CategoryNode>)
    ensures SortTree(AsTreeNode(CategoryNode("root", tree))) == AsTreeNode(CategoryNode("root", tree))
  {
    AsTreeNodeUnlabelled(CategoryNode("root", tree));
    SortTreeUnlabelled(AsTreeNode(CategoryNode("root", tree)));
  }

  // ------------------------------------------------ sortTree by `_id`

  /** `a._id > b._id`, JavaScript's `>` on the two ids. */
  predicate IdGreater(a: CategoryNode, b: CategoryNode) {
    StrLess(b.id, a.id)
  }

  /** One step of a stable insertion sort by `_id`: `x` moves left past
      every node whose id is greater. */
  function InsertById(s: seq<CategoryNode>, x: CategoryNode): (r: seq<CategoryNode>)
    ensures multiset(r) == multiset(s) + multiset{x} && |r| == |s| + 1
    decreases |s|
  {
    if |s| == 0 then [x]
    else if IdGreater(s[|s| - 1], x) then
      assert s == s[..|s| - 1] + [s[|s| - 1]];
      InsertById(s[..|s| - 1], x) + [s[|s| - 1]]
    else s + [x]
  }

  /** The children sorted by `_id`, ascending. */
  function SortById(s: seq<CategoryNode>): (r: seq<CategoryNode>)
    ensures multiset(r) == multiset(s) && |r| == |s|
    decreases |s|
  {
    if |s| == 0 then []
    else
      assert s == s[..|s| - 1] + [s[|s| - 1]];
      InsertById(SortById(s[..|s| - 1]), s[|s| - 1])
  }

  /** `sortTree` of the backend utilities, as its test shows it: the
      children of every node are ordered by `_id`, and each child is then
      sorted in turn. */
  function SortTreeById(n: CategoryNode): (r: CategoryNode)
    ensures r.id == n.id && |r.children| == |n.children|
    decreases n
  {
    var sorted := SortById(n.children);
    CategoryNode(n.id, seq(|sorted|, i requires 0 <= i < |sorted| =>
      assert sorted[i] in multiset(n.children); SortTreeById(sorted[i])))
  }

  function MapSortTreeById(s: seq<CategoryNode>): (r: seq<CategoryNode>)
    ensures |r| == |s|
  {
    seq(|s|, i requires 0 <= i < |s| => SortTreeById(s[i]))
  }

  /** Siblings in `_id` order: no node's id is greater than a later one's. */
  predicate IdsOrdered(s: seq<CategoryNode>) {
    forall i, j :: 0 <= i < j < |s| ==> !IdGreater(s[i], s[j])
  }

  /** Every level of the tree is in `_id` order. */
  predicate TreeOrdered(n: CategoryNode)
    decreases n
  {
    IdsOrdered(n.children) && forall i :: 0 <= i < |n.children| ==> TreeOrdered(n.children[i])
  }

  lemma {:induction false} InsertByIdOrdered(s: seq<CategoryNode>, x: CategoryNode)
    requires IdsOrdered(s)
    ensures IdsOrdered(InsertById(s, x))
    decreases |s|
  {
    if |s| > 0 {
      var last := s[|s| - 1];
      var init := s[..|s| - 1];
      assert s == init + [last];
      if IdGreater(last, x) {
        assert IdsOrdered(init) by {
          assert forall i :: 0 <= i < |init| ==> init[i] == s[i];
        }
        InsertByIdOrdered(init, x);
        var front := InsertById(init, x);
        assert multiset(front) == multiset(init) + multiset{x};
        forall i | 0 <= i < |front| ensures !IdGreater(front[i], last) {
          assert front[i] in multiset(front);
          if front[i] != x {
            assert front[i] in multiset(init);
            var k :| 0 <= k < |init| && init[k] == front[i];
            assert s[k] == init[k];
          } else {
            StrLessAsymmetric(x.id, last.id);
          }
        }
        var r := front + [last];
        forall i, j | 0 <= i < j < |r| ensures !IdGreater(r[i], r[j]) {
          if j < |front| {
            assert r[i] == front[i] && r[j] == front[j];
          }
        }
      } else {
        forall i | 0 <= i < |s| ensures !IdGreater(s[i], x) {
          if i < |s| - 1 && StrLess(x.id, s[i].id) {
            assert !IdGreater(s[i], last);
            StrLessSplit(s[i].id, last.id, x.id);
          }
        }
        var r := s + [x];
        forall i, j | 0 <= i < j < |r| ensures !IdGreater(r[i], r[j]) {
          if j < |s| {
            assert r[i] == s[i] && r[j] == s[j];
          }
        }
      }
    }
  }

  lemma {:induction false} SortByIdOrdered(s: seq<CategoryNode>)
    ensures IdsOrdered(SortById(s))
    decreases |s|
  {
    if |s| > 0 {
      SortByIdOrdered(s[..|s| - 1]);
      InsertByIdOrdered(SortById(s[..|s| - 1]), s[|s| - 1]);
    }
  }

  /** After `sortTree` every level of the tree is ordered by `_id`. */
  lemma {:induction false} SortTreeByIdOrdered(n: CategoryNode)
    ensures TreeOrdered(SortTreeById(n))
    decreases n
  {
    var sorted := SortById(n.children);
    var r := SortTreeById(n);
    SortByIdOrdered(n.children);
    forall i, j | 0 <= i < j < |r.children| ensures !IdGreater(r.children[i], r.children[j]) {
      assert r.children[i].id == sorted[i].id && r.children[j].id == sorted[j].id;
    }
    forall i | 0 <= i < |r.children| ensures TreeOrdered(r.children[i]) {
      assert sorted[i] in multiset(n.children);
      SortTreeByIdOrdered(sorted[i]);
    }
  }

  lemma MapSortTreeByIdAppend(a: seq<CategoryNode>, b: seq<CategoryNode>)
    ensures MapSortTreeById(a + b) == MapSortTreeById(a) + MapSortTreeById(b)
  {
  }

  /** Taking the k-th node out of a list takes its sorted tree out of the
      mapped list. */
  lemma RemoveOneById(s: seq<CategoryNode>, k: int)
    requires 0 <= k < |s|
    ensures multiset(s[..k] + s[k + 1..]) == multiset(s) - multiset{s[k]}
    ensures multiset(MapSortTreeById(s)) == multiset(MapSortTreeById(s[..k] + s[k + 1..])) + multiset{SortTreeById(s[k])}
  {
    var x := s[k];
    assert s == s[..k] + [x] + s[k + 1..];
    assert multiset(s) == multiset(s[..k]) + multiset{x} + multiset(s[k + 1..]);
    MapSortTreeByIdAppend(s[..k] + [x], s[k + 1..]);
    MapSortTreeByIdAppend(s[..k], [x]);
    MapSortTreeByIdAppend(s[..k], s[k + 1..]);
    assert MapSortTreeById([x]) == [SortTreeById(x)];
  }

  /** Mapping the sort over two permutations of a list gives permutations. */
  lemma {:induction false} MapSortTreeByIdPermutes(a: seq<CategoryNode>, b: seq<CategoryNode>)
    requires multiset(a) == multiset(b)
    ensures multiset(MapSortTreeById(a)) == multiset(MapSortTreeById(b))
    decreases |a|
  {
    if |a| == 0 {
      assert |b| == |multiset(b)| == 0;
    } else {
      var x := a[|a| - 1];
      var a0 := a[..|a| - 1] + a[|a|..];
      assert x in multiset(b);
      var k :| 0 <= k < |b| && b[k] == x;
      var b0 := b[..k] + b[k + 1..];
      RemoveOneById(a, |a| - 1);
      RemoveOneById(b, k);
      assert multiset(a0) == multiset(b0);
      MapSortTreeByIdPermutes(a0, b0);
    }
  }

  /** `sortTree` only reorders: the children of the sorted node are the
      sorted children of the node, each as often as before. */
  lemma SortTreeByIdPermutes(n: CategoryNode)
    ensures multiset(SortTreeById(n).children) == multiset(MapSortTreeById(n.children))
  {
    var sorted := SortById(n.children);
    assert SortTreeById(n).children == MapSortTreeById(sorted);
    MapSortTreeByIdPermutes(sorted, n.children);
  }

  /** A node is in a forest's ids exactly when it is in one tree's. */
  lemma {:induction false} AllIdsMember(nodes: seq<CategoryNode>, x: string)
    ensures x in AllIds(nodes) <==> exists i :: 0 <= i < |nodes| && x in SubtreeIds(nodes[i])
    decreases |nodes|
  {
    if |nodes| > 0 {
      AllIdsMember(nodes[1..], x);
      if exists i :: 0 <= i < |nodes| && x in SubtreeIds(nodes[i]) {
        var i :| 0 <= i < |nodes| && x in SubtreeIds(nodes[i]);
        if i > 0 { assert nodes[1..][i - 1] == nodes[i]; }
      }
      if exists i :: 0 <= i < |nodes[1..]| && x in SubtreeIds(nodes[1..][i]) {
        var i :| 0 <= i < |nodes[1..]| && x in SubtreeIds(nodes[1..][i]);
        assert nodes[1..][i] == nodes[i + 1];
      }
    }
  }

  /** Sorting keeps the ids of the tree. */
  lemma {:induction false} SortTreeByIdIds(n: CategoryNode)
    ensures AllIds(SortTreeById(n).children) == AllIds(n.children)
    ensures SubtreeIds(SortTreeById(n)) == SubtreeIds(n)
    decreases n
  {
    var sorted := SortById(n.children);
    var rs := SortTreeById(n).children;
    forall x | x in AllIds(rs) ensures x in AllIds(n.children) {
      AllIdsMember(rs, x);
      AllIdsMember(n.children, x);
      var i :| 0 <= i < |rs| && x in SubtreeIds(rs[i]);
      assert sorted[i] in multiset(n.children);
      var j :| 0 <= j < |n.children| && n.children[j] == sorted[i];
      SortTreeByIdIds(sorted[i]);
    }
    forall x | x in AllIds(n.children) ensures x in AllIds(rs) {
      AllIdsMember(rs, x);
      AllIdsMember(n.children, x);
      var j :| 0 <= j < |n.children| && x in SubtreeIds(n.children[j]);
      assert n.children[j] in multiset(sorted);
      var i :| 0 <= i < |sorted| && sorted[i] == n.children[j];
      SortTreeByIdIds(sorted[i]);
      assert rs[i] == SortTreeById(sorted[i]);
    }
  }

  /** A list of nodes with distinct ids stays so when a node with a new id
      is inserted. */
  lemma {:induction false} InsertByIdDistinct(s: seq<CategoryNode>, x: CategoryNode)
    requires DistinctIds(s) && forall i :: 0 <= i < |s| ==> s[i].id != x.id
    ensures DistinctIds(InsertById(s, x))
    ensures forall i :: 0 <= i < |InsertById(s, x)| ==>
      InsertById(s, x)[i].id == x.id || exists k :: 0 <= k < |s| && InsertById(s, x)[i].id == s[k].id
    decreases |s|
  {
    if |s| > 0 {
      var last := s[|s| - 1];
      var init := s[..|s| - 1];
      assert s == init + [last];
      if IdGreater(last, x) {
        assert DistinctIds(init) by {
          assert forall i :: 0 <= i < |init| ==> init[i] == s[i];
        }
        InsertByIdDistinct(init, x);
        var front := InsertById(init, x);
        var r := front + [last];
        forall i | 0 <= i < |front| ensures front[i].id != last.id {
          if front[i].id != x.id {
            var k :| 0 <= k < |init| && front[i].id == init[k].id;
            assert s[k] == init[k];
          }
        }
        forall i | 0 <= i < |r| ensures r[i].id == x.id || exists k :: 0 <= k < |s| && r[i].id == s[k].id {
          if i < |front| {
            assert r[i] == front[i];
            if r[i].id != x.id {
              var k :| 0 <= k < |init| && front[i].id == init[k].id;
              assert s[k] == init[k];
            }
          } else {
            assert r[i] == s[|s| - 1];
          }
        }
        forall i, j | 0 <= i < j < |r| ensures r[i].id != r[j].id {
          if j < |front| {
            assert r[i] == front[i] && r[j] == front[j];
          }
        }
      } else {
        var r := s + [x];
        forall i | 0 <= i < |r| ensures r[i].id == x.id || exists k :: 0 <= k < |s| && r[i].id == s[k].id {
          if i < |s| { assert r[i] == s[i]; }
        }
      }
    }
  }

  lemma {:induction false} SortByIdDistinct(s: seq<CategoryNode>)
    requires DistinctIds(s)
    ensures DistinctIds(SortById(s))
    ensures forall i :: 0 <= i < |SortById(s)| ==> exists k :: 0 <= k < |s| && SortById(s)[i].id == s[k].id
    decreases |s|
  {
    if |s| > 0 {
      var init := s[..|s| - 1];
      var x := s[|s| - 1];
      assert DistinctIds(init) by {
        assert forall i :: 0 <= i < |init| ==> init[i] == s[i];
      }
      SortByIdDistinct(init);
      var front := SortById(init);
      forall i | 0 <= i < |front| ensures front[i].id != x.id {
        var k :| 0 <= k < |init| && front[i].id == init[k].id;
        assert init[k] == s[k];
      }
      InsertByIdDistinct(front, x);
      var r := SortById(s);
      forall i | 0 <= i < |r| ensures exists k :: 0 <= k < |s| && r[i].id == s[k].id {
        if r[i].id == x.id {
          assert s[|s| - 1] == x;
        } else {
          var m :| 0 <= m < |front| && r[i].id == front[m].id;
          var k :| 0 <= k < |init| && front[m].id == init[k].id;
          assert s[k] == init[k];
        }
      }
    }
  }

  /** Sorting keeps siblings distinct. */
  lemma {:induction false} SortTreeByIdDistinct(n: CategoryNode)
    requires SiblingsDistinct(n.children)
    ensures SiblingsDistinct(SortTreeById(n).children)
    decreases n
  {
    var sorted := SortById(n.children);
    var rs := SortTreeById(n).children;
    SortByIdDistinct(n.children);
    forall i, j | 0 <= i < j < |rs| ensures rs[i].id != rs[j].id {
      assert rs[i].id == sorted[i].id && rs[j].id == sorted[j].id;
    }
    forall i | 0 <= i < |rs| ensures SiblingsDistinct(rs[i].children) {
      assert sorted[i] in multiset(n.children);
      var j :| 0 <= j < |n.children| && n.children[j] == sorted[i];
      SortTreeByIdDistinct(sorted[i]);
    }
  }

  /** Sorting keeps every child's id its parent's id, a "/" and its last
      segment. */
  lemma {:induction false} SortTreeByIdExtends(n: CategoryNode)
    requires ChildrenExtend(n)
    ensures ChildrenExtend(SortTreeById(n))
    decreases n
  {
    var sorted := SortById(n.children);
    var rs := SortTreeById(n).children;
    forall i | 0 <= i < |rs|
      ensures rs[i].id == n.id + "/" + LastPart(rs[i].id, '/') && ChildrenExtend(rs[i])
    {
      assert sorted[i] in multiset(n.children);
      var j :| 0 <= j < |n.children| && n.children[j] == sorted[i];
      SortTreeByIdExtends(sorted[i]);
    }
  }

  /** Sorting a node whose children are nested keeps them nested. */
  lemma SortTreeByIdNested(n: CategoryNode)
    requires Nested(n.children)
    ensures Nested(SortTreeById(n).children)
  {
    var sorted := SortById(n.children);
    var rs := SortTreeById(n).children;
    forall i | 0 <= i < |rs| ensures ChildrenExtend(rs[i]) {
      assert sorted[i] in multiset(n.children);
      var j :| 0 <= j < |n.children| && n.children[j] == sorted[i];
      SortTreeByIdExtends(sorted[i]);
    }
  }

  /** Two ids "p" + [c] and "p" + [d] with c < d are in `_id` order. */
  lemma {:induction false} StrLessLastDigit(p: string, c: char, d: char)
    requires c < d
    ensures StrLess(p + [c], p + [d]) && !StrLess(p + [d], p + [c])
    decreases |p|
  {
    if |p| > 0 {
      assert (p + [c])[1..] == p[1..] + [c];
      assert (p + [d])[1..] == p[1..] + [d];
      StrLessLastDigit(p[1..], c, d);
    }
  }

  /** A leaf is its own sorted tree. */
  lemma SortLeaf(id: string)
    ensures SortTreeById(CategoryNode(id, [])) == CategoryNode(id, [])
  {
    assert SortById([]) == [];
  }

  lemma SortByIdSnoc(s: seq<CategoryNode>, x: CategoryNode)
    ensures SortById(s + [x]) == InsertById(SortById(s), x)
  {
    assert (s + [x])[..|s|] == s;
  }

  lemma InsertByIdPast(s: seq<CategoryNode>, last: CategoryNode, x: CategoryNode)
    requires IdGreater(last, x)
    ensures InsertById(s + [last], x) == InsertById(s, x) + [last]
  {
    assert (s + [last])[..|s|] == s;
  }

  lemma SortTwo(x: CategoryNode, y: CategoryNode)
    requires IdGreater(x, y)
    ensures SortById([x, y]) == [y, x]
  {
    assert [x] == [] + [x] && [x, y] == [x] + [y];
    SortByIdSnoc([], x);
    SortByIdSnoc([x], y);
    InsertByIdPast([], x, y);
    assert InsertById([], y) == [y];
  }

  /** Four siblings given in the test's order d, b, a, c come back as a, b, c, d. */
  lemma SortFour(na: CategoryNode, nb: CategoryNode, nc: CategoryNode, nd: CategoryNode)
    requires IdGreater(nd, nb) && IdGreater(nd, na) && IdGreater(nb, na)
    requires IdGreater(nd, nc) && !IdGreater(nb, nc)
    ensures SortById([nd, nb, na, nc]) == [na, nb, nc, nd]
  {
    var three := SortThree(na, nb, nd);
    var ins := InsertLast(na, nb, nc, nd);
    SnocFour(nd, nb, na, nc);
  }

  lemma SnocFour(w: CategoryNode, x: CategoryNode, y: CategoryNode, z: CategoryNode)
    ensures SortById([w, x, y, z]) == InsertById(SortById([w, x, y]), z)
  {
    assert [w, x, y, z] == [w, x, y] + [z];
    SortByIdSnoc([w, x, y], z);
  }

  lemma InsertLast(na: CategoryNode, nb: CategoryNode, nc: CategoryNode, nd: CategoryNode) returns (r: seq<CategoryNode>)
    requires IdGreater(nd, nc) && !IdGreater(nb, nc)
    ensures r == InsertById([na, nb, nd], nc) && r == [na, nb, nc, nd]
  {
    assert [na, nb, nd] == [na, nb] + [nd];
    InsertByIdPast([na, nb], nd, nc);
    InsertByIdAtEnd([na, nb], nc);
    r := [na, nb, nc, nd];
  }

  lemma InsertByIdAtEnd(s: seq<CategoryNode>, x: CategoryNode)
    requires |s| > 0 && !IdGreater(s[|s| - 1], x)
    ensures InsertById(s, x) == s + [x]
  {
  }

  lemma SortThree(na: CategoryNode, nb: CategoryNode, nd: CategoryNode) returns (r: seq<CategoryNode>)
    requires IdGreater(nd, nb) && IdGreater(nd, na) && IdGreater(nb, na)
    ensures r == SortById([nd, nb, na]) && r == [na, nb, nd]
  {
    SortTwo(nd, nb);
    assert [nd, nb, na] == [nd, nb] + [na];
    SortByIdSnoc([nd, nb], na);
    assert [nb, nd] == [nb] + [nd];
    InsertByIdPast([nb], nd, na);
    assert [nb] == [] + [nb];
    InsertByIdPast([], nb, na);
    assert InsertById([], na) == [na];
    assert InsertById([nb], na) == [na, nb];
    r := [na, nb, nd];
  }

  /** The shape of the utilities' test, for ids in the order a < b < c < d
      and b1 < b2 (only the comparisons the sort makes are required). */
  lemma SortTreeByIdShape(root: string, a: string, b: string, c: string, d: string, b1: string, b2: string)
    requires StrLess(b, d) && StrLess(a, d) && StrLess(a, b) && StrLess(c, d) && !StrLess(c, b)
    requires StrLess(b1, b2)
    ensures SortTreeById(CategoryNode(root, [
        CategoryNode(d, []), CategoryNode(b, [CategoryNode(b2, []), CategoryNode(b1, [])]),
        CategoryNode(a, []), CategoryNode(c, [])]))
      == CategoryNode(root, [
        CategoryNode(a, []), CategoryNode(b, [CategoryNode(b1, []), CategoryNode(b2, [])]),
        CategoryNode(c, []), CategoryNode(d, [])])
  {
    var na, nc, nd := CategoryNode(a, []), CategoryNode(c, []), CategoryNode(d, []);
    var nb := CategoryNode(b, [CategoryNode(b2, []), CategoryNode(b1, [])]);
    var mb := SortTreeByIdPair(b, b1, b2);
    SortFour(na, nb, nc, nd);
    SortLeaf(a);
    SortLeaf(c);
    SortLeaf(d);
    SortTreeByIdFour(root, [nd, nb, na, nc], [na, nb, nc, nd], [na, mb, nc, nd]);
  }

  /** Four children whose sorted order is `sorted` and whose subtrees sort
      to `t` give a node with the children `t`. */
  lemma SortTreeByIdFour(root: string, children: seq<CategoryNode>, sorted: seq<CategoryNode>, t: seq<CategoryNode>)
    requires |sorted| == 4 && |t| == 4 && SortById(children) == sorted
    requires SortTreeById(sorted[0]) == t[0] && SortTreeById(sorted[1]) == t[1]
    requires SortTreeById(sorted[2]) == t[2] && SortTreeById(sorted[3]) == t[3]
    ensures SortTreeById(CategoryNode(root, children)) == CategoryNode(root, t)
  {
    forall i | 0 <= i < 4
      ensures SortTreeById(sorted[i]) == t[i]
    {
      if i == 0 {
      } else if i == 1 {
      } else if i == 2 {
      } else {
      }
    }
    SortTreeByIdFrom(CategoryNode(root, children), sorted, t);
  }

  /** Two leaves given in descending order come back ascending. */
  lemma SortTreeByIdPair(b: string, b1: string, b2: string) returns (r: CategoryNode)
    requires StrLess(b1, b2)
    ensures SortTreeById(CategoryNode(b, [CategoryNode(b2, []), CategoryNode(b1, [])])) == r
    ensures r == CategoryNode(b, [CategoryNode(b1, []), CategoryNode(b2, [])])
  {
    var n1, n2 := CategoryNode(b1, []), CategoryNode(b2, []);
    SortTwo(n2, n1);
    SortLeaf(b1);
    SortLeaf(b2);
    var sorted := [n1, n2];
    assert SortTreeById(sorted[0]) == n1 && SortTreeById(sorted[1]) == n2;
    SortTreeByIdFrom(CategoryNode(b, [n2, n1]), sorted, sorted);
    r := CategoryNode(b, sorted);
  }

  /** A node whose sorted children, each sorted in turn, are `t` sorts to
      a node with the children `t`. */
  lemma SortTreeByIdFrom(n: CategoryNode, sorted: seq<CategoryNode>, t: seq<CategoryNode>)
    requires SortById(n.children) == sorted && |t| == |sorted|
    requires forall i :: 0 <= i < |t| ==> SortTreeById(sorted[i]) == t[i]
    ensures SortTreeById(n) == CategoryNode(n.id, t)
  {
  }

  /** The example of the utilities' test: the children 1.4, 1.2, 1.1, 1.3
      come back as 1.1, 1.2, 1.3, 1.4, and the children 1.2.2, 1.2.1 of 1.2
      as 1.2.1, 1.2.2. */
  lemma SortTreeByIdExample()
    ensures SortTreeById(CategoryNode("1", [
        CategoryNode("1.4", []),
        CategoryNode("1.2", [CategoryNode("1.2.2", []), CategoryNode("1.2.1", [])]),
        CategoryNode("1.1", []),
        CategoryNode("1.3", [])]))
      == CategoryNode("1", [
        CategoryNode("1.1", []),
        CategoryNode("1.2", [CategoryNode("1.2.1", []), CategoryNode("1.2.2", [])]),
        CategoryNode("1.3", []),
        CategoryNode("1.4", [])])
  {
    assert "1.2." + ['1'] == "1.2.1" && "1.2." + ['2'] == "1.2.2";
    assert "1." + ['1'] == "1.1" && "1." + ['2'] == "1.2" && "1." + ['3'] == "1.3" && "1." + ['4'] == "1.4";
    StrLessLastDigit("1.2.", '1', '2');
    StrLessLastDigit("1.", '2', '4');
    StrLessLastDigit("1.", '1', '4');
    StrLessLastDigit("1.", '1', '2');
    StrLessLastDigit("1.", '3', '4');
    StrLessLastDigit("1.", '2', '3');
    SortTreeByIdShape("1", "1.1", "1.2", "1.3", "1.4", "1.2.1", "1.2.2");
  }

  // -------------------------------------------------------- examples

  /** A one-segment category not yet in the tree becomes a new root. */
  lemma InsertNewRoot(nodes: seq<CategoryNode>, root: string, key: ChildKey)
    requires '/' !in root
    requires forall j :: 0 <= j < |nodes| ==> nodes[j].id != root
    ensures InsertParts(nodes, Split(root, '/'), 0, key) == nodes + [CategoryNode(root, [])]
  {
    SplitWithoutSeparator(root, '/');
    var parts := [root];
    assert parts[..1] == parts;
    assert PathOf(parts, 0) == root;
    assert FindChild(nodes, root) == -1;
  }

  /** A two-segment category whose first segment is the root `k` and
      whose second is not yet among its children (as the key sees them)
      becomes that root's last child. */
  lemma InsertUnderRoot(nodes: seq<CategoryNode>, k: nat, root: string, seg: string, key: ChildKey)
    requires k < |nodes| && nodes[k].id == root && FindChild(nodes, root) == k
    requires '/' !in root && '/' !in seg
    requires forall j :: 0 <= j < |nodes[k].children| ==>
      nodes[k].children[j].id != (if key == ByPath then root + "/" + seg else seg)
    ensures InsertParts(nodes, Split(root + "/" + seg, '/'), 0, key)
      == nodes[k := CategoryNode(root, nodes[k].children + [CategoryNode(root + "/" + seg, [])])]
  {
    assert root + "/" + seg == root + ['/'] + seg;
    SplitTwo(root, seg, '/');
    var parts := [root, seg];
    assert parts[..1] == [root];
    assert PathOf(parts, 0) == root;
    PathOfStep(parts, 0);
    var kids := nodes[k].children;
    assert FindChild(kids, if key == ByPath then PathOf(parts, 1) else seg) == -1;
    assert InsertParts(kids, parts, 1, key) == kids + [CategoryNode(root + "/" + seg, [])];
  }

  lemma BuildTreeSnoc(init: seq<string>, c: string, key: ChildKey)
    ensures BuildTree(init + [c], key) == InsertParts(BuildTree(init, key), Split(c, '/'), 0, key)
  {
    assert (init + [c])[..|init|] == init;
  }

  /** One root whose children are `kids`, extended by root/seg. */
  lemma AddToSingleRoot(root: string, kids: seq<CategoryNode>, seg: string, key: ChildKey)
    requires '/' !in root && '/' !in seg
    requires forall j :: 0 <= j < |kids| ==> kids[j].id != (if key == ByPath then root + "/" + seg else seg)
    ensures InsertParts([CategoryNode(root, kids)], Split(root + "/" + seg, '/'), 0, key)
      == [CategoryNode(root, kids + [CategoryNode(root + "/" + seg, [])])]
  {
    InsertUnderRoot([CategoryNode(root, kids)], 0, root, seg, key);
  }

  lemma RootWithOneChild(root: string, s1: string)
    requires '/' !in root && '/' !in s1
    ensures BuildTree([root, root + "/" + s1], ByPath) == [CategoryNode(root, [CategoryNode(root + "/" + s1, [])])]
  {
    var c1 := CategoryNode(root + "/" + s1, []);
    BuildTreeSnoc([], root, ByPath);
    InsertNewRoot([], root, ByPath);
    assert [] + [root] == [root];
    assert BuildTree([root], ByPath) == [CategoryNode(root, [])];
    BuildTreeSnoc([root], root + "/" + s1, ByPath);
    AddToSingleRoot(root, [], s1, ByPath);
    assert [] + [c1] == [c1];
  }

  /** The library example of the category tests, for any root and two
      different child segments: a project in the root and in
      root/s1 and root/s2 gives one root with the two categories as
      children in that order. */
  lemma RootWithTwoChildren(root: string, s1: string, s2: string)
    requires '/' !in root && '/' !in s1 && '/' !in s2 && s1 != s2
    ensures BuildTree([root, root + "/" + s1, root + "/" + s2], ByPath)
      == [CategoryNode(root, [CategoryNode(root + "/" + s1, []), CategoryNode(root + "/" + s2, [])])]
  {
    var c1 := CategoryNode(root + "/" + s1, []);
    var c2 := CategoryNode(root + "/" + s2, []);
    RootWithOneChild(root, s1);
    assert root + "/" + s1 != root + "/" + s2 by {
      LastPartAfter(root, '/', s1);
      LastPartAfter(root, '/', s2);
      assert root + "/" + s1 == root + ['/'] + s1;
      assert root + "/" + s2 == root + ['/'] + s2;
    }
    BuildTreeSnoc([root, root + "/" + s1], root + "/" + s2, ByPath);
    assert [root, root + "/" + s1] + [root + "/" + s2] == [root, root + "/" + s1, root + "/" + s2];
    AddToSingleRoot(root, [c1], s2, ByPath);
    assert [c1] + [c2] == [c1, c2];
  }

  /** The first step of the example below: a/b on an empty tree. */
  lemma BySegmentFirst(a: string, b: string)
    requires '/' !in a && '/' !in b
    ensures BuildTree([a + "/" + b], BySegment) == [CategoryNode(a, [CategoryNode(a + "/" + b, [])])]
  {
    var ab := a + "/" + b;
    BuildTreeSnoc([], ab, BySegment);
    assert [] + [ab] == [ab];
    assert ab == a + ['/'] + b;
    SplitTwo(a, b, '/');
    var p1 := [a, b];
    assert p1[..1] == [a] && PathOf(p1, 0) == a;
    PathOfStep(p1, 0);
    assert InsertParts([], p1, 1, BySegment) == [CategoryNode(ab, [])];
  }

  /** The second step: the walk for a/b/c from depth 1 among a's one
      child a/b, looked up by the segment b. */
  lemma BySegmentSecond(a: string, b: string, c: string)
    requires '/' !in a && '/' !in b && '/' !in c
    ensures Split(a + "/" + b + "/" + c, '/') == [a, b, c]
    ensures InsertParts([CategoryNode(a + "/" + b, [])], [a, b, c], 1, BySegment)
      == [CategoryNode(a + "/" + b, []), CategoryNode(a + "/" + b, [CategoryNode(a + "/" + b + "/" + c, [])])]
  {
    var ab := a + "/" + b;
    var parts := [a, b, c];
    assert ab + "/" + c == a + ['/'] + b + ['/'] + c;
    SplitThree(a, b, c, '/');
    assert parts[..1] == [a] && PathOf(parts, 0) == a;
    PathOfStep(parts, 0);
    PathOfStep(parts, 1);
    var deep := [CategoryNode(ab + "/" + c, [])];
    assert InsertParts([], parts, 2, BySegment) == deep;
    assert FindChild([CategoryNode(ab, [])], b) == -1 by {
      assert |ab| > |b|;
    }
  }

  /** The older builder looks children up by bare segment, so below the
      top level it never finds one: a/b then a/b/c gives a two children
      both called a/b. */
  lemma BySegmentDuplicates(a: string, b: string, c: string)
    requires '/' !in a && '/' !in b && '/' !in c
    ensures BuildTree([a + "/" + b, a + "/" + b + "/" + c], BySegment)
      == [CategoryNode(a, [CategoryNode(a + "/" + b, []), CategoryNode(a + "/" + b, [CategoryNode(a + "/" + b + "/" + c, [])])])]
    ensures !SiblingsDistinct(BuildTree([a + "/" + b, a + "/" + b + "/" + c], BySegment))
  {
    var ab := a + "/" + b;
    var t1 := [CategoryNode(a, [CategoryNode(ab, [])])];
    BySegmentFirst(a, b);
    BuildTreeSnoc([ab], ab + "/" + c, BySegment);
    assert [ab] + [ab + "/" + c] == [ab, ab + "/" + c];
    BySegmentSecond(a, b, c);
    assert FindChild(t1, a) == 0;
    var r := BuildTree([ab, ab + "/" + c], BySegment);
    assert r[0].children[0].id == r[0].children[1].id;
  }

  // ------------------------------------------------ reading categories

  /** Every category of every project, in order: `projects.flatMap(p =>
      p.categories)`. */
  function AllCategories(projects: seq<Project>): (r: seq<string>)
    ensures forall c :: c in r <==> exists i :: 0 <= i < |projects| && c in projects[i].categories
    decreases |projects|
  {
    if |projects| == 0 then []
    else
      var init := projects[..|projects| - 1];
      var r := AllCategories(init) + projects[|projects| - 1].categories;
      assert forall i :: 0 <= i < |init| ==> init[i] == projects[i];
      r
  }

  /** The file store's categories: each category of some project once,
      in first-seen order; none when the projects cannot be read
      (`projects` is None). */
  function FileCategories(projects: Option<seq<Project>>): (r: seq<string>)
    ensures NoDuplicates(r)
    ensures projects.None? ==> r == []
    ensures projects.Some? ==> forall c :: c in r <==> exists i :: 0 <= i < |projects.value| && c in projects.value[i].categories
  {
    if projects.None? then [] else Dedup(AllCategories(projects.value))
  }

  /** `getCategories`: the SQL store's categories, or else the file
      store's, or else just the library; never empty. */
  function GetCategories(sqlCategories: seq<string>, fileCategories: seq<string>): (r: seq<string>)
    ensures |r| > 0
    ensures |sqlCategories| > 0 ==> r == sqlCategories
    ensures |sqlCategories| == 0 ==> r == (if |fileCategories| > 0 then fileCategories else [LIBRARY])
  {
    if |sqlCategories| > 0 then sqlCategories
    else if |fileCategories| > 0 then fileCategories
    else [LIBRARY]
  }

  /** A category tree has a root for each first segment and is never empty
      when some category was inserted. */
  lemma {:induction false} BuildTreeNonEmpty(categories: seq<string>)
    requires |categories| > 0
    ensures |BuildTree(categories, ByPath)| > 0
  {
    var init := categories[..|categories| - 1];
    var parts := Split(categories[|categories| - 1], '/');
    SplitPartsLackSeparator(categories[|categories| - 1], '/');
    BuildTreeNested(init);
    InsertPartsNested(BuildTree(init, ByPath), parts, 0);
    if |BuildTree(init, ByPath)| == 0 {
      assert |InsertParts([], parts, 0, ByPath)| == 1;
    }
  }

  /** `getCategoryTree` of the category module: the prefix tree of
      `getCategories()`, looked up by path, under a node "root" that
      `sortTree` then orders by `_id` at every level. */
  method GetCategoryTree(sqlCategories: seq<string>, projects: Option<seq<Project>>) returns (tree: seq<CategoryNode>)
    ensures tree == SortTreeById(CategoryNode("root", BuildTree(GetCategories(sqlCategories, FileCategories(projects)), ByPath))).children
    ensures IdsOrdered(tree) && forall i :: 0 <= i < |tree| ==> TreeOrdered(tree[i])
    ensures |tree| > 0 && SiblingsDistinct(tree) && Nested(tree)
    ensures forall x :: x in AllIds(tree) <==>
      exists i :: 0 <= i < |GetCategories(sqlCategories, FileCategories(projects))|
        && x in Prefixes(Split(GetCategories(sqlCategories, FileCategories(projects))[i], '/'), 0)
  {
    var categories := GetCategories(sqlCategories, FileCategories(projects));
    var built := BuildCategoryTree(categories, ByPath);
    BuildTreeNonEmpty(categories);
    BuildTreeDistinct(categories);
    BuildTreeNested(categories);
    BuildTreeIds(categories);
    var root := CategoryNode("root", built);
    SortTreeByIdOrdered(root);
    SortTreeByIdDistinct(root);
    SortTreeByIdNested(root);
    SortTreeByIdIds(root);
    tree := SortTreeById(root).children;
  }

  /** `getCategoryTree` of the folder module: the distinct categories of
      all projects, children looked up by bare segment; the library alone
      when the projects cannot be read. The project utilities' `sortTree`
      orders by label, and category nodes have none, so it leaves the tree
      as built. */
  method FolderCategoryTree(projects: Option<seq<Project>>) returns (tree: seq<CategoryNode>)
    ensures projects.None? ==> tree == [CategoryNode(LIBRARY, [])]
    ensures projects.Some? ==> tree == BuildTree(FileCategories(projects), BySegment)
    ensures projects.Some? ==>
      SortTree(AsTreeNode(CategoryNode("root", tree))) == AsTreeNode(CategoryNode("root", tree))
  {
    if projects.None? {
      tree := [CategoryNode(LIBRARY, [])];
    } else {
      tree := BuildCategoryTree(FileCategories(projects), BySegment);
      SortTreeKeepsCategoryOrder(tree);
    }
  }
}
