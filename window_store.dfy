/**
 * The window store: a layout tree per window (rows and columns splitting
 * space, stacks holding pages), the current item and the history of
 * earlier current items. The tree walks of the source keep a stack of
 * node references and change nodes in place; here a node is named by its
 * path of child indices from the root, and changing a node replaces the
 * subtree at its path.
 */
module WindowStore {
  import opened Wrappers
  import opened Models

  type Path = seq<nat>

  const MAIN: string := "main"
  const MAX_ITER: nat := 10

  /** The visible library page the store re-inserts into an empty root. */
  const LIBRARY_PAGE: Page := Page("library", LibraryPage, "library", Some(true), None)

  // --------------------------------------------------------- tree shape

  /** The pages of all stacks of a layout. */
  ghost function Pages(l: Layout): set<Page>
    decreases l
  {
    match l
    case Stack(_, ps) => set p | p in ps
    case Row(_, _, cs) => set k, p | 0 <= k < |cs| && p in Pages(cs[k]) :: p
    case Col(_, _, cs) => set k, p | 0 <= k < |cs| && p in Pages(cs[k]) :: p
  }

  /** The pages of a list of layouts. */
  ghost function PagesIn(ls: seq<Layout>): set<Page> {
    set k, p | 0 <= k < |ls| && p in Pages(ls[k]) :: p
  }

  /** Whether some page of the layout has this id. */
  ghost predicate HasPage(l: Layout, id: string) {
    exists p :: p in Pages(l) && p.id == id
  }

  /** `children.length`: pages of a stack, nodes of a row or column. */
  function ChildCount(l: Layout): nat {
    if l.Stack? then |l.pages| else |l.children|
  }

  /** A layout without pages has no pages to lose. */
  lemma EmptyHasNoPages(l: Layout)
    requires ChildCount(l) == 0
    ensures Pages(l) == {}
  {
  }

  /** The number of nodes of a layout, pages not counted. */
  ghost function Size(l: Layout): nat
    decreases l, 1
  {
    if l.Stack? then 1 else 1 + SizeAll(l.children)
  }

  ghost function SizeAll(ls: seq<Layout>): nat
    decreases ls, 0
  {
    if |ls| == 0 then 0 else SizeAll(ls[..|ls| - 1]) + Size(ls[|ls| - 1])
  }

  lemma {:induction false} SizeAllAppend(a: seq<Layout>, b: seq<Layout>)
    ensures SizeAll(a + b) == SizeAll(a) + SizeAll(b)
    decreases |b|
  {
    if |b| == 0 {
      assert a + b == a;
    } else {
      assert (a + b)[..|a + b| - 1] == a + b[..|b| - 1];
      SizeAllAppend(a, b[..|b| - 1]);
    }
  }

  /** The node at a path of child indices, if the path leads anywhere. */
  function NodeAt(t: Layout, path: Path): Option<Layout>
    decreases |path|
  {
    if |path| == 0 then Some(t)
    else if !t.Stack? && path[0] < |t.children| then NodeAt(t.children[path[0]], path[1..])
    else None
  }

  /** The layout with the subtree at `path` replaced by `n`. */
  function ReplaceAt(t: Layout, path: Path, n: Layout): Layout
    decreases |path|
  {
    if |path| == 0 then n
    else if !t.Stack? && path[0] < |t.children| then
      t.(children := t.children[path[0] := ReplaceAt(t.children[path[0]], path[1..], n)])
    else t
  }

  predicate IsPrefix(a: Path, b: Path) {
    |a| <= |b| && b[..|a|] == a
  }

  lemma {:induction false} NodeAtAppend(t: Layout, path: Path, k: nat)
    requires NodeAt(t, path).Some?
    ensures NodeAt(t, path + [k]) == NodeAt(NodeAt(t, path).value, [k])
    decreases |path|
  {
    if |path| > 0 {
      assert (path + [k])[1..] == path[1..] + [k];
      NodeAtAppend(t.children[path[0]], path[1..], k);
    }
  }

  /** A node's pages are pages of the whole tree. */
  lemma {:induction false} NodeAtPages(t: Layout, path: Path)
    requires NodeAt(t, path).Some?
    ensures Pages(NodeAt(t, path).value) <= Pages(t)
    decreases |path|
  {
    if |path| > 0 {
      NodeAtPages(t.children[path[0]], path[1..]);
    }
  }

  /** Replacing a subtree trades its pages for the new node's pages. */
  lemma {:induction false} ReplaceAtPages(t: Layout, path: Path, n: Layout)
    requires NodeAt(t, path).Some?
    ensures forall p :: p in Pages(ReplaceAt(t, path, n)) ==> p in Pages(t) || p in Pages(n)
    ensures forall p :: p in Pages(t) ==> p in Pages(ReplaceAt(t, path, n)) || p in Pages(NodeAt(t, path).value)
    decreases |path|
  {
    if |path| > 0 {
      var i := path[0];
      var c := t.children[i];
      ReplaceAtPages(c, path[1..], n);
      var cs := t.children[i := ReplaceAt(c, path[1..], n)];
      assert ReplaceAt(t, path, n) == t.(children := cs);
      assert NodeAt(t, path) == NodeAt(c, path[1..]);
      forall p | p in Pages(ReplaceAt(t, path, n))
        ensures p in Pages(t) || p in Pages(n)
      {
        var k :| 0 <= k < |cs| && p in Pages(cs[k]);
        if k != i {
          assert p in Pages(t.children[k]);
        }
      }
      forall p | p in Pages(t)
        ensures p in Pages(ReplaceAt(t, path, n)) || p in Pages(NodeAt(t, path).value)
      {
        var k :| 0 <= k < |t.children| && p in Pages(t.children[k]);
        if k != i {
          assert p in Pages(cs[k]);
        } else if p in Pages(cs[i]) {
          assert p in Pages(ReplaceAt(t, path, n));
        }
      }
    }
  }

  lemma {:induction false} ReplaceAtNode(t: Layout, path: Path, n: Layout)
    requires NodeAt(t, path).Some?
    ensures NodeAt(ReplaceAt(t, path, n), path) == Some(n)
    decreases |path|
  {
    if |path| > 0 {
      ReplaceAtNode(t.children[path[0]], path[1..], n);
    }
  }

  /** Replacing a subtree leaves every path outside it leading somewhere. */
  lemma {:induction false} ReplaceAtKeepsOthers(t: Layout, path: Path, n: Layout, q: Path)
    requires NodeAt(t, path).Some? && NodeAt(t, q).Some? && !IsPrefix(path, q)
    ensures NodeAt(ReplaceAt(t, path, n), q).Some?
    decreases |path|
  {
    if |q| > 0 && |path| > 0 && path[0] == q[0] {
      assert !IsPrefix(path[1..], q[1..]);
      ReplaceAtKeepsOthers(t.children[path[0]], path[1..], n, q[1..]);
    }
  }

  lemma NotPrefixOfExtension(p: Path, k: nat, q: Path)
    requires !IsPrefix(p, q)
    ensures !IsPrefix(p + [k], q)
  {
    if |p + [k]| <= |q| {
      assert q[..|p|] == q[..|p + [k]|][..|p|];
      assert (p + [k])[..|p|] == p;
    }
  }

  // ------------------------------------------------------------ findPage

  lemma PagesInAppend(a: seq<Layout>, b: seq<Layout>)
    ensures PagesIn(a + b) == PagesIn(a) + PagesIn(b)
  {
    var ab := a + b;
    forall p | p in PagesIn(ab) ensures p in PagesIn(a) + PagesIn(b) {
      var k :| 0 <= k < |ab| && p in Pages(ab[k]);
      if k < |a| {
        assert ab[k] == a[k];
      } else {
        assert ab[k] == b[k - |a|];
      }
    }
    forall p | p in PagesIn(a) + PagesIn(b) ensures p in PagesIn(ab) {
      if p in PagesIn(a) {
        var k :| 0 <= k < |a| && p in Pages(a[k]);
        assert ab[k] == a[k];
      } else {
        var k :| 0 <= k < |b| && p in Pages(b[k]);
        assert ab[|a| + k] == b[k];
      }
    }
  }

  lemma PagesInOne(l: Layout)
    ensures PagesIn([l]) == Pages(l)
  {
    assert forall p :: p in Pages(l) ==> p in Pages([l][0]);
  }

  /** The pages of a row or column are those of its children. */
  lemma ChildrenPages(l: Layout)
    requires !l.Stack?
    ensures Pages(l) == PagesIn(l.children)
  {
  }

  /** `findPage(predicate)` on a layout: a page of some stack that
      satisfies the predicate, or nothing when none does. */
  method FindIn(root: Layout, pred: Page -> bool) returns (r: Option<Page>)
    ensures r.Some? ==> r.value in Pages(root) && pred(r.value)
    ensures r.None? ==> forall p :: p in Pages(root) ==> !pred(p)
  {
    var work := [root];
    PagesInOne(root);
    while |work| > 0
      invariant PagesIn(work) <= Pages(root)
      invariant forall p :: p in Pages(root) && pred(p) ==> p in PagesIn(work)
      decreases SizeAll(work)
    {
      var cur := work[|work| - 1];
      var rest := work[..|work| - 1];
      assert work == rest + [cur];
      SizeAllAppend(rest, [cur]);
      assert [cur][..0] == [];
      PagesInAppend(rest, [cur]);
      PagesInOne(cur);
      if cur.Stack? {
        for i := 0 to |cur.pages|
          invariant forall k :: 0 <= k < i ==> !pred(cur.pages[k])
        {
          if pred(cur.pages[i]) {
            return Some(cur.pages[i]);
          }
        }
        assert forall q :: q in Pages(cur) ==> !pred(q);
        work := rest;
      } else {
        var next := rest + cur.children;
        PagesInAppend(rest, cur.children);
        ChildrenPages(cur);
        SizeAllAppend(rest, cur.children);
        work := next;
      }
    }
    return None;
  }

  // ---------------------------------------------------------- insertPage

  /** The index of the first page with this id, or -1. */
  function IndexOfPage(ps: seq<Page>, id: string): (r: int)
    ensures -1 <= r < |ps|
    ensures r >= 0 ==> ps[r].id == id && forall k :: 0 <= k < r ==> ps[k].id != id
    ensures r == -1 ==> forall k :: 0 <= k < |ps| ==> ps[k].id != id
  {
    if |ps| == 0 then -1
    else if ps[0].id == id then 0
    else
      var k := IndexOfPage(ps[1..], id);
      if k < 0 then -1 else k + 1
  }

  /** `insertPage(page, target, pos)`: in every stack holding the target
      the page goes right after it (or right before it). */
  function InsertIn(l: Layout, page: Page, target: string, after: bool): Layout
    decreases l, 1
  {
    match l
    case Stack(sid, ps) =>
      var k := IndexOfPage(ps, target);
      if k < 0 then l
      else
        var at := if after then k + 1 else k;
        Stack(sid, ps[..at] + [page] + ps[at..])
    case Row(rid, s, cs) => Row(rid, s, InsertInAll(cs, page, target, after))
    case Col(cid, s, cs) => Col(cid, s, InsertInAll(cs, page, target, after))
  }

  function InsertInAll(cs: seq<Layout>, page: Page, target: string, after: bool): (r: seq<Layout>)
    ensures |r| == |cs|
    decreases cs, 0
  {
    if |cs| == 0 then []
    else [InsertIn(cs[0], page, target, after)] + InsertInAll(cs[1..], page, target, after)
  }

  lemma {:induction false} InsertInAllAt(cs: seq<Layout>, page: Page, target: string, after: bool, k: nat)
    requires k < |cs|
    ensures InsertInAll(cs, page, target, after)[k] == InsertIn(cs[k], page, target, after)
    decreases k
  {
    if k > 0 {
      InsertInAllAt(cs[1..], page, target, after, k - 1);
    }
  }

  /** Whether some page of a list of layouts has this id. */
  ghost predicate HasPageIn(ls: seq<Layout>, id: string) {
    exists p :: p in PagesIn(ls) && p.id == id
  }

  lemma PagesInCons(x: Layout, rest: seq<Layout>)
    ensures PagesIn([x] + rest) == Pages(x) + PagesIn(rest)
  {
    var s := [x] + rest;
    forall p | p in PagesIn(s) ensures p in Pages(x) + PagesIn(rest) {
      var k :| 0 <= k < |s| && p in Pages(s[k]);
      if k > 0 {
        assert s[k] == rest[k - 1];
      }
    }
    forall p | p in PagesIn(rest) ensures p in PagesIn(s) {
      var k :| 0 <= k < |rest| && p in Pages(rest[k]);
      assert s[k + 1] == rest[k];
    }
    assert s[0] == x;
  }

  lemma InsertInStackPages(sid: string, ps: seq<Page>, page: Page, target: string, after: bool)
    ensures Pages(InsertIn(Stack(sid, ps), page, target, after))
      == Pages(Stack(sid, ps)) + (if HasPage(Stack(sid, ps), target) then {page} else {})
  {
    var l := Stack(sid, ps);
    var k := IndexOfPage(ps, target);
    if k >= 0 {
      var at := if after then k + 1 else k;
      assert ps == ps[..at] + ps[at..];
      assert ps[k] in Pages(l);
      assert (set p | p in ps[..at] + [page] + ps[at..]) == (set p | p in ps) + {page};
    } else {
      assert forall q :: q in Pages(l) ==> q in ps;
    }
  }

  /** A stack holding the target gains exactly the page, and other pages
      are kept: the page set grows by the page exactly when the target
      was there. */
  lemma {:induction false} InsertInPages(l: Layout, page: Page, target: string, after: bool)
    ensures Pages(InsertIn(l, page, target, after)) == Pages(l) + (if HasPage(l, target) then {page} else {})
    decreases l, 1
  {
    if l.Stack? {
      InsertInStackPages(l.id, l.pages, page, target, after);
    } else {
      var r := InsertIn(l, page, target, after);
      InsertInAllPages(l.children, page, target, after);
      PagesInOf(l);
      PagesInOf(r);
    }
  }

  lemma {:induction false} InsertInAllPages(cs: seq<Layout>, page: Page, target: string, after: bool)
    ensures PagesIn(InsertInAll(cs, page, target, after))
      == PagesIn(cs) + (if HasPageIn(cs, target) then {page} else {})
    decreases cs, 0
  {
    if |cs| == 0 {
      assert PagesIn(cs) == {};
      assert PagesIn(InsertInAll(cs, page, target, after)) == {};
    } else {
      assert cs == [cs[0]] + cs[1..];
      InsertInPages(cs[0], page, target, after);
      InsertInAllPages(cs[1..], page, target, after);
      PagesInCons(cs[0], cs[1..]);
      PagesInCons(InsertIn(cs[0], page, target, after), InsertInAll(cs[1..], page, target, after));
    }
  }

  /** Without the target nowhere in the layout, inserting changes nothing. */
  lemma {:induction false} InsertWithoutTarget(l: Layout, page: Page, target: string, after: bool)
    requires !HasPage(l, target)
    ensures InsertIn(l, page, target, after) == l
    decreases l
  {
    match l
    case Stack(sid, ps) =>
      assert forall k :: 0 <= k < |ps| ==> ps[k] in Pages(l);
    case _ =>
      var cs := l.children;
      var rs := InsertInAll(cs, page, target, after);
      forall k | 0 <= k < |cs| ensures rs[k] == cs[k] {
        InsertInAllAt(cs, page, target, after, k);
        assert !HasPage(cs[k], target) by {
          forall q | q in Pages(cs[k]) ensures q.id != target {
            assert q in Pages(l);
          }
        }
        InsertWithoutTarget(cs[k], page, target, after);
      }
      assert rs == cs;
  }

  /** Inside one stack: the page sits right after the first target page,
      and the other pages keep their order. */
  lemma InsertInStack(sid: string, ps: seq<Page>, page: Page, target: string)
    requires exists k :: 0 <= k < |ps| && ps[k].id == target
    ensures var k := IndexOfPage(ps, target);
      InsertIn(Stack(sid, ps), page, target, true) == Stack(sid, ps[..k + 1] + [page] + ps[k + 1..])
      && ps[k].id == target
  {
  }

  // ---------------------------------------------------------- removeNode

  /** The pages without the ones with `id`, in order. */
  function WithoutPage(ps: seq<Page>, id: string): (r: seq<Page>)
    ensures forall p :: p in r <==> p in ps && p.id != id
    decreases |ps|
  {
    if |ps| == 0 then []
    else
      var init := WithoutPage(ps[..|ps| - 1], id);
      var last := ps[|ps| - 1];
      assert ps == ps[..|ps| - 1] + [last];
      if last.id != id then init + [last] else init
  }

  /** The children that have children of their own, in order. */
  function NonEmpty(cs: seq<Layout>): (r: seq<Layout>)
    ensures forall c :: c in r <==> c in cs && ChildCount(c) > 0
    decreases |cs|
  {
    if |cs| == 0 then []
    else
      var init := NonEmpty(cs[..|cs| - 1]);
      var last := cs[|cs| - 1];
      assert cs == cs[..|cs| - 1] + [last];
      if ChildCount(last) > 0 then init + [last] else init
  }

  /** What processing a node after its children does: a stack drops the
      pages with `id`; a row or column drops its empty children and is
      replaced by its only child when one is left. */
  function Cleaned(cur: Layout, id: string): Layout {
    if cur.Stack? then Stack(cur.id, WithoutPage(cur.pages, id))
    else
      var kept := NonEmpty(cur.children);
      if |kept| == 1 then kept[0] else cur.(children := kept)
  }

  /** Processing a node loses only the pages with `id`. */
  lemma CleanedPages(cur: Layout, id: string)
    ensures Pages(Cleaned(cur, id)) <= Pages(cur)
    ensures forall p :: p in Pages(cur) && p.id != id ==> p in Pages(Cleaned(cur, id))
  {
    if !cur.Stack? {
      var kept := NonEmpty(cur.children);
      forall p | p in Pages(cur) ensures p in PagesIn(kept) {
        var k :| 0 <= k < |cur.children| && p in Pages(cur.children[k]);
        var c := cur.children[k];
        if ChildCount(c) == 0 {
          EmptyHasNoPages(c);
        }
        assert c in kept;
        var j :| 0 <= j < |kept| && kept[j] == c;
      }
      forall p | p in PagesIn(kept) ensures p in Pages(cur) {
        var j :| 0 <= j < |kept| && p in Pages(kept[j]);
        assert kept[j] in cur.children;
        var k :| 0 <= k < |cur.children| && cur.children[k] == kept[j];
      }
      if |kept| == 1 {
        assert forall p :: p in PagesIn(kept) <==> p in Pages(kept[0]);
      }
    }
  }

  /** The walk's stack never holds a path below a path above it, and every
      path leads to a node. */
  ghost predicate WorkValid(tree: Layout, work: seq<Path>) {
    (forall i :: 0 <= i < |work| ==> NodeAt(tree, work[i]).Some?)
    && (forall i, j :: 0 <= i < j < |work| ==> !IsPrefix(work[j], work[i]))
  }

  /** The paths of a node's children. */
  function ChildPaths(path: Path, n: nat): (r: seq<Path>)
    ensures |r| == n && forall k :: 0 <= k < n ==> r[k] == path + [k]
  {
    seq(n, k requires 0 <= k < n => path + [k])
  }

  /** Pushing a node's children keeps the walk's stack valid. */
  lemma PushKeepsValid(tree: Layout, work: seq<Path>)
    requires WorkValid(tree, work) && |work| > 0
    requires NodeAt(tree, work[|work| - 1]).value.Row? || NodeAt(tree, work[|work| - 1]).value.Col?
    ensures WorkValid(tree, work + ChildPaths(work[|work| - 1], |NodeAt(tree, work[|work| - 1]).value.children|))
  {
    var top := work[|work| - 1];
    var n := |NodeAt(tree, top).value.children|;
    var cp := ChildPaths(top, n);
    var next := work + cp;
    forall i | 0 <= i < |next| ensures NodeAt(tree, next[i]).Some? {
      if i >= |work| {
        assert next[i] == top + [i - |work|];
        NodeAtAppend(tree, top, i - |work|);
      } else {
        assert next[i] == work[i];
      }
    }
    forall i, j | 0 <= i < j < |next| ensures !IsPrefix(next[j], next[i]) {
      if j >= |work| {
        assert next[j] == top + [j - |work|];
        if i >= |work| {
          assert next[i] == top + [i - |work|];
          assert next[i][|top|] != next[j][|top|];
        } else {
          assert next[i] == work[i];
          if i < |work| - 1 {
            assert !IsPrefix(work[|work| - 1], work[i]);
            NotPrefixOfExtension(top, j - |work|, work[i]);
          }
        }
      } else {
        assert next[i] == work[i] && next[j] == work[j];
      }
    }
  }

  /** Processing the top node and popping it keeps the walk's stack valid. */
  lemma PopKeepsValid(tree: Layout, work: seq<Path>, n: Layout)
    requires WorkValid(tree, work) && |work| > 0
    ensures WorkValid(ReplaceAt(tree, work[|work| - 1], n), work[..|work| - 1])
  {
    var top := work[|work| - 1];
    var rest := work[..|work| - 1];
    forall i | 0 <= i < |rest| ensures NodeAt(ReplaceAt(tree, top, n), rest[i]).Some? {
      assert rest[i] == work[i];
      ReplaceAtKeepsOthers(tree, top, n, rest[i]);
    }
  }

  /** The pages a walk step may lose are pages with `id`. */
  ghost predicate KeepsPages(root: Layout, tree: Layout, id: string) {
    Pages(tree) <= Pages(root)
    && forall p :: p in Pages(root) && p.id != id ==> p in Pages(tree)
  }

  lemma CleanKeepsPages(root: Layout, tree: Layout, path: Path, id: string)
    requires KeepsPages(root, tree, id) && NodeAt(tree, path).Some?
    ensures KeepsPages(root, ReplaceAt(tree, path, Cleaned(NodeAt(tree, path).value, id)), id)
  {
    var cur := NodeAt(tree, path).value;
    var n := Cleaned(cur, id);
    CleanedPages(cur, id);
    NodeAtPages(tree, path);
    ReplaceAtPages(tree, path, n);
    ReplaceAtNode(tree, path, n);
    NodeAtPages(ReplaceAt(tree, path, n), path);
    forall p | p in Pages(root) && p.id != id ensures p in Pages(ReplaceAt(tree, path, n)) {
      assert p in Pages(tree);
    }
  }

  /** `removeNode(id)` on a layout: a post-order walk of at most ten steps
      that removes the pages with `id` from the stacks it reaches, drops
      emptied children and collapses rows and columns left with one
      child. `ok` is false where the source throws: a row or column is
      looked at with no first child, or without a second one while the
      first is not the node just done. */
  method RemoveFrom(root: Layout, id: string) returns (tree: Layout, ok: bool)
    ensures Pages(tree) <= Pages(root)
    ensures forall p :: p in Pages(root) && p.id != id ==> p in Pages(tree)
    ensures root.Stack? ==> ok && tree == Stack(root.id, WithoutPage(root.pages, id))
  {
    tree := root;
    ok := true;
    var work: seq<Path> := [[]];
    var prv := "";
    var iter := 0;
    while |work| > 0 && iter < MAX_ITER
      invariant iter <= MAX_ITER
      invariant WorkValid(tree, work)
      invariant KeepsPages(root, tree, id)
      invariant root.Stack? ==> (
        (iter == 0 && work == [[]] && tree == root) || (work == [] && tree == Cleaned(root, id)))
      decreases MAX_ITER - iter
    {
      iter := iter + 1;
      var top := work[|work| - 1];
      var cur := NodeAt(tree, top).value;
      if !cur.Stack? && (|cur.children| == 0 || (cur.children[0].id != prv && |cur.children| < 2)) {
        ok := false;
        return;
      }
      if !cur.Stack? && cur.children[0].id != prv && cur.children[1].id != prv {
        PushKeepsValid(tree, work);
        work := work + ChildPaths(top, |cur.children|);
      } else {
        var n := Cleaned(cur, id);
        PopKeepsValid(tree, work, n);
        CleanKeepsPages(root, tree, top, id);
        tree := ReplaceAt(tree, top, n);
        prv := n.id;
        work := work[..|work| - 1];
      }
    }
  }

  // --------------------------------------------------------- replaceNode

  /** `Object.assign(page, newPage)`: fields the new page leaves out keep
      their old values. */
  function Merge(before: Page, given: Page): (r: Page)
    ensures r.id == given.id && r.pageType == given.pageType && r.name == given.name
    ensures r.visible == (if given.visible.Some? then given.visible else before.visible)
    ensures r.data == (if given.data.Some? then given.data else before.data)
  {
    Page(given.id, given.pageType, given.name,
      if given.visible.Some? then given.visible else before.visible,
      if given.data.Some? then given.data else before.data)
  }

  /** The index of the last page with this id, or -1: a stack's pages are
      pushed onto the walk's stack and popped from the end. */
  function LastIndexOfPage(ps: seq<Page>, id: string): (r: int)
    ensures -1 <= r < |ps|
    ensures r >= 0 ==> ps[r].id == id && forall k :: r < k < |ps| ==> ps[k].id != id
    ensures r == -1 ==> forall k :: 0 <= k < |ps| ==> ps[k].id != id
    decreases |ps|
  {
    if |ps| == 0 then -1
    else if ps[|ps| - 1].id == id then |ps| - 1
    else LastIndexOfPage(ps[..|ps| - 1], id)
  }

  /** The ids the walk of `replaceNode` compares: every node's and every
      page's. */
  ghost function Ids(l: Layout): set<string>
    decreases l
  {
    match l
    case Stack(sid, ps) => {sid} + set p | p in ps :: p.id
    case Row(rid, _, cs) => {rid} + set k, x | 0 <= k < |cs| && x in Ids(cs[k]) :: x
    case Col(cid, _, cs) => {cid} + set k, x | 0 <= k < |cs| && x in Ids(cs[k]) :: x
  }

  /** `replaceNode(newPage, target)`, as `renamePage` calls it: the first
      node with the target id in the walk's order (a node before its
      children, the last child first) is overwritten by the page. A row,
      column or stack that matches ends the walk and is left as it is. The
      flag says whether a match was found. */
  function RenameIn(l: Layout, target: string, newPage: Page): (r: (Layout, bool))
    decreases l, 1
  {
    if l.id == target then (l, true)
    else match l
      case Stack(sid, ps) =>
        var k := LastIndexOfPage(ps, target);
        if k < 0 then (l, false) else (Stack(sid, ps[k := Merge(ps[k], newPage)]), true)
      case Row(rid, s, cs) =>
        var rs := RenameInAll(cs, target, newPage);
        (Row(rid, s, rs.0), rs.1)
      case Col(cid, s, cs) =>
        var rs := RenameInAll(cs, target, newPage);
        (Col(cid, s, rs.0), rs.1)
  }

  function RenameInAll(cs: seq<Layout>, target: string, newPage: Page): (r: (seq<Layout>, bool))
    decreases cs, 0
  {
    if |cs| == 0 then (cs, false)
    else
      var last := RenameIn(cs[|cs| - 1], target, newPage);
      if last.1 then (cs[..|cs| - 1] + [last.0], true)
      else
        var init := RenameInAll(cs[..|cs| - 1], target, newPage);
        (init.0 + [cs[|cs| - 1]], init.1)
  }

  /** The walk's flag: a match is found exactly when some node or page has
      the target id, and without a match nothing changes. */
  lemma {:induction false} RenameFound(l: Layout, target: string, newPage: Page)
    ensures RenameIn(l, target, newPage).1 <==> target in Ids(l)
    ensures !RenameIn(l, target, newPage).1 ==> RenameIn(l, target, newPage).0 == l
    decreases l, 1
  {
    if l.id != target {
      match l
      case Stack(sid, ps) =>
        var k := LastIndexOfPage(ps, target);
        if target in Ids(l) {
          var p :| p in ps && p.id == target;
        }
      case Row(rid, s, cs) =>
        RenameAllFound(cs, target, newPage);
      case Col(cid, s, cs) =>
        RenameAllFound(cs, target, newPage);
    }
  }

  lemma {:induction false} RenameAllFound(cs: seq<Layout>, target: string, newPage: Page)
    ensures RenameInAll(cs, target, newPage).1 <==> exists k :: 0 <= k < |cs| && target in Ids(cs[k])
    ensures !RenameInAll(cs, target, newPage).1 ==> RenameInAll(cs, target, newPage).0 == cs
    decreases cs, 0
  {
    if |cs| > 0 {
      var init := cs[..|cs| - 1];
      var last := cs[|cs| - 1];
      RenameFound(last, target, newPage);
      RenameAllFound(init, target, newPage);
      assert cs == init + [last];
      if exists k :: 0 <= k < |cs| && target in Ids(cs[k]) {
        var k :| 0 <= k < |cs| && target in Ids(cs[k]);
        if k < |cs| - 1 {
          assert cs[k] == init[k];
        }
      }
      if exists k :: 0 <= k < |init| && target in Ids(init[k]) {
        var k :| 0 <= k < |init| && target in Ids(init[k]);
        assert cs[k] == init[k];
      }
    }
  }

  /** Renaming keeps every page whose id is not the target, and every page
      it brings in is an old page with the target id merged with the new
      page. */
  lemma {:induction false} RenamePages(l: Layout, target: string, newPage: Page)
    ensures forall p :: p in Pages(l) && p.id != target ==> p in Pages(RenameIn(l, target, newPage).0)
    ensures forall p :: p in Pages(RenameIn(l, target, newPage).0) ==>
      (p in Pages(l) || exists q :: q in Pages(l) && q.id == target && p == Merge(q, newPage))
    decreases l, 1
  {
    var r := RenameIn(l, target, newPage).0;
    if l.id != target {
      match l
      case Stack(sid, ps) =>
        var k := LastIndexOfPage(ps, target);
        if k >= 0 {
          forall p | p in Pages(l) && p.id != target ensures p in Pages(r) {
            var j :| 0 <= j < |ps| && ps[j] == p;
            assert r.pages[j] == p;
          }
          forall p | p in Pages(r)
            ensures p in Pages(l) || exists q :: q in Pages(l) && q.id == target && p == Merge(q, newPage)
          {
            var j :| 0 <= j < |r.pages| && r.pages[j] == p;
            if j == k {
              assert ps[k] in Pages(l);
            } else {
              assert ps[j] == p;
            }
          }
        }
      case Row(rid, s, cs) =>
        RenameAllPages(cs, target, newPage);
        PagesInOf(l);
        PagesInOf(r);
      case Col(cid, s, cs) =>
        RenameAllPages(cs, target, newPage);
        PagesInOf(l);
        PagesInOf(r);
    }
  }

  lemma PagesInOf(l: Layout)
    requires !l.Stack?
    ensures Pages(l) == PagesIn(l.children)
  {
  }

  lemma {:induction false} RenameAllPages(cs: seq<Layout>, target: string, newPage: Page)
    ensures forall p :: p in PagesIn(cs) && p.id != target ==> p in PagesIn(RenameInAll(cs, target, newPage).0)
    ensures forall p :: p in PagesIn(RenameInAll(cs, target, newPage).0) ==>
      (p in PagesIn(cs) || exists q :: q in PagesIn(cs) && q.id == target && p == Merge(q, newPage))
    decreases cs, 0
  {
    if |cs| > 0 {
      var init := cs[..|cs| - 1];
      var last := cs[|cs| - 1];
      var lr := RenameIn(last, target, newPage);
      var rs := RenameInAll(cs, target, newPage).0;
      RenamePages(last, target, newPage);
      PagesInSnoc(init, last);
      assert cs == init + [last];
      if lr.1 {
        PagesInSnoc(init, lr.0);
        assert rs == init + [lr.0];
      } else {
        var ir := RenameInAll(init, target, newPage).0;
        RenameAllPages(init, target, newPage);
        PagesInSnoc(ir, last);
        assert rs == ir + [last];
      }
    }
  }

  lemma PagesInSnoc(init: seq<Layout>, last: Layout)
    ensures PagesIn(init + [last]) == PagesIn(init) + Pages(last)
  {
    var s := init + [last];
    forall p | p in PagesIn(s) ensures p in PagesIn(init) + Pages(last) {
      var k :| 0 <= k < |s| && p in Pages(s[k]);
      if k < |init| {
        assert s[k] == init[k];
      }
    }
    forall p | p in PagesIn(init) ensures p in PagesIn(s) {
      var k :| 0 <= k < |init| && p in Pages(init[k]);
      assert s[k] == init[k];
    }
    assert s[|init|] == last;
  }

  // ------------------------------------------------------------ the store

  class Store {
    /** the layout of each window, by window id */
    var layouts: map<string, Layout>
    /** the label of the window this store runs in */
    var windowId: string
    var currentItemId: string
    var historyItemId: seq<string>

    constructor(windowId: string)
      ensures layouts == map[] && this.windowId == windowId
      ensures currentItemId == "library" && historyItemId == []
    {
      layouts := map[];
      this.windowId := windowId;
      currentItemId := "library";
      historyItemId := [];
    }

    /** The `layout` getter. */
    function Current(): (r: Option<Layout>)
      reads this
      ensures r.Some? <==> windowId in layouts
      ensures r.Some? ==> r.value == layouts[windowId]
    {
      if windowId in layouts then Some(layouts[windowId]) else None
    }

    /** `setActive(id)`. */
    method SetActive(id: string)
      modifies this`currentItemId, this`historyItemId
      ensures id == old(currentItemId) ==> currentItemId == old(currentItemId) && historyItemId == old(historyItemId)
      ensures id != old(currentItemId) ==> (
        currentItemId == id
        && historyItemId == old(historyItemId) + (if old(currentItemId) != "" then [old(currentItemId)] else []))
    {
      if id == currentItemId {
        return;
      }
      if currentItemId != "" {
        historyItemId := historyItemId + [currentItemId];
      }
      currentItemId := id;
    }

    /** `findPage(predicate)`. */
    method FindPage(pred: Page -> bool) returns (r: Option<Page>)
      ensures Current().None? ==> r.None?
      ensures r.Some? ==> Current().Some? && r.value in Pages(Current().value) && pred(r.value)
      ensures Current().Some? && r.None? ==> forall p :: p in Pages(Current().value) ==> !pred(p)
    {
      if windowId !in layouts {
        return None;
      }
      r := FindIn(layouts[windowId], pred);
    }

    /** `insertPage(page, target, pos)`. */
    method InsertPage(page: Page, target: string, after: bool)
      modifies this`layouts
      ensures old(Current()).None? ==> layouts == old(layouts)
      ensures old(Current()).Some? ==> layouts == old(layouts)[windowId := InsertIn(old(Current()).value, page, target, after)]
    {
      if windowId !in layouts {
        return;
      }
      layouts := layouts[windowId := InsertIn(layouts[windowId], page, target, after)];
    }

    /** `openPage(page)`: a page already present is only activated; a new
      one goes after the current page (after the last entry of the history
      when the current id already is the page's) and is activated. */
    method OpenPage(page: Page)
      modifies this`layouts, this`currentItemId, this`historyItemId
      ensures old(Current()).Some? && HasPage(old(Current()).value, page.id) ==> layouts == old(layouts)
      ensures old(Current()).Some? && !HasPage(old(Current()).value, page.id) ==> (
        var target := if old(currentItemId) == page.id then
          (if |old(historyItemId)| > 0 then Some(old(historyItemId)[|old(historyItemId)| - 1]) else None)
          else Some(old(currentItemId));
        layouts == old(layouts)[windowId := if target.Some? then InsertIn(old(Current()).value, page, target.value, true)
                                            else old(Current()).value])
      ensures old(Current()).None? ==> layouts == old(layouts)
      ensures (currentItemId, historyItemId) == Activated(old(currentItemId), old(historyItemId), page.id)
    {
      var same := (p: Page) => p.id == page.id;
      var found := FindPage(same);
      if found.None? {
        if currentItemId == page.id {
          if |historyItemId| > 0 {
            InsertPage(page, historyItemId[|historyItemId| - 1], true);
          } else if windowId in layouts {
            // the target is `undefined`: no page has it
            layouts := layouts[windowId := layouts[windowId]];
          }
        } else {
          InsertPage(page, currentItemId, true);
        }
      } else {
        assert HasPage(Current().value, page.id);
      }
      SetActive(page.id);
    }

    /** `removeNode(id)`: the walk on the current layout; `ok` is false
      where the source throws (the nodes done so far stay changed). */
    method RemoveNode(id: string) returns (ok: bool)
      modifies this`layouts
      ensures old(Current()).None? ==> ok && layouts == old(layouts)
      ensures old(Current()).Some? ==> (
        windowId in layouts && layouts == old(layouts)[windowId := layouts[windowId]]
        && KeepsPages(old(Current()).value, layouts[windowId], id))
      ensures old(Current()).Some? && old(Current()).value.Stack? ==> (
        ok && layouts[windowId] == Stack(old(Current()).value.id, WithoutPage(old(Current()).value.pages, id)))
    {
      if windowId !in layouts {
        return true;
      }
      var tree;
      tree, ok := RemoveFrom(layouts[windowId], id);
      layouts := layouts[windowId := tree];
    }

    /** `closePage(pageId)`: the page leaves the layout and the history; when
      it was current, the last history entry (or "") becomes current; an
      emptied root stack gets a visible library page, which is activated.
      `ok` is false where the source throws: inside `removeNode`, or, with
      no layout, after the history update. */
    method ClosePage(pageId: string) returns (ok: bool)
      modifies this`layouts, this`currentItemId, this`historyItemId
      ensures !ok && old(Current()).Some? ==> currentItemId == old(currentItemId) && historyItemId == old(historyItemId)
      ensures old(Current()).None? ==> (
        !ok && layouts == old(layouts)
        && (currentItemId, historyItemId) == AfterClose(old(currentItemId), old(historyItemId), pageId))
      ensures old(Current()).Some? && old(Current()).value.Stack? ==> (
        var rest := WithoutPage(old(Current()).value.pages, pageId);
        var closed := AfterClose(old(currentItemId), old(historyItemId), pageId);
        ok
        && (rest != [] ==> (
              layouts == old(layouts)[windowId := Stack(old(Current()).value.id, rest)]
              && (currentItemId, historyItemId) == closed))
        && (rest == [] ==> (
              layouts == old(layouts)[windowId := Stack(old(Current()).value.id, [LIBRARY_PAGE])]
              && (currentItemId, historyItemId) == Activated(closed.0, closed.1, "library"))))
      ensures old(Current()).Some? && !old(Current()).value.Stack? ==> (
        var closed := AfterClose(old(currentItemId), old(historyItemId), pageId);
        windowId in layouts && layouts == old(layouts)[windowId := layouts[windowId]]
        && Pages(layouts[windowId]) <= Pages(old(Current()).value) + {LIBRARY_PAGE}
        && (forall p :: p in Pages(old(Current()).value) && p.id != pageId ==> p in Pages(layouts[windowId]))
        && (ok ==> (
              (currentItemId, historyItemId) == closed
              || (layouts[windowId].Stack? && layouts[windowId].pages == [LIBRARY_PAGE]
                  && (currentItemId, historyItemId) == Activated(closed.0, closed.1, "library")))))
    {
      ok := RemoveNode(pageId);
      if !ok {
        return;
      }
      historyItemId := WithoutId(historyItemId, pageId);
      if currentItemId == pageId {
        if |historyItemId| > 0 {
          currentItemId := historyItemId[|historyItemId| - 1];
          historyItemId := historyItemId[..|historyItemId| - 1];
        } else {
          currentItemId := "";
        }
      }
      if windowId !in layouts {
        ok := false;
        return;
      }
      var l := layouts[windowId];
      if l.Stack? && |l.pages| == 0 {
        assert l.pages + [LIBRARY_PAGE] == [LIBRARY_PAGE];
        layouts := layouts[windowId := Stack(l.id, l.pages + [LIBRARY_PAGE])];
        SetActive("library");
      }
    }

    /** `renamePage(oldId, newPage)`, through `replaceNode`. */
    method RenamePage(oldId: string, newPage: Page)
      modifies this`layouts
      ensures old(Current()).None? ==> layouts == old(layouts)
      ensures old(Current()).Some? ==> layouts == old(layouts)[windowId := RenameIn(old(Current()).value, oldId, newPage).0]
    {
      if windowId !in layouts {
        return;
      }
      layouts := layouts[windowId := RenameIn(layouts[windowId], oldId, newPage).0];
    }

    /** `loadLayout()` with the stored layout as input: only the main window
      loads; the current item stays when it is on some page, else the
      first page found becomes current. */
    method LoadLayout(stored: Layout)
      modifies this`layouts, this`currentItemId, this`historyItemId
      ensures windowId != MAIN ==> (
        layouts == old(layouts) && currentItemId == old(currentItemId) && historyItemId == old(historyItemId))
      ensures windowId == MAIN ==> layouts == old(layouts)[MAIN := stored]
      ensures windowId == MAIN && HasPage(stored, old(currentItemId)) ==>
        currentItemId == old(currentItemId) && historyItemId == old(historyItemId)
      ensures windowId == MAIN && !HasPage(stored, old(currentItemId)) && Pages(stored) != {} ==>
        HasPage(stored, currentItemId)
        && (currentItemId, historyItemId) == Activated(old(currentItemId), old(historyItemId), currentItemId)
      ensures windowId == MAIN && Pages(stored) == {} ==>
        currentItemId == old(currentItemId) && historyItemId == old(historyItemId)
    {
      if windowId != MAIN {
        return;
      }
      layouts := layouts[windowId := stored];
      var cur := currentItemId;
      var same := (p: Page) => p.id == cur;
      var found := FindPage(same);
      if found.Some? {
        SetActive(currentItemId);
      } else {
        var any := (p: Page) => true;
        var first := FindPage(any);
        if first.Some? {
          SetActive(first.value.id);
        }
      }
    }

    /** `saveLayout()`: the layout to write, only from the main window. */
    method SaveLayout() returns (write: bool, value: Option<Layout>)
      ensures write <==> windowId == MAIN
      ensures write ==> value == Current()
    {
      if windowId != MAIN {
        return false, None;
      }
      return true, Current();
    }

    /** `openWindow(page)` with the fresh window id as input: only the main
      window opens others; the new window's layout is a stack holding the
      page, made visible. */
    method OpenWindow(page: Page, newWindowId: string)
      modifies this`layouts
      ensures windowId != MAIN ==> layouts == old(layouts)
      ensures windowId == MAIN ==> layouts == old(layouts)[newWindowId := Stack("stack", [page.(visible := Some(true))])]
    {
      if windowId != MAIN {
        return;
      }
      layouts := layouts[newWindowId := Stack("stack", [page.(visible := Some(true))])];
    }
  }

  /** The history without an id, in order. */
  function WithoutId(ids: seq<string>, id: string): (r: seq<string>)
    ensures forall x :: x in r <==> x in ids && x != id
    ensures |r| <= |ids|
    decreases |ids|
  {
    if |ids| == 0 then []
    else
      var init := WithoutId(ids[..|ids| - 1], id);
      var last := ids[|ids| - 1];
      assert ids == ids[..|ids| - 1] + [last];
      if last != id then init + [last] else init
  }

  /** The current item and history after `closePage` drops `pageId` from
      the history: a current `pageId` is replaced by the last remaining
      entry, which leaves the history, or by "" when none remains. */
  function AfterClose(current: string, history: seq<string>, pageId: string): (r: (string, seq<string>))
    ensures pageId !in r.1
    ensures r.0 == pageId ==> pageId == ""
    ensures current != pageId ==> r == (current, WithoutId(history, pageId))
    ensures current == pageId ==> (
      if WithoutId(history, pageId) == [] then r == ("", [])
      else r.1 + [r.0] == WithoutId(history, pageId))
  {
    var h := WithoutId(history, pageId);
    if current != pageId then (current, h)
    else if |h| == 0 then ("", h)
    else
      assert h[|h| - 1] in h;
      assert h[..|h| - 1] + [h[|h| - 1]] == h;
      assert pageId !in h;
      (h[|h| - 1], h[..|h| - 1])
  }

  /** `setActive(id)` on a current item and history. */
  function Activated(current: string, history: seq<string>, id: string): (r: (string, seq<string>))
    ensures r.0 == id
    ensures id != current && current != "" ==> r.1 == history + [current]
    ensures id == current || current == "" ==> r.1 == history
  {
    if id == current then (current, history)
    else (id, history + (if current != "" then [current] else []))
  }

  ghost function HistoryIds(ids: seq<string>): set<string> {
    set x | x in ids
  }
}
