/**
 * Helpers of the project backend: sorting a tree by labels, rendering
 * authors, choosing the displayed title, and converting between absolute
 * paths, item ids and `sophosia://open-item/` deep links.
 */
module ProjectUtils {
  import opened Wrappers
  import opened Strings
  import opened Models
  import opened TauriPath

  // ------------------------------------------------------------ sortTree

  /** A tree node as `sortTree` sees it: a label (absent on category
      nodes) and a children list, which may be undefined altogether
      (`hasChildren` false). */
  datatype TreeNode = TreeNode(id: string, name: Option<string>, hasChildren: bool, children: seq<TreeNode>)

  /** JavaScript's `<` on two strings: lexicographic on character codes. */
  predicate StrLess(a: string, b: string)
    decreases |a|
  {
    if |a| == 0 then |b| > 0
    else if |b| == 0 then false
    else a[0] < b[0] || (a[0] == b[0] && StrLess(a[1..], b[1..]))
  }

  /** `a.label > b.label`; any comparison with `undefined` is false. */
  predicate LabelGreater(a: TreeNode, b: TreeNode) {
    a.name.Some? && b.name.Some? && StrLess(b.name.value, a.name.value)
  }

  /** One step of a stable insertion sort with the comparator of `sortTree`:
      `x` moves left past every element whose label is greater. */
  function InsertByLabel(s: seq<TreeNode>, x: TreeNode): (r: seq<TreeNode>)
    ensures multiset(r) == multiset(s) + multiset{x}
    decreases |s|
  {
    if |s| == 0 then [x]
    else if LabelGreater(s[|s| - 1], x) then
      assert s == s[..|s| - 1] + [s[|s| - 1]];
      InsertByLabel(s[..|s| - 1], x) + [s[|s| - 1]]
    else s + [x]
  }

  /** `children.sort(comparator)`; the sort is stable. */
  function SortByLabel(s: seq<TreeNode>): (r: seq<TreeNode>)
    ensures multiset(r) == multiset(s)
    decreases |s|
  {
    if |s| == 0 then []
    else
      assert s == s[..|s| - 1] + [s[|s| - 1]];
      InsertByLabel(SortByLabel(s[..|s| - 1]), s[|s| - 1])
  }

  /** `sortTree`: a node with at least two children gets them sorted by
      label, and each child is then sorted in turn; a node without a
      children list, or with fewer than two children, is left exactly as it
      is. */
  function SortTree(n: TreeNode): (r: TreeNode)
    ensures r.id == n.id && r.name == n.name && r.hasChildren == n.hasChildren
    ensures |r.children| == |n.children|
    ensures !n.hasChildren || |n.children| <= 1 ==> r == n
    decreases n
  {
    if !n.hasChildren || |n.children| <= 1 then n
    else
      var sorted := SortByLabel(n.children);
      assert |sorted| == |multiset(sorted)| == |n.children|;
      TreeNode(n.id, n.name, true, seq(|sorted|, i requires 0 <= i < |sorted| =>
        assert sorted[i] in multiset(n.children); SortTree(sorted[i])))
  }

  function MapSortTree(s: seq<TreeNode>): (r: seq<TreeNode>)
    ensures |r| == |s|
  {
    seq(|s|, i requires 0 <= i < |s| => SortTree(s[i]))
  }

  /** Nodes in label order: no node's label is greater than a later one's. */
  predicate LabelsSorted(s: seq<TreeNode>) {
    forall i, j :: 0 <= i < j < |s| ==> !LabelGreater(s[i], s[j])
  }

  predicate AllLabelled(s: seq<TreeNode>) {
    forall i :: 0 <= i < |s| ==> s[i].name.Some?
  }

  /** A tree none of whose nodes has a label, like the category tree. */
  predicate Unlabelled(n: TreeNode)
    decreases n
  {
    n.name.None? && forall i :: 0 <= i < |n.children| ==> Unlabelled(n.children[i])
  }

  lemma {:induction false} StrLessIrreflexive(a: string)
    ensures !StrLess(a, a)
    decreases |a|
  {
    if |a| > 0 { StrLessIrreflexive(a[1..]); }
  }

  lemma {:induction false} StrLessAsymmetric(a: string, b: string)
    requires StrLess(a, b)
    ensures !StrLess(b, a)
    decreases |a|
  {
    if |a| > 0 && |b| > 0 && a[0] == b[0] { StrLessAsymmetric(a[1..], b[1..]); }
  }

  /** If `c < a` then `b` lies below `a` or above `c`: the order is total. */
  lemma {:induction false} StrLessSplit(a: string, b: string, c: string)
    requires StrLess(c, a)
    ensures StrLess(c, b) || StrLess(b, a)
    decreases |a|
  {
    if |a| > 0 && |b| > 0 && |c| > 0 && a[0] == b[0] && b[0] == c[0] {
      StrLessSplit(a[1..], b[1..], c[1..]);
    }
  }

  lemma {:induction false} InsertKeepsSorted(s: seq<TreeNode>, x: TreeNode)
    requires LabelsSorted(s) && AllLabelled(s) && x.name.Some?
    ensures LabelsSorted(InsertByLabel(s, x)) && AllLabelled(InsertByLabel(s, x))
    decreases |s|
  {
    if |s| > 0 {
      var last := s[|s| - 1];
      var init := s[..|s| - 1];
      assert s == init + [last];
      if LabelGreater(last, x) {
        assert LabelsSorted(init) && AllLabelled(init) by {
          assert forall i :: 0 <= i < |init| ==> init[i] == s[i];
        }
        InsertKeepsSorted(init, x);
        assert InsertByLabel(s, x) == InsertByLabel(init, x) + [last];
        InsertMovesLeft(init, last, x);
      } else {
        InsertAtEnd(s, x);
      }
    }
  }

  /** `x` moved left past `last`: the sorted insert into the rest, then
      `last`. */
  lemma InsertMovesLeft(init: seq<TreeNode>, last: TreeNode, x: TreeNode)
    requires LabelsSorted(init + [last]) && AllLabelled(init + [last]) && x.name.Some? && LabelGreater(last, x)
    requires LabelsSorted(InsertByLabel(init, x)) && AllLabelled(InsertByLabel(init, x))
    ensures LabelsSorted(InsertByLabel(init, x) + [last]) && AllLabelled(InsertByLabel(init, x) + [last])
  {
    var s := init + [last];
    var r0 := InsertByLabel(init, x);
    var r := r0 + [last];
    forall e | e in multiset(r0) ensures !LabelGreater(e, last) && e.name.Some? {
      assert e in multiset(init) || e == x;
      if e == x {
        StrLessAsymmetric(x.name.value, last.name.value);
      } else {
        var k :| 0 <= k < |init| && init[k] == e;
        assert s[k] == e && s[|s| - 1] == last;
      }
    }
    forall i, j | 0 <= i < j < |r| ensures !LabelGreater(r[i], r[j]) {
      if j == |r| - 1 {
        assert r[i] == r0[i] && r0[i] in multiset(r0);
      } else {
        assert r[i] == r0[i] && r[j] == r0[j];
      }
    }
    forall i | 0 <= i < |r| ensures r[i].name.Some? {
      if i < |r0| { assert r[i] == r0[i] && r0[i] in multiset(r0); }
    }
  }

  /** `x` stays behind a last node whose label is not greater. */
  lemma InsertAtEnd(s: seq<TreeNode>, x: TreeNode)
    requires LabelsSorted(s) && AllLabelled(s) && x.name.Some?
    requires |s| > 0 && !LabelGreater(s[|s| - 1], x)
    ensures LabelsSorted(s + [x]) && AllLabelled(s + [x])
  {
    var last := s[|s| - 1];
    forall i | 0 <= i < |s| ensures !LabelGreater(s[i], x) {
      if i < |s| - 1 {
        assert !LabelGreater(s[i], last);
        if StrLess(x.name.value, s[i].name.value) {
          StrLessSplit(s[i].name.value, last.name.value, x.name.value);
        }
      }
    }
    var r := s + [x];
    forall i, j | 0 <= i < j < |r| ensures !LabelGreater(r[i], r[j]) {
      if j < |s| {
        assert r[i] == s[i] && r[j] == s[j];
      }
    }
  }

  lemma {:induction false} SortByLabelSorted(s: seq<TreeNode>)
    requires AllLabelled(s)
    ensures LabelsSorted(SortByLabel(s)) && AllLabelled(SortByLabel(s))
    decreases |s|
  {
    if |s| > 0 {
      SortByLabelSorted(s[..|s| - 1]);
      InsertKeepsSorted(SortByLabel(s[..|s| - 1]), s[|s| - 1]);
    }
  }

  lemma {:induction false} SortByLabelUnlabelled(s: seq<TreeNode>)
    requires forall i :: 0 <= i < |s| ==> s[i].name.None?
    ensures SortByLabel(s) == s
    decreases |s|
  {
    if |s| > 0 {
      var init := s[..|s| - 1];
      var x := s[|s| - 1];
      assert s == init + [x];
      SortByLabelUnlabelled(init);
      InsertUnlabelled(init, x);
      SortByLabelSnoc(init, x);
    }
  }

  lemma SortByLabelSnoc(s: seq<TreeNode>, x: TreeNode)
    ensures SortByLabel(s + [x]) == InsertByLabel(SortByLabel(s), x)
  {
    assert (s + [x])[..|s|] == s;
  }

  /** A node without a label is never moved left past another. */
  lemma InsertUnlabelled(s: seq<TreeNode>, x: TreeNode)
    requires x.name.None?
    ensures InsertByLabel(s, x) == s + [x]
  {
    if |s| == 0 {
      assert [] + [x] == [x];
    }
  }

  lemma MapSortTreeAppend(a: seq<TreeNode>, b: seq<TreeNode>)
    ensures MapSortTree(a + b) == MapSortTree(a) + MapSortTree(b)
  {
  }

  /** Mapping `SortTree` over two permutations of a list gives permutations. */
  lemma {:induction false} MapSortTreePermutes(a: seq<TreeNode>, b: seq<TreeNode>)
    requires multiset(a) == multiset(b)
    ensures multiset(MapSortTree(a)) == multiset(MapSortTree(b))
    decreases |a|
  {
    if |a| == 0 {
      assert |b| == |multiset(b)| == 0;
    } else {
      var x := a[|a| - 1];
      var a0 := a[..|a| - 1] + a[|a|..];
      assert x in multiset(b);
      var k :| 0 <= k < |b| && b[k] == x;
      var b0 := b[..k] + b[k + 1..];
      RemoveOne(a, |a| - 1);
      RemoveOne(b, k);
      assert multiset(a0) == multiset(b0);
      MapSortTreePermutes(a0, b0);
    }
  }

  /** Taking the k-th node out of a list takes its sorted tree out of the
      mapped list. */
  lemma RemoveOne(s: seq<TreeNode>, k: int)
    requires 0 <= k < |s|
    ensures multiset(s[..k] + s[k + 1..]) == multiset(s) - multiset{s[k]}
    ensures multiset(MapSortTree(s)) == multiset(MapSortTree(s[..k] + s[k + 1..])) + multiset{SortTree(s[k])}
  {
    var x := s[k];
    assert s == s[..k] + [x] + s[k + 1..];
    assert multiset(s) == multiset(s[..k]) + multiset{x} + multiset(s[k + 1..]);
    MapSortTreeAppend(s[..k] + [x], s[k + 1..]);
    MapSortTreeAppend(s[..k], [x]);
    MapSortTreeAppend(s[..k], s[k + 1..]);
    assert MapSortTree([x]) == [SortTree(x)];
  }

  /** With two or more children, `sortTree` permutes the children (each one
      sorted recursively), and when every child is labelled the result is in
      label order. */
  lemma SortTreeSortsChildren(n: TreeNode)
    requires n.hasChildren && |n.children| >= 2
    ensures multiset(SortTree(n).children) == multiset(MapSortTree(n.children))
    ensures AllLabelled(n.children) ==> LabelsSorted(SortTree(n).children)
  {
    var cs := n.children;
    var sorted := SortByLabel(cs);
    var rs := SortTree(n).children;
    assert rs == MapSortTree(sorted);
    MapSortTreePermutes(sorted, cs);
    if AllLabelled(cs) {
      SortByLabelSorted(cs);
      forall i, j | 0 <= i < j < |rs| ensures !LabelGreater(rs[i], rs[j]) {
        assert rs[i].name == sorted[i].name && rs[j].name == sorted[j].name;
      }
    }
  }

  /** On a tree without labels, such as the category tree, `sortTree`
      changes nothing: every comparison with `undefined` is false. */
  lemma {:induction false} SortTreeUnlabelled(n: TreeNode)
    requires Unlabelled(n)
    ensures SortTree(n) == n
    decreases n
  {
    var cs := n.children;
    if n.hasChildren && |cs| > 1 {
      SortByLabelUnlabelled(cs);
      forall i | 0 <= i < |cs| ensures SortTree(cs[i]) == cs[i] {
        SortTreeUnlabelled(cs[i]);
      }
      assert MapSortTree(cs) == cs;
    }
  }

  // ------------------------------------------------------ authorToString

  /** `undefined` inside a template literal. */
  function Rendered(v: Option<string>): string {
    match v
    case None => "undefined"
    case Some(s) => s
  }

  /** The name shown for one author: the literal when it is non-empty,
      otherwise "given family". */
  function AuthorName(a: Author): string {
    if a.literal.Some? && a.literal.value != "" then a.literal.value
    else Rendered(a.given) + " " + Rendered(a.family)
  }

  /** The names of the non-null authors, in order. */
  function AuthorNames(authors: seq<Option<Author>>): (r: seq<string>)
    ensures |r| <= |authors|
    decreases |authors|
  {
    if |authors| == 0 then []
    else
      var last := authors[|authors| - 1];
      AuthorNames(authors[..|authors| - 1]) + (if last.Some? then [AuthorName(last.value)] else [])
  }

  /** `authorToString`: "" for a missing or empty list, otherwise the names
      of the non-null authors joined by ", ". */
  method AuthorToString(authors: Option<seq<Option<Author>>>) returns (r: string)
    ensures authors.None? ==> r == ""
    ensures authors.Some? ==> r == Join(AuthorNames(authors.value), ", ")
  {
    if authors.None? || |authors.value| == 0 {
      return "";
    }
    var list := authors.value;
    var names: seq<string> := [];
    var i := 0;
    while i < |list|
      invariant 0 <= i <= |list|
      invariant names == AuthorNames(list[..i])
    {
      assert list[..i + 1][..i] == list[..i];
      if list[i].Some? {
        names := names + [AuthorName(list[i].value)];
      }
      i := i + 1;
    }
    assert list[..i] == list;
    r := Join(names, ", ");
  }

  lemma AuthorToStringExample()
    ensures Join(AuthorNames([Some(Author(Some("Feng"), Some("Hunt"), None)),
                              Some(Author(None, None, Some("Another name")))]), ", ")
            == "Hunt Feng, Another name"
  {
    var x := Author(Some("Feng"), Some("Hunt"), None);
    var y := Author(None, None, Some("Another name"));
    TwoAuthorNames(x, y);
    assert AuthorName(x) == "Hunt Feng";
    assert AuthorName(y) == "Another name";
    assert Join(["Hunt Feng", "Another name"], ", ") == "Hunt Feng" + ", " + "Another name";
  }

  /** Two present authors give their two names. */
  lemma TwoAuthorNames(x: Author, y: Author)
    ensures AuthorNames([Some(x), Some(y)]) == [AuthorName(x), AuthorName(y)]
  {
    var a := [Some(x), Some(y)];
    assert a[..1][..0] == [];
    assert a[..1] == [Some(x)];
  }

  // ------------------------------------------------------------ getTitle

  /** The original title is shown only when translated titles are off and
      the original title is a non-empty text (not an array). */
  function GetTitle(p: Project, showTranslatedTitle: bool): (r: string)
    ensures !showTranslatedTitle && p.originalTitle.TitleText? && p.originalTitle.text != "" ==> r == p.originalTitle.text
    ensures showTranslatedTitle || !p.originalTitle.TitleText? || p.originalTitle.text == "" ==> r == p.title
  {
    if !showTranslatedTitle && p.originalTitle.TitleText? && p.originalTitle.text != "" then p.originalTitle.text
    else p.title
  }

  // ----------------------------------------------- paths, ids and links

  /** `pathToId`: the storage path and its separator are removed from the
      front; the second `replace` swaps the first separator for "/", which
      with "/" as separator changes nothing. */
  function PathToId(storagePath: string, path: string): string {
    ReplaceFirst(ReplaceFirst(path, storagePath + "/", ""), "/", "/")
  }

  /** `idToPath`: the id under the storage path. */
  function IdToPath(storagePath: string, id: string): string {
    storagePath + "/" + ReplaceFirst(id, "/", "/")
  }

  lemma IdToPathIsPrefixed(storagePath: string, id: string)
    ensures IdToPath(storagePath, id) == storagePath + "/" + id
  {
    ReplaceFirstSelf(id, "/");
  }

  /** An id survives the trip to an absolute path and back. */
  lemma PathToIdOfIdToPath(storagePath: string, id: string)
    ensures PathToId(storagePath, IdToPath(storagePath, id)) == id
  {
    IdToPathIsPrefixed(storagePath, id);
    var path := storagePath + "/" + id;
    var pre := storagePath + "/";
    assert path[..|pre|] == pre;
    assert path[|pre|..] == id;
    assert StartsWith(path, pre);
    assert ReplaceFirst(path, pre, "") == "" + id == id;
    ReplaceFirstSelf(id, "/");
  }

  lemma IdToPathExample()
    ensures IdToPath("test-path", "test/id") == "test-path/test/id"
  {
    IdToPathIsPrefixed("test-path", "test/id");
  }

  const OPEN_ITEM: string := "sophosia://open-item/"

  /** `linkToId`: drops the first deep-link prefix, then decodes every "%20". */
  function LinkToId(link: string): string {
    ReplaceAll(ReplaceFirst(link, OPEN_ITEM, ""), "%20", " ")
  }

  /** `idToLink`: encodes every space as "%20". */
  function IdToLink(id: string): string {
    ReplaceAll(id, " ", "%20")
  }

  lemma IdToLinkUnfold(s: string)
    requires |s| > 0
    ensures IdToLink(s) == (if s[0] == ' ' then "%20" else [s[0]]) + IdToLink(s[1..])
  {
  }

  lemma {:induction false} IdToLinkStartsWith(s: string, t: string)
    requires '%' !in t
    requires StartsWith(IdToLink(s), t)
    ensures StartsWith(s, t)
    decreases |s|
  {
    if |t| > 0 && |s| > 0 {
      var e := IdToLink(s[1..]);
      IdToLinkUnfold(s);
      assert IdToLink(s)[0] == t[0] && t[0] in t;
      if s[0] == ' ' {
        assert false;
      } else {
        assert IdToLink(s) == [s[0]] + e;
        assert (([s[0]] + e)[..|t|])[1..] == e[..|t| - 1];
        assert StartsWith(e, t[1..]);
        IdToLinkStartsWith(s[1..], t[1..]);
        assert s[..|t|] == [s[0]] + s[1..][..|t| - 1];
      }
    }
  }

  lemma {:induction false} IdToLinkContains(s: string, t: string)
    requires '%' !in t && (|t| > 0 ==> t[0] != '2' && t[0] != '0')
    requires Contains(IdToLink(s), t)
    ensures Contains(s, t)
    decreases |s|
  {
    if |t| > 0 {
      var x := IdToLink(s);
      if |s| == 0 {
        assert false;
      } else {
        var e := IdToLink(s[1..]);
        if s[0] == ' ' {
          assert x == "%20" + e;
          assert !StartsWith(x, t);
          assert x[1..] == "20" + e && !StartsWith(x[1..], t);
          assert x[1..][1..] == "0" + e && !StartsWith(x[1..][1..], t);
          assert x[1..][1..][1..] == e;
          assert Contains(x[1..], t);
          assert Contains(x[1..][1..], t);
          assert Contains(e, t);
          IdToLinkContains(s[1..], t);
        } else {
          assert x == [s[0]] + e;
          if StartsWith(x, t) {
            IdToLinkStartsWith(s, t);
          } else {
            assert x[1..] == e;
            IdToLinkContains(s[1..], t);
          }
        }
      }
    }
  }

  lemma {:induction false} DecodeEncode(s: string)
    requires !Contains(s, "%20")
    ensures ReplaceAll(IdToLink(s), "%20", " ") == s
    decreases |s|
  {
    if |s| > 0 {
      var e := IdToLink(s[1..]);
      DecodeEncode(s[1..]);
      if s[0] == ' ' {
        assert IdToLink(s) == "%20" + e;
        assert ("%20" + e)[3..] == e;
        assert s == [' '] + s[1..];
      } else {
        assert IdToLink(s) == [s[0]] + e;
        if StartsWith([s[0]] + e, "%20") {
          assert StartsWith(e, "20");
          IdToLinkStartsWith(s[1..], "20");
          assert false;
        }
        assert ([s[0]] + e)[1..] == e;
        assert s == [s[0]] + s[1..];
      }
    }
  }

  /** An id without "%20" and without the deep-link prefix survives the trip
      to a link and back. */
  lemma LinkToIdOfIdToLink(id: string)
    requires !Contains(id, "%20") && !Contains(id, OPEN_ITEM)
    ensures LinkToId(IdToLink(id)) == id
  {
    if Contains(IdToLink(id), OPEN_ITEM) {
      IdToLinkContains(id, OPEN_ITEM);
    }
    ReplaceFirstAbsent(IdToLink(id), OPEN_ITEM, "");
    DecodeEncode(id);
  }

  lemma DecodeTailExample()
    ensures ReplaceAll("%20link", "%20", " ") == " link"
  {
    ReplaceAllSkips("link", "", "%20", " ");
    assert "link" + "" == "link";
    assert StartsWith("%20link", "%20");
    assert "%20link"[3..] == "link";
  }

  lemma LinkToIdExample()
    ensures LinkToId("sophosia://open-item/test%20link") == "test link"
  {
    OpenItemStripped();
    DecodeExample();
  }

  lemma OpenItemStripped()
    ensures ReplaceFirst("sophosia://open-item/test%20link", OPEN_ITEM, "") == "test%20link"
  {
    assert StartsWith("sophosia://open-item/test%20link", OPEN_ITEM);
    assert "sophosia://open-item/test%20link"[|OPEN_ITEM|..] == "test%20link";
  }

  lemma DecodeExample()
    ensures ReplaceAll("test%20link", "%20", " ") == "test link"
  {
    DecodeTailExample();
    ReplaceAllSkips("test", "%20link", "%20", " ");
    assert "test" + "%20link" == "test%20link";
    assert "test" + " link" == "test link";
  }

  lemma EncodeTailExample()
    ensures ReplaceAll(" link", " ", "%20") == "%20link"
  {
    ReplaceAllSkips("link", "", " ", "%20");
    assert "link" + "" == "link";
    assert StartsWith(" link", " ");
    assert " link"[1..] == "link";
  }

  lemma IdToLinkExample()
    ensures IdToLink("projectId/test link") == "projectId/test%20link"
  {
    EncodeTailExample();
    ReplaceAllSkips("projectId/test", " link", " ", "%20");
    LinkPieces();
  }

  lemma LinkPieces()
    ensures "projectId/test" + " link" == "projectId/test link"
    ensures "projectId/test" + "%20link" == "projectId/test%20link"
  {
  }

  // ---------------------------------------------------------- oldToNewId

  /** `oldToNewId`: the last segment of the id becomes `newLabel`, which
      inherits the old extension when it has none of its own. */
  function OldToNewId(oldId: string, newLabel: string): string {
    var ext := match Extname(oldId) case None => "" case Some(e) => e;
    var newName := if Extname(newLabel).None? && ext != "" then newLabel + "." + ext else newLabel;
    var splits := Split(oldId, '/');
    Join(splits[..|splits| - 1] + [newName], "/")
  }

  /** Only the last segment changes, into the new label, with the old
      extension appended exactly when the label has none and the old id has
      one. */
  lemma OldToNewIdSegments(oldId: string, newLabel: string)
    requires '/' !in newLabel
    ensures var before := Split(oldId, '/');
            var after := Split(OldToNewId(oldId, newLabel), '/');
            |after| == |before| && after[..|before| - 1] == before[..|before| - 1]
    ensures LastPart(OldToNewId(oldId, newLabel), '/') ==
              if Extname(newLabel).None? && Extname(oldId).Some? && Extname(oldId).value != ""
              then newLabel + "." + Extname(oldId).value
              else newLabel
  {
    var splits := Split(oldId, '/');
    var ext := match Extname(oldId) case None => "" case Some(e) => e;
    var newName := if Extname(newLabel).None? && ext != "" then newLabel + "." + ext else newLabel;
    assert '/' !in newName;
    SplitPartsLackSeparator(oldId, '/');
    var parts := splits[..|splits| - 1] + [newName];
    assert forall i :: 0 <= i < |parts| ==> '/' !in parts[i];
    SplitJoin(parts, '/');
  }
}
