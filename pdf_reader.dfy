/**
 * The search, outline and saved-view logic of the PDF reader. The PDF
 * library's find controller is reduced to what the reader reads from
 * it: the selected match (page index, match index) and the number of
 * matches on each page. The outline is the library's outline tree.
 */
module PdfReader {
  import opened Wrappers
  import opened Models

  /** The selected search match of the find controller. */
  datatype Selected = Selected(pageIdx: int, matchIdx: int)

  /** The match counter the reader shows. */
  datatype MatchesCount = MatchesCount(current: int, total: int)

  // ------------------------------------------------------ changing match

  /** JavaScript's `%`: the remainder takes the sign of the dividend. */
  function JsRem(a: int, b: int): (r: int)
    requires b > 0
    ensures -b < r < b
    ensures a >= 0 ==> r == a % b
    ensures a < 0 ==> r == -((-a) % b)
  {
    if a >= 0 then a % b else -((-a) % b)
  }

  /** The page index `changeMatch` moves to from `p`: `p + delta` taken
      modulo the page count, a negative remainder made positive. */
  function NextPage(p: int, delta: int, n: int): (r: int)
    requires n > 0
    ensures 0 <= r < n
  {
    var m := JsRem(p + delta, n);
    if m >= 0 then m else n - (-m)
  }

  /** Stepping from a page wraps around at either end. */
  lemma NextPageWraps(p: int, delta: int, n: int)
    requires n > 0 && 0 <= p < n && (delta == 1 || delta == -1)
    ensures delta == 1 ==> NextPage(p, delta, n) == (if p == n - 1 then 0 else p + 1)
    ensures delta == -1 ==> NextPage(p, delta, n) == (if p == 0 then n - 1 else p - 1)
  {
    if p + delta == n {
      ModSelf(n);
    } else if p + delta == -1 {
      if n == 1 {
        ModSelf(n);
      } else {
        ModBelow(1, n);
      }
    } else {
      ModBelow(p + delta, n);
    }
  }

  lemma ModBelow(a: int, n: int)
    requires 0 <= a < n
    ensures a % n == a
  {
  }

  lemma ModSelf(n: int)
    requires n > 0
    ensures n % n == 0
  {
  }

  /** The page reached after k steps; every step lands on a page, even from
      an index outside the document. */
  function StepsFrom(p: int, delta: int, n: int, k: nat): (r: int)
    requires n > 0
    ensures 0 <= p < n || k > 0 ==> 0 <= r < n
  {
    if k == 0 then p else NextPage(StepsFrom(p, delta, n, k - 1), delta, n)
  }

  /** How many steps from p until page w, going in the direction of delta. */
  function Distance(p: int, w: int, delta: int, n: int): (d: nat)
    requires 0 <= p < n && 0 <= w < n
  {
    if delta == 1 then (if w >= p then w - p else w - p + n)
    else (if p >= w then p - w else p - w + n)
  }

  /** Each step towards a page other than the current one brings it one
      step closer. */
  lemma DistanceShrinks(p: int, w: int, delta: int, n: int)
    requires n > 0 && 0 <= p < n && 0 <= w < n && p != w && (delta == 1 || delta == -1)
    ensures Distance(NextPage(p, delta, n), w, delta, n) == Distance(p, w, delta, n) - 1
  {
    NextPageWraps(p, delta, n);
  }

  /** A valid index into a page's matches. */
  predicate InPage(matches: seq<nat>, pageIdx: int, matchIdx: int) {
    0 <= pageIdx < |matches| && 0 <= matchIdx < matches[pageIdx]
  }

  /** `changeMatch(delta)` on the selected match. The page count must be the
      number of pages, delta ±1, and some page must have a match (otherwise
      the loop in the source never ends). A selected page outside the
      document has no match list: reading its length throws (`None`), unless
      the step goes below match 0, when the loop test stops before reading it
      and the first step lands on a page. */
  method ChangeMatch(sel: Selected, matches: seq<nat>, pagesCount: int, delta: int)
    returns (r: Option<Selected>, pageNumber: int)
    requires pagesCount == |matches| > 0
    requires delta == 1 || delta == -1
    requires exists w :: 0 <= w < |matches| && matches[w] > 0
    ensures r.None? <==> !(0 <= sel.pageIdx < pagesCount) && sel.matchIdx + delta >= 0
    ensures r.Some? ==> InPage(matches, r.value.pageIdx, r.value.matchIdx) && pageNumber == r.value.pageIdx + 1
    ensures InPage(matches, sel.pageIdx, sel.matchIdx + delta) ==> r == Some(Selected(sel.pageIdx, sel.matchIdx + delta))
    ensures r.Some? && !InPage(matches, sel.pageIdx, sel.matchIdx + delta) ==> (
      (r.value.matchIdx == if delta == 1 then 0 else matches[r.value.pageIdx] - 1)
      && exists k: nat :: (
        k >= 1 && r.value.pageIdx == StepsFrom(sel.pageIdx, delta, pagesCount, k)
        && forall j: nat :: 1 <= j < k ==> matches[StepsFrom(sel.pageIdx, delta, pagesCount, j)] == 0))
  {
    var n := pagesCount;
    var pageIdx := sel.pageIdx;
    var newMatchIdx: int := sel.matchIdx + delta;
    ghost var steps: nat := 0;
    var matchIdxList: int;
    if 0 <= pageIdx < n {
      matchIdxList := matches[pageIdx];
    } else {
      // `matches[pageIdx]` is undefined: the loop test reads its length
      // unless `newMatchIdx < 0` decides it first
      if newMatchIdx >= 0 {
        return None, 0;
      }
      var before := pageIdx;
      pageIdx := pageIdx + delta;
      var m := JsRem(pageIdx, n);
      pageIdx := if m >= 0 then m else n - (-m);
      assert pageIdx == NextPage(before, delta, n);
      matchIdxList := matches[pageIdx];
      newMatchIdx := if delta > 0 then 0 else matchIdxList - 1;
      steps := 1;
    }
    ghost var w :| 0 <= w < |matches| && matches[w] > 0;
    while newMatchIdx < 0 || newMatchIdx > matchIdxList - 1
      invariant 0 <= pageIdx < n && matchIdxList == matches[pageIdx]
      invariant pageIdx == StepsFrom(sel.pageIdx, delta, n, steps)
      invariant steps == 0 ==> newMatchIdx == sel.matchIdx + delta && 0 <= sel.pageIdx < n
      invariant steps > 0 ==> !InPage(matches, sel.pageIdx, sel.matchIdx + delta)
      invariant steps > 0 ==> newMatchIdx == (if delta > 0 then 0 else matchIdxList - 1)
      invariant forall j: nat :: 1 <= j < steps ==> matches[StepsFrom(sel.pageIdx, delta, n, j)] == 0
      decreases (if steps == 0 then 1 else 0), Distance(pageIdx, w, delta, n)
    {
      if steps > 0 {
        assert matchIdxList == 0;
        DistanceShrinks(pageIdx, w, delta, n);
      }
      var before := pageIdx;
      pageIdx := pageIdx + delta;
      var m := JsRem(pageIdx, n);
      pageIdx := if m >= 0 then m else n - (-m);
      assert pageIdx == NextPage(before, delta, n);
      matchIdxList := matches[pageIdx];
      newMatchIdx := if delta > 0 then 0 else matchIdxList - 1;
      steps := steps + 1;
    }
    if newMatchIdx < 0 {
      newMatchIdx := 0;
    }
    if newMatchIdx > matchIdxList {
      newMatchIdx := matchIdxList - 1;
    }
    r := Some(Selected(pageIdx, newMatchIdx));
    pageNumber := pageIdx + 1;
  }

  // ------------------------------------------------------- match counter

  /** The number of matches on the pages before `k`. */
  function MatchesBefore(matches: seq<nat>, k: nat): (r: nat)
    requires k <= |matches|
  {
    if k == 0 then 0 else MatchesBefore(matches, k - 1) + matches[k - 1]
  }

  /** Every match of a page comes after all matches of the pages before it. */
  lemma {:induction false} MatchesBeforeGrows(matches: seq<nat>, i: nat, k: nat)
    requires i <= k <= |matches|
    ensures MatchesBefore(matches, i) <= MatchesBefore(matches, k)
    ensures i < k ==> MatchesBefore(matches, i) + matches[i] <= MatchesBefore(matches, k)
    decreases k - i
  {
    if i < k {
      MatchesBeforeGrows(matches, i, k - 1);
      if i < k - 1 {
        MatchesBeforeGrows(matches, i + 1, k);
      }
    }
  }

  /** The counter after the find controller reports updated matches: no
      selection resets it; otherwise `current` is the position of the
      selected match among all matches, counted from 1. */
  method UpdateMatchesCount(count: MatchesCount, sel: Selected, matches: seq<nat>) returns (r: MatchesCount)
    requires sel.pageIdx <= |matches|
    ensures sel == Selected(-1, -1) ==> r == MatchesCount(-1, 0)
    ensures sel != Selected(-1, -1) ==> (
      r.total == count.total
      && r.current == sel.matchIdx + 1 + (if sel.pageIdx < 0 then 0 else MatchesBefore(matches, sel.pageIdx)))
  {
    if sel.matchIdx == -1 && sel.pageIdx == -1 {
      return MatchesCount(-1, 0);
    }
    var current := sel.matchIdx + 1;
    var i := 0;
    while i < sel.pageIdx
      invariant 0 <= i && (sel.pageIdx >= 0 ==> i <= sel.pageIdx) && (sel.pageIdx < 0 ==> i == 0)
      invariant current == sel.matchIdx + 1 + MatchesBefore(matches, i)
    {
      current := current + matches[i];
      i := i + 1;
    }
    r := count.(current := current);
  }

  /** A valid selection's counter lies between 1 and the total number of
      matches, and distinct valid selections get distinct counters. */
  lemma CounterPosition(matches: seq<nat>, a: Selected, b: Selected)
    requires InPage(matches, a.pageIdx, a.matchIdx) && InPage(matches, b.pageIdx, b.matchIdx)
    ensures 1 <= a.matchIdx + 1 + MatchesBefore(matches, a.pageIdx) <= MatchesBefore(matches, |matches|)
    ensures a != b ==> a.matchIdx + MatchesBefore(matches, a.pageIdx) != b.matchIdx + MatchesBefore(matches, b.pageIdx)
  {
    MatchesBeforeGrows(matches, a.pageIdx, |matches|);
    if a.pageIdx < b.pageIdx {
      MatchesBeforeGrows(matches, a.pageIdx, b.pageIdx);
    } else if b.pageIdx < a.pageIdx {
      MatchesBeforeGrows(matches, b.pageIdx, a.pageIdx);
    }
  }

  // ------------------------------------------------------------- outline

  /** An outline entry's destination: a named one, an explicit one (an
      array whose first element refers to a page), or none. */
  datatype Dest = NamedDest(name: string) | ExplicitDest(refs: seq<string>) | NoDest

  /** An entry of the document's outline. */
  datatype OutlineNode = OutlineNode(title: string, dest: Dest, items: seq<OutlineNode>)

  /** An entry of the reader's table of contents. */
  datatype TocNode = TocNode(label_: string, children: seq<TocNode>, dest: Option<string>, ref: Option<string>)

  /** The reader's entry for one outline entry. */
  function ToToc(o: OutlineNode): (r: TocNode)
    decreases o, 1
  {
    TocNode(o.title, ToTocAll(o.items),
            if o.dest.NamedDest? then Some(o.dest.name) else None,
            if o.dest.ExplicitDest? && |o.dest.refs| > 0 then Some(o.dest.refs[0]) else None)
  }

  function ToTocAll(os: seq<OutlineNode>): (r: seq<TocNode>)
    ensures |r| == |os|
    decreases os, 0
  {
    if |os| == 0 then [] else [ToToc(os[0])] + ToTocAll(os[1..])
  }

  /** `_dfs(oldNodes)`: the loop over an outline level. */
  method Dfs(oldNodes: seq<OutlineNode>) returns (tree: seq<TocNode>)
    ensures tree == ToTocAll(oldNodes)
    decreases oldNodes
  {
    tree := [];
    for k := 0 to |oldNodes|
      invariant tree == ToTocAll(oldNodes[..k])
    {
      var o := oldNodes[k];
      assert o in oldNodes;
      var children := Dfs(o.items);
      var node := TocNode(o.title, children, None, None);
      if o.dest.NamedDest? {
        node := node.(dest := Some(o.dest.name));
      } else {
        var dest := o.dest;
        if dest.ExplicitDest? && |dest.refs| > 0 {
          node := node.(ref := Some(dest.refs[0]));
        }
      }
      ToTocAllSnoc(oldNodes[..k], o);
      assert oldNodes[..k + 1] == oldNodes[..k] + [o];
      tree := tree + [node];
    }
    assert oldNodes[..|oldNodes|] == oldNodes;
  }

  /** The entries of a level with one more outline entry. */
  lemma {:induction false} ToTocAllSnoc(os: seq<OutlineNode>, o: OutlineNode)
    ensures ToTocAll(os + [o]) == ToTocAll(os) + [ToToc(o)]
    decreases |os|
  {
    if |os| > 0 {
      assert (os + [o])[1..] == os[1..] + [o];
      ToTocAllSnoc(os[1..], o);
    }
  }

  /** The number of entries of an outline, all levels counted. */
  function Count(os: seq<OutlineNode>): nat
    decreases os
  {
    if |os| == 0 then 0 else 1 + Count(os[0].items) + Count(os[1..])
  }

  function TocCount(ts: seq<TocNode>): nat
    decreases ts
  {
    if |ts| == 0 then 0 else 1 + TocCount(ts[0].children) + TocCount(ts[1..])
  }

  /** The table of contents has one entry per outline entry, on every level. */
  lemma {:induction false} TocKeepsEntries(os: seq<OutlineNode>)
    ensures TocCount(ToTocAll(os)) == Count(os)
    decreases os
  {
    if |os| > 0 {
      TocKeepsEntries(os[0].items);
      TocKeepsEntries(os[1..]);
      var t := ToTocAll(os);
      assert t[0] == ToToc(os[0]) && t[1..] == ToTocAll(os[1..]);
    }
  }

  /** Each entry keeps its outline entry's title and destination. */
  lemma TocEntry(os: seq<OutlineNode>, i: nat)
    requires i < |os|
    ensures var t := ToTocAll(os)[i];
      t.label_ == os[i].title && t.children == ToTocAll(os[i].items)
      && (os[i].dest.NamedDest? ==> t.dest == Some(os[i].dest.name) && t.ref.None?)
      && (os[i].dest.ExplicitDest? && |os[i].dest.refs| > 0 ==> t.ref == Some(os[i].dest.refs[0]) && t.dest.None?)
      && (os[i].dest.NoDest? ==> t.dest.None? && t.ref.None?)
    decreases i
  {
    if i > 0 {
      TocEntry(os[1..], i - 1);
    }
  }

  // ---------------------------------------------------------- saved view

  /** A saved view as read from the database: any field may be missing. */
  datatype StoredPdfState = StoredPdfState(
    id: Option<string>, projectId: Option<string>, pagesCount: Option<int>,
    currentPageNumber: Option<int>, currentScale: Option<real>, currentScaleValue: Option<string>,
    spreadMode: Option<int>, darkMode: Option<bool>, tool: Option<AnnotationType>,
    color: Option<string>, inkThickness: Option<int>, inkOpacity: Option<int>,
    scrollLeft: Option<int>, scrollTop: Option<int>)

  /** The id of a project's saved view: "SS" followed by the project id
      without its two-letter prefix. */
  function PdfStateId(projectId: string): (r: string)
    ensures |projectId| >= 2 ==> r == "SS" + projectId[2..]
    ensures |projectId| < 2 ==> r == "SS"
  {
    "SS" + (if |projectId| >= 2 then projectId[2..] else "")
  }

  /** The view a project starts with. */
  function DefaultState(projectId: string): PdfState {
    PdfState("", projectId, 0, 1, 1.0, "1", 0, false, Cursor, "#FFFF00", 5, 100, 0, 0)
  }

  function Or<T>(v: Option<T>, default: T): T {
    if v.Some? then v.value else default
  }

  /** `Object.assign(defaults, stored)`: every stored field wins. */
  function WithStored(d: PdfState, s: StoredPdfState): (r: PdfState)
  {
    PdfState(Or(s.id, d.id), Or(s.projectId, d.projectId), Or(s.pagesCount, d.pagesCount),
             Or(s.currentPageNumber, d.currentPageNumber), Or(s.currentScale, d.currentScale),
             Or(s.currentScaleValue, d.currentScaleValue), Or(s.spreadMode, d.spreadMode),
             Or(s.darkMode, d.darkMode), Or(s.tool, d.tool), Or(s.color, d.color),
             Or(s.inkThickness, d.inkThickness), Or(s.inkOpacity, d.inkOpacity),
             Or(s.scrollLeft, d.scrollLeft), Or(s.scrollTop, d.scrollTop))
  }

  /** `loadState(projectId)` with the saved view found under its id, if
      any: no saved view is a failed lookup and gives nothing. */
  function LoadState(projectId: string, saved: Option<StoredPdfState>): (r: Option<PdfState>)
    ensures saved.None? <==> r.None?
    ensures saved.Some? ==> r == Some(WithStored(DefaultState(projectId), saved.value))
  {
    if saved.None? then None else Some(WithStored(DefaultState(projectId), saved.value))
  }

  /** A saved view with every field keeps them all; one with none gives the
      defaults for the project. */
  lemma LoadStateFields(projectId: string, v: PdfState)
    ensures var full := StoredPdfState(
      Some(v.id), Some(v.projectId), Some(v.pagesCount), Some(v.currentPageNumber),
      Some(v.currentScale), Some(v.currentScaleValue), Some(v.spreadMode), Some(v.darkMode),
      Some(v.tool), Some(v.color), Some(v.inkThickness), Some(v.inkOpacity),
      Some(v.scrollLeft), Some(v.scrollTop));
      LoadState(projectId, Some(full)) == Some(v)
    ensures var empty := StoredPdfState(None, None, None, None, None, None, None, None, None, None, None, None, None, None);
      LoadState(projectId, Some(empty)) == Some(DefaultState(projectId))
      && DefaultState(projectId).projectId == projectId && DefaultState(projectId).currentPageNumber == 1
  {
  }
}
