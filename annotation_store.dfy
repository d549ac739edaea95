/**
 * The annotation store of one PDF reader: the annotations shown on the
 * document, the selected annotation id, and the timestamp repair applied
 * when annotations are loaded. Saving to and deleting from the database,
 * and the clock, are inputs or left to the annotations themselves.
 */
module AnnotationStore {
  import opened Wrappers
  import opened Seqs
  import opened Models

  /** An annotation on the page: its data and whether it is highlighted as
      the active one. */
  datatype Annotation = Annotation(data: AnnotationData, active: bool)

  /** The ids of a list of annotations, in order. */
  function AnnotIds(annots: seq<Annotation>): (r: seq<string>)
    ensures |r| == |annots| && forall i :: 0 <= i < |annots| ==> r[i] == annots[i].data.id
  {
    seq(|annots|, i requires 0 <= i < |annots| => annots[i].data.id)
  }

  /** `findIndex(annot => annot.data._id === id)`. */
  function IndexOfAnnot(annots: seq<Annotation>, id: string): (r: int)
    ensures -1 <= r < |annots|
    ensures r >= 0 ==> annots[r].data.id == id && forall k :: 0 <= k < r ==> annots[k].data.id != id
    ensures r == -1 <==> id !in AnnotIds(annots)
  {
    if |annots| == 0 then -1
    else if annots[0].data.id == id then 0
    else
      var k := IndexOfAnnot(annots[1..], id);
      assert AnnotIds(annots) == [annots[0].data.id] + AnnotIds(annots[1..]);
      if k < 0 then -1 else k + 1
  }

  /** `getById(id)`: the first annotation with the id. */
  function FindById(annots: seq<Annotation>, id: string): (r: Option<Annotation>)
    ensures r.None? <==> id !in AnnotIds(annots)
    ensures r.Some? ==> r.value == annots[IndexOfAnnot(annots, id)]
  {
    var k := IndexOfAnnot(annots, id);
    if k < 0 then None else Some(annots[k])
  }

  /** `getByPage(n)`: the annotations on page n, in order. */
  function OnPage(annots: seq<Annotation>, pageNumber: int): (r: seq<Annotation>)
    ensures forall a :: a in r <==> a in annots && a.data.pageNumber == pageNumber
    ensures |r| <= |annots|
    decreases |annots|
  {
    if |annots| == 0 then []
    else
      var init := OnPage(annots[..|annots| - 1], pageNumber);
      var last := annots[|annots| - 1];
      assert annots == annots[..|annots| - 1] + [last];
      if last.data.pageNumber == pageNumber then init + [last] else init
  }

  /** The page filter keeps order: the annotations of a concatenation on a
      page are those of each part, in turn. */
  lemma {:induction false} OnPageAppend(a: seq<Annotation>, b: seq<Annotation>, pageNumber: int)
    ensures OnPage(a + b, pageNumber) == OnPage(a, pageNumber) + OnPage(b, pageNumber)
    decreases |b|
  {
    if |b| == 0 {
      assert a + b == a;
    } else {
      var init := b[..|b| - 1];
      var last := b[|b| - 1];
      OnPageAppend(a, init, pageNumber);
      SplitLast(b);
      AppendSplitLast(a, b);
      OnPageSnoc(a + init, last, pageNumber);
      OnPageSnoc(init, last, pageNumber);
      var tail := if last.data.pageNumber == pageNumber then [last] else [];
      AppendAssoc(OnPage(a, pageNumber), OnPage(init, pageNumber), tail);
    }
  }

  /** The page filter of a list with one more annotation. */
  lemma OnPageSnoc(s: seq<Annotation>, x: Annotation, pageNumber: int)
    ensures OnPage(s + [x], pageNumber) == OnPage(s, pageNumber) + (if x.data.pageNumber == pageNumber then [x] else [])
  {
    TakeSnoc(s, x);
  }

  /** `getInk(n)`: the first ink annotation on page n. */
  function InkOnPage(annots: seq<Annotation>, pageNumber: int): (r: Option<Annotation>)
    ensures r.None? <==> forall a :: a in annots ==> !(a.data.pageNumber == pageNumber && a.data.annotType == Ink)
    ensures r.Some? ==> r.value in annots && r.value.data.pageNumber == pageNumber && r.value.data.annotType == Ink
    decreases |annots|
  {
    if |annots| == 0 then None
    else if annots[0].data.pageNumber == pageNumber && annots[0].data.annotType == Ink then Some(annots[0])
    else
      assert forall a :: a in annots[1..] ==> a in annots;
      InkOnPage(annots[1..], pageNumber)
  }

  /** The first ink annotation on a page comes before any other on that page. */
  lemma {:induction false} InkIsFirst(annots: seq<Annotation>, pageNumber: int, i: nat)
    requires i < |annots| && annots[i].data.pageNumber == pageNumber && annots[i].data.annotType == Ink
    requires forall k :: 0 <= k < i ==> !(annots[k].data.pageNumber == pageNumber && annots[k].data.annotType == Ink)
    ensures InkOnPage(annots, pageNumber) == Some(annots[i])
    decreases i
  {
    if i > 0 {
      InkIsFirst(annots[1..], pageNumber, i - 1);
    }
  }

  /** `add(annot)`: appended only when no annotation has its id. */
  function Added(annots: seq<Annotation>, annot: Annotation): (r: seq<Annotation>)
    ensures annot.data.id in AnnotIds(annots) ==> r == annots
    ensures annot.data.id !in AnnotIds(annots) ==> r == annots + [annot]
  {
    if FindById(annots, annot.data.id).None? then annots + [annot] else annots
  }

  /** `delete(id)`: the first annotation with the id goes. */
  function Deleted(annots: seq<Annotation>, id: string): (r: seq<Annotation>)
    ensures id !in AnnotIds(annots) ==> r == annots
    ensures id in AnnotIds(annots) ==> (
      var k := IndexOfAnnot(annots, id);
      r == annots[..k] + annots[k + 1..])
  {
    var k := IndexOfAnnot(annots, id);
    if k > -1 then annots[..k] + annots[k + 1..] else annots
  }

  /** Adding never makes two annotations share an id. */
  lemma AddKeepsIdsDistinct(annots: seq<Annotation>, annot: Annotation)
    requires NoDuplicates(AnnotIds(annots))
    ensures NoDuplicates(AnnotIds(Added(annots, annot)))
    ensures annot.data.id in AnnotIds(Added(annots, annot))
  {
    if annot.data.id !in AnnotIds(annots) {
      assert AnnotIds(annots + [annot]) == AnnotIds(annots) + [annot.data.id];
    }
  }

  /** With distinct ids, deleting removes exactly that annotation: no
      annotation with the id is left, every other one stays, in order. */
  lemma DeleteRemovesOnly(annots: seq<Annotation>, id: string)
    requires NoDuplicates(AnnotIds(annots))
    ensures id !in AnnotIds(Deleted(annots, id))
    ensures forall a :: a in annots && a.data.id != id ==> a in Deleted(annots, id)
    ensures id in AnnotIds(annots) ==> |Deleted(annots, id)| == |annots| - 1
  {
    var r := Deleted(annots, id);
    if id in AnnotIds(annots) {
      var k := IndexOfAnnot(annots, id);
      forall i | 0 <= i < |r| ensures r[i].data.id != id {
        if i >= k {
          assert r[i] == annots[i + 1];
          assert AnnotIds(annots)[i + 1] != AnnotIds(annots)[k];
        } else {
          assert r[i] == annots[i];
        }
      }
      forall a | a in annots && a.data.id != id ensures a in r {
        var j :| 0 <= j < |annots| && annots[j] == a;
        if j < k {
          assert r[j] == a;
        } else {
          assert r[j - 1] == a;
        }
      }
    }
  }

  /** Deleting an annotation just added restores the list. */
  lemma AddThenDelete(annots: seq<Annotation>, annot: Annotation)
    requires annot.data.id !in AnnotIds(annots)
    ensures Deleted(Added(annots, annot), annot.data.id) == annots
  {
    var a := annots + [annot];
    assert AnnotIds(a) == AnnotIds(annots) + [annot.data.id];
    assert IndexOfAnnot(a, annot.data.id) == |annots|;
    assert a[..|annots|] == annots;
  }

  /** The data after loading: a missing (zero) added timestamp gets `now`
      as both timestamps; other annotations are unchanged. */
  function Backfilled(d: AnnotationData, now: int): (r: AnnotationData)
    ensures d.timestampAdded == 0 ==> r == d.(timestampAdded := now, timestampModified := now)
    ensures d.timestampAdded != 0 ==> r == d
  {
    if d.timestampAdded == 0 then d.(timestampAdded := now, timestampModified := now) else d
  }

  class Store {
    var projectId: string
    var annots: seq<Annotation>
    var selectedId: string

    constructor(projectId: string)
      ensures this.projectId == projectId && annots == [] && selectedId == ""
    {
      this.projectId := projectId;
      annots := [];
      selectedId := "";
    }

    /** `selected`: always the annotation with the selected id. */
    function Selected(): (r: Option<Annotation>)
      reads this
      ensures r.Some? ==> r.value in annots && r.value.data.id == selectedId
      ensures r.None? ==> selectedId !in AnnotIds(annots)
    {
      FindById(annots, selectedId)
    }

    method Add(annot: Annotation)
      modifies this`annots
      ensures annots == Added(old(annots), annot)
    {
      var found := GetById(annot.data.id);
      if found.None? {
        annots := annots + [annot];
      }
    }

    method Delete(annotId: string)
      modifies this`annots
      ensures annots == Deleted(old(annots), annotId)
    {
      var ind := IndexOfAnnot(annots, annotId);
      if ind > -1 {
        annots := annots[..ind] + annots[ind + 1..];
      }
    }

    method GetByPage(pageNumber: int) returns (r: seq<Annotation>)
      ensures r == OnPage(annots, pageNumber)
    {
      r := OnPage(annots, pageNumber);
    }

    method GetById(annotId: string) returns (r: Option<Annotation>)
      ensures r == FindById(annots, annotId)
    {
      r := FindById(annots, annotId);
    }

    method GetInk(pageNumber: int) returns (r: Option<Annotation>)
      ensures r == InkOnPage(annots, pageNumber)
    {
      r := InkOnPage(annots, pageNumber);
    }

    /** `setActive(id)`: selects the id; exactly the annotations with it
      become active. */
    method SetActive(annotId: string)
      modifies this`selectedId, this`annots
      ensures selectedId == annotId
      ensures |annots| == |old(annots)|
      ensures forall i :: 0 <= i < |annots| ==> annots[i] == old(annots)[i].(active := old(annots)[i].data.id == annotId)
      ensures AnnotIds(annots) == AnnotIds(old(annots))
    {
      selectedId := annotId;
      for i := 0 to |annots|
        invariant selectedId == annotId
        invariant |annots| == |old(annots)|
        invariant forall j :: 0 <= j < i ==> annots[j] == old(annots)[j].(active := old(annots)[j].data.id == annotId)
        invariant forall j :: i <= j < |annots| ==> annots[j] == old(annots)[j]
      {
        var a := annots[i].(active := false);
        if a.data.id == annotId {
          a := a.(active := true);
        }
        annots := annots[i := a];
      }
    }
  }

  /** After `setActive(id)`, the selected annotation is active and every
      other id's annotations are not. */
  lemma SelectedIsActive(before: seq<Annotation>, after: seq<Annotation>, id: string)
    requires |after| == |before|
    requires forall i :: 0 <= i < |after| ==> after[i] == before[i].(active := before[i].data.id == id)
    ensures FindById(after, id).Some? ==> FindById(after, id).value.active
    ensures forall a :: a in after && a.data.id != id ==> !a.active
  {
  }

  /** The timestamp repair of `loadFromDB`: which annotations it touched, and
      whether any needs saving back. */
  method LoadFromDB(datas: seq<AnnotationData>, now: int) returns (r: seq<AnnotationData>, changed: bool)
    ensures |r| == |datas|
    ensures forall i :: 0 <= i < |datas| ==> r[i] == Backfilled(datas[i], now)
    ensures changed <==> exists i :: 0 <= i < |datas| && datas[i].timestampAdded == 0
  {
    r := datas;
    changed := false;
    for i := 0 to |datas|
      invariant |r| == |datas|
      invariant forall j :: 0 <= j < i ==> r[j] == Backfilled(datas[j], now)
      invariant forall j :: i <= j < |datas| ==> r[j] == datas[j]
      invariant changed <==> exists j :: 0 <= j < i && datas[j].timestampAdded == 0
    {
      if r[i].timestampAdded == 0 {
        r := r[i := r[i].(timestampAdded := now, timestampModified := now)];
        changed := true;
      }
    }
  }

  /** Repaired data always carries an added timestamp when the clock is
      non-zero, and repairing twice changes nothing more. */
  lemma BackfillSettles(d: AnnotationData, now: int)
    requires now != 0
    ensures Backfilled(d, now).timestampAdded != 0
    ensures Backfilled(Backfilled(d, now), now) == Backfilled(d, now)
  {
  }
}
