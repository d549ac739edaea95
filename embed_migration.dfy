/**
 * The migration of the old annotations (rows of the annotations table, or
 * older JSON documents) to the embedded PDF annotation format and back:
 * reading and de-duplicating the old annotations, the type mapping, the
 * geometry between percent rectangles and PDF rectangles, and the ink
 * strokes of an old Konva drawing. JSON parsing and serialisation are
 * inputs; page sizes are positive reals.
 */
module EmbedMigration {
  import opened Wrappers
  import opened Seqs
  import opened Models

  const LEGACY_ANNOTATION_SOURCE: string := "sophosia-legacy-migration"
  const DEFAULT_COLOR: string := "#ffff00"
  const LINE: string := "Line"
  const DESTINATION_OUT: string := "destination-out"
  const PRINT: string := "print"
  const MARKUP_TYPES: set<AnnotationType> := {Highlight, Underline, Strikeout}

  /** A page dimension of a PDF document. */
  type Dim = r: real | r > 0.0 witness 1.0

  datatype Size = Size(width: Dim, height: Dim)

  /** A rectangle in PDF page units: origin and size. */
  datatype PdfRect = PdfRect(x: real, y: real, width: real, height: real)

  datatype Point = Point(x: real, y: real)

  datatype InkStroke = InkStroke(points: seq<Point>)

  /** The annotation subtypes of the embedded format; the ones the
      migration does not use are `OtherSub`. */
  datatype Subtype = HighlightSub | UnderlineSub | StrikeoutSub | SquareSub | TextSub | InkSub | OtherSub(code: int)

  datatype Custom = Custom(source: string, legacyAnnotationId: string)

  /** An embedded annotation; `None` is a property that is not set. */
  datatype EmbedAnnotation = EmbedAnnotation(
    id: string, subtype: Subtype, pageIndex: int, rect: PdfRect,
    contents: Option<string>, custom: Option<Custom>,
    color: Option<string>, strokeColor: Option<string>, opacity: real,
    strokeWidth: Option<real>, segmentRects: Option<seq<PdfRect>>,
    inkList: Option<seq<InkStroke>>, solidBorder: bool, flags: seq<string>,
    noteIcon: bool)

  /** Stored `rects`: nothing, an array, or JSON text together with what
      parsing it yields (`None` when the parse throws). */
  datatype RawRects = NoRects | RectArray(rects: seq<Rect>) | RectText(text: string, parsed: Option<seq<Rect>>)

  /** `parseLegacyRects`: nothing (or empty text) and unparsable text give
      no rectangles, an array is kept as it is. */
  function ParseLegacyRects(raw: RawRects): (r: seq<Rect>)
    ensures raw.NoRects? ==> r == []
    ensures raw.RectArray? ==> r == raw.rects
    ensures raw.RectText? && (raw.text == "" || raw.parsed.None?) ==> r == []
    ensures raw.RectText? && raw.text != "" && raw.parsed.Some? ==> r == raw.parsed.value
  {
    match raw
    case NoRects => []
    case RectArray(rects) => rects
    case RectText(text, parsed) => if text == "" || parsed.None? then [] else parsed.value
  }

  // ---------------------------------------------------------------------
  // Supported types

  /** `supportedLegacyType`. */
  predicate Supported(t: AnnotationType) {
    t == Highlight || t == Underline || t == Strikeout || t == Rectangle || t == Comment || t == Ink
  }

  /** `shouldMigrateLegacyType`. */
  predicate ShouldMigrate(t: AnnotationType) {
    t in MARKUP_TYPES || t == Rectangle || t == Comment || t == Ink
  }

  /** Both predicates accept the same types: all but the cursor, the eraser
      and unknown type names. */
  lemma SupportedTypes(t: AnnotationType)
    ensures Supported(t) <==> ShouldMigrate(t)
    ensures Supported(t) <==> !(t.Cursor? || t.Eraser? || t.OtherType?)
  {
  }

  // ---------------------------------------------------------------------
  // Reading the old annotations

  /** A numeric value as `Number` reads it: a field the row or document
      lacks (`undefined`, read as NaN), SQL NULL or JSON null (`null`, read
      as 0), a finite number, or a value `Number` does not read as finite. */
  datatype NumberCell = Absent | Null | Finite(value: int) | NotFinite

  /** A row of `SELECT * FROM annotations`; a missing text is "", a missing
      type is `None`. */
  datatype SqlRow = SqlRow(
    id: string, timestampAdded: NumberCell, timestampModified: NumberCell,
    projectId: string, pageNumber: NumberCell, content: string, color: string,
    rects: RawRects, annotType: Option<AnnotationType>)

  /** An annotation document of the JSON store. */
  datatype LegacyDoc = LegacyDoc(
    id: string, timestampAdded: int, timestampModified: int,
    projectId: string, pageNumber: NumberCell, content: string, color: string,
    rects: RawRects, annotType: AnnotationType)

  /** `toNumber`: the number when `Number` makes a finite one of the value,
      which for null is 0; otherwise the fallback. */
  function ToNumber(v: NumberCell, fallback: int): (r: int)
    ensures v.Finite? ==> r == v.value
    ensures v.Null? ==> r == 0
    ensures v.Absent? || v.NotFinite? ==> r == fallback
  {
    match v
    case Finite(n) => n
    case Null => 0
    case _ => fallback
  }

  /** `normalizeSqlRow`: timestamps default to now, the page to 1, the type
      to highlight, and the rectangles are parsed. A NULL page or timestamp
      is not a missing one: `Number(null)` is 0. */
  function NormalizeSqlRow(row: SqlRow, now: int): (r: AnnotationData)
    ensures r.id == row.id && r.projectId == row.projectId
    ensures row.annotType.None? ==> r.annotType == Highlight
    ensures row.annotType.Some? ==> r.annotType == row.annotType.value
    ensures (row.pageNumber.Absent? || row.pageNumber.NotFinite?) ==> r.pageNumber == 1
    ensures row.pageNumber.Null? ==> r.pageNumber == 0
    ensures row.pageNumber.Finite? ==> r.pageNumber == row.pageNumber.value
    ensures (row.timestampAdded.Absent? || row.timestampAdded.NotFinite?) ==> r.timestampAdded == now
    ensures row.timestampAdded.Null? ==> r.timestampAdded == 0
    ensures r.rects == ParseLegacyRects(row.rects)
  {
    AnnotationData(row.id, ToNumber(row.timestampAdded, now), ToNumber(row.timestampModified, now),
      row.projectId, ToNumber(row.pageNumber, 1), row.content, row.color,
      ParseLegacyRects(row.rects), if row.annotType.Some? then row.annotType.value else Highlight)
  }

  /** `normalizeLegacyAnnotation`: the page defaults to 1 and the
      rectangles are parsed; everything else is kept. */
  function NormalizeDoc(doc: LegacyDoc): (r: AnnotationData)
    ensures r.id == doc.id && r.projectId == doc.projectId && r.annotType == doc.annotType
    ensures r.rects == ParseLegacyRects(doc.rects)
  {
    AnnotationData(doc.id, doc.timestampAdded, doc.timestampModified, doc.projectId,
      ToNumber(doc.pageNumber, 1), doc.content, doc.color, ParseLegacyRects(doc.rects), doc.annotType)
  }

  function NormalizedRows(rows: seq<SqlRow>, now: int): (r: seq<AnnotationData>)
    ensures |r| == |rows|
    decreases |rows|
  {
    if |rows| == 0 then [] else [NormalizeSqlRow(rows[0], now)] + NormalizedRows(rows[1..], now)
  }

  /** The documents that exist and belong to the project, normalized. */
  function DocsOf(docs: seq<Option<LegacyDoc>>, projectId: string): (r: seq<AnnotationData>)
    decreases |docs|
  {
    if |docs| == 0 then []
    else if docs[0].Some? && docs[0].value.projectId == projectId then
      [NormalizeDoc(docs[0].value)] + DocsOf(docs[1..], projectId)
    else DocsOf(docs[1..], projectId)
  }

  lemma {:induction false} DocsOfProject(docs: seq<Option<LegacyDoc>>, projectId: string)
    ensures forall k :: 0 <= k < |DocsOf(docs, projectId)| ==> DocsOf(docs, projectId)[k].projectId == projectId
    decreases |docs|
  {
    if |docs| > 0 {
      DocsOfProject(docs[1..], projectId);
    }
  }

  function IdsOf(xs: seq<AnnotationData>): (r: seq<string>)
    ensures |r| == |xs|
    decreases |xs|
  {
    if |xs| == 0 then [] else [xs[0].id] + IdsOf(xs[1..])
  }

  /** Whether the loop takes an annotation, given the ids seen so far. */
  predicate Takes(x: AnnotationData, seen: set<string>) {
    x.id != "" && x.id !in seen && Supported(x.annotType)
  }

  /** The annotations the loops of `loadLegacyAnnotations` keep, in order:
      each with an id not seen before and a supported type. */
  function Unseen(xs: seq<AnnotationData>, seen: set<string>): (r: seq<AnnotationData>)
    decreases |xs|
  {
    if |xs| == 0 then []
    else if Takes(xs[0], seen) then [xs[0]] + Unseen(xs[1..], seen + {xs[0].id})
    else Unseen(xs[1..], seen)
  }

  /** What is kept has non-empty, unseen, pairwise distinct ids and a
      supported type, and comes from the input; every annotation the loop
      could take has its id kept. */
  lemma {:induction false} UnseenSpec(xs: seq<AnnotationData>, seen: set<string>)
    ensures var r := Unseen(xs, seen);
      (forall k :: 0 <= k < |r| ==> r[k] in xs && Takes(r[k], seen))
      && NoDuplicates(IdsOf(r))
      && forall i :: 0 <= i < |xs| && Takes(xs[i], seen) ==> xs[i].id in IdsOf(r)
    decreases |xs|
  {
    if |xs| > 0 {
      var x := xs[0];
      var tail := xs[1..];
      if Takes(x, seen) {
        var seen' := seen + {x.id};
        UnseenSpec(tail, seen');
        var rest := Unseen(tail, seen');
        var r := [x] + rest;
        assert r == Unseen(xs, seen);
        assert IdsOf(r) == [x.id] + IdsOf(rest);
        assert x.id !in IdsOf(rest) by {
          if x.id in IdsOf(rest) {
            var k :| 0 <= k < |IdsOf(rest)| && IdsOf(rest)[k] == x.id;
            IdsOfAt(rest, k);
          }
        }
        NoDuplicatesCons(x.id, IdsOf(rest));
        forall i | 0 <= i < |xs| && Takes(xs[i], seen)
          ensures xs[i].id in IdsOf(r)
        {
          if i > 0 && xs[i].id != x.id {
            assert tail[i - 1] == xs[i];
          }
        }
        forall k | 0 <= k < |r|
          ensures r[k] in xs && Takes(r[k], seen)
        {
          if k > 0 {
            assert r[k] == rest[k - 1];
          }
        }
      } else {
        UnseenSpec(tail, seen);
        forall i | 0 <= i < |xs| && Takes(xs[i], seen)
          ensures xs[i].id in IdsOf(Unseen(xs, seen))
        {
          assert i > 0;
          assert tail[i - 1] == xs[i];
        }
      }
    }
  }

  lemma {:induction false} IdsOfAt(xs: seq<AnnotationData>, k: nat)
    requires k < |xs|
    ensures IdsOf(xs)[k] == xs[k].id
    decreases k
  {
    if k > 0 {
      IdsOfAt(xs[1..], k - 1);
    }
  }

  lemma NoDuplicatesCons(x: string, s: seq<string>)
    requires x !in s && NoDuplicates(s)
    ensures NoDuplicates([x] + s)
  {
    var t := [x] + s;
    forall i, j | 0 <= i < j < |t|
      ensures t[i] != t[j]
    {
      assert t[j] == s[j - 1];
      if i > 0 {
        assert t[i] == s[i - 1];
      }
    }
  }

  /** `loadLegacyAnnotations(projectId)` on the project's rows and the
      JSON store's annotation documents: the documents are read only when
      no row is kept. */
  function LegacyAnnotations(projectId: string, rows: seq<SqlRow>, docs: seq<Option<LegacyDoc>>, now: int): seq<AnnotationData> {
    var fromRows := Unseen(NormalizedRows(rows, now), {});
    if |fromRows| > 0 then fromRows else Unseen(DocsOf(docs, projectId), {})
  }

  /** The loaded annotations have non-empty, distinct ids and supported
      types; they are all rows when any row is kept, and all documents of
      the project otherwise. */
  lemma LegacyAnnotationsSpec(projectId: string, rows: seq<SqlRow>, docs: seq<Option<LegacyDoc>>, now: int)
    ensures var r := LegacyAnnotations(projectId, rows, docs, now);
      (forall k :: 0 <= k < |r| ==> r[k].id != "" && Supported(r[k].annotType))
      && NoDuplicates(IdsOf(r))
    ensures var fromRows := Unseen(NormalizedRows(rows, now), {});
      |fromRows| > 0 ==> forall k :: 0 <= k < |fromRows| ==> fromRows[k] in NormalizedRows(rows, now)
    ensures var r := LegacyAnnotations(projectId, rows, docs, now);
      |Unseen(NormalizedRows(rows, now), {})| == 0 ==> (
        forall k :: 0 <= k < |r| ==> r[k] in DocsOf(docs, projectId) && r[k].projectId == projectId)
  {
    UnseenSpec(NormalizedRows(rows, now), {});
    UnseenSpec(DocsOf(docs, projectId), {});
    DocsOfProject(docs, projectId);
  }

  /** The two loops of `loadLegacyAnnotations`, with the `seen` set. */
  method LoadLegacyAnnotations(projectId: string, rows: seq<SqlRow>, docs: seq<Option<LegacyDoc>>, now: int)
    returns (normalized: seq<AnnotationData>)
    ensures normalized == LegacyAnnotations(projectId, rows, docs, now)
  {
    normalized := [];
    var seen: set<string> := {};
    var all := NormalizedRows(rows, now);
    for i := 0 to |rows|
      invariant normalized + Unseen(NormalizedRows(rows[i..], now), seen) == Unseen(all, {})
      invariant |normalized| == 0 ==> seen == {}
    {
      var annotation := NormalizeSqlRow(rows[i], now);
      assert rows[i..][1..] == rows[i + 1..];
      var rest := NormalizedRows(rows[i + 1..], now);
      assert NormalizedRows(rows[i..], now) == [annotation] + rest;
      if Takes(annotation, seen) {
        AppendAssoc(normalized, [annotation], Unseen(rest, seen + {annotation.id}));
        seen := seen + {annotation.id};
        normalized := normalized + [annotation];
      }
    }
    assert rows[|rows|..] == [];
    if |normalized| > 0 {
      return;
    }
    var ofProject := DocsOf(docs, projectId);
    for i := 0 to |docs|
      invariant normalized + Unseen(DocsOf(docs[i..], projectId), seen) == Unseen(ofProject, {})
    {
      assert docs[i..][1..] == docs[i + 1..];
      var rest := DocsOf(docs[i + 1..], projectId);
      if docs[i].Some? && docs[i].value.projectId == projectId {
        var annotation := NormalizeDoc(docs[i].value);
        assert DocsOf(docs[i..], projectId) == [annotation] + rest;
        if Takes(annotation, seen) {
          AppendAssoc(normalized, [annotation], Unseen(rest, seen + {annotation.id}));
          seen := seen + {annotation.id};
          normalized := normalized + [annotation];
        }
      } else {
        assert DocsOf(docs[i..], projectId) == rest;
      }
    }
    assert docs[|docs|..] == [];
  }

  // ---------------------------------------------------------------------
  // Geometry

  function RMin(a: real, b: real): real { if a <= b then a else b }

  function RMax(a: real, b: real): real { if a >= b then a else b }

  /** `clamp`: within the bounds when they are ordered. */
  function Clamp(value: real, lo: real, hi: real): (r: real)
    ensures lo <= hi ==> lo <= r <= hi
    ensures lo <= value <= hi ==> r == value
  {
    RMin(hi, RMax(lo, value))
  }

  /** A percentage of a page dimension in page units, kept on the page. */
  function ToUnits(percent: real, d: Dim): (r: real)
    ensures 0.0 <= r <= d
  {
    Clamp(percent / 100.0 * d, 0.0, d)
  }

  /** Page units as a percentage of a page dimension. */
  function ToPercent(units: real, d: Dim): real {
    units / d * 100.0
  }

  /** A percentage in [0, 100] survives the trip to page units and back. */
  lemma ScaleBack(v: real, d: Dim)
    requires 0.0 <= v <= 100.0
    ensures ToPercent(ToUnits(v, d), d) == v
  {
    assert 0.0 <= v / 100.0 * d <= d;
    assert ToUnits(v, d) == v / 100.0 * d;
  }

  /** `legacyRectPercentToPdfRect`: percentages of the page scaled to page
      units, each clamped to the page. */
  function PercentToPdf(r: Rect, page: Size): (p: PdfRect)
    ensures 0.0 <= p.x <= page.width && 0.0 <= p.y <= page.height
    ensures 0.0 <= p.width <= page.width && 0.0 <= p.height <= page.height
  {
    PdfRect(ToUnits(r.left, page.width), ToUnits(r.top, page.height),
            ToUnits(r.width, page.width), ToUnits(r.height, page.height))
  }

  /** `pdfRectToLegacyPercentRect`. */
  function PdfToPercent(p: PdfRect, page: Size): Rect {
    Rect(ToPercent(p.height, page.height), ToPercent(p.x, page.width),
         ToPercent(p.y, page.height), ToPercent(p.width, page.width))
  }

  /** A rectangle whose percentages all lie in [0, 100] survives the trip
      to page units and back. */
  lemma PercentRoundTrip(r: Rect, page: Size)
    requires 0.0 <= r.left <= 100.0 && 0.0 <= r.top <= 100.0
    requires 0.0 <= r.width <= 100.0 && 0.0 <= r.height <= 100.0
    ensures PdfToPercent(PercentToPdf(r, page), page) == r
  {
    ScaleBack(r.left, page.width);
    ScaleBack(r.top, page.height);
    ScaleBack(r.width, page.width);
    ScaleBack(r.height, page.height);
  }

  function Left(r: PdfRect): real { r.x }

  function Top(r: PdfRect): real { r.y }

  function Right(r: PdfRect): real { r.x + r.width }

  function Bottom(r: PdfRect): real { r.y + r.height }

  predicate Contains(outer: PdfRect, inner: PdfRect) {
    Left(outer) <= Left(inner) && Top(outer) <= Top(inner)
    && Right(inner) <= Right(outer) && Bottom(inner) <= Bottom(outer)
  }

  /** The least value of an edge over a non-empty list. */
  function Least(rs: seq<PdfRect>, edge: PdfRect -> real): real
    requires |rs| > 0
    decreases |rs|
  {
    if |rs| == 1 then edge(rs[0]) else RMin(Least(rs[..|rs| - 1], edge), edge(rs[|rs| - 1]))
  }

  /** The greatest value of an edge over a non-empty list. */
  function Most(rs: seq<PdfRect>, edge: PdfRect -> real): real
    requires |rs| > 0
    decreases |rs|
  {
    if |rs| == 1 then edge(rs[0]) else RMax(Most(rs[..|rs| - 1], edge), edge(rs[|rs| - 1]))
  }

  lemma {:induction false} LeastSpec(rs: seq<PdfRect>, edge: PdfRect -> real)
    requires |rs| > 0
    ensures forall i :: 0 <= i < |rs| ==> Least(rs, edge) <= edge(rs[i])
    ensures exists i :: 0 <= i < |rs| && Least(rs, edge) == edge(rs[i])
    decreases |rs|
  {
    if |rs| > 1 {
      var init := rs[..|rs| - 1];
      LeastSpec(init, edge);
      assert forall i :: 0 <= i < |init| ==> init[i] == rs[i];
      var i :| 0 <= i < |init| && Least(init, edge) == edge(init[i]);
      if Least(rs, edge) != edge(rs[|rs| - 1]) {
        assert Least(rs, edge) == edge(rs[i]);
      }
    } else {
      assert Least(rs, edge) == edge(rs[0]);
    }
  }

  lemma {:induction false} MostSpec(rs: seq<PdfRect>, edge: PdfRect -> real)
    requires |rs| > 0
    ensures forall i :: 0 <= i < |rs| ==> edge(rs[i]) <= Most(rs, edge)
    ensures exists i :: 0 <= i < |rs| && Most(rs, edge) == edge(rs[i])
    decreases |rs|
  {
    if |rs| > 1 {
      var init := rs[..|rs| - 1];
      MostSpec(init, edge);
      assert forall i :: 0 <= i < |init| ==> init[i] == rs[i];
      var i :| 0 <= i < |init| && Most(init, edge) == edge(init[i]);
      if Most(rs, edge) != edge(rs[|rs| - 1]) {
        assert Most(rs, edge) == edge(rs[i]);
      }
    } else {
      assert Most(rs, edge) == edge(rs[0]);
    }
  }

  /** The bounding box of the rectangles, none for no rectangles. */
  function Union(rs: seq<PdfRect>): Option<PdfRect> {
    if |rs| == 0 then None
    else
      var minX := Least(rs, Left);
      var minY := Least(rs, Top);
      Some(PdfRect(minX, minY, Most(rs, Right) - minX, Most(rs, Bottom) - minY))
  }

  /** `unionRects`: nothing for no rectangles; otherwise a box that
      contains every rectangle and whose every edge is an edge of one of
      them. */
  lemma UnionBounds(rs: seq<PdfRect>)
    ensures Union(rs).None? <==> |rs| == 0
    ensures Union(rs).Some? ==> forall i :: 0 <= i < |rs| ==> Contains(Union(rs).value, rs[i])
    ensures Union(rs).Some? ==> (
      (exists i :: 0 <= i < |rs| && Left(Union(rs).value) == Left(rs[i]))
      && (exists i :: 0 <= i < |rs| && Top(Union(rs).value) == Top(rs[i]))
      && (exists i :: 0 <= i < |rs| && Right(Union(rs).value) == Right(rs[i]))
      && (exists i :: 0 <= i < |rs| && Bottom(Union(rs).value) == Bottom(rs[i])))
  {
    if |rs| > 0 {
      LeastSpec(rs, Left);
      LeastSpec(rs, Top);
      MostSpec(rs, Right);
      MostSpec(rs, Bottom);
    }
  }

  /** The loop of `unionRects`. */
  method UnionRects(rects: seq<PdfRect>) returns (r: Option<PdfRect>)
    ensures r == Union(rects)
  {
    if |rects| == 0 {
      return None;
    }
    var minX := rects[0].x;
    var minY := rects[0].y;
    var maxX := rects[0].x + rects[0].width;
    var maxY := rects[0].y + rects[0].height;
    for i := 1 to |rects|
      invariant minX == Least(rects[..i], Left) && minY == Least(rects[..i], Top)
      invariant maxX == Most(rects[..i], Right) && maxY == Most(rects[..i], Bottom)
    {
      var rect := rects[i];
      assert rects[..i + 1][..i] == rects[..i];
      minX := RMin(minX, rect.x);
      minY := RMin(minY, rect.y);
      maxX := RMax(maxX, rect.x + rect.width);
      maxY := RMax(maxY, rect.y + rect.height);
    }
    assert rects[..|rects|] == rects;
    r := Some(PdfRect(minX, minY, maxX - minX, maxY - minY));
  }

  // ---------------------------------------------------------------------
  // Ink strokes of an old Konva drawing

  /** A shape of the drawing: its class, composite operation, flat point
      list, stroke colour (when it is text) and stroke width (when finite). */
  datatype KonvaChild = KonvaChild(className: string, compositeOp: string, points: seq<real>,
    stroke: Option<string>, strokeWidth: Option<real>)

  /** A parsed drawing: its size (0 when missing) and its layers' shapes. */
  datatype KonvaStage = KonvaStage(width: real, height: real, layers: seq<seq<KonvaChild>>)

  datatype KonvaInk = KonvaInk(inkList: seq<InkStroke>, strokeColor: Option<string>, strokeWidth: Option<real>)

  /** A line drawn with the pen (not the eraser) and at least two points. */
  predicate IsStroke(c: KonvaChild) {
    c.className == LINE && c.compositeOp != DESTINATION_OUT && |c.points| >= 4
  }

  /** The shapes of all layers, in order. */
  function Shapes(layers: seq<seq<KonvaChild>>): seq<KonvaChild>
    decreases |layers|
  {
    if |layers| == 0 then [] else Shapes(layers[..|layers| - 1]) + layers[|layers| - 1]
  }

  /** A point of the drawing scaled to the page. */
  function ToPage(x: real, y: real, sw: real, sh: real, page: Size): Point
    requires sw != 0.0 && sh != 0.0
  {
    Point(x / sw * page.width, y / sh * page.height)
  }

  /** A flat point list read pairwise and scaled from the drawing to the
      page; an odd last number is dropped. */
  function Converted(ps: seq<real>, sw: real, sh: real, page: Size): (r: seq<Point>)
    requires sw != 0.0 && sh != 0.0
    ensures |r| == |ps| / 2
    ensures forall k :: 0 <= k < |r| ==> r[k] == ToPage(ps[2 * k], ps[2 * k + 1], sw, sh, page)
    decreases |ps|
  {
    if |ps| < 2 then []
    else
      var rest := Converted(ps[2..], sw, sh, page);
      ConvertedStep(ps, rest, sw, sh, page);
      [ToPage(ps[0], ps[1], sw, sh, page)] + rest
  }

  lemma ConvertedStep(ps: seq<real>, rest: seq<Point>, sw: real, sh: real, page: Size)
    requires sw != 0.0 && sh != 0.0 && |ps| >= 2
    requires |rest| == (|ps| - 2) / 2
    requires forall k :: 0 <= k < |rest| ==> rest[k] == ToPage(ps[2..][2 * k], ps[2..][2 * k + 1], sw, sh, page)
    ensures var r := [ToPage(ps[0], ps[1], sw, sh, page)] + rest;
      |r| == |ps| / 2 && forall k :: 0 <= k < |r| ==> r[k] == ToPage(ps[2 * k], ps[2 * k + 1], sw, sh, page)
  {
    var r := [ToPage(ps[0], ps[1], sw, sh, page)] + rest;
    forall k | 0 <= k < |r|
      ensures r[k] == ToPage(ps[2 * k], ps[2 * k + 1], sw, sh, page)
    {
      if k > 0 {
        assert r[k] == rest[k - 1];
        assert ps[2..][2 * (k - 1)] == ps[2 * k];
        assert ps[2..][2 * (k - 1) + 1] == ps[2 * k + 1];
      }
    }
  }

  function Strokes(cs: seq<KonvaChild>, sw: real, sh: real, page: Size): seq<InkStroke>
    requires sw != 0.0 && sh != 0.0
    decreases |cs|
  {
    if |cs| == 0 then []
    else
      var last := cs[|cs| - 1];
      Strokes(cs[..|cs| - 1], sw, sh, page)
        + (if IsStroke(last) then [InkStroke(Converted(last.points, sw, sh, page))] else [])
  }

  /** The colour of the first stroke with a non-empty colour, or "". */
  function StrokeColor(cs: seq<KonvaChild>): string
    decreases |cs|
  {
    if |cs| == 0 then ""
    else
      var last := cs[|cs| - 1];
      var c := StrokeColor(cs[..|cs| - 1]);
      if c == "" && IsStroke(last) && last.stroke.Some? then last.stroke.value else c
  }

  /** The width of the first stroke with a finite width. */
  function FirstWidth(cs: seq<KonvaChild>): Option<real>
    decreases |cs|
  {
    if |cs| == 0 then None
    else
      var last := cs[|cs| - 1];
      var w := FirstWidth(cs[..|cs| - 1]);
      if w.None? && IsStroke(last) && last.strokeWidth.Some? then last.strokeWidth else w
  }

  /** `parseKonvaInkList` as written: the width starts at 1 and is only
      replaced while it is falsy, so it stays 1. */
  function KonvaInkAsWritten(content: string, stage: Option<KonvaStage>, page: Size): (r: KonvaInk)
    ensures content == "" || stage.None? ==> r == KonvaInk([], None, None)
    ensures r.strokeWidth.Some? ==> r.strokeWidth == Some(1.0)
  {
    if content == "" || stage.None? || stage.value.width == 0.0 || stage.value.height == 0.0 then
      KonvaInk([], None, None)
    else
      var s := stage.value;
      var shapes := Shapes(s.layers);
      var color := StrokeColor(shapes);
      KonvaInk(Strokes(shapes, s.width, s.height, page), if color == "" then None else Some(color), Some(1.0))
  }

  /** `parseKonvaInkList` as evidently intended: the width is that of the
      first stroke that has a finite one. */
  function KonvaInkOf(content: string, stage: Option<KonvaStage>, page: Size): (r: KonvaInk)
    ensures r.inkList == KonvaInkAsWritten(content, stage, page).inkList
    ensures r.strokeColor == KonvaInkAsWritten(content, stage, page).strokeColor
  {
    if content == "" || stage.None? || stage.value.width == 0.0 || stage.value.height == 0.0 then
      KonvaInk([], None, None)
    else
      var s := stage.value;
      var shapes := Shapes(s.layers);
      var color := StrokeColor(shapes);
      KonvaInk(Strokes(shapes, s.width, s.height, page), if color == "" then None else Some(color), FirstWidth(shapes))
  }

  /** The loops of `parseKonvaInkList`, as written. */
  method ParseKonvaInkList(content: string, stage: Option<KonvaStage>, page: Size) returns (r: KonvaInk)
    ensures r == KonvaInkAsWritten(content, stage, page)
  {
    if content == "" || stage.None? {
      return KonvaInk([], None, None);
    }
    var s := stage.value;
    var stageWidth := s.width;
    var stageHeight := s.height;
    if stageWidth == 0.0 || stageHeight == 0.0 {
      return KonvaInk([], None, None);
    }
    var layers := s.layers;
    var inkList: seq<InkStroke> := [];
    var strokeColor := "";
    var strokeWidth := 1.0;
    for li := 0 to |layers|
      invariant inkList == Strokes(Shapes(layers[..li]), stageWidth, stageHeight, page)
      invariant strokeColor == StrokeColor(Shapes(layers[..li]))
      invariant strokeWidth == 1.0
    {
      inkList, strokeColor, strokeWidth := ParseLayer(Shapes(layers[..li]), layers[li], stageWidth, stageHeight, page,
        inkList, strokeColor, strokeWidth);
      assert layers[..li + 1][..li] == layers[..li];
    }
    assert layers[..|layers|] == layers;
    r := KonvaInk(inkList, if strokeColor == "" then None else Some(strokeColor), Some(strokeWidth));
  }

  /** The shape loop of `parseKonvaInkList` over one layer, after the
      shapes `done`: the width is only replaced while it is 0. */
  method ParseLayer(ghost done: seq<KonvaChild>, children: seq<KonvaChild>, stageWidth: real, stageHeight: real,
                    page: Size, inkList0: seq<InkStroke>, strokeColor0: string, strokeWidth0: real)
    returns (inkList: seq<InkStroke>, strokeColor: string, strokeWidth: real)
    requires stageWidth != 0.0 && stageHeight != 0.0
    requires inkList0 == Strokes(done, stageWidth, stageHeight, page) && strokeColor0 == StrokeColor(done)
    requires strokeWidth0 == 1.0
    ensures inkList == Strokes(done + children, stageWidth, stageHeight, page)
    ensures strokeColor == StrokeColor(done + children) && strokeWidth == 1.0
  {
    inkList, strokeColor, strokeWidth := inkList0, strokeColor0, strokeWidth0;
    assert done + children[..0] == done;
    for ci := 0 to |children|
      invariant inkList == Strokes(done + children[..ci], stageWidth, stageHeight, page)
      invariant strokeColor == StrokeColor(done + children[..ci])
      invariant strokeWidth == 1.0
    {
      var child := children[ci];
      ParseStep(done, children, ci, stageWidth, stageHeight, page);
      if IsStroke(child) {
        var converted := ConvertPoints(child.points, stageWidth, stageHeight, page);
        inkList := inkList + [InkStroke(converted)];
        if strokeColor == "" && child.stroke.Some? {
          strokeColor := child.stroke.value;
        }
        match child.strokeWidth {
          case Some(w) =>
            if strokeWidth == 0.0 {
              strokeWidth := w;
            }
          case None =>
        }
      }
    }
    assert children[..|children|] == children;
  }

  /** One more shape extends the strokes and the colour scan by that shape. */
  lemma ParseStep(done: seq<KonvaChild>, children: seq<KonvaChild>, ci: nat, sw: real, sh: real, page: Size)
    requires ci < |children| && sw != 0.0 && sh != 0.0
    ensures var cs := done + children[..ci]; var c := children[ci];
      Strokes(done + children[..ci + 1], sw, sh, page)
        == Strokes(cs, sw, sh, page) + (if IsStroke(c) then [InkStroke(Converted(c.points, sw, sh, page))] else [])
      && StrokeColor(done + children[..ci + 1])
        == (if StrokeColor(cs) == "" && IsStroke(c) && c.stroke.Some? then c.stroke.value else StrokeColor(cs))
  {
    AppendSliceStep(done, children, ci);
    TakeSnoc(done + children[..ci], children[ci]);
  }

  /** The inner point loop of `parseKonvaInkList`. */
  method ConvertPoints(points: seq<real>, stageWidth: real, stageHeight: real, page: Size) returns (converted: seq<Point>)
    requires stageWidth != 0.0 && stageHeight != 0.0
    ensures converted == Converted(points, stageWidth, stageHeight, page)
  {
    converted := [];
    var i := 0;
    while i < |points| - 1
      invariant 0 <= i <= |points| && i == 2 * |converted|
      invariant forall k :: 0 <= k < |converted| ==>
        converted[k] == ToPage(points[2 * k], points[2 * k + 1], stageWidth, stageHeight, page)
    {
      converted := converted + [ToPage(points[i], points[i + 1], stageWidth, stageHeight, page)];
      i := i + 2;
    }
  }

  /** A drawing whose one stroke is 5 wide: the loop as written reports
      width 1, the intended reading reports 5. */
  lemma StrokeWidthIgnored()
    ensures var line := KonvaChild(LINE, "", [0.0, 0.0, 1.0, 1.0], None, Some(5.0));
      var stage := Some(KonvaStage(1.0, 1.0, [[line]]));
      KonvaInkAsWritten(LINE, stage, Size(1.0, 1.0)).strokeWidth == Some(1.0)
      && KonvaInkOf(LINE, stage, Size(1.0, 1.0)).strokeWidth == Some(5.0)
  {
    var line := KonvaChild(LINE, "", [0.0, 0.0, 1.0, 1.0], None, Some(5.0));
    assert |LINE| == 4 && |DESTINATION_OUT| == 15;
    assert Shapes([[line]]) == [line] by {
      assert [[line]][..0] == [];
    }
    assert FirstWidth([line]) == Some(5.0) by {
      assert [line][..0] == [];
      assert IsStroke(line);
    }
  }

  /** The intended width is that of a stroke, and no earlier stroke has a
      finite width. */
  lemma {:induction false} FirstWidthSpec(cs: seq<KonvaChild>)
    ensures FirstWidth(cs).None? <==> forall i :: 0 <= i < |cs| ==> !(IsStroke(cs[i]) && cs[i].strokeWidth.Some?)
    ensures FirstWidth(cs).Some? ==> exists i :: (
      0 <= i < |cs| && IsStroke(cs[i]) && cs[i].strokeWidth == FirstWidth(cs)
      && forall j :: 0 <= j < i ==> !(IsStroke(cs[j]) && cs[j].strokeWidth.Some?))
    decreases |cs|
  {
    if |cs| > 0 {
      var init := cs[..|cs| - 1];
      FirstWidthSpec(init);
      assert forall i :: 0 <= i < |init| ==> init[i] == cs[i];
      if FirstWidth(init).Some? {
        var i :| 0 <= i < |init| && IsStroke(init[i]) && init[i].strokeWidth == FirstWidth(init)
          && forall j :: 0 <= j < i ==> !(IsStroke(init[j]) && init[j].strokeWidth.Some?);
        assert cs[i] == init[i];
      }
    }
  }

  // ---------------------------------------------------------------------
  // Conversion to the embedded format and back

  /** `pageSizeFor`: the size of an existing page. */
  function PageSizeFor(document: seq<Size>, pageIndex: int): (r: Option<Size>)
    ensures r.Some? <==> 0 <= pageIndex < |document|
    ensures r.Some? ==> r.value == document[pageIndex]
  {
    if 0 <= pageIndex < |document| then Some(document[pageIndex]) else None
  }

  /** `normalizeColor`: yellow when no colour is given. */
  function NormalizeColor(color: string): (r: string)
    ensures r != ""
    ensures color != "" ==> r == color
  {
    if color == "" then DEFAULT_COLOR else color
  }

  function DefaultRect(page: Size): PdfRect {
    PdfRect(page.width * 0.1, page.height * 0.1, page.width * 0.2, page.height * 0.03)
  }

  /** `defaultCommentRect`: an icon-sized box at the first rectangle's
      corner (10% in when there is none), kept on the page. */
  function DefaultCommentRect(page: Size, rect: Option<Rect>): (r: PdfRect)
    ensures r.width >= 22.0 && r.height >= 22.0
    ensures r.width <= page.width ==> 0.0 <= r.x && r.x + r.width <= page.width
    ensures r.height <= page.height ==> 0.0 <= r.y && r.y + r.height <= page.height
  {
    var width := RMax(page.width * 0.04, 22.0);
    var height := RMax(page.height * 0.03, 22.0);
    var leftPercent := if rect.Some? then rect.value.left else 10.0;
    var topPercent := if rect.Some? then rect.value.top else 10.0;
    PdfRect(Clamp(leftPercent / 100.0 * page.width, 0.0, page.width - width),
            Clamp(topPercent / 100.0 * page.height, 0.0, page.height - height),
            width, height)
  }

  function Segments(rects: seq<Rect>, page: Size): (r: seq<PdfRect>)
    ensures |r| == |rects|
    ensures forall i :: 0 <= i < |r| ==> r[i] == PercentToPdf(rects[i], page)
  {
    seq(|rects|, i requires 0 <= i < |rects| => PercentToPdf(rects[i], page))
  }

  function Percents(rects: seq<PdfRect>, page: Size): (r: seq<Rect>)
    ensures |r| == |rects|
    ensures forall i :: 0 <= i < |r| ==> r[i] == PdfToPercent(rects[i], page)
  {
    seq(|rects|, i requires 0 <= i < |rects| => PdfToPercent(rects[i], page))
  }

  predicate IsMarkup(s: Subtype) {
    s == HighlightSub || s == UnderlineSub || s == StrikeoutSub
  }

  /** The bounding box of the segments, or the default box without any. */
  function BoxOf(segs: seq<PdfRect>, page: Size): (r: PdfRect)
    ensures forall i :: 0 <= i < |segs| ==> Contains(r, segs[i])
  {
    UnionBounds(segs);
    match Union(segs) case Some(u) => u case None => DefaultRect(page)
  }

  /** The properties every converted annotation shares. */
  function Base(a: AnnotationData, pageIndex: int, rect: PdfRect): (e: EmbedAnnotation)
    ensures e.id == a.id && e.pageIndex == pageIndex && e.rect == rect
    ensures e.custom == Some(Custom(LEGACY_ANNOTATION_SOURCE, a.id))
  {
    EmbedAnnotation(a.id, OtherSub(0), pageIndex, rect,
      if a.content == "" then None else Some(a.content),
      Some(Custom(LEGACY_ANNOTATION_SOURCE, a.id)),
      None, None, 1.0, None, None, None, false, [], false)
  }

  /** A highlight, underline or strike-out: at least one segment, the box
      itself when there are none. */
  function AsMarkup(base: EmbedAnnotation, subtype: Subtype, color: string, opacity: real, segs: seq<PdfRect>): (e: EmbedAnnotation)
    ensures e.id == base.id && e.pageIndex == base.pageIndex && e.rect == base.rect && e.custom == base.custom
    ensures e.subtype == subtype && e.contents == base.contents && e.strokeColor == Some(color)
    ensures e.segmentRects == Some(if |segs| > 0 then segs else [base.rect])
  {
    base.(subtype := subtype, strokeColor := Some(color), opacity := opacity,
          segmentRects := Some(if |segs| > 0 then segs else [base.rect]))
  }

  /** A rectangle: a translucent square with a solid border of the colour. */
  function AsSquare(base: EmbedAnnotation, color: string): (e: EmbedAnnotation)
    ensures e.id == base.id && e.pageIndex == base.pageIndex && e.rect == base.rect && e.custom == base.custom
    ensures e.subtype == SquareSub && e.color == Some(color) && e.strokeColor == Some(color)
    ensures e.contents == base.contents
  {
    base.(subtype := SquareSub, color := Some(color), opacity := 0.2, strokeWidth := Some(1.0),
      strokeColor := Some(color), solidBorder := true, flags := [PRINT])
  }

  /** A comment: an opaque note icon in its own box, holding the text. */
  function AsNote(base: EmbedAnnotation, rect: PdfRect, content: string, color: string): (e: EmbedAnnotation)
    ensures e.id == base.id && e.pageIndex == base.pageIndex && e.rect == rect && e.custom == base.custom
    ensures e.subtype == TextSub && e.contents == Some(content) && e.color == Some(color) && e.noteIcon
  {
    base.(subtype := TextSub, rect := rect, contents := Some(content), color := Some(color),
      opacity := 1.0, noteIcon := true)
  }

  /** An ink drawing: nothing without strokes; the drawing's colour and
      width when it has them, else the annotation's colour and width 1. */
  function AsInk(base: EmbedAnnotation, ink: KonvaInk, color: string): (r: Option<EmbedAnnotation>)
    ensures r.Some? <==> |ink.inkList| > 0
    ensures r.Some? ==> (
      r.value.id == base.id && r.value.pageIndex == base.pageIndex && r.value.rect == base.rect
      && r.value.custom == base.custom && r.value.subtype == InkSub && r.value.inkList == Some(ink.inkList))
  {
    if |ink.inkList| == 0 then None
    else
      Some(base.(subtype := InkSub, inkList := Some(ink.inkList),
        strokeColor := Some(if ink.strokeColor.Some? then ink.strokeColor.value else color),
        opacity := 1.0,
        strokeWidth := Some(if ink.strokeWidth.Some? && ink.strokeWidth.value != 0.0 then ink.strokeWidth.value else 1.0)))
  }

  /** The conversion on an existing page, by type. */
  function EmbedOn(a: AnnotationData, pageIndex: int, page: Size, stage: Option<KonvaStage>): (r: Option<EmbedAnnotation>)
    ensures r.Some? ==> r.value.id == a.id && r.value.pageIndex == pageIndex
    ensures r.Some? ==> r.value.custom == Some(Custom(LEGACY_ANNOTATION_SOURCE, a.id))
    ensures r.Some? ==> EmbedTypeToLegacyType(r.value.subtype) == Some(a.annotType)
    ensures r.Some? && a.annotType == Ink ==> r.value.strokeWidth == Some(1.0)
  {
    var color := NormalizeColor(a.color);
    var segs := Segments(a.rects, page);
    var base := Base(a, pageIndex, BoxOf(segs, page));
    match a.annotType
    case Highlight => Some(AsMarkup(base, HighlightSub, color, 0.35, segs))
    case Underline => Some(AsMarkup(base, UnderlineSub, color, 1.0, segs))
    case Strikeout => Some(AsMarkup(base, StrikeoutSub, color, 1.0, segs))
    case Rectangle => Some(AsSquare(base, color))
    case Comment =>
      Some(AsNote(base, DefaultCommentRect(page, if |a.rects| > 0 then Some(a.rects[0]) else None), a.content, color))
    case Ink => AsInk(base, KonvaInkAsWritten(a.content, stage, page), color)
    case _ => None
  }

  /** `legacyToEmbedAnnotation(annotation, document)`; `stage` is what
      parsing the annotation's content as a drawing yields. */
  function LegacyToEmbed(a: AnnotationData, document: seq<Size>, stage: Option<KonvaStage>): Option<EmbedAnnotation> {
    var pageIndex := a.pageNumber - 1;
    match PageSizeFor(document, pageIndex)
    case None => None
    case Some(page) => EmbedOn(a, pageIndex, page, stage)
  }

  /** `embedTypeToLegacyType`. */
  function EmbedTypeToLegacyType(s: Subtype): Option<AnnotationType> {
    match s
    case HighlightSub => Some(Highlight)
    case UnderlineSub => Some(Underline)
    case StrikeoutSub => Some(Strikeout)
    case SquareSub => Some(Rectangle)
    case TextSub => Some(Comment)
    case InkSub => Some(Ink)
    case OtherSub(_) => None
  }

  /** The first truthy text of two, else yellow. */
  function FirstColor(a: Option<string>, b: Option<string>): (r: string)
    ensures r != ""
  {
    if a.Some? && a.value != "" then a.value
    else if b.Some? && b.value != "" then b.value
    else DEFAULT_COLOR
  }

  /** `embedToLegacyAnnotation(annotation, projectId, document)`;
      `inkJson` serialises an ink list and `now` is the clock. */
  function EmbedToLegacy(e: EmbedAnnotation, projectId: string, document: seq<Size>,
                         inkJson: seq<InkStroke> -> string, now: int): Option<AnnotationData> {
    match EmbedTypeToLegacyType(e.subtype)
    case None => None
    case Some(legacyType) =>
      match PageSizeFor(document, e.pageIndex)
      case None => None
      case Some(page) =>
        var rects := if IsMarkup(e.subtype) then Percents(if e.segmentRects.Some? then e.segmentRects.value else [], page)
                     else [PdfToPercent(e.rect, page)];
        var content := if legacyType == Ink then inkJson(if e.subtype == InkSub && e.inkList.Some? then e.inkList.value else [])
                       else if e.contents.Some? then e.contents.value else "";
        var color := if e.subtype == InkSub || IsMarkup(e.subtype) then FirstColor(e.strokeColor, e.color)
                     else FirstColor(e.color, e.strokeColor);
        Some(AnnotationData(e.id, now, now, projectId, e.pageIndex + 1, content, color, rects, legacyType))
  }

  /** `legacyToEmbedAnnotation` gives nothing exactly when the page does not
      exist, the type is unsupported, or an ink drawing has no stroke. */
  lemma LegacyToEmbedNone(a: AnnotationData, document: seq<Size>, stage: Option<KonvaStage>)
    ensures LegacyToEmbed(a, document, stage).None? <==> (
      !(0 <= a.pageNumber - 1 < |document|) || !Supported(a.annotType)
      || (a.annotType == Ink && |KonvaInkAsWritten(a.content, stage, document[a.pageNumber - 1]).inkList| == 0))
  {
  }

  /** A row whose page is NULL reads as page 0; there is no page 0, so the
      row is not migrated. */
  lemma NullPageNotMigrated(row: SqlRow, now: int, document: seq<Size>, stage: Option<KonvaStage>)
    requires row.pageNumber.Null?
    ensures NormalizeSqlRow(row, now).pageNumber == 0
    ensures LegacyToEmbed(NormalizeSqlRow(row, now), document, stage).None?
  {
    LegacyToEmbedNone(NormalizeSqlRow(row, now), document, stage);
  }

  /** What a converted annotation carries: the old id twice, the page
      index, and a subtype that maps back to the old type. */
  lemma LegacyToEmbedShape(a: AnnotationData, document: seq<Size>, stage: Option<KonvaStage>)
    requires LegacyToEmbed(a, document, stage).Some?
    ensures var e := LegacyToEmbed(a, document, stage).value;
      e.id == a.id && e.pageIndex == a.pageNumber - 1
      && e.custom == Some(Custom(LEGACY_ANNOTATION_SOURCE, a.id))
      && EmbedTypeToLegacyType(e.subtype) == Some(a.annotType)
  {
  }

  /** A converted highlight, underline or strike-out has at least one
      segment, one per old rectangle when there are any, all inside its
      box. */
  lemma LegacyToEmbedSegments(a: AnnotationData, document: seq<Size>, stage: Option<KonvaStage>)
    requires LegacyToEmbed(a, document, stage).Some? && a.annotType in MARKUP_TYPES
    ensures var e := LegacyToEmbed(a, document, stage).value;
      e.segmentRects.Some? && |e.segmentRects.value| >= 1
      && (|a.rects| > 0 ==> |e.segmentRects.value| == |a.rects|)
      && forall i :: 0 <= i < |e.segmentRects.value| ==> Contains(e.rect, e.segmentRects.value[i])
  {
    var page := document[a.pageNumber - 1];
    var segs := Segments(a.rects, page);
    var rect := BoxOf(segs, page);
    assert Contains(rect, rect);
  }

  /** Converting an old annotation and back keeps its id, type and page
      number, gives the target project, and keeps the content and the
      (normalized) colour of every type but ink; markup keeps one rectangle
      per segment. */
  lemma RoundTrip(a: AnnotationData, document: seq<Size>, stage: Option<KonvaStage>,
                  projectId: string, inkJson: seq<InkStroke> -> string, now: int)
    requires LegacyToEmbed(a, document, stage).Some?
    ensures var e := LegacyToEmbed(a, document, stage).value;
      var b := EmbedToLegacy(e, projectId, document, inkJson, now);
      b.Some? && b.value.id == a.id && b.value.annotType == a.annotType
      && b.value.pageNumber == a.pageNumber && b.value.projectId == projectId
      && (a.annotType != Ink ==> b.value.content == a.content && b.value.color == NormalizeColor(a.color))
      && (a.annotType in MARKUP_TYPES ==> e.segmentRects.Some? && |b.value.rects| == |e.segmentRects.value|)
  {
    var e := LegacyToEmbed(a, document, stage).value;
    LegacyToEmbedShape(a, document, stage);
    EmbedToLegacyShape(e, projectId, document, inkJson, now);
    EmbedToLegacyFields(e, projectId, document, inkJson, now);
    if a.annotType != Ink {
      LegacyToEmbedFields(a, document, stage);
    }
    if a.annotType in MARKUP_TYPES {
      LegacyToEmbedSegments(a, document, stage);
    }
  }

  /** A converted annotation other than ink keeps its text, and its colour
      sits in the field the way back reads first. */
  lemma LegacyToEmbedFields(a: AnnotationData, document: seq<Size>, stage: Option<KonvaStage>)
    requires LegacyToEmbed(a, document, stage).Some? && a.annotType != Ink
    ensures var e := LegacyToEmbed(a, document, stage).value;
      e.subtype != InkSub
      && (if e.contents.Some? then e.contents.value else "") == a.content
      && (IsMarkup(e.subtype) ==> e.strokeColor == Some(NormalizeColor(a.color)))
      && (!IsMarkup(e.subtype) ==> e.color == Some(NormalizeColor(a.color)))
  {
  }

  /** The way back reads the text from the contents (ink aside) and the
      colour from the stroke colour first for ink and markup, from the
      colour first otherwise. */
  lemma EmbedToLegacyFields(e: EmbedAnnotation, projectId: string, document: seq<Size>,
                            inkJson: seq<InkStroke> -> string, now: int)
    requires EmbedToLegacy(e, projectId, document, inkJson, now).Some?
    ensures var r := EmbedToLegacy(e, projectId, document, inkJson, now).value;
      r.projectId == projectId
      && (r.annotType != Ink ==> r.content == if e.contents.Some? then e.contents.value else "")
      && r.color == if e.subtype == InkSub || IsMarkup(e.subtype) then FirstColor(e.strokeColor, e.color)
                    else FirstColor(e.color, e.strokeColor)
  {
  }

  /** `embedToLegacyAnnotation` gives something exactly for a mapped subtype
      on an existing page; the result has a colour, the page number is the
      index plus one, and markup has one rectangle per segment, everything
      else one rectangle. */
  lemma EmbedToLegacyShape(e: EmbedAnnotation, projectId: string, document: seq<Size>,
                           inkJson: seq<InkStroke> -> string, now: int)
    ensures var r := EmbedToLegacy(e, projectId, document, inkJson, now);
      r.Some? <==> EmbedTypeToLegacyType(e.subtype).Some? && 0 <= e.pageIndex < |document|
    ensures var r := EmbedToLegacy(e, projectId, document, inkJson, now);
      r.Some? ==> (
        r.value.id == e.id && r.value.pageNumber == e.pageIndex + 1 && r.value.color != ""
        && Some(r.value.annotType) == EmbedTypeToLegacyType(e.subtype)
        && (IsMarkup(e.subtype) ==> |r.value.rects| == (if e.segmentRects.Some? then |e.segmentRects.value| else 0))
        && (!IsMarkup(e.subtype) ==> |r.value.rects| == 1))
  {
  }
}
