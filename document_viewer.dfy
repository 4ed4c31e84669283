/** The viewer state of DocumentViewer.tsx that the annotation engine depends
    on: the zoom with its two-finger pinch, the page size found when a document
    loads, the tool settings handed to the canvas, and the annotation list the
    canvas callbacks append to or replace. */
module DocumentViewer {
  import opened Types
  import opened AnnotationCanvas

  const MinZoom: real := 0.4
  const MaxZoom: real := 8.0

  /** The scale at which PDF pages are rasterised. */
  const PdfRenderScale: real := 1.5

  const InitialColor: string := "#4f46e5"
  const InitialThickness: real := 3.0

  /** The highlighter draws at intensity 35; every other tool at 100. */
  function Intensity(tool: Tool): real {
    if tool == Highlighter then 35.0 else 100.0
  }

  /** The opacity a committed stroke gets under the viewer's intensities. */
  lemma StrokeOpacityPerTool(tool: Tool)
    ensures ToolOpacity(tool, Intensity(tool)) == (if tool == Highlighter then 0.35 else 1.0)
    ensures 0.0 < ToolOpacity(tool, Intensity(tool)) <= 1.0
  {
  }

  // ---------------------------------------------------------------------------
  // Zoom

  /** `Math.min(Math.max(z, 0.4), 8)`. */
  function ClampZoom(z: real): (r: real)
    ensures MinZoom <= r <= MaxZoom
    ensures MinZoom <= z <= MaxZoom ==> r == z
    ensures z < MinZoom ==> r == MinZoom
    ensures z > MaxZoom ==> r == MaxZoom
  {
    var lower := if z > MinZoom then z else MinZoom;
    if lower < MaxZoom then lower else MaxZoom
  }

  /** Clamping twice is clamping once, and clamping keeps order. */
  lemma ClampZoomIdempotentMonotone(a: real, b: real)
    ensures ClampZoom(ClampZoom(a)) == ClampZoom(a)
    ensures a <= b ==> ClampZoom(a) <= ClampZoom(b)
  {
  }

  /** The zoom a pinch move sets: the start zoom scaled by how far the fingers
      spread relative to the start, then clamped. */
  function PinchZoom(startZoom: real, startDist: real, curDist: real): (r: real)
    requires startDist > 0.0
    ensures MinZoom <= r <= MaxZoom
  {
    ClampZoom(startZoom * (curDist / startDist))
  }

  /** Fingers back at their starting spread restore the start zoom, once clamped. */
  lemma PinchZoomRestores(startZoom: real, startDist: real)
    requires startDist > 0.0
    ensures PinchZoom(startZoom, startDist, startDist) == ClampZoom(startZoom)
  {
    assert startDist / startDist == 1.0;
  }

  /** Spreading the fingers further never zooms out. */
  lemma PinchZoomMonotone(startZoom: real, startDist: real, d1: real, d2: real)
    requires startDist > 0.0 && startZoom >= 0.0 && d1 <= d2
    ensures PinchZoom(startZoom, startDist, d1) <= PinchZoom(startZoom, startDist, d2)
  {
    var q1 := d1 / startDist;
    var q2 := d2 / startDist;
    QuotientMonotone(d1, d2, startDist);
    ProductMonotone(startZoom, q1, q2);
    ClampZoomIdempotentMonotone(startZoom * q1, startZoom * q2);
  }

  lemma QuotientMonotone(a: real, b: real, c: real)
    requires c > 0.0 && a <= b
    ensures a / c <= b / c
  {
  }

  lemma ProductMonotone(k: real, a: real, b: real)
    requires k >= 0.0 && a <= b
    ensures k * a <= k * b
  {
  }

  /** `d` is what `Math.hypot` returns for the first two touches' page positions. */
  predicate IsSpread(touches: seq<Point>, d: real)
    requires |touches| >= 2
  {
    var dx := touches[0].x - touches[1].x;
    var dy := touches[0].y - touches[1].y;
    d >= 0.0 && d * d == dx * dx + dy * dy
  }

  // ---------------------------------------------------------------------------
  // Page size

  /** A PDF page's size at scale 1, and whether a 2D context could be obtained
      for rasterising it (pages without one are skipped). */
  datatype PdfPage = PdfPage(width: real, height: real, hasContext: bool)

  /** Width of the page's viewport at the render scale. */
  function ViewportWidth(p: PdfPage): real { p.width * PdfRenderScale }

  function ViewportHeight(p: PdfPage): real { p.height * PdfRenderScale }

  /** `maxWidth` after the page loop: the widest rendered viewport, starting from 0. */
  function WidestViewport(pages: seq<PdfPage>): real {
    if pages == [] then 0.0
    else
      var w := WidestViewport(pages[..|pages| - 1]);
      var last := pages[|pages| - 1];
      if !last.hasContext then w
      else if w >= ViewportWidth(last) then w else ViewportWidth(last)
  }

  /** `totalHeight` after the page loop: the rendered viewports stacked. */
  function StackedHeight(pages: seq<PdfPage>): real {
    if pages == [] then 0.0
    else
      var last := pages[|pages| - 1];
      StackedHeight(pages[..|pages| - 1]) + (if last.hasContext then ViewportHeight(last) else 0.0)
  }

  /** The 1-based numbers of the rendered pages, in order (one image each). */
  function RenderedPages(pages: seq<PdfPage>): seq<nat> {
    if pages == [] then []
    else
      RenderedPages(pages[..|pages| - 1])
      + (if pages[|pages| - 1].hasContext then [|pages|] else [])
  }

  /** Widest width of the rendered pages at scale 1 (0 when none is rendered). */
  predicate IsWidestPage(pages: seq<PdfPage>, w: real) {
    && w >= 0.0
    && (forall i :: 0 <= i < |pages| && pages[i].hasContext ==> pages[i].width <= w)
    && (w == 0.0 || exists i :: 0 <= i < |pages| && pages[i].hasContext && pages[i].width == w)
  }

  /** The base width is the widest rendered page at scale 1: the render scale cancels. */
  lemma {:induction false} BaseWidthIsWidestPage(pages: seq<PdfPage>)
    ensures IsWidestPage(pages, WidestViewport(pages) / PdfRenderScale)
  {
    if pages != [] {
      var init := pages[..|pages| - 1];
      BaseWidthIsWidestPage(init);
      assert forall i :: 0 <= i < |init| ==> init[i] == pages[i];
      var w := WidestViewport(init) / PdfRenderScale;
      if w == 0.0 {
      } else {
        var j :| 0 <= j < |init| && init[j].hasContext && init[j].width == w;
        assert pages[j].hasContext && pages[j].width == w;
      }
    }
  }

  // ---------------------------------------------------------------------------
  // The viewer

  /** The call `onSaveAnnotations(docId, list)`. */
  datatype SaveCall = SaveCall(docId: string, annotations: seq<Annotation>)

  class Viewer {
    const documentId: string
    var zoom: real
    var tool: Tool
    var color: string
    var thickness: real
    var annotations: seq<Annotation>
    var loading: bool
    var viewW: real
    var viewH: real
    var renderedPages: seq<nat>
    /** `startDistRef`: the finger spread at the last two-finger start, if any. */
    var startDist: Option<real>
    /** `startZoomRef`. */
    var startZoom: real

    /** The zoom stays positive (the canvas divides by it) and a recorded
        start spread is positive (the pinch divides by it). */
    ghost predicate Valid()
      reads this
    {
      zoom > 0.0 && (startDist.Some? ==> startDist.value > 0.0)
    }

    constructor (doc: DocumentData)
      ensures Valid()
      ensures documentId == doc.id && annotations == doc.annotations
      ensures zoom == 1.0 && tool == Scroll && color == InitialColor && thickness == InitialThickness
      ensures loading && viewW == 0.0 && viewH == 0.0 && renderedPages == []
      ensures startDist == None && startZoom == 1.0
    {
      documentId := doc.id;
      zoom := 1.0;
      tool := Scroll;
      color := InitialColor;
      thickness := InitialThickness;
      annotations := doc.annotations;
      loading := true;
      viewW, viewH := 0.0, 0.0;
      renderedPages := [];
      startDist := None;
      startZoom := 1.0;
    }

    /** The props handed to the annotation canvas. */
    function Props(): CanvasProps
      reads this
    {
      CanvasProps(viewW * zoom, viewH * zoom, annotations, true, tool, color, thickness,
                  Intensity(tool), zoom)
    }

    /** A PDF finished loading: sizes from the rendered pages; the zoom fits
        the window width and is not clamped. */
    method LoadPdf(pages: seq<PdfPage>, innerWidth: real)
      requires Valid()
      requires innerWidth > 0.0 && WidestViewport(pages) > 0.0
      modifies this
      ensures Valid()
      ensures renderedPages == RenderedPages(pages)
      ensures viewW == WidestViewport(pages) / PdfRenderScale
      ensures viewH == StackedHeight(pages) / PdfRenderScale
      ensures zoom == innerWidth / viewW
      ensures !loading
      ensures annotations == old(annotations) && tool == old(tool)
      ensures startDist == old(startDist) && startZoom == old(startZoom)
      ensures color == old(color) && thickness == old(thickness)
    {
      var rendered: seq<nat> := [];
      var maxWidth := 0.0;
      var totalHeight := 0.0;
      var i := 0;
      while i < |pages|
        invariant 0 <= i <= |pages|
        invariant rendered == RenderedPages(pages[..i])
        invariant maxWidth == WidestViewport(pages[..i])
        invariant totalHeight == StackedHeight(pages[..i])
      {
        var page := pages[i];
        assert pages[..i + 1][..i] == pages[..i];
        if page.hasContext {
          rendered := rendered + [i + 1];
          maxWidth := if maxWidth >= ViewportWidth(page) then maxWidth else ViewportWidth(page);
          totalHeight := totalHeight + ViewportHeight(page);
        }
        i := i + 1;
      }
      assert pages[..i] == pages;
      var baseW := maxWidth / PdfRenderScale;
      renderedPages := rendered;
      viewW, viewH := baseW, totalHeight / PdfRenderScale;
      zoom := innerWidth / baseW;
      loading := false;
    }

    /** An image finished loading: its natural size; the zoom fits the window width. */
    method LoadImage(imgW: real, imgH: real, innerWidth: real)
      requires Valid()
      requires innerWidth > 0.0 && imgW > 0.0
      modifies this
      ensures Valid()
      ensures viewW == imgW && viewH == imgH && zoom == innerWidth / imgW && !loading
      ensures annotations == old(annotations) && tool == old(tool) && renderedPages == old(renderedPages)
      ensures startDist == old(startDist) && startZoom == old(startZoom)
      ensures color == old(color) && thickness == old(thickness)
    {
      viewW, viewH := imgW, imgH;
      zoom := innerWidth / imgW;
      loading := false;
    }

    /** The `finally` of the load: only the spinner goes away. It runs after a
        failure, and for an image as soon as its source is set, before the
        image has loaded. */
    method LoadSettled()
      modifies this
      ensures !loading
      ensures zoom == old(zoom) && viewW == old(viewW) && viewH == old(viewH)
      ensures annotations == old(annotations) && renderedPages == old(renderedPages)
      ensures tool == old(tool) && startDist == old(startDist) && startZoom == old(startZoom)
      ensures color == old(color) && thickness == old(thickness)
    {
      loading := false;
    }

    method SetTool(t: Tool)
      modifies this
      ensures tool == t
      ensures zoom == old(zoom) && annotations == old(annotations) && color == old(color)
      ensures thickness == old(thickness) && startDist == old(startDist) && startZoom == old(startZoom)
      ensures loading == old(loading) && viewW == old(viewW) && viewH == old(viewH)
      ensures renderedPages == old(renderedPages)
    {
      tool := t;
    }

    /** Touch start: two touches record the spread and the current zoom;
        any other count changes nothing. `d` is the spread of the first two. */
    method TouchStart(touches: seq<Point>, d: real)
      requires Valid()
      requires |touches| == 2 ==> IsSpread(touches, d) && d > 0.0
      modifies this
      ensures Valid()
      ensures |touches| == 2 ==> startDist == Some(d) && startZoom == old(zoom)
      ensures |touches| != 2 ==> startDist == old(startDist) && startZoom == old(startZoom)
      ensures zoom == old(zoom) && annotations == old(annotations) && tool == old(tool)
      ensures color == old(color) && thickness == old(thickness) && loading == old(loading)
      ensures viewW == old(viewW) && viewH == old(viewH) && renderedPages == old(renderedPages)
    {
      if |touches| == 2 {
        startDist := Some(d);
        startZoom := zoom;
      }
    }

    /** Touch move: with two touches and a recorded start, the zoom follows the
        pinch, clamped to [0.4, 8]; otherwise nothing changes. */
    method TouchMove(touches: seq<Point>, d: real)
      requires Valid()
      requires |touches| == 2 ==> IsSpread(touches, d)
      modifies this
      ensures Valid()
      ensures |touches| == 2 && startDist.Some? ==>
        zoom == PinchZoom(startZoom, startDist.value, d) && MinZoom <= zoom <= MaxZoom
      ensures !(|touches| == 2 && startDist.Some?) ==> zoom == old(zoom)
      ensures startDist == old(startDist) && startZoom == old(startZoom)
      ensures annotations == old(annotations) && tool == old(tool)
      ensures color == old(color) && thickness == old(thickness) && loading == old(loading)
      ensures viewW == old(viewW) && viewH == old(viewH) && renderedPages == old(renderedPages)
    {
      if |touches| == 2 && startDist.Some? {
        zoom := PinchZoom(startZoom, startDist.value, d);
      }
    }

    /** Touch end forgets the start spread. */
    method TouchEnd()
      requires Valid()
      modifies this
      ensures Valid()
      ensures startDist == None
      ensures zoom == old(zoom) && startZoom == old(startZoom)
      ensures annotations == old(annotations) && tool == old(tool)
      ensures color == old(color) && thickness == old(thickness) && loading == old(loading)
      ensures viewW == old(viewW) && viewH == old(viewH) && renderedPages == old(renderedPages)
    {
      startDist := None;
    }

    /** `onAddAnnotation`: append, and save the same list. */
    method AddAnnotation(ann: Annotation) returns (saved: SaveCall)
      modifies this
      ensures annotations == old(annotations) + [ann]
      ensures saved == SaveCall(documentId, annotations)
      ensures zoom == old(zoom) && tool == old(tool) && startDist == old(startDist)
      ensures startZoom == old(startZoom) && color == old(color) && thickness == old(thickness)
      ensures loading == old(loading) && viewW == old(viewW) && viewH == old(viewH)
      ensures renderedPages == old(renderedPages)
    {
      annotations := annotations + [ann];
      saved := SaveCall(documentId, annotations);
    }

    /** `onUpdateAnnotations`: replace the list wholesale, and save it. */
    method UpdateAnnotations(anns: seq<Annotation>) returns (saved: SaveCall)
      modifies this
      ensures annotations == anns
      ensures saved == SaveCall(documentId, anns)
      ensures zoom == old(zoom) && tool == old(tool) && startDist == old(startDist)
      ensures startZoom == old(startZoom) && color == old(color) && thickness == old(thickness)
      ensures loading == old(loading) && viewW == old(viewW) && viewH == old(viewH)
      ensures renderedPages == old(renderedPages)
    {
      annotations := anns;
      saved := SaveCall(documentId, anns);
    }

    /** A press on the canvas, with the canvas's eraser update applied here. */
    method CanvasPress(c: Canvas, e: InputEvent, rect: Option<Point>) returns (saved: Option<SaveCall>)
      requires Valid() && c.Valid()
      requires e.Touch? ==> |e.touches| > 0
      modifies this, c
      ensures Valid() && c.Valid()
      ensures tool == Scroll ==> c.isDrawing == old(c.isDrawing) && c.currentPoints == old(c.currentPoints)
      ensures tool != Scroll ==> c.isDrawing
      ensures (tool == Pen || tool == Highlighter) ==> c.currentPoints == [GetPos(e, rect, zoom)]
      ensures tool == Eraser ==>
        var pos := GetPos(e, rect, zoom);
        && c.currentPoints == old(c.currentPoints)
        && annotations == Erase(old(annotations), pos)
        && (saved.Some? <==> |annotations| < |old(annotations)|)
      ensures tool != Eraser ==> annotations == old(annotations) && saved == None
      ensures saved.Some? ==> saved.value == SaveCall(documentId, annotations)
      ensures zoom == old(zoom) && tool == old(tool) && color == old(color) && thickness == old(thickness)
      ensures startDist == old(startDist) && startZoom == old(startZoom) && loading == old(loading)
      ensures viewW == old(viewW) && viewH == old(viewH) && renderedPages == old(renderedPages)
    {
      var updated := c.StartDrawing(Props(), e, rect);
      saved := None;
      if updated.Some? {
        var s := UpdateAnnotations(updated.value);
        saved := Some(s);
      }
      if tool == Eraser {
        var pos := GetPos(e, rect, zoom);
        EraseShrinksIffHit(old(annotations), pos);
      }
    }

    /** A release on the canvas: a committed stroke is appended and saved. */
    method CanvasRelease(c: Canvas, freshId: string) returns (saved: Option<SaveCall>)
      requires Valid() && c.Valid()
      modifies this, c
      ensures Valid() && c.Valid()
      ensures !c.isDrawing && c.currentPoints == []
      ensures saved.Some? <==> old(c.isDrawing) && |old(c.currentPoints)| > 1 && tool != Eraser
      ensures saved.Some? ==>
        annotations == old(annotations) + [StrokeOf(freshId, old(Props()), old(c.currentPoints))] &&
        saved.value == SaveCall(documentId, annotations)
      ensures saved.None? ==> annotations == old(annotations)
      ensures zoom == old(zoom) && tool == old(tool) && color == old(color) && thickness == old(thickness)
      ensures startDist == old(startDist) && startZoom == old(startZoom) && loading == old(loading)
      ensures viewW == old(viewW) && viewH == old(viewH) && renderedPages == old(renderedPages)
    {
      var added := c.EndDrawing(Props(), freshId);
      saved := None;
      if added.Some? {
        var s := AddAnnotation(added.value);
        saved := Some(s);
      }
    }
  }
}
