/** The freehand annotation engine of AnnotationCanvas.tsx: mouse and touch events are
    turned into strokes by a two-field state machine (`isDrawing`,
    `currentPoints`), the eraser filters whole strokes out of the list, and
    `drawAll` replays the stroke list as canvas calls. */
module AnnotationCanvas {
  import opened Types

  /** Eraser radius, in document units. */
  const EraseThreshold: real := 15.0

  /** A mouse event carries one client position; a touch event a list of them. */
  datatype InputEvent = Mouse(client: Point) | Touch(touches: seq<Point>)

  /** The props the canvas receives from the viewer. `hasUpdateCallback` says
      whether the optional `onUpdateAnnotations` was supplied. */
  datatype CanvasProps = CanvasProps(
    width: real,
    height: real,
    annotations: seq<Annotation>,
    hasUpdateCallback: bool,
    tool: Tool,
    color: string,
    thickness: real,
    intensity: real,
    scale: real)

  // ---------------------------------------------------------------------------
  // Positions

  /** The client position an event reports: the first touch when there is one. */
  function ClientPoint(e: InputEvent): Point
    requires e.Touch? ==> |e.touches| > 0
  {
    if e.Touch? then e.touches[0] else e.client
  }

  /** Maps a client position to document space. `rect` is the canvas's
      top-left corner on screen, or None while the canvas is not mounted. */
  function GetPos(e: InputEvent, rect: Option<Point>, scale: real): (p: Point)
    requires scale > 0.0
    requires e.Touch? ==> |e.touches| > 0
    ensures rect.None? ==> p == Point(0.0, 0.0)
    ensures rect.Some? ==>
      p.x * scale + rect.value.x == ClientPoint(e).x &&
      p.y * scale + rect.value.y == ClientPoint(e).y
  {
    match rect
    case None => Point(0.0, 0.0)
    case Some(origin) =>
      var c := ClientPoint(e);
      Point((c.x - origin.x) / scale, (c.y - origin.y) / scale)
  }

  /** Only the first touch counts: the rest of the touch list is ignored. */
  lemma GetPosUsesFirstTouch(t: seq<Point>, u: seq<Point>, rect: Option<Point>, scale: real)
    requires scale > 0.0
    requires |t| > 0 && |u| > 0 && t[0] == u[0]
    ensures GetPos(Touch(t), rect, scale) == GetPos(Touch(u), rect, scale)
    ensures GetPos(Touch(t), rect, scale) == GetPos(Mouse(t[0]), rect, scale)
  {
  }

  // ---------------------------------------------------------------------------
  // Eraser

  /** `p` lies strictly within the eraser radius of `pos` (the source compares
      the square root of the left side with 15). */
  predicate Near(p: Point, pos: Point) {
    (p.x - pos.x) * (p.x - pos.x) + (p.y - pos.y) * (p.y - pos.y) < EraseThreshold * EraseThreshold
  }

  /** Some point of the stroke is near `pos`. */
  predicate Hits(ann: Annotation, pos: Point) {
    exists i :: 0 <= i < |ann.points| && Near(ann.points[i], pos)
  }

  /** The strokes that survive an eraser touch at `pos`, in their original order. */
  function Erase(anns: seq<Annotation>, pos: Point): (r: seq<Annotation>)
    ensures |r| <= |anns|
  {
    if anns == [] then []
    else (if Hits(anns[0], pos) then [] else [anns[0]]) + Erase(anns[1..], pos)
  }

  /** A stroke survives exactly when it was there and is not hit. */
  lemma {:induction false} EraseMembers(anns: seq<Annotation>, pos: Point)
    ensures forall a :: a in Erase(anns, pos) <==> a in anns && !Hits(a, pos)
  {
    if anns != [] {
      EraseMembers(anns[1..], pos);
      assert anns == [anns[0]] + anns[1..];
    }
  }

  /** Erasing distributes over concatenation, so the filter keeps list order. */
  lemma {:induction false} EraseAppend(a: seq<Annotation>, b: seq<Annotation>, pos: Point)
    ensures Erase(a + b, pos) == Erase(a, pos) + Erase(b, pos)
  {
    if a == [] {
      assert a + b == b;
    } else {
      assert (a + b)[1..] == a[1..] + b;
      EraseAppend(a[1..], b, pos);
    }
  }

  /** The list shrinks exactly when some stroke is hit; otherwise it is returned as is. */
  lemma {:induction false} EraseShrinksIffHit(anns: seq<Annotation>, pos: Point)
    ensures |Erase(anns, pos)| < |anns| <==> exists i :: 0 <= i < |anns| && Hits(anns[i], pos)
    ensures (forall i :: 0 <= i < |anns| ==> !Hits(anns[i], pos)) ==> Erase(anns, pos) == anns
  {
    if anns != [] {
      EraseShrinksIffHit(anns[1..], pos);
      if exists i :: 0 <= i < |anns| && Hits(anns[i], pos) {
        var i :| 0 <= i < |anns| && Hits(anns[i], pos);
        if i > 0 {
          assert anns[1..][i - 1] == anns[i];
        }
      }
      if forall i :: 0 <= i < |anns| ==> !Hits(anns[i], pos) {
        assert forall i :: 0 <= i < |anns[1..]| ==> anns[1..][i] == anns[i + 1];
        assert anns == [anns[0]] + anns[1..];
      }
    }
  }

  /** A second touch at the same place erases nothing more. */
  lemma {:induction false} EraseIdempotent(anns: seq<Annotation>, pos: Point)
    ensures Erase(Erase(anns, pos), pos) == Erase(anns, pos)
  {
    if anns != [] {
      var rest := Erase(anns[1..], pos);
      EraseIdempotent(anns[1..], pos);
      if Hits(anns[0], pos) {
        assert Erase(anns, pos) == [] + rest == rest;
      } else {
        var e := Erase(anns, pos);
        assert e == [anns[0]] + rest;
        assert e[0] == anns[0] && e[1..] == rest;
        assert Erase(e, pos) == [anns[0]] + Erase(rest, pos);
      }
    }
  }

  /** The list handed to `onUpdateAnnotations` by one eraser touch, or None
      when the callback is absent or nothing was hit (no call is made). */
  function HandleErase(anns: seq<Annotation>, pos: Point, hasCallback: bool): (r: Option<seq<Annotation>>)
    ensures r.Some? <==> hasCallback && exists i :: 0 <= i < |anns| && Hits(anns[i], pos)
    ensures r.Some? ==> r.value == Erase(anns, pos) && |r.value| < |anns|
  {
    EraseShrinksIffHit(anns, pos);
    if !hasCallback then None
    else
      var kept := Erase(anns, pos);
      if |kept| != |anns| then Some(kept) else None
  }

  // ---------------------------------------------------------------------------
  // Committed strokes

  /** `type` of a committed stroke. */
  function ToolKind(tool: Tool): AnnotationKind {
    if tool == Highlighter then Highlight else Draw
  }

  /** `opacity` of a committed (or previewed) stroke. */
  function ToolOpacity(tool: Tool, intensity: real): real {
    if tool == Highlighter then intensity / 100.0 else 1.0
  }

  /** The annotation `endDrawing` commits, with the opaque fresh id `id`. */
  function StrokeOf(id: string, props: CanvasProps, points: seq<Point>): Annotation {
    Annotation(id, ToolKind(props.tool), points, props.color, props.thickness,
               ToolOpacity(props.tool, props.intensity))
  }

  // ---------------------------------------------------------------------------
  // The drawing state machine

  class Canvas {
    var isDrawing: bool
    var currentPoints: seq<Point>

    /** Outside a gesture the buffer is empty. */
    ghost predicate Valid()
      reads this
    {
      !isDrawing ==> currentPoints == []
    }

    constructor ()
      ensures Valid()
      ensures !isDrawing && currentPoints == []
    {
      isDrawing := false;
      currentPoints := [];
    }

    /** Mouse-down / touch-start. Returns the list passed to `onUpdateAnnotations`, if any. */
    method StartDrawing(props: CanvasProps, e: InputEvent, rect: Option<Point>)
      returns (updated: Option<seq<Annotation>>)
      requires Valid()
      requires props.scale > 0.0
      requires e.Touch? ==> |e.touches| > 0
      modifies this
      ensures Valid()
      ensures props.tool == Scroll ==>
        isDrawing == old(isDrawing) && currentPoints == old(currentPoints) && updated == None
      ensures props.tool != Scroll ==> isDrawing
      ensures props.tool == Eraser ==>
        currentPoints == old(currentPoints) &&
        updated == HandleErase(props.annotations, GetPos(e, rect, props.scale), props.hasUpdateCallback)
      ensures (props.tool == Pen || props.tool == Highlighter) ==>
        currentPoints == [GetPos(e, rect, props.scale)] && updated == None
    {
      updated := None;
      if props.tool == Scroll {
        return;
      }
      isDrawing := true;
      var pos := GetPos(e, rect, props.scale);
      if props.tool == Eraser {
        updated := HandleErase(props.annotations, pos, props.hasUpdateCallback);
      } else {
        currentPoints := [pos];
      }
    }

    /** Mouse-move / touch-move. Returns the list passed to `onUpdateAnnotations`, if any. */
    method MoveDrawing(props: CanvasProps, e: InputEvent, rect: Option<Point>)
      returns (updated: Option<seq<Annotation>>)
      requires Valid()
      requires props.scale > 0.0
      requires e.Touch? ==> |e.touches| > 0
      modifies this
      ensures Valid()
      ensures isDrawing == old(isDrawing)
      ensures !old(isDrawing) ==> currentPoints == old(currentPoints) && updated == None
      ensures old(isDrawing) && props.tool == Eraser ==>
        currentPoints == old(currentPoints) &&
        updated == HandleErase(props.annotations, GetPos(e, rect, props.scale), props.hasUpdateCallback)
      ensures old(isDrawing) && props.tool != Eraser ==>
        currentPoints == old(currentPoints) + [GetPos(e, rect, props.scale)] && updated == None
    {
      updated := None;
      if !isDrawing {
        return;
      }
      var pos := GetPos(e, rect, props.scale);
      if props.tool == Eraser {
        updated := HandleErase(props.annotations, pos, props.hasUpdateCallback);
      } else {
        currentPoints := currentPoints + [pos];
      }
    }

    /** Mouse-up / mouse-leave / touch-end. Returns the annotation passed to
        `onAddAnnotation`, if any; `freshId` stands for the generated id. */
    method EndDrawing(props: CanvasProps, freshId: string) returns (added: Option<Annotation>)
      requires Valid()
      modifies this
      ensures Valid()
      ensures !old(isDrawing) ==> currentPoints == old(currentPoints) && !isDrawing && added == None
      ensures old(isDrawing) ==> !isDrawing && currentPoints == []
      ensures added.Some? <==> old(isDrawing) && |old(currentPoints)| > 1 && props.tool != Eraser
      ensures added.Some? ==>
        added.value.id == freshId &&
        added.value.points == old(currentPoints) &&
        (added.value.kind == Highlight <==> props.tool == Highlighter) &&
        added.value.color == props.color &&
        added.value.width == props.thickness &&
        added.value.opacity == (if props.tool == Highlighter then props.intensity / 100.0 else 1.0)
    {
      added := None;
      if !isDrawing {
        return;
      }
      isDrawing := false;
      if |currentPoints| > 1 && props.tool != Eraser {
        added := Some(StrokeOf(freshId, props, currentPoints));
      }
      currentPoints := [];
    }

    /** The canvas calls `drawAll` issues for the current props and state. */
    method DrawAll(props: CanvasProps) returns (calls: seq<DrawCall>)
      ensures calls == [ClearRect(props.width, props.height)]
                       + Rendered(props.annotations, props.scale)
                       + Preview(props, isDrawing, currentPoints)
    {
      var strokes: seq<DrawCall> := [];
      var k := 0;
      while k < |props.annotations|
        invariant 0 <= k <= |props.annotations|
        invariant strokes == Rendered(props.annotations[..k], props.scale)
      {
        var ann := props.annotations[k];
        var drawn: seq<DrawCall> := [];
        if |ann.points| >= 2 {
          drawn := TraceStroke(ann.color, LineWidth(ann.width, props.scale), ann.opacity, ann.points, props.scale);
        }
        RenderedStep(props.annotations, k, props.scale);
        strokes := strokes + drawn;
        k := k + 1;
      }
      assert props.annotations[..k] == props.annotations;
      var preview: seq<DrawCall> := [];
      if isDrawing && |currentPoints| > 1 && props.tool != Eraser {
        preview := TraceStroke(props.color, LineWidth(props.thickness, props.scale),
                               ToolOpacity(props.tool, props.intensity), currentPoints, props.scale);
      }
      calls := [ClearRect(props.width, props.height)] + strokes + preview;
    }
  }

  /** One stroke: open a path with its style, trace it, stroke it. */
  method TraceStroke(color: string, lineWidth: real, alpha: real, points: seq<Point>, scale: real)
    returns (calls: seq<DrawCall>)
    requires |points| > 0
    ensures calls == StrokeCalls(color, lineWidth, alpha, points, scale)
  {
    var path := TracePath(points, scale);
    calls := [BeginPath(color, lineWidth, alpha)] + path + [StrokePath];
  }

  /** One point-list traced as `moveTo` then `lineTo`s, each point scaled. */
  method TracePath(points: seq<Point>, scale: real) returns (calls: seq<DrawCall>)
    requires |points| > 0
    ensures calls == PathCalls(points, scale)
  {
    calls := [MoveTo(Scaled(points[0], scale))];
    var i := 1;
    assert points[..1] == [points[0]];
    while i < |points|
      invariant 1 <= i <= |points|
      invariant calls == PathCalls(points[..i], scale)
    {
      assert points[..i + 1][..i] == points[..i];
      assert points[..i + 1][i] == points[i];
      assert PathCalls(points[..i + 1], scale)
          == PathCalls(points[..i], scale) + [LineTo(Scaled(points[i], scale))];
      calls := calls + [LineTo(Scaled(points[i], scale))];
      i := i + 1;
    }
    assert points[..i] == points;
  }

  // ---------------------------------------------------------------------------
  // Rendering

  /** The 2D-context calls that matter for what is drawn and in which order.
      `BeginPath` carries the stroke style, line width and alpha set after it. */
  datatype DrawCall =
    | ClearRect(w: real, h: real)
    | BeginPath(strokeStyle: string, lineWidth: real, globalAlpha: real)
    | MoveTo(to: Point)
    | LineTo(to: Point)
    | StrokePath

  /** A document-space stroke width in canvas pixels. */
  function LineWidth(width: real, scale: real): real {
    width * scale
  }

  /** A document-space point in canvas pixels. */
  function Scaled(p: Point, scale: real): Point {
    Point(p.x * scale, p.y * scale)
  }

  /** `moveTo` the first point, then `lineTo` each later one, in order. */
  function PathCalls(points: seq<Point>, scale: real): seq<DrawCall>
    requires |points| > 0
  {
    if |points| == 1 then [MoveTo(Scaled(points[0], scale))]
    else
      var last := points[|points| - 1];
      PathCalls(points[..|points| - 1], scale) + [LineTo(Scaled(last, scale))]
  }

  /** The calls for one stroke. */
  function StrokeCalls(color: string, lineWidth: real, alpha: real, points: seq<Point>, scale: real): seq<DrawCall>
    requires |points| > 0
  {
    [BeginPath(color, lineWidth, alpha)] + PathCalls(points, scale) + [StrokePath]
  }

  /** The calls for the committed strokes, in list order; strokes with fewer
      than two points draw nothing. */
  function Rendered(anns: seq<Annotation>, scale: real): seq<DrawCall> {
    if anns == [] then []
    else
      Rendered(anns[..|anns| - 1], scale) + Drawn(anns[|anns| - 1], scale)
  }

  /** The calls for one committed stroke: nothing below two points. */
  function Drawn(ann: Annotation, scale: real): seq<DrawCall> {
    if |ann.points| < 2 then []
    else StrokeCalls(ann.color, LineWidth(ann.width, scale), ann.opacity, ann.points, scale)
  }

  /** The preview of the stroke in progress: only while drawing, with at least
      two points, and never for the eraser. */
  function Preview(props: CanvasProps, isDrawing: bool, points: seq<Point>): seq<DrawCall> {
    if isDrawing && |points| > 1 && props.tool != Eraser then
      StrokeCalls(props.color, LineWidth(props.thickness, props.scale),
                  ToolOpacity(props.tool, props.intensity), points, props.scale)
    else []
  }

  /** Rendering one more stroke of the list appends that stroke's calls. */
  lemma RenderedStep(anns: seq<Annotation>, k: nat, scale: real)
    requires k < |anns|
    ensures Rendered(anns[..k + 1], scale) == Rendered(anns[..k], scale) + Drawn(anns[k], scale)
  {
    assert anns[..k + 1][..k] == anns[..k];
  }

  /** A path call list holds one `moveTo` and one `lineTo` per further point. */
  lemma {:induction false} PathCallsShape(points: seq<Point>, scale: real)
    requires |points| > 0
    ensures |PathCalls(points, scale)| == |points|
    ensures PathCalls(points, scale)[0] == MoveTo(Scaled(points[0], scale))
    ensures forall i :: 1 <= i < |points| ==>
      PathCalls(points, scale)[i] == LineTo(Scaled(points[i], scale))
  {
    if |points| > 1 {
      var init := points[..|points| - 1];
      PathCallsShape(init, scale);
      assert forall i :: 0 <= i < |init| ==> init[i] == points[i];
    }
  }

  /** Number of `stroke()` calls in a call list. */
  function StrokeCount(calls: seq<DrawCall>): nat {
    if calls == [] then 0
    else StrokeCount(calls[..|calls| - 1]) + (if calls[|calls| - 1] == StrokePath then 1 else 0)
  }

  lemma {:induction false} StrokeCountAppend(a: seq<DrawCall>, b: seq<DrawCall>)
    ensures StrokeCount(a + b) == StrokeCount(a) + StrokeCount(b)
  {
    if b == [] {
      assert a + b == a;
    } else {
      assert (a + b)[..|a + b| - 1] == a + b[..|b| - 1];
      StrokeCountAppend(a, b[..|b| - 1]);
    }
  }

  lemma {:induction false} PathCallsHaveNoStroke(points: seq<Point>, scale: real)
    requires |points| > 0
    ensures StrokeCount(PathCalls(points, scale)) == 0
  {
    if |points| > 1 {
      var last := points[|points| - 1];
      PathCallsHaveNoStroke(points[..|points| - 1], scale);
      StrokeCountAppend(PathCalls(points[..|points| - 1], scale), [LineTo(Scaled(last, scale))]);
    }
  }

  /** The strokes with at least two points, in list order. */
  function Drawable(anns: seq<Annotation>): seq<Annotation> {
    if anns == [] then []
    else
      var last := anns[|anns| - 1];
      Drawable(anns[..|anns| - 1]) + (if |last.points| < 2 then [] else [last])
  }

  /** Exactly one `stroke()` per drawable annotation. */
  lemma {:induction false} RenderedStrokeCount(anns: seq<Annotation>, scale: real)
    ensures StrokeCount(Rendered(anns, scale)) == |Drawable(anns)|
  {
    if anns != [] {
      var last := anns[|anns| - 1];
      RenderedStrokeCount(anns[..|anns| - 1], scale);
      StrokeCountAppend(Rendered(anns[..|anns| - 1], scale), Drawn(last, scale));
      if |last.points| >= 2 {
        var begin := [BeginPath(last.color, LineWidth(last.width, scale), last.opacity)];
        var body := PathCalls(last.points, scale);
        PathCallsHaveNoStroke(last.points, scale);
        assert StrokeCount(begin) == 0;
        assert StrokeCount([StrokePath]) == 1;
        StrokeCountAppend(begin, body);
        StrokeCountAppend(begin + body, [StrokePath]);
        assert Drawn(last, scale) == begin + body + [StrokePath];
        assert StrokeCount(Drawn(last, scale)) == 1;
      } else {
        assert Drawn(last, scale) == [];
      }
    }
  }

  /** Skipped strokes leave no trace: rendering the drawable strokes alone gives the same calls. */
  lemma {:induction false} RenderedSkipsShort(anns: seq<Annotation>, scale: real)
    ensures Rendered(Drawable(anns), scale) == Rendered(anns, scale)
  {
    if anns != [] {
      var init := anns[..|anns| - 1];
      var last := anns[|anns| - 1];
      RenderedSkipsShort(init, scale);
      if |last.points| >= 2 {
        var d := Drawable(init) + [last];
        assert d[..|d| - 1] == Drawable(init) && d[|d| - 1] == last;
        assert Rendered(d, scale) == Rendered(Drawable(init), scale) + Drawn(last, scale);
      } else {
        assert Drawable(anns) == Drawable(init);
        assert Drawn(last, scale) == [];
      }
    }
  }

  /** Strokes are drawn in list order: the calls for `a + b` are those for `a`, then those for `b`. */
  lemma {:induction false} RenderedAppend(a: seq<Annotation>, b: seq<Annotation>, scale: real)
    ensures Rendered(a + b, scale) == Rendered(a, scale) + Rendered(b, scale)
  {
    if b == [] {
      assert a + b == a;
    } else {
      var init := b[..|b| - 1];
      var last := b[|b| - 1];
      assert b == init + [last];
      assert a + b == (a + init) + [last];
      RenderedSnoc(a + init, last, scale);
      RenderedSnoc(init, last, scale);
      RenderedAppend(a, init, scale);
      CallsAssociate(Rendered(a, scale), Rendered(init, scale), Drawn(last, scale));
    }
  }

  lemma CallsAssociate(x: seq<DrawCall>, y: seq<DrawCall>, z: seq<DrawCall>)
    ensures (x + y) + z == x + (y + z)
  {
  }

  lemma RenderedSnoc(init: seq<Annotation>, last: Annotation, scale: real)
    ensures Rendered(init + [last], scale) == Rendered(init, scale) + Drawn(last, scale)
  {
    assert (init + [last])[..|init|] == init;
  }

  // ---------------------------------------------------------------------------
  // Gestures

  /** A stroke drawn with two moves is committed with its three points in order. */
  method StrokeGesture(props: CanvasProps, rect: Option<Point>, p0: Point, p1: Point, p2: Point, id: string)
    returns (added: Option<Annotation>)
    requires props.scale > 0.0 && props.tool == Pen
    ensures added.Some?
    ensures added.value.points == [GetPos(Mouse(p0), rect, props.scale),
                                   GetPos(Mouse(p1), rect, props.scale),
                                   GetPos(Mouse(p2), rect, props.scale)]
    ensures added.value.kind == Draw && added.value.opacity == 1.0
  {
    var c := new Canvas();
    var _ := c.StartDrawing(props, Mouse(p0), rect);
    var _ := c.MoveDrawing(props, Mouse(p1), rect);
    var _ := c.MoveDrawing(props, Mouse(p2), rect);
    added := c.EndDrawing(props, id);
  }

  /** A tap (press and release without a move) commits nothing. */
  method TapGesture(props: CanvasProps, rect: Option<Point>, p: Point, id: string)
    returns (added: Option<Annotation>)
    requires props.scale > 0.0
    ensures added == None
  {
    var c := new Canvas();
    var _ := c.StartDrawing(props, Mouse(p), rect);
    added := c.EndDrawing(props, id);
  }
}
