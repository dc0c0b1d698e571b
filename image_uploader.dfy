/** The image panel of components/ImageUploader.tsx: mapping a pointer to a
    point on the image, zoom clamping, and the selection state machine that
    draws polygons click by click or rectangles by dragging. Its callbacks
    act directly on the application state (`App.Editor`). */
module ImageUploader {
  import opened Types
  import App

  // ---------------------------------------------------------------------------
  // From the pointer to the image
  // ---------------------------------------------------------------------------

  /** What `getPointOnImage` reads from the page: the container's position and
      inner size, and the image's natural size. */
  datatype Layout = Layout(left: real, top: real, clientWidth: real, clientHeight: real,
                           naturalWidth: real, naturalHeight: real)

  /** The aspect-fit scale of the image inside the container (`Math.min` of the two ratios). */
  function Ratio(l: Layout): real
    requires l.naturalWidth > 0.0 && l.naturalHeight > 0.0
  {
    var rw, rh := l.clientWidth / l.naturalWidth, l.clientHeight / l.naturalHeight;
    if rw <= rh then rw else rh
  }

  /** The image can be mapped: its natural size is known and it is displayed at a
      positive scale. Otherwise the source computes NaN or an infinity, which
      fails every bounds test. */
  predicate Mappable(l: Layout)
  {
    l.naturalWidth > 0.0 && l.naturalHeight > 0.0 && Ratio(l) > 0.0
  }

  /** Undoing the pan and the zoom on one axis, from a position inside the container. */
  function Unzoom(mouse: real, pan: real, zoom: real): real
    requires zoom > 0.0
  {
    (mouse - pan) / zoom
  }

  /** Undoing the letterbox offset and the display scale on one axis. */
  function ToNatural(unzoomed: real, clientSize: real, natural: real, ratio: real): real
    requires natural > 0.0 && ratio > 0.0
  {
    var displayed := natural * ratio;
    var offset := (clientSize - displayed) / 2.0;
    (unzoomed - offset) * (natural / displayed)
  }

  /** `getPointOnImage`: undo the container offset, the pan and the zoom, then the
      letterbox offset and the display scale. `layout` is none when the image or
      the container is not mounted. A point off the image is refused, not clamped. */
  function PointOnImage(layout: Option<Layout>, preview: Option<string>, zoom: real, pan: Point,
                        clientX: real, clientY: real): (r: Option<Point>)
    requires zoom > 0.0
    ensures r.Some? ==> layout.Some? && Present(preview)
    ensures r.Some? ==> 0.0 <= r.value.x <= layout.value.naturalWidth && 0.0 <= r.value.y <= layout.value.naturalHeight
  {
    if layout.None? || !Present(preview) || !Mappable(layout.value) then None
    else
      var l := layout.value;
      var ratio := Ratio(l);
      var naturalX := ToNatural(Unzoom(clientX - l.left, pan.x, zoom), l.clientWidth, l.naturalWidth, ratio);
      var naturalY := ToNatural(Unzoom(clientY - l.top, pan.y, zoom), l.clientHeight, l.naturalHeight, ratio);
      if 0.0 <= naturalX <= l.naturalWidth && 0.0 <= naturalY <= l.naturalHeight
      then Some(Point(naturalX, naturalY))
      else None
  }

  /** The forward formula the mapping undoes, on one axis: an image coordinate
      scaled to display size, shifted by the letterbox offset, zoomed, panned and
      placed at the container's origin. */
  function ToScreen(origin: real, pan: real, zoom: real, clientSize: real, natural: real, ratio: real, v: real): real
  {
    origin + pan + zoom * ((clientSize - natural * ratio) / 2.0 + v * ratio)
  }

  /** The forward formula for an image point, on both axes. */
  function ScreenPoint(l: Layout, zoom: real, pan: Point, p: Point): Point
    requires Mappable(l)
  {
    var ratio := Ratio(l);
    Point(ToScreen(l.left, pan.x, zoom, l.clientWidth, l.naturalWidth, ratio, p.x),
          ToScreen(l.top, pan.y, zoom, l.clientHeight, l.naturalHeight, ratio, p.y))
  }

  lemma UndoScale(unzoomed: real, clientSize: real, natural: real, ratio: real, v: real)
    requires natural > 0.0 && ratio > 0.0
    ensures ToNatural(unzoomed, clientSize, natural, ratio) == v <==>
            unzoomed == (clientSize - natural * ratio) / 2.0 + v * ratio
  {
    var offset := (clientSize - natural * ratio) / 2.0;
    assert natural / (natural * ratio) == 1.0 / ratio;
    assert (unzoomed - offset) * (1.0 / ratio) == (unzoomed - offset) / ratio;
  }

  lemma UndoView(mouse: real, pan: real, zoom: real, inner: real)
    requires zoom > 0.0
    ensures Unzoom(mouse, pan, zoom) == inner <==> mouse == pan + zoom * inner
  {
  }

  /** On one axis, the mapping and its forward formula are inverse, both ways round. */
  lemma AxisRoundTrip(origin: real, pan: real, zoom: real, clientSize: real, natural: real, ratio: real, client: real, v: real)
    requires zoom > 0.0 && natural > 0.0 && ratio > 0.0
    ensures ToNatural(Unzoom(client - origin, pan, zoom), clientSize, natural, ratio) == v <==>
            ToScreen(origin, pan, zoom, clientSize, natural, ratio, v) == client
  {
    var inner := (clientSize - natural * ratio) / 2.0 + v * ratio;
    UndoScale(Unzoom(client - origin, pan, zoom), clientSize, natural, ratio, v);
    UndoView(client - origin, pan, zoom, inner);
  }

  /** The mapping inverts its own forward formula: every point of the image,
      taken through `ScreenPoint`, maps back to itself. */
  lemma PointOnImageInvertsScreenPoint(l: Layout, preview: Option<string>, zoom: real, pan: Point, p: Point)
    requires Present(preview) && zoom > 0.0 && Mappable(l)
    requires 0.0 <= p.x <= l.naturalWidth && 0.0 <= p.y <= l.naturalHeight
    ensures var s := ScreenPoint(l, zoom, pan, p);
            PointOnImage(Some(l), preview, zoom, pan, s.x, s.y) == Some(p)
  {
    var s := ScreenPoint(l, zoom, pan, p);
    AxisRoundTrip(l.left, pan.x, zoom, l.clientWidth, l.naturalWidth, Ratio(l), s.x, p.x);
    AxisRoundTrip(l.top, pan.y, zoom, l.clientHeight, l.naturalHeight, Ratio(l), s.y, p.y);
  }

  /** A pointer that maps to a point of the image is that point's `ScreenPoint`. */
  lemma ScreenPointOfPointOnImage(l: Layout, preview: Option<string>, zoom: real, pan: Point, clientX: real, clientY: real)
    requires zoom > 0.0
    requires PointOnImage(Some(l), preview, zoom, pan, clientX, clientY).Some?
    ensures ScreenPoint(l, zoom, pan, PointOnImage(Some(l), preview, zoom, pan, clientX, clientY).value) == Point(clientX, clientY)
  {
    var p := PointOnImage(Some(l), preview, zoom, pan, clientX, clientY).value;
    AxisRoundTrip(l.left, pan.x, zoom, l.clientWidth, l.naturalWidth, Ratio(l), clientX, p.x);
    AxisRoundTrip(l.top, pan.y, zoom, l.clientHeight, l.naturalHeight, Ratio(l), clientY, p.y);
  }

  // ---------------------------------------------------------------------------
  // Zoom
  // ---------------------------------------------------------------------------

  const ZoomSpeed: real := 1.2
  const MinZoom: real := 0.5
  const MaxZoom: real := 8.0

  /** The zoom-in button: one step up, at most the maximum. */
  function ZoomedIn(zoom: real): (r: real)
    ensures r <= MaxZoom
    ensures MinZoom <= zoom ==> MinZoom <= r
    ensures 0.0 <= zoom <= MaxZoom ==> zoom <= r
  {
    if zoom * ZoomSpeed <= MaxZoom then zoom * ZoomSpeed else MaxZoom
  }

  /** The zoom-out button: one step down, at least the minimum. */
  function ZoomedOut(zoom: real): (r: real)
    ensures MinZoom <= r
    ensures zoom <= MaxZoom ==> r <= MaxZoom
    ensures MinZoom <= zoom ==> r <= zoom
  {
    if zoom / ZoomSpeed >= MinZoom then zoom / ZoomSpeed else MinZoom
  }

  /** One step in and one step out cancel while neither hits a bound. */
  lemma ZoomStepsCancel(zoom: real)
    ensures MinZoom <= zoom && zoom * ZoomSpeed <= MaxZoom ==> ZoomedOut(ZoomedIn(zoom)) == zoom
    ensures zoom <= MaxZoom && zoom / ZoomSpeed >= MinZoom ==> ZoomedIn(ZoomedOut(zoom)) == zoom
  {
  }

  /** The wheel: a step out for a positive `deltaY`, a step in otherwise, clamped to both bounds. */
  function WheelZoom(zoom: real, deltaY: real): (r: real)
    ensures MinZoom <= r <= MaxZoom
    ensures MinZoom <= zoom <= MaxZoom ==> (deltaY > 0.0 ==> r == ZoomedOut(zoom)) && (deltaY <= 0.0 ==> r == ZoomedIn(zoom))
  {
    var delta := if deltaY > 0.0 then 1.0 / ZoomSpeed else ZoomSpeed;
    var z := if zoom * delta <= MaxZoom then zoom * delta else MaxZoom;
    if MinZoom >= z then MinZoom else z
  }

  /** The pan the wheel sets, on one axis, for the pointer at `mouse` inside the container. */
  function WheelPan(mouse: real, pan: real, zoom: real, newZoom: real): real
    requires zoom > 0.0
  {
    mouse - (mouse - pan) * (newZoom / zoom)
  }

  /** The wheel keeps the image point under the pointer where it is. */
  lemma WheelKeepsPointUnderPointer(l: Layout, preview: Option<string>, zoom: real, pan: Point,
                                    clientX: real, clientY: real, deltaY: real)
    requires zoom > 0.0
    ensures var z := WheelZoom(zoom, deltaY);
            var p := Point(WheelPan(clientX - l.left, pan.x, zoom, z), WheelPan(clientY - l.top, pan.y, zoom, z));
            PointOnImage(Some(l), preview, z, p, clientX, clientY) == PointOnImage(Some(l), preview, zoom, pan, clientX, clientY)
  {
    var z := WheelZoom(zoom, deltaY);
    var mx, my := clientX - l.left, clientY - l.top;
    KeepsUnzoomed(mx, pan.x, zoom, z);
    KeepsUnzoomed(my, pan.y, zoom, z);
  }

  lemma KeepsUnzoomed(mouse: real, pan: real, zoom: real, newZoom: real)
    requires zoom > 0.0 && newZoom > 0.0
    ensures Unzoom(mouse, WheelPan(mouse, pan, zoom, newZoom), newZoom) == Unzoom(mouse, pan, zoom)
  {
    var k := newZoom / zoom;
    assert mouse - WheelPan(mouse, pan, zoom, newZoom) == (mouse - pan) * k;
    assert (mouse - pan) * k / newZoom == (mouse - pan) / zoom;
  }

  // ---------------------------------------------------------------------------
  // Rectangles
  // ---------------------------------------------------------------------------

  /** The four corners emitted on mouse-up, from the drag's start `s` and end `e`. */
  function Corners(s: Point, e: Point): (r: seq<Point>)
    ensures |r| == 4 && r[0] == s && r[2] == e
    ensures r[1] == Point(e.x, s.y) && r[3] == Point(s.x, e.y)
  {
    [s, Point(e.x, s.y), e, Point(s.x, e.y)]
  }

  function Min(a: real, b: real): real { if a <= b then a else b }
  function Max(a: real, b: real): real { if a >= b then a else b }

  /** Whatever the drag direction, the rectangle's bounding box spans the two
      drag points, and the crop refuses it exactly when it has no width or no height. */
  lemma CornersSpanDrag(s: Point, e: Point)
    ensures App.Extent(Corners(s, e)) == Some(App.Box(Min(s.x, e.x), Min(s.y, e.y), Max(s.x, e.x), Max(s.y, e.y)))
    ensures App.CropRejects(App.Extent(Corners(s, e))) <==> s.x == e.x || s.y == e.y
  {
    var c := Corners(s, e);
    assert c[..3][..2][..1] == [s] && App.Extent([s]) == Some(App.Box(s.x, s.y, s.x, s.y));
    assert c[..3][..2] == [s, Point(e.x, s.y)];
    assert App.Extent([s, Point(e.x, s.y)]) == Some(App.Box(Min(s.x, e.x), s.y, Max(s.x, e.x), s.y));
    assert c[..3] == [s, Point(e.x, s.y), e];
    assert App.Extent([s, Point(e.x, s.y), e]) == Some(App.Box(Min(s.x, e.x), Min(s.y, e.y), Max(s.x, e.x), Max(s.y, e.y)));
  }

  // ---------------------------------------------------------------------------
  // The selection state machine
  // ---------------------------------------------------------------------------

  datatype SelectionMode = Polygon | Rectangle

  /** The fields of a mouse event the handlers read. */
  datatype MouseEvent = MouseEvent(clientX: real, clientY: real, button: int, buttons: int, detail: int)

  /** The component's own state; the points, the preview, the zoom and the pan
      belong to the application and are reached through `editor`. */
  class Uploader {
    const editor: App.Editor
    var isClosed: bool
    var isPanning: bool
    var isSpacePressed: bool
    var panStart: Point
    var panStarted: bool
    var selectionMode: SelectionMode
    var isDrawingRect: bool
    var rectStartPoint: Option<Point>
    var rectEndPoint: Option<Point>

    /** The application state is consistent, the zoom is within its bounds, and a
        rectangle is drawn only in rectangle mode, on an open selection, from a known start and end. */
    predicate Valid()
      reads this, editor
    {
      && editor.Valid()
      && MinZoom <= editor.zoom <= MaxZoom
      && (isDrawingRect ==> selectionMode == Rectangle && !isClosed && rectStartPoint.Some? && rectEndPoint.Some?)
    }

    /** The drag state is unchanged. */
    twostate predicate DragUnchanged()
      reads this
    {
      && isClosed == old(isClosed) && selectionMode == old(selectionMode) && isDrawingRect == old(isDrawingRect)
      && rectStartPoint == old(rectStartPoint) && rectEndPoint == old(rectEndPoint)
    }

    /** The panning state is unchanged. */
    twostate predicate PanningUnchanged()
      reads this
    {
      isPanning == old(isPanning) && isSpacePressed == old(isSpacePressed) && panStart == old(panStart) && panStarted == old(panStarted)
    }

    /** Nothing the application holds has changed. */
    twostate predicate EditorUnchanged()
      reads this, editor
    {
      editor.ImageUnchanged() && editor.ReferenceUnchanged() && editor.WorkUnchanged() && editor.SelectionUnchanged() && editor.ViewUnchanged()
    }

    constructor (editor: App.Editor)
      requires editor.Valid() && MinZoom <= editor.zoom <= MaxZoom
      ensures this.editor == editor && Valid()
      ensures !isClosed && !isPanning && !isSpacePressed && !panStarted && panStart == Origin
      ensures selectionMode == Polygon && !isDrawingRect && rectStartPoint.None? && rectEndPoint.None?
    {
      this.editor := editor;
      isClosed, isPanning, isSpacePressed, panStart, panStarted := false, false, false, Origin, false;
      selectionMode, isDrawingRect, rectStartPoint, rectEndPoint := Polygon, false, None, None;
    }

    /** The pointer position on the image, as the handlers compute it. */
    function PointAt(ev: MouseEvent, layout: Option<Layout>): Option<Point>
      requires Valid()
      reads this, editor
    {
      PointOnImage(layout, editor.originalImagePreview, editor.zoom, editor.pan, ev.clientX, ev.clientY)
    }

    /** `resetSelection`: the points, the closed flag and the drag are cleared. */
    method ResetSelection()
      requires Valid()
      modifies this, editor
      ensures Valid()
      ensures editor.selectionPoints == [] && editor.ScopeFollows()
      ensures !isClosed && !isDrawingRect && rectStartPoint.None? && rectEndPoint.None?
      ensures selectionMode == old(selectionMode) && PanningUnchanged()
      ensures editor.ImageUnchanged() && editor.ReferenceUnchanged() && editor.WorkUnchanged() && editor.ViewUnchanged()
    {
      editor.ClearSelection();
      isClosed, isDrawingRect, rectStartPoint, rectEndPoint := false, false, None, None;
    }

    /** `switchMode`: choosing the current mode does nothing; the other one starts
        over from an empty selection. */
    method SwitchMode(mode: SelectionMode)
      requires Valid()
      modifies this, editor
      ensures Valid() && selectionMode == mode && PanningUnchanged()
      ensures mode == old(selectionMode) ==> DragUnchanged() && EditorUnchanged()
      ensures mode != old(selectionMode) ==>
                && editor.selectionPoints == [] && editor.ScopeFollows()
                && !isClosed && !isDrawingRect && rectStartPoint.None? && rectEndPoint.None?
                && editor.ImageUnchanged() && editor.ReferenceUnchanged() && editor.WorkUnchanged() && editor.ViewUnchanged()
    {
      if mode == selectionMode {
        return;
      }
      ResetSelection();
      selectionMode := mode;
    }

    /** `handleFileChange` and `handleDrop`, with the chosen file (none when nothing
        was chosen) already read to its data URL: the selection is reset and the
        file uploaded. */
    method PickFile(chosen: Option<File>, preview: string)
      requires Valid()
      modifies this, editor
      ensures Valid()
      ensures chosen.None? ==> DragUnchanged() && EditorUnchanged()
      ensures chosen.Some? ==>
                && editor.history == [App.HistoryItem(chosen.value, preview)] && editor.historyIndex == 0
                && editor.originalImage == chosen && editor.originalImagePreview == Some(preview)
                && editor.ContextReset() && editor.referenceImage.None? && editor.referenceImagePreview.None?
                && editor.ScopeFollows()
                && !isClosed && !isDrawingRect && rectStartPoint.None? && rectEndPoint.None?
      ensures selectionMode == old(selectionMode) && PanningUnchanged()
    {
      if chosen.Some? {
        ResetSelection();
        editor.Upload(chosen.value, preview);
      }
    }

    /** Holding and releasing the space bar outside text fields. */
    method SetSpacePressed(pressed: bool)
      modifies this
      ensures isSpacePressed == pressed
      ensures isPanning == old(isPanning) && panStart == old(panStart) && panStarted == old(panStarted) && DragUnchanged()
    {
      isSpacePressed := pressed;
    }

    /** `handleMouseDown`, attached only while an image is shown. With space held,
        the left button starts panning. Otherwise a rectangle drag starts only in
        rectangle mode, with the left button, on an open selection, at a point of
        the image; its start and end are both that point. */
    method MouseDown(ev: MouseEvent, layout: Option<Layout>)
      requires Valid()
      modifies this
      ensures Valid() && selectionMode == old(selectionMode) && isClosed == old(isClosed)
      ensures isSpacePressed == old(isSpacePressed)
      ensures var panning := Present(editor.originalImagePreview) && old(isSpacePressed) && ev.button == 0;
              var p := PointOnImage(layout, editor.originalImagePreview, editor.zoom, editor.pan, ev.clientX, ev.clientY);
              var drags := !panning && old(selectionMode) == Rectangle && ev.button == 0 && !old(isClosed) && p.Some?;
        && (panning ==> isPanning && panStarted && panStart == Point(ev.clientX - editor.pan.x, ev.clientY - editor.pan.y)
                        && isDrawingRect == old(isDrawingRect) && rectStartPoint == old(rectStartPoint) && rectEndPoint == old(rectEndPoint))
        && (drags ==> isDrawingRect && rectStartPoint == p && rectEndPoint == p && PanningUnchanged())
        && (!panning && !drags ==> DragUnchanged() && PanningUnchanged())
    {
      if !Present(editor.originalImagePreview) {
        return;
      }
      if isSpacePressed && ev.button == 0 {
        isPanning, panStarted := true, true;
        panStart := Point(ev.clientX - editor.pan.x, ev.clientY - editor.pan.y);
        return;
      }
      if selectionMode == Rectangle && ev.button == 0 && !isClosed && Present(editor.originalImagePreview) {
        var point := PointAt(ev, layout);
        if point.Some? {
          isDrawingRect, rectStartPoint, rectEndPoint := true, point, point;
        }
      }
    }

    /** `handleMouseMove`, attached only while an image is shown: while panning the
        pan follows the pointer; while drawing with the primary button held, the
        drag's end follows it when it is on the image. The points never change. */
    method MouseMove(ev: MouseEvent, layout: Option<Layout>)
      requires Valid()
      modifies this, editor
      ensures Valid() && PanningUnchanged()
      ensures editor.ImageUnchanged() && editor.ReferenceUnchanged() && editor.WorkUnchanged() && editor.SelectionUnchanged()
      ensures isClosed == old(isClosed) && selectionMode == old(selectionMode) && isDrawingRect == old(isDrawingRect)
      ensures rectStartPoint == old(rectStartPoint) && editor.zoom == old(editor.zoom)
      ensures var shown := Present(old(editor.originalImagePreview));
              var p := PointOnImage(layout, editor.originalImagePreview, editor.zoom, old(editor.pan), ev.clientX, ev.clientY);
        && (shown && isPanning ==> editor.pan == Point(ev.clientX - panStart.x, ev.clientY - panStart.y) && rectEndPoint == old(rectEndPoint))
        && (!(shown && isPanning) ==> editor.pan == old(editor.pan))
        && (rectEndPoint != old(rectEndPoint) ==> shown && !isPanning && isDrawingRect && ev.buttons == 1 && rectEndPoint == p)
        && (shown && !isPanning && isDrawingRect && ev.buttons == 1 && p.Some? ==> rectEndPoint == p)
    {
      if !Present(editor.originalImagePreview) {
        return;
      }
      if isPanning {
        editor.SetPan(Point(ev.clientX - panStart.x, ev.clientY - panStart.y));
        return;
      }
      if isDrawingRect && ev.buttons == 1 {
        var point := PointAt(ev, layout);
        if point.Some? {
          rectEndPoint := point;
        }
      }
    }

    /** `handleMouseUp` (also the mouse leaving): panning stops, and a drawn
        rectangle becomes exactly its four corners, start first, and closes the
        selection; a zero-size drag still gives four points. The deferred reset
        of `panStarted` is `PanTimerFires`. */
    method MouseUp()
      requires Valid()
      modifies this, editor
      ensures Valid() && !isPanning && !isDrawingRect
      ensures isSpacePressed == old(isSpacePressed) && panStart == old(panStart) && panStarted == old(panStarted)
      ensures selectionMode == old(selectionMode) && rectStartPoint == old(rectStartPoint) && rectEndPoint == old(rectEndPoint)
      ensures old(isDrawingRect) ==>
                && editor.selectionPoints == Corners(old(rectStartPoint).value, old(rectEndPoint).value)
                && editor.ScopeFollows() && isClosed
      ensures !old(isDrawingRect) ==> isClosed == old(isClosed) && editor.SelectionUnchanged()
      ensures editor.ImageUnchanged() && editor.ReferenceUnchanged() && editor.WorkUnchanged() && editor.ViewUnchanged()
    {
      if isPanning {
        isPanning := false;
      }
      if isDrawingRect && rectStartPoint.Some? && rectEndPoint.Some? {
        isDrawingRect := false;
        var p1 := rectStartPoint.value;
        var p2 := Point(rectEndPoint.value.x, rectStartPoint.value.y);
        var p3 := rectEndPoint.value;
        var p4 := Point(rectStartPoint.value.x, rectEndPoint.value.y);
        editor.SetSelection([p1, p2, p3, p4]);
        isClosed := true;
      }
    }

    /** The timer set by `handleMouseUp` firing: clicks are accepted again. */
    method PanTimerFires()
      modifies this
      ensures !panStarted
      ensures isPanning == old(isPanning) && isSpacePressed == old(isSpacePressed) && panStart == old(panStart) && DragUnchanged()
    {
      panStarted := false;
    }

    /** `handleContainerClick`. Ignored after a pan, on a closed selection, for
        another button, while a rectangle is drawn, and for the later clicks of a
        multi-click. Without an image it opens the file picker. In polygon mode a
        click on the image appends exactly that one point. */
    method ContainerClick(ev: MouseEvent, layout: Option<Layout>) returns (opensFilePicker: bool)
      requires Valid()
      modifies editor
      ensures Valid()
      ensures var ignored := old(panStarted) || old(isClosed) || ev.button != 0 || old(isDrawingRect) || ev.detail > 1;
              var p := PointOnImage(layout, editor.originalImagePreview, editor.zoom, editor.pan, ev.clientX, ev.clientY);
        && (opensFilePicker <==> !ignored && !Present(editor.originalImagePreview))
        && (!ignored && selectionMode == Polygon && p.Some? ==>
              editor.selectionPoints == old(editor.selectionPoints) + [p.value] && editor.ScopeFollows())
        && (ignored || selectionMode == Rectangle || p.None? ==> editor.SelectionUnchanged())
      ensures editor.ImageUnchanged() && editor.ReferenceUnchanged() && editor.WorkUnchanged() && editor.ViewUnchanged()
    {
      if panStarted || isClosed || ev.button != 0 || isDrawingRect {
        return false;
      }
      if ev.detail > 1 {
        return false;
      }
      if !Present(editor.originalImagePreview) {
        return true;
      }
      if selectionMode == Polygon {
        var point := PointAt(ev, layout);
        if point.Some? {
          editor.SetSelection(editor.selectionPoints + [point.value]);
        }
      }
      return false;
    }

    /** `handleDoubleClick`, attached only while an image is shown: it closes an
        open polygon of more than 2 points, and does nothing otherwise. */
    method DoubleClick()
      requires Valid()
      modifies this
      ensures Valid()
      ensures isClosed <==> old(isClosed)
                            || (Present(editor.originalImagePreview) && selectionMode == Polygon && |editor.selectionPoints| > 2)
      ensures selectionMode == old(selectionMode) && isDrawingRect == old(isDrawingRect)
      ensures rectStartPoint == old(rectStartPoint) && rectEndPoint == old(rectEndPoint) && PanningUnchanged()
    {
      if !Present(editor.originalImagePreview) {
        return;
      }
      if selectionMode == Polygon && |editor.selectionPoints| > 2 && !isClosed {
        isClosed := true;
      }
    }

    /** `handleWheel`, attached only while an image is shown: the zoom moves one
        step and stays within its bounds, and the pan keeps the image point under
        the pointer in place. */
    method Wheel(clientX: real, clientY: real, deltaY: real, layout: Option<Layout>)
      requires Valid()
      modifies editor
      ensures Valid()
      ensures Present(old(editor.originalImagePreview)) && layout.Some? ==>
                var l := layout.value;
                && editor.zoom == WheelZoom(old(editor.zoom), deltaY)
                && editor.pan == Point(WheelPan(clientX - l.left, old(editor.pan).x, old(editor.zoom), editor.zoom),
                                       WheelPan(clientY - l.top, old(editor.pan).y, old(editor.zoom), editor.zoom))
      ensures !(Present(old(editor.originalImagePreview)) && layout.Some?) ==> editor.ViewUnchanged()
      ensures editor.ImageUnchanged() && editor.ReferenceUnchanged() && editor.WorkUnchanged() && editor.SelectionUnchanged()
    {
      if !Present(editor.originalImagePreview) || layout.None? {
        return;
      }
      var rect := layout.value;
      var mouseX, mouseY := clientX - rect.left, clientY - rect.top;
      var newZoom := WheelZoom(editor.zoom, deltaY);
      var newPanX := WheelPan(mouseX, editor.pan.x, editor.zoom, newZoom);
      var newPanY := WheelPan(mouseY, editor.pan.y, editor.zoom, newZoom);
      editor.SetZoom(newZoom);
      editor.SetPan(Point(newPanX, newPanY));
    }

    /** The zoom-in button. */
    method ZoomIn()
      requires Valid()
      modifies editor
      ensures Valid() && editor.zoom == ZoomedIn(old(editor.zoom)) && editor.pan == old(editor.pan)
      ensures editor.ImageUnchanged() && editor.ReferenceUnchanged() && editor.WorkUnchanged() && editor.SelectionUnchanged()
    {
      editor.SetZoom(ZoomedIn(editor.zoom));
    }

    /** The zoom-out button. */
    method ZoomOut()
      requires Valid()
      modifies editor
      ensures Valid() && editor.zoom == ZoomedOut(old(editor.zoom)) && editor.pan == old(editor.pan)
      ensures editor.ImageUnchanged() && editor.ReferenceUnchanged() && editor.WorkUnchanged() && editor.SelectionUnchanged()
    {
      editor.SetZoom(ZoomedOut(editor.zoom));
    }

    /** `handleResetView`: zoom 1 and no pan. */
    method ResetView()
      requires Valid()
      modifies editor
      ensures Valid() && editor.zoom == 1.0 && editor.pan == Origin
      ensures editor.ImageUnchanged() && editor.ReferenceUnchanged() && editor.WorkUnchanged() && editor.SelectionUnchanged()
    {
      editor.SetZoom(1.0);
      editor.SetPan(Origin);
    }

    /** The "Use as Source" button, shown on a closed selection: it hands over to
        the application's `handleSetSource` and leaves this component's state alone. */
    method UseAsSource(rendered: Option<string>)
      requires Valid()
      modifies editor
      ensures Valid()
      ensures |old(editor.selectionPoints)| < 3 || !Present(old(editor.originalImagePreview)) ==> EditorUnchanged()
      ensures |old(editor.selectionPoints)| >= 3 && Present(old(editor.originalImagePreview)) ==>
                && editor.selectionPoints == [] && editor.ScopeFollows()
                && editor.sourceImage == (if App.CropRejects(App.Extent(old(editor.selectionPoints))) then None else rendered)
      ensures editor.ImageUnchanged() && editor.ReferenceUnchanged() && editor.ViewUnchanged()
      ensures editor.restoredImage == old(editor.restoredImage) && editor.appState == old(editor.appState)
      ensures editor.error == old(editor.error) && editor.prompt == old(editor.prompt)
    {
      editor.SetSource(rendered);
    }
  }

  /** After "Use as Source" the application has emptied the points, but the
      component still holds its selection closed, so a click adds nothing and a
      double-click cannot close anything: only a mode switch or a new file
      (which reset the selection) make the polygon tool usable again. */
  method ClosedFlagOutlivesUseAsSource(u: Uploader, rendered: Option<string>, ev: MouseEvent, layout: Option<Layout>)
    requires u.Valid() && u.isClosed && |u.editor.selectionPoints| >= 3 && Present(u.editor.originalImagePreview)
    modifies u, u.editor
    ensures u.Valid() && u.isClosed && u.editor.selectionPoints == []
  {
    u.UseAsSource(rendered);
    var _ := u.ContainerClick(ev, layout);
    u.DoubleClick();
  }
}
