/** The editor's interaction state and its event transitions: mode switch,
    clear, image arrival, and pointer/touch down, move and up. */
module Editor {
  import opened Geometry
  import opened Images
  import opened Strokes

  /** The top-level input interpretation. */
  datatype Mode = Move | Draw

  /** The whole editor state. `activeImageIndex` is -1 when nothing is
      selected; `startX`/`startY` is the last pointer position seen by a
      resize; `offsetX`/`offsetY` is the pointer's grab offset within the
      dragged image. */
  datatype State = State(
    mode: Mode,
    isDrawing: bool,
    isDragging: bool,
    images: seq<PlacedImage>,
    activeImageIndex: int,
    startX: real, startY: real,
    offsetX: real, offsetY: real,
    resizing: bool,
    resizeHandle: Handle,
    brushColor: Color,
    brushSize: int,
    paths: seq<Path>)

  /** Inputs the editor reacts to. Mouse-leave is delivered as PointerUp;
      `touches` is the number of fingers on the surface. The decoded bitmap's
      size and the canvas size arrive with ImageDecoded. */
  datatype Event =
    | PointerDown(p: Point)
    | PointerMove(p: Point)
    | PointerUp
    | TouchStart(touches: nat, p: Point)
    | TouchMove(touches: nat, p: Point)
    | TouchEnd
    | SetMode(mode: Mode)
    | Clear(confirmed: bool)
    | ImageDecoded(nativeW: nat, nativeH: nat, canvasW: nat, canvasH: nat)
    | SetBrushSize(size: int)
    | SetBrushColor(color: Color)

  /** The selection is either none (-1) or an index into the image list. */
  predicate SelectionValid(s: State) {
    -1 <= s.activeImageIndex < |s.images|
  }

  /** What every reachable state satisfies. */
  predicate Valid(s: State) {
    && SelectionValid(s)
    && (forall i :: 0 <= i < |s.images| ==> WellFormed(s.images[i]) && AspectLocked(s.images[i]))
    && (s.resizing <==> s.resizeHandle.Handle?)
  }

  /** A decoded bitmap always has a positive size. */
  predicate Admissible(e: Event) {
    e.ImageDecoded? ==> e.nativeW > 0 && e.nativeH > 0
  }

  /** The state at page load. */
  function Init(): (s: State)
    ensures Valid(s)
    ensures s.mode == Move && s.activeImageIndex == -1
    ensures s.images == [] && s.paths == []
    ensures !s.isDrawing && !s.isDragging && !s.resizing
  {
    State(Move, false, false, [], -1, 0.0, 0.0, 0.0, 0.0, false, NoHandle, "#000000", 5, [])
  }

  // ---------------------------------------------------------------------
  // Toolbar and image arrival
  // ---------------------------------------------------------------------

  /** Switching mode changes the mode only; an in-progress drag, resize or
      stroke is not cancelled. */
  function SwitchMode(s: State, m: Mode): (r: State)
    requires Valid(s)
    ensures Valid(r)
    ensures r.mode == m
    ensures r.(mode := s.mode) == s
  {
    s.(mode := m)
  }

  /** A confirmed clear drops every image and path and the selection; a
      declined one changes nothing. Flags are left as they were. */
  function ClearCanvas(s: State, confirmed: bool): (r: State)
    requires Valid(s)
    ensures Valid(r)
    ensures !confirmed ==> r == s
    ensures confirmed ==> r.images == [] && r.paths == [] && r.activeImageIndex == -1
    ensures r.(images := s.images, paths := s.paths, activeImageIndex := s.activeImageIndex) == s
  {
    if confirmed then s.(images := [], paths := [], activeImageIndex := -1) else s
  }

  /** A decoded bitmap is placed (see PlaceImage) on top of the others,
      becomes the selection, and the editor switches to move mode. */
  function AddImage(s: State, nativeW: nat, nativeH: nat, canvasW: nat, canvasH: nat): (r: State)
    requires Valid(s)
    requires nativeW > 0 && nativeH > 0
    ensures Valid(r)
    ensures |r.images| == |s.images| + 1 && r.images[..|s.images|] == s.images
    ensures r.images[|s.images|] == PlaceImage(nativeW, nativeH, canvasW, canvasH)
    ensures r.activeImageIndex == |r.images| - 1
    ensures r.mode == Move
    ensures r.(images := s.images, activeImageIndex := s.activeImageIndex, mode := s.mode) == s
  {
    var images := s.images + [PlaceImage(nativeW, nativeH, canvasW, canvasH)];
    s.(images := images, activeImageIndex := |images| - 1, mode := Move)
  }

  // ---------------------------------------------------------------------
  // Strokes
  // ---------------------------------------------------------------------

  /** Begins a stroke at p with the current brush. */
  function StartDrawing(s: State, p: Point): (r: State)
    requires Valid(s)
    ensures Valid(r)
    ensures r.isDrawing
    ensures |r.paths| == |s.paths| + 1 && r.paths[..|s.paths|] == s.paths
    ensures r.paths[|s.paths|] == Path(s.brushColor, s.brushSize, [p])
    ensures r.(isDrawing := s.isDrawing, paths := s.paths) == s
  {
    s.(isDrawing := true, paths := StartPath(s.paths, s.brushColor, s.brushSize, p))
  }

  /** Adds p to the stroke in progress. Nothing happens when no stroke is in
      progress, nor when the path list is empty (main.js then fails
      reading the last path before changing anything). */
  function ContinueDrawing(s: State, p: Point): (r: State)
    requires Valid(s)
    ensures Valid(r)
    ensures r.(paths := s.paths) == s
    ensures !s.isDrawing || |s.paths| == 0 ==> r == s
    ensures s.isDrawing && |s.paths| > 0 ==>
      && |r.paths| == |s.paths|
      && r.paths[..|s.paths| - 1] == s.paths[..|s.paths| - 1]
      && Extends(r.paths[|s.paths| - 1], s.paths[|s.paths| - 1])
      && r.paths[|s.paths| - 1].points == s.paths[|s.paths| - 1].points + [p]
  {
    if !s.isDrawing || |s.paths| == 0 then s
    else s.(paths := ExtendLast(s.paths, p))
  }

  /** Ends the stroke in progress; the path is kept as it is. */
  function StopDrawing(s: State): (r: State)
    requires Valid(s)
    ensures Valid(r)
    ensures !r.isDrawing
    ensures r.(isDrawing := s.isDrawing) == s
  {
    s.(isDrawing := false)
  }

  // ---------------------------------------------------------------------
  // Pointer dispatch
  // ---------------------------------------------------------------------

  /** The handle of the selected image under p; never one without a selection. */
  function CheckResizeHandles(s: State, p: Point): (r: Handle)
    requires SelectionValid(s)
    ensures s.activeImageIndex == -1 ==> r.NoHandle?
    ensures r.Handle? ==> InHandleBox(s.images[s.activeImageIndex], r.corner, p)
    ensures r.Handle? ==> forall c :: Rank(c) < Rank(r.corner) ==> !InHandleBox(s.images[s.activeImageIndex], c, p)
    ensures r.NoHandle? && s.activeImageIndex != -1 ==> forall c :: !InHandleBox(s.images[s.activeImageIndex], c, p)
  {
    if s.activeImageIndex == -1 then NoHandle
    else HandleAt(s.images[s.activeImageIndex], p)
  }

  /** Pointer-down. In draw mode a stroke begins. In move mode a handle of the
      selected image takes priority and starts a resize; otherwise the topmost
      image under p is selected and a drag begins, or the selection is
      cleared when p is over no image. */
  function PointerPressed(s: State, p: Point): (r: State)
    requires Valid(s)
    ensures Valid(r)
    ensures s.mode == Draw ==> r == StartDrawing(s, p)
    ensures r.mode == s.mode
    ensures s.mode == Move ==> r.paths == s.paths
    ensures s.mode == Move ==> r.images == s.images
    // A handle hit on the selection wins over the image hit test.
    ensures s.mode == Move && CheckResizeHandles(s, p).Handle? ==>
      && r.resizing && r.resizeHandle == CheckResizeHandles(s, p)
      && r.startX == p.x && r.startY == p.y
      && r.activeImageIndex == s.activeImageIndex
      && r.(resizing := s.resizing, resizeHandle := s.resizeHandle, startX := s.startX, startY := s.startY) == s
    ensures s.mode == Move && CheckResizeHandles(s, p).NoHandle? ==>
      && r.activeImageIndex == ImageAt(s.images, p)
      && (r.activeImageIndex == -1 <==> forall j :: 0 <= j < |s.images| ==> !Contains(s.images[j], p))
      && (r.activeImageIndex == -1 ==> r == s.(activeImageIndex := -1))
      && (r.activeImageIndex != -1 ==>
            && r.isDragging
            && r.startX == p.x && r.startY == p.y
            && p.x - r.images[r.activeImageIndex].x == r.offsetX
            && p.y - r.images[r.activeImageIndex].y == r.offsetY
            && r == s.(activeImageIndex := r.activeImageIndex, isDragging := true, startX := p.x, startY := p.y,
                       offsetX := r.offsetX, offsetY := r.offsetY))
  {
    match s.mode
    case Draw => StartDrawing(s, p)
    case Move =>
      var handle := CheckResizeHandles(s, p);
      if handle.Handle? then
        s.(resizing := true, resizeHandle := handle, startX := p.x, startY := p.y)
      else
        var i := ImageAt(s.images, p);
        if i != -1 then
          s.(activeImageIndex := i, isDragging := true, startX := p.x, startY := p.y,
             offsetX := p.x - s.images[i].x, offsetY := p.y - s.images[i].y)
        else
          s.(activeImageIndex := -1)
  }

  /** One resize step of the selected image: the delta is taken from the
      previous pointer position, which is then replaced by p. */
  function ResizeStep(s: State, p: Point): (r: State)
    requires Valid(s) && s.activeImageIndex != -1
    ensures Valid(r)
    ensures |r.images| == |s.images|
    ensures forall j :: 0 <= j < |s.images| && j != s.activeImageIndex ==> r.images[j] == s.images[j]
    ensures r.images[s.activeImageIndex] == ResizeImage(s.images[s.activeImageIndex], s.resizeHandle, p.x - s.startX)
    ensures r.images[s.activeImageIndex].width >= MinWidth
    ensures r.startX == p.x && r.startY == p.y
    ensures r.(images := s.images, startX := s.startX, startY := s.startY) == s
  {
    var i := s.activeImageIndex;
    var img := ResizeImage(s.images[i], s.resizeHandle, p.x - s.startX);
    s.(images := s.images[i := img], startX := p.x, startY := p.y)
  }

  /** One drag step: the selected image moves so that p keeps its grab offset. */
  function DragStep(s: State, p: Point): (r: State)
    requires Valid(s) && s.activeImageIndex != -1
    ensures Valid(r)
    ensures |r.images| == |s.images|
    ensures forall j :: 0 <= j < |s.images| && j != s.activeImageIndex ==> r.images[j] == s.images[j]
    ensures p.x - r.images[s.activeImageIndex].x == s.offsetX
    ensures p.y - r.images[s.activeImageIndex].y == s.offsetY
    ensures r.images[s.activeImageIndex].(x := 0.0, y := 0.0) == s.images[s.activeImageIndex].(x := 0.0, y := 0.0)
    ensures r.(images := s.images) == s
  {
    var i := s.activeImageIndex;
    s.(images := s.images[i := DragTo(s.images[i], p, s.offsetX, s.offsetY)])
  }

  /** Pointer-move: extends the stroke in draw mode; in move mode resizes
      (which takes precedence) or drags the selection; otherwise nothing. */
  function PointerMoved(s: State, p: Point): (r: State)
    requires Valid(s)
    ensures Valid(r)
    ensures s.mode == Draw ==> r == ContinueDrawing(s, p)
    ensures s.mode == Move ==> r.paths == s.paths
    ensures s.mode == Move && s.resizing && s.activeImageIndex != -1 ==> r == ResizeStep(s, p)
    ensures s.mode == Move && !s.resizing && s.isDragging && s.activeImageIndex != -1 ==> r == DragStep(s, p)
    ensures s.mode == Move && !(s.resizing || s.isDragging) ==> r == s
    ensures s.activeImageIndex == -1 && s.mode == Move ==> r == s
    ensures r.(images := s.images, paths := s.paths, startX := s.startX, startY := s.startY) == s
  {
    if s.mode == Draw && s.isDrawing then ContinueDrawing(s, p)
    else if s.mode == Move then
      if s.resizing && s.activeImageIndex != -1 then ResizeStep(s, p)
      else if s.isDragging && s.activeImageIndex != -1 then DragStep(s, p)
      else s
    else s
  }

  /** Pointer-up (and the pointer leaving the canvas). In draw mode the stroke
      ends; in move mode drag and resize end, but a stroke flag left on from
      draw mode stays on. */
  function PointerReleased(s: State): (r: State)
    requires Valid(s)
    ensures Valid(r)
    ensures s.mode == Draw ==> !r.isDrawing && r.(isDrawing := s.isDrawing) == s
    ensures s.mode == Draw && !s.isDrawing ==> r == s
    ensures s.mode == Move ==> !r.isDragging && !r.resizing && r.resizeHandle.NoHandle?
    ensures s.mode == Move ==> r == s.(isDragging := false, resizing := false, resizeHandle := NoHandle)
    ensures r.images == s.images && r.paths == s.paths && r.activeImageIndex == s.activeImageIndex
  {
    if s.mode == Draw && s.isDrawing then StopDrawing(s)
    else if s.mode == Move then s.(isDragging := false, resizing := false, resizeHandle := NoHandle)
    else s
  }

  /** Every event, dispatched. Touch events with exactly one finger behave
      like the pointer; other finger counts are ignored, except that a
      touch end always behaves like pointer-up. */
  function Step(s: State, e: Event): (r: State)
    requires Valid(s) && Admissible(e)
    ensures Valid(r)
    ensures e.Clear? && e.confirmed ==> r.paths == []
    ensures !(e.Clear? && e.confirmed) ==> GrowsAtEnd(s.paths, r.paths)
  {
    match e
    case PointerDown(p) => PointerPressed(s, p)
    case PointerMove(p) => PointerMoved(s, p)
    case PointerUp => PointerReleased(s)
    case TouchStart(n, p) => if n == 1 then PointerPressed(s, p) else s
    case TouchMove(n, p) => if n == 1 then PointerMoved(s, p) else s
    case TouchEnd => PointerReleased(s)
    case SetMode(m) => SwitchMode(s, m)
    case Clear(confirmed) => ClearCanvas(s, confirmed)
    case ImageDecoded(w, h, cw, ch) => AddImage(s, w, h, cw, ch)
    case SetBrushSize(n) => s.(brushSize := n)
    case SetBrushColor(c) => s.(brushColor := c)
  }

  /** All events of a sequence are admissible. */
  predicate AllAdmissible(es: seq<Event>) {
    forall i :: 0 <= i < |es| ==> Admissible(es[i])
  }

  /** The state after a sequence of events, in order. */
  function Run(s: State, es: seq<Event>): (r: State)
    requires Valid(s) && AllAdmissible(es)
    ensures Valid(r)
    decreases |es|
  {
    if es == [] then s else Run(Step(s, es[0]), es[1..])
  }

  /** The overlay corner positions shown for the selection: the four corners
      in move mode with an image selected, nothing otherwise. */
  function HandleOverlay(s: State): (r: seq<Point>)
    requires SelectionValid(s)
    ensures |r| == 0 || |r| == 4
    ensures |r| == 4 <==> s.mode == Move && s.activeImageIndex != -1
    ensures |r| == 4 ==> forall k :: 0 <= k < 4 ==> r[k] == CornerPoint(s.images[s.activeImageIndex], CornerOrder[k])
  {
    if s.activeImageIndex == -1 || s.mode == Draw then []
    else
      var img := s.images[s.activeImageIndex];
      assert s.mode == Move;
      seq(4, k requires 0 <= k < 4 => CornerPoint(img, CornerOrder[k]))
  }
}
