/** Properties of whole interactions: what a drag, a resize or a stroke
    keeps true across any number of pointer moves, and the worked examples. */
module EditorProperties {
  import opened Geometry
  import opened Images
  import opened Strokes
  import opened Editor

  /** The pointer-move events through the given positions. */
  function Moves(ps: seq<Point>): (es: seq<Event>)
    ensures |es| == |ps|
    ensures AllAdmissible(es)
    ensures forall i :: 0 <= i < |ps| ==> es[i] == PointerMove(ps[i])
  {
    seq(|ps|, i requires 0 <= i < |ps| => PointerMove(ps[i]))
  }

  /** Running a non-empty sequence is one step then the rest. */
  lemma RunFirst(s: State, es: seq<Event>)
    requires Valid(s) && AllAdmissible(es) && |es| > 0
    ensures Run(s, es) == Run(Step(s, es[0]), es[1..])
  {
  }

  /** Every reachable state keeps a valid selection (or none), images with
      their native aspect ratio, and the resize flag in step with the handle. */
  lemma ReachableStatesValid(es: seq<Event>)
    requires AllAdmissible(es)
    ensures Valid(Run(Init(), es))
    ensures -1 <= Run(Init(), es).activeImageIndex < |Run(Init(), es).images|
  {
  }

  /** Touch input goes through the pointer logic: with exactly one finger a
      touch start or move is the pointer event; other finger counts do
      nothing; a touch end is always a pointer-up. */
  lemma TouchIsPointer(s: State, n: nat, p: Point)
    requires Valid(s)
    ensures n == 1 ==> Step(s, TouchStart(n, p)) == Step(s, PointerDown(p))
    ensures n == 1 ==> Step(s, TouchMove(n, p)) == Step(s, PointerMove(p))
    ensures n != 1 ==> Step(s, TouchStart(n, p)) == s && Step(s, TouchMove(n, p)) == s
    ensures Step(s, TouchEnd) == Step(s, PointerUp)
  {
  }

  /** During a drag, after any number of moves the pointer still sits at the
      grab offset recorded at pointer-down; the dragged image keeps its size
      and every other image is untouched. */
  lemma {:induction false} DragKeepsOffset(s: State, ps: seq<Point>)
    requires Valid(s) && s.mode == Move && s.isDragging && !s.resizing && s.activeImageIndex != -1
    requires |ps| > 0
    ensures var r := Run(s, Moves(ps));
      var i := s.activeImageIndex;
      && r.activeImageIndex == i && r.isDragging && !r.resizing
      && r.offsetX == s.offsetX && r.offsetY == s.offsetY
      && ps[|ps| - 1].x - r.images[i].x == s.offsetX
      && ps[|ps| - 1].y - r.images[i].y == s.offsetY
      && r.images[i].width == s.images[i].width && r.images[i].height == s.images[i].height
      && |r.images| == |s.images|
      && (forall j :: 0 <= j < |s.images| && j != i ==> r.images[j] == s.images[j])
      && r.paths == s.paths
    decreases |ps|
  {
    var es := Moves(ps);
    RunFirst(s, es);
    var s1 := Step(s, es[0]);
    assert s1 == DragStep(s, ps[0]);
    if |ps| == 1 {
      assert es[1..] == [];
    } else {
      assert es[1..] == Moves(ps[1..]);
      DragKeepsOffset(s1, ps[1..]);
    }
  }

  /** The overlay and the hit test agree: pressing on the k-th overlay point
      of a selection wider and taller than half a handle starts a resize from
      the k-th corner. */
  lemma OverlayMatchesHandles(s: State, k: nat)
    requires Valid(s) && s.mode == Move && s.activeImageIndex != -1 && k < 4
    requires s.images[s.activeImageIndex].width > HandleSize / 2.0
    requires s.images[s.activeImageIndex].height > HandleSize / 2.0
    ensures var q := HandleOverlay(s)[k];
      && CheckResizeHandles(s, q) == Handle(CornerOrder[k])
      && PointerPressed(s, q).resizing
      && PointerPressed(s, q).resizeHandle == Handle(CornerOrder[k])
  {
    var img := s.images[s.activeImageIndex];
    HandleAtCorner(img, CornerOrder[k]);
  }

  /** Pressing on an image and moving without leaving the press point leaves
      every image where it was: the first drag step does not make it jump. */
  lemma DragNoJump(s: State, p: Point)
    requires Valid(s) && s.mode == Move && !s.resizing
    requires CheckResizeHandles(s, p).NoHandle? && ImageAt(s.images, p) != -1
    ensures Run(s, [PointerDown(p), PointerMove(p)]).images == s.images
  {
    var s1 := PointerPressed(s, p);
    var s2 := PointerMoved(s1, p);
    assert s2 == DragStep(s1, p);
    RunFirst(s, [PointerDown(p), PointerMove(p)]);
    assert [PointerDown(p), PointerMove(p)][1..] == [PointerMove(p)];
    RunFirst(s1, [PointerMove(p)]);
    assert s2.images == s1.images;
  }

  /** During a resize, after any number of moves the selected image is at
      least MinWidth wide, still has its native aspect ratio, and the anchor
      is the last pointer position; no other image changes. */
  lemma {:induction false} ResizeKeepsFloor(s: State, ps: seq<Point>)
    requires Valid(s) && s.mode == Move && s.resizing && s.activeImageIndex != -1
    requires |ps| > 0
    ensures var r := Run(s, Moves(ps));
      var i := s.activeImageIndex;
      && r.activeImageIndex == i && r.resizing && r.resizeHandle == s.resizeHandle
      && |r.images| == |s.images|
      && r.images[i].width >= MinWidth
      && r.images[i].nativeW == s.images[i].nativeW && r.images[i].nativeH == s.images[i].nativeH
      && r.images[i].height == r.images[i].width / Ratio(r.images[i])
      && r.startX == ps[|ps| - 1].x && r.startY == ps[|ps| - 1].y
      && (forall j :: 0 <= j < |s.images| && j != i ==> r.images[j] == s.images[j])
    decreases |ps|
  {
    var es := Moves(ps);
    RunFirst(s, es);
    var s1 := Step(s, es[0]);
    assert s1 == ResizeStep(s, ps[0]);
    if |ps| == 1 {
      assert es[1..] == [];
    } else {
      assert es[1..] == Moves(ps[1..]);
      ResizeKeepsFloor(s1, ps[1..]);
    }
  }

  /** Deltas are incremental: two unclamped resize moves amount to one move
      straight to the second position, and the corner opposite the handle
      stays put throughout. */
  lemma ResizeIsIncremental(s: State, p1: Point, p2: Point)
    requires Valid(s) && s.mode == Move && s.resizing && s.activeImageIndex != -1
    requires var img := s.images[s.activeImageIndex];
      var c := s.resizeHandle.corner;
      && ProposedWidth(img.width, c, p1.x - s.startX) >= MinWidth
      && ProposedWidth(ProposedWidth(img.width, c, p1.x - s.startX), c, p2.x - p1.x) >= MinWidth
    ensures var img := s.images[s.activeImageIndex];
      var c := s.resizeHandle.corner;
      var r := PointerMoved(PointerMoved(s, p1), p2).images[s.activeImageIndex];
      && r.width == ProposedWidth(img.width, c, p2.x - s.startX)
      && (IsLeft(c) ==> r.x + r.width == img.x + img.width)
      && (!IsLeft(c) ==> r.x == img.x)
      && (IsTop(c) ==> r.y + r.height == img.y + img.height)
      && (!IsTop(c) ==> r.y == img.y)
  {
    var s1 := ResizeStep(s, p1);
    assert PointerMoved(s, p1) == s1;
    assert PointerMoved(s1, p2) == ResizeStep(s1, p2);
  }

  /** The relation every later path list keeps to an earlier one when no
      confirmed clear intervenes. */
  predicate FrozenBut(a: seq<Path>, b: seq<Path>)
    requires |a| > 0
  {
    |a| <= |b| && b[..|a| - 1] == a[..|a| - 1] && Extends(b[|a| - 1], a[|a| - 1])
  }

  /** No event but a confirmed clear is a confirmed clear. */
  predicate NoClear(es: seq<Event>) {
    forall i :: 0 <= i < |es| ==> !(es[i].Clear? && es[i].confirmed)
  }

  /** Only the last path is ever changed: across any events without a
      confirmed clear, every path but the last stays exactly as it was and
      the last one only gains points at its end. */
  lemma {:induction false} OnlyLastPathChanges(s: State, es: seq<Event>, a: seq<Path>)
    requires Valid(s) && AllAdmissible(es) && NoClear(es)
    requires |a| > 0 && FrozenBut(a, s.paths)
    ensures FrozenBut(a, Run(s, es).paths)
    decreases |es|
  {
    if es != [] {
      RunFirst(s, es);
      var s1 := Step(s, es[0]);
      assert !(es[0].Clear? && es[0].confirmed);
      GrowsAtEndCompose(a, s.paths, s1.paths);
      assert NoClear(es[1..]) by {
        forall i | 0 <= i < |es| - 1 ensures !(es[1..][i].Clear? && es[1..][i].confirmed) {
          assert es[1..][i] == es[i + 1];
        }
      }
      OnlyLastPathChanges(s1, es[1..], a);
    }
  }

  /** The stroke example: press at (10,10), move to (20,10) and (20,20),
      release. One path with the three points in order remains, drawn with
      the default brush, and the stroke has ended. */
  lemma StrokeExample()
    ensures var r := Run(Init(), [SetMode(Draw), PointerDown(Point(10.0, 10.0)),
                                  PointerMove(Point(20.0, 10.0)), PointerMove(Point(20.0, 20.0)), PointerUp]);
      && r.paths == [Path("#000000", 5, [Point(10.0, 10.0), Point(20.0, 10.0), Point(20.0, 20.0)])]
      && !r.isDrawing
  {
    var es := [SetMode(Draw), PointerDown(Point(10.0, 10.0)),
               PointerMove(Point(20.0, 10.0)), PointerMove(Point(20.0, 20.0)), PointerUp];
    var a, b, c := Point(10.0, 10.0), Point(20.0, 10.0), Point(20.0, 20.0);
    var s0 := Init();
    var s1 := Step(s0, es[0]);
    assert s1 == s0.(mode := Draw);
    var s2 := Step(s1, es[1]);
    assert s2 == s1.(isDrawing := true, paths := [Path("#000000", 5, [a])]);
    var s3 := Step(s2, es[2]);
    assert s3.paths == [Path("#000000", 5, [a, b])] by {
      assert s3 == ContinueDrawing(s2, b);
      assert [a] + [b] == [a, b];
    }
    assert s3 == s2.(paths := [Path("#000000", 5, [a, b])]);
    var s4 := Step(s3, es[3]);
    assert s4.paths == [Path("#000000", 5, [a, b, c])] by {
      assert s4 == ContinueDrawing(s3, c);
      assert [a, b] + [c] == [a, b, c];
    }
    var s5 := Step(s4, es[4]);
    assert s5 == s4.(isDrawing := false);
    RunFirst(s0, es);
    RunFirst(s1, es[1..]);
    RunFirst(s2, es[2..]);
    RunFirst(s3, es[3..]);
    RunFirst(s4, es[4..]);
    assert es[1..][1..] == es[2..] && es[2..][1..] == es[3..] && es[3..][1..] == es[4..] && es[4..][1..] == [];
    assert Run(s0, es) == s5;
  }

  /** The handle example: a 200x100 image placed on an 800x600 canvas sits at
      (300,250); pressing its top-left corner and moving by (+10,+10) makes it
      190 wide at x = 310, and height and y follow the aspect ratio (95 high
      at y = 255), keeping the bottom-right corner at (500,350). */
  lemma TopLeftHandleExample()
    ensures Run(Init(), [ImageDecoded(200, 100, 800, 600), PointerDown(Point(300.0, 250.0)),
                         PointerMove(Point(310.0, 260.0))]).images
            == [PlacedImage(200.0, 100.0, 310.0, 255.0, 190.0, 95.0)]
  {
    var es := [ImageDecoded(200, 100, 800, 600), PointerDown(Point(300.0, 250.0)), PointerMove(Point(310.0, 260.0))];
    PlacementExamples();
    var s0 := Init();
    var s1 := Step(s0, es[0]);
    assert s1.images == [PlacedImage(200.0, 100.0, 300.0, 250.0, 200.0, 100.0)];
    var s2 := Step(s1, es[1]);
    assert s2.resizeHandle == Handle(TopLeft);
    var s3 := Step(s2, es[2]);
    RunFirst(s0, es);
    RunFirst(s1, es[1..]);
    RunFirst(s2, es[2..]);
    assert es[1..][1..] == es[2..] && es[2..][1..] == [];
    assert Run(s0, es) == s3;
  }

  /** Drag and resize are not mutually exclusive in main.js: a second
      press (another mouse button) on a handle of the image being dragged
      starts a resize while the drag flag stays on. */
  lemma DragAndResizeCanOverlap()
    ensures var r := Run(Init(), [ImageDecoded(200, 100, 800, 600), PointerDown(Point(400.0, 300.0)),
                                  PointerDown(Point(300.0, 250.0))]);
      r.isDragging && r.resizing
  {
    var es := [ImageDecoded(200, 100, 800, 600), PointerDown(Point(400.0, 300.0)), PointerDown(Point(300.0, 250.0))];
    PlacementExamples();
    var s0 := Init();
    var s1 := Step(s0, es[0]);
    assert s1.images == [PlacedImage(200.0, 100.0, 300.0, 250.0, 200.0, 100.0)];
    var s2 := Step(s1, es[1]);
    assert s2.isDragging;
    var s3 := Step(s2, es[2]);
    RunFirst(s0, es);
    RunFirst(s1, es[1..]);
    RunFirst(s2, es[2..]);
    assert es[1..][1..] == es[2..] && es[2..][1..] == [];
    assert Run(s0, es) == s3;
  }

  /** A confirmed clear in the middle of a stroke leaves the drawing flag on
      with no path to extend; further moves then change nothing until the
      pointer is released. */
  lemma ClearDuringStroke(p: Point, q: Point)
    ensures var r := Run(Init(), [SetMode(Draw), PointerDown(p), Clear(true)]);
      && r.isDrawing && r.paths == [] && r.images == []
      && Step(r, PointerMove(q)) == r
  {
    var es := [SetMode(Draw), PointerDown(p), Clear(true)];
    var s0 := Init();
    var s1 := Step(s0, es[0]);
    var s2 := Step(s1, es[1]);
    var s3 := Step(s2, es[2]);
    RunFirst(s0, es);
    RunFirst(s1, es[1..]);
    RunFirst(s2, es[2..]);
    assert es[1..][1..] == es[2..] && es[2..][1..] == [];
    assert Run(s0, es) == s3;
  }
}
