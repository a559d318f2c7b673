/** Placed images: initial placement of a decoded bitmap, the topmost-first
    hit test, dragging, the corner-handle hit test and the aspect-locked
    corner resize with its minimum width. */
module Images {
  import opened Geometry

  /** A bitmap placed on the canvas. Only the bitmap's native size is kept:
      it fixes the aspect ratio that every resize preserves. */
  datatype PlacedImage = PlacedImage(
    nativeW: real, nativeH: real,
    x: real, y: real, width: real, height: real)

  /** Resizing never takes an image narrower than this. */
  const MinWidth: real := 20.0

  /** Side of the square box centred on each corner that counts as its handle. */
  const HandleSize: real := 10.0

  /** Initial placement fits the image into this fraction of the smaller
      canvas dimension. */
  const FitFraction: real := 0.7

  /** The bitmap has a real size, so its aspect ratio is defined. */
  predicate WellFormed(img: PlacedImage) {
    img.nativeW > 0.0 && img.nativeH > 0.0
  }

  /** Native width over native height. */
  function Ratio(img: PlacedImage): (r: real)
    requires WellFormed(img)
    ensures r > 0.0
  {
    img.nativeW / img.nativeH
  }

  /** The displayed size has the bitmap's native aspect ratio. */
  predicate AspectLocked(img: PlacedImage)
    requires WellFormed(img)
  {
    img.height == img.width / Ratio(img)
  }

  /** The image's own rectangle contains the point (edges inclusive). */
  predicate Contains(img: PlacedImage, p: Point) {
    InRect(p, img.x, img.y, img.width, img.height)
  }

  // ---------------------------------------------------------------------
  // Initial placement
  // ---------------------------------------------------------------------

  /** Largest side an image may have when it is first placed. */
  function MaxDim(canvasW: nat, canvasH: nat): (m: real)
    ensures 0.0 <= m
    ensures m <= canvasW as real && m <= canvasH as real
  {
    (if canvasW <= canvasH then canvasW else canvasH) as real * FitFraction
  }

  /** Places a freshly decoded bitmap: shrunk (never enlarged) so that both
      sides fit within MaxDim, keeping its aspect ratio, and centred on the
      canvas. */
  function PlaceImage(nativeW: nat, nativeH: nat, canvasW: nat, canvasH: nat): (r: PlacedImage)
    requires nativeW > 0 && nativeH > 0
    ensures r.nativeW == nativeW as real && r.nativeH == nativeH as real
    ensures WellFormed(r) && AspectLocked(r)
    ensures 0.0 <= r.width <= r.nativeW && 0.0 <= r.height <= r.nativeH
    ensures r.width <= MaxDim(canvasW, canvasH) && r.height <= MaxDim(canvasW, canvasH)
    ensures Fits(r.nativeW, r.nativeH, MaxDim(canvasW, canvasH)) ==> r.width == r.nativeW && r.height == r.nativeH
    ensures !Fits(r.nativeW, r.nativeH, MaxDim(canvasW, canvasH)) ==> r.width == MaxDim(canvasW, canvasH) || r.height == MaxDim(canvasW, canvasH)
    ensures r.x + r.width / 2.0 == canvasW as real / 2.0
    ensures r.y + r.height / 2.0 == canvasH as real / 2.0
  {
    var w, h := nativeW as real, nativeH as real;
    var size := FitSize(w, h, MaxDim(canvasW, canvasH));
    PlacedImage(w, h, (canvasW as real - size.0) / 2.0, (canvasH as real - size.1) / 2.0, size.0, size.1)
  }

  /** Both native sides already fit within m. */
  predicate Fits(w: real, h: real, m: real) {
    w <= m && h <= m
  }

  /** The displayed size of a w x h bitmap fitted into an m x m box: a wide
      image too wide is scaled to width m, otherwise an image too tall is
      scaled to height m, otherwise the native size is kept. */
  function FitSize(w: real, h: real, m: real): (size: (real, real))
    requires w > 0.0 && h > 0.0 && m >= 0.0
    ensures 0.0 <= size.0 <= w && 0.0 <= size.1 <= h
    ensures size.0 <= m && size.1 <= m
    ensures Fits(w, h, m) ==> size == (w, h)
    ensures !Fits(w, h, m) ==> size.0 == m || size.1 == m
    ensures size.1 == size.0 / (w / h)
  {
    if w > h && w > m then
      var scaled := (h / w) * m;
      ScaleBelow(h, w, m);
      FitAspectWide(w, h, m);
      assert 0.0 <= scaled <= m && scaled <= h;
      (m, scaled)
    else if h > m then
      var scaled := (w / h) * m;
      ScaleBelow(w, h, m);
      FitAspectTall(w, h, m);
      assert 0.0 <= scaled <= m && scaled <= w;
      (scaled, m)
    else
      FitAspectKept(w, h);
      (w, h)
  }

  /** Scaling m by a/b with a <= b stays within both m and a when m < b. */
  lemma ScaleBelow(a: real, b: real, m: real)
    requires 0.0 < a <= b && 0.0 <= m < b
    ensures 0.0 <= (a / b) * m <= m
    ensures (a / b) * m <= a
  {
    var q := a / b;
    assert q * b == a;
    assert q <= 1.0;
    assert q * m <= q * b;
  }

  /** Width m with height (h/w)*m has the ratio w/h. */
  lemma FitAspectWide(w: real, h: real, m: real)
    requires w > 0.0 && h > 0.0
    ensures (h / w) * m == m / (w / h)
  {
  }

  /** Height m with width (w/h)*m has the ratio w/h. */
  lemma FitAspectTall(w: real, h: real, m: real)
    requires w > 0.0 && h > 0.0
    ensures m == ((w / h) * m) / (w / h)
  {
  }

  /** The native size has the ratio w/h. */
  lemma FitAspectKept(w: real, h: real)
    requires w > 0.0 && h > 0.0
    ensures h == w / (w / h)
  {
    var k := w / h;
    assert k * h == w;
  }

  /** The two worked placements: a small image keeps its size, a large one
      is scaled down to 70% of the smaller canvas side. */
  lemma PlacementExamples()
    ensures PlaceImage(200, 100, 800, 600) == PlacedImage(200.0, 100.0, 300.0, 250.0, 200.0, 100.0)
    ensures PlaceImage(1000, 500, 800, 600) == PlacedImage(1000.0, 500.0, 190.0, 195.0, 420.0, 210.0)
  {
  }

  // ---------------------------------------------------------------------
  // Hit test
  // ---------------------------------------------------------------------

  /** The index of the topmost (last-added) image containing p, or -1. */
  function ImageAt(images: seq<PlacedImage>, p: Point): (r: int)
    ensures -1 <= r < |images|
    ensures r >= 0 ==> Contains(images[r], p)
    ensures forall j :: r < j < |images| ==> !Contains(images[j], p)
    ensures r == -1 <==> forall j :: 0 <= j < |images| ==> !Contains(images[j], p)
    decreases |images|
  {
    if |images| == 0 then -1
    else if Contains(images[|images| - 1], p) then |images| - 1
    else ImageAt(images[..|images| - 1], p)
  }

  /** The loop of main.js: walk from the top of the stack down and
      return the first image under the pointer. */
  method GetImageAtPosition(images: seq<PlacedImage>, p: Point) returns (r: int)
    ensures -1 <= r < |images|
    ensures r >= 0 ==> Contains(images[r], p)
    ensures forall j :: r < j < |images| ==> !Contains(images[j], p)
    ensures r == ImageAt(images, p)
  {
    var i := |images| - 1;
    while i >= 0
      invariant -1 <= i < |images|
      invariant forall j :: i < j < |images| ==> !Contains(images[j], p)
    {
      if Contains(images[i], p) {
        return i;
      }
      i := i - 1;
    }
    return -1;
  }

  /** Among overlapping images the most recently added one wins. */
  lemma TopmostWins(images: seq<PlacedImage>, img: PlacedImage, p: Point)
    requires Contains(img, p)
    ensures ImageAt(images + [img], p) == |images|
  {
  }

  // ---------------------------------------------------------------------
  // Drag
  // ---------------------------------------------------------------------

  /** Moves the image so that the pointer keeps the grab offset recorded at
      pointer-down; the size is untouched. */
  function DragTo(img: PlacedImage, p: Point, offsetX: real, offsetY: real): (r: PlacedImage)
    ensures p.x - r.x == offsetX && p.y - r.y == offsetY
    ensures r.(x := img.x, y := img.y) == img
  {
    img.(x := p.x - offsetX, y := p.y - offsetY)
  }

  // ---------------------------------------------------------------------
  // Resize handles
  // ---------------------------------------------------------------------

  /** Where the handle of corner c sits (also where its overlay is drawn). */
  function CornerPoint(img: PlacedImage, c: Corner): (q: Point)
    ensures q.x == if IsLeft(c) then img.x else img.x + img.width
    ensures q.y == if IsTop(c) then img.y else img.y + img.height
    ensures img.width >= 0.0 && img.height >= 0.0 ==> Contains(img, q)
  {
    match c
    case TopLeft => Point(img.x, img.y)
    case TopRight => Point(img.x + img.width, img.y)
    case BottomLeft => Point(img.x, img.y + img.height)
    case BottomRight => Point(img.x + img.width, img.y + img.height)
  }

  /** p lies in the HandleSize square centred on corner c. */
  predicate InHandleBox(img: PlacedImage, c: Corner, p: Point) {
    var q := CornerPoint(img, c);
    InRect(p, q.x - HandleSize / 2.0, q.y - HandleSize / 2.0, HandleSize, HandleSize)
  }

  /** The handle under p, trying top-left, top-right, bottom-left and
      bottom-right in that order. */
  function HandleAt(img: PlacedImage, p: Point): (r: Handle)
    ensures r.Handle? ==> InHandleBox(img, r.corner, p)
    ensures r.Handle? ==> forall c :: Rank(c) < Rank(r.corner) ==> !InHandleBox(img, c, p)
    ensures r.NoHandle? ==> forall c :: !InHandleBox(img, c, p)
  {
    var half := HandleSize / 2.0;
    if InRect(p, img.x - half, img.y - half, HandleSize, HandleSize) then Handle(TopLeft)
    else if InRect(p, img.x + img.width - half, img.y - half, HandleSize, HandleSize) then Handle(TopRight)
    else if InRect(p, img.x - half, img.y + img.height - half, HandleSize, HandleSize) then Handle(BottomLeft)
    else if InRect(p, img.x + img.width - half, img.y + img.height - half, HandleSize, HandleSize) then Handle(BottomRight)
    else NoHandle
  }

  /** Pressing exactly on a corner picks that corner's handle, as long as the
      image is wide and tall enough that no earlier box reaches it. */
  lemma HandleAtCorner(img: PlacedImage, c: Corner)
    requires img.width > HandleSize / 2.0 && img.height > HandleSize / 2.0
    ensures HandleAt(img, CornerPoint(img, c)) == Handle(c)
  {
    assert InHandleBox(img, c, CornerPoint(img, c));
  }

  // ---------------------------------------------------------------------
  // Resize
  // ---------------------------------------------------------------------

  /** Width after dragging corner c horizontally by dx, before the floor:
      the dragged corner follows the pointer. */
  function ProposedWidth(width: real, c: Corner, dx: real): real {
    if IsLeft(c) then width - dx else width + dx
  }

  /** One incremental resize step by horizontal delta dx. The width follows
      the dragged corner, the height is re-derived from the aspect ratio, and
      a width below MinWidth is raised to it without moving x or y back. */
  function ResizeImage(img: PlacedImage, handle: Handle, dx: real): (r: PlacedImage)
    requires WellFormed(img)
    ensures r.nativeW == img.nativeW && r.nativeH == img.nativeH
    ensures r.width >= MinWidth
    ensures WellFormed(r)
    ensures handle.Handle? || AspectLocked(img) ==> AspectLocked(r)
    ensures handle.NoHandle? ==> r.x == img.x && r.y == img.y
    ensures handle.NoHandle? && img.width >= MinWidth ==> r.width == img.width
    ensures handle.Handle? ==>
      var w := ProposedWidth(img.width, handle.corner, dx);
      && r.width == (if w < MinWidth then MinWidth else w)
      && r.x == img.x + (if IsLeft(handle.corner) then img.width - w else 0.0)
      && r.y == img.y + (if IsTop(handle.corner) then (img.width - w) / Ratio(img) else 0.0)
    // With the aspect ratio locked beforehand and no clamp, the corner
    // opposite the dragged one stays where it was.
    ensures handle.Handle? && AspectLocked(img) && ProposedWidth(img.width, handle.corner, dx) >= MinWidth ==>
      && (IsLeft(handle.corner) ==> r.x + r.width == img.x + img.width)
      && (!IsLeft(handle.corner) ==> r.x == img.x)
      && (IsTop(handle.corner) ==> r.y + r.height == img.y + img.height)
      && (!IsTop(handle.corner) ==> r.y == img.y)
  {
    var moved := if handle.Handle? then MoveCorner(img, handle.corner, dx) else img;
    var r := if moved.width < MinWidth then moved.(width := MinWidth, height := MinWidth / Ratio(img)) else moved;
    if handle.Handle? then ResizeEdges(img, handle, dx, r); r else r
  }

  /** The per-handle update before the floor is applied: the dragged corner
      follows the pointer horizontally and the height is re-derived from the
      aspect ratio. */
  function MoveCorner(img: PlacedImage, c: Corner, dx: real): (r: PlacedImage)
    requires WellFormed(img)
    ensures r.nativeW == img.nativeW && r.nativeH == img.nativeH
    ensures r.width == ProposedWidth(img.width, c, dx)
    ensures r.height == r.width / Ratio(img)
    ensures r.x == img.x + (if IsLeft(c) then img.width - r.width else 0.0)
    ensures r.y == img.y + (if IsTop(c) then (img.width - r.width) / Ratio(img) else 0.0)
  {
    var ratio := Ratio(img);
    match c
    case TopLeft =>
      var w := img.width - dx;
      assert img.width - w == dx;
      img.(width := w, height := w / ratio, x := img.x + dx, y := img.y + dx / ratio)
    case TopRight =>
      var w := img.width + dx;
      assert img.width - w == -dx;
      NegateDiv(dx, ratio);
      img.(width := w, height := w / ratio, y := img.y - dx / ratio)
    case BottomLeft =>
      var w := img.width - dx;
      img.(width := w, height := w / ratio, x := img.x + dx)
    case BottomRight =>
      var w := img.width + dx;
      img.(width := w, height := w / ratio)
  }

  /** Division by a non-zero number commutes with negation. */
  lemma NegateDiv(a: real, k: real)
    requires k != 0.0
    ensures (-a) / k == -(a / k)
  {
  }

  /** Arithmetic behind ResizeImage's edge guarantees. */
  lemma ResizeEdges(img: PlacedImage, handle: Handle, dx: real, r: PlacedImage)
    requires WellFormed(img) && handle.Handle?
    requires r.nativeW == img.nativeW && r.nativeH == img.nativeH
    requires AspectLocked(r)
    requires var w := ProposedWidth(img.width, handle.corner, dx);
      && r.width == (if w < MinWidth then MinWidth else w)
      && r.x == img.x + (if IsLeft(handle.corner) then img.width - w else 0.0)
      && r.y == img.y + (if IsTop(handle.corner) then (img.width - w) / Ratio(img) else 0.0)
    ensures AspectLocked(img) && ProposedWidth(img.width, handle.corner, dx) >= MinWidth ==>
      && (IsLeft(handle.corner) ==> r.x + r.width == img.x + img.width)
      && (!IsLeft(handle.corner) ==> r.x == img.x)
      && (IsTop(handle.corner) ==> r.y + r.height == img.y + img.height)
      && (!IsTop(handle.corner) ==> r.y == img.y)
  {
  }

  /** Once an image sits at the floor, further shrinking keeps it there. */
  lemma ResizePinnedAtFloor(img: PlacedImage, c: Corner, dx: real)
    requires WellFormed(img) && img.width == MinWidth
    requires IsLeft(c) ==> dx >= 0.0
    requires !IsLeft(c) ==> dx <= 0.0
    ensures ResizeImage(img, Handle(c), dx).width == MinWidth
  {
  }
}
