/** The full redraw as a display list: what is drawn, in what order, without
    the canvas calls themselves. */
module Render {
  import opened Geometry
  import opened Images
  import opened Strokes
  import opened Editor

  /** One image of the image layer: the bitmap at its rectangle, with the
      selection highlight drawn around it or not. */
  datatype ImageDraw = ImageDraw(image: PlacedImage, highlighted: bool)

  /** One full redraw. The image layer is drawn first, in list order, and the
      stroke layer over it, each stroke as one polyline with its own colour
      and width, round caps and joins; so no image is drawn over a stroke. */
  datatype Frame = Frame(images: seq<ImageDraw>, strokes: seq<Path>)

  /** The paths a redraw strokes: those with at least two points, in order. */
  function Drawable(paths: seq<Path>): (r: seq<Path>)
    ensures |r| <= |paths|
    ensures forall k :: 0 <= k < |r| ==> |r[k].points| >= 2
  {
    if paths == [] then []
    else (if |paths[0].points| >= 2 then [paths[0]] else []) + Drawable(paths[1..])
  }

  /** Every path with at least two points is stroked, and only paths of the
      list are. */
  lemma {:induction false} DrawableExact(paths: seq<Path>)
    ensures forall i :: 0 <= i < |paths| && |paths[i].points| >= 2 ==> paths[i] in Drawable(paths)
    ensures forall k :: 0 <= k < |Drawable(paths)| ==> Drawable(paths)[k] in paths
  {
    if paths != [] {
      var rest := paths[1..];
      DrawableExact(rest);
      var head := if |paths[0].points| >= 2 then [paths[0]] else [];
      var r := Drawable(paths);
      assert r == head + Drawable(rest);
      forall i | 0 <= i < |paths| && |paths[i].points| >= 2
        ensures paths[i] in r
      {
        if i > 0 {
          assert paths[i] == rest[i - 1];
        }
      }
      forall k | 0 <= k < |r|
        ensures r[k] in paths
      {
        if k >= |head| {
          assert r[k] == Drawable(rest)[k - |head|];
        }
      }
    }
  }

  /** Stroking keeps list order: the strokes of two lists one after the
      other are the strokes of each, one after the other. */
  lemma {:induction false} DrawableAppend(a: seq<Path>, b: seq<Path>)
    ensures Drawable(a + b) == Drawable(a) + Drawable(b)
    decreases |a|
  {
    if a == [] {
      assert a + b == b;
    } else {
      assert (a + b)[1..] == a[1..] + b;
      DrawableAppend(a[1..], b);
    }
  }

  /** Redrawing only the drawable paths draws the same strokes. */
  lemma {:induction false} DrawableIdempotent(paths: seq<Path>)
    ensures Drawable(Drawable(paths)) == Drawable(paths)
  {
    if paths != [] {
      var head := if |paths[0].points| >= 2 then [paths[0]] else [];
      DrawableIdempotent(paths[1..]);
      DrawableAppend(head, Drawable(paths[1..]));
      if head != [] {
        assert Drawable(head) == head by {
          assert head[1..] == [];
        }
      }
    }
  }

  /** The full redraw of a state: every image in insertion order, the
      selected one highlighted only in move mode, then every path with at
      least two points. */
  function DisplayList(s: State): (f: Frame)
    requires SelectionValid(s)
    ensures |f.images| == |s.images|
    ensures forall i :: 0 <= i < |s.images| ==> f.images[i].image == s.images[i]
    ensures forall i :: 0 <= i < |s.images| ==>
      (f.images[i].highlighted <==> s.mode == Move && i == s.activeImageIndex)
    ensures forall i, j ::
      0 <= i < |f.images| && 0 <= j < |f.images| && f.images[i].highlighted && f.images[j].highlighted ==> i == j
    ensures (exists i :: 0 <= i < |f.images| && f.images[i].highlighted) <==>
      s.mode == Move && s.activeImageIndex != -1
    ensures f.strokes == Drawable(s.paths)
    ensures forall k :: 0 <= k < |f.strokes| ==> |f.strokes[k].points| >= 2 && f.strokes[k] in s.paths
    ensures forall i :: 0 <= i < |s.paths| && |s.paths[i].points| >= 2 ==> s.paths[i] in f.strokes
  {
    var layer := seq(|s.images|, i requires 0 <= i < |s.images| =>
      ImageDraw(s.images[i], s.mode == Move && i == s.activeImageIndex));
    DrawableExact(s.paths);
    // The selection is the witness for the highlight's existence.
    assert s.mode == Move && s.activeImageIndex != -1 ==> layer[s.activeImageIndex].highlighted;
    Frame(layer, Drawable(s.paths))
  }

  /** After the stroke example the redraw strokes exactly the three-point
      path; a stroke that is only pressed (one point) draws nothing, and in
      draw mode no highlight is drawn. */
  lemma StrokeRendered(a: Point, b: Point, c: Point)
    ensures var s := Init().(paths := [Path("#000000", 5, [a, b, c])]);
      DisplayList(s) == Frame([], [Path("#000000", 5, [a, b, c])])
    ensures var s := Init().(mode := Draw, paths := [Path("#000000", 5, [a])]);
      DisplayList(s) == Frame([], [])
  {
    var p3 := [Path("#000000", 5, [a, b, c])];
    assert p3[1..] == [];
    assert Drawable(p3) == [p3[0]] + Drawable([]);
    var p1 := [Path("#000000", 5, [a])];
    assert p1[1..] == [];
    assert Drawable(p1) == [] + Drawable([]);
  }
}
