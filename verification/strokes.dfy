/** Freehand stroke paths: a colour, a width and the points the pointer
    passed through, in order. */
module Strokes {
  import opened Geometry

  /** A brush colour, kept as the colour picker's text (opaque here). */
  type Color = string

  /** One retained stroke. `size` is the brush width in canvas pixels. */
  datatype Path = Path(color: Color, size: int, points: seq<Point>)

  /** Starting a stroke appends exactly one path holding exactly one point,
      in the current brush colour and size; earlier paths are kept as they are. */
  function StartPath(paths: seq<Path>, color: Color, size: int, p: Point): (r: seq<Path>)
    ensures |r| == |paths| + 1
    ensures r[..|paths|] == paths
    ensures r[|paths|].color == color && r[|paths|].size == size
    ensures r[|paths|].points == [p]
  {
    paths + [Path(color, size, [p])]
  }

  /** Continuing a stroke appends p to the last path only. */
  function ExtendLast(paths: seq<Path>, p: Point): (r: seq<Path>)
    requires |paths| > 0
    ensures |r| == |paths|
    ensures r[..|r| - 1] == paths[..|paths| - 1]
    ensures r[|r| - 1].color == paths[|paths| - 1].color
    ensures r[|r| - 1].size == paths[|paths| - 1].size
    ensures |r[|r| - 1].points| == |paths[|paths| - 1].points| + 1
    ensures r[|r| - 1].points[..|paths[|paths| - 1].points|] == paths[|paths| - 1].points
    ensures r[|r| - 1].points[|paths[|paths| - 1].points|] == p
  {
    var last := paths[|paths| - 1];
    paths[|paths| - 1 := last.(points := last.points + [p])]
  }

  /** `after` is `before` with possibly one change at the end: unchanged, one
      new single-point path appended, or one point appended to the last path.
      Every path but the last is left alone. */
  predicate GrowsAtEnd(before: seq<Path>, after: seq<Path>) {
    || after == before
    || (&& |after| == |before| + 1
        && after[..|before|] == before
        && |after[|before|].points| == 1)
    || (&& |after| == |before| > 0
        && after[..|after| - 1] == before[..|before| - 1]
        && after[|after| - 1].color == before[|before| - 1].color
        && after[|after| - 1].size == before[|before| - 1].size
        && |after[|after| - 1].points| == |before[|before| - 1].points| + 1
        && after[|after| - 1].points[..|before[|before| - 1].points|] == before[|before| - 1].points)
  }

  /** A path is a stroke-in-progress extension of another: same colour and
      size, and its points start with the other's points. */
  predicate Extends(longer: Path, shorter: Path) {
    && longer.color == shorter.color
    && longer.size == shorter.size
    && |shorter.points| <= |longer.points|
    && longer.points[..|shorter.points|] == shorter.points
  }

  /** Over any number of steps that each grow at the end, every path but the
      last one is never touched and the last one only gains points. */
  lemma GrowsAtEndCompose(a: seq<Path>, b: seq<Path>, c: seq<Path>)
    requires |a| > 0
    requires |a| <= |b| && b[..|a| - 1] == a[..|a| - 1] && Extends(b[|a| - 1], a[|a| - 1])
    requires GrowsAtEnd(b, c)
    ensures |a| <= |c| && c[..|a| - 1] == a[..|a| - 1] && Extends(c[|a| - 1], a[|a| - 1])
  {
  }
}
