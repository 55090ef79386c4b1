// src/2d.cpp: the two grid generators, a line rasteriser and the in-bounds
// 4-neighbourhood. Generators that only yield computed points become
// functions returning the sequence of points they yield.
module Raster2D {
  import opened Base

  /** `std::round(p / q)` of a non-negative ratio: halves round away from zero. */
  function RoundRatio(p: nat, q: nat): (r: nat)
    requires q > 0
  {
    (2 * p + q) / (2 * q)
  }

  /** `RoundRatio` is the nearest integer: `r - 1/2 <= p/q < r + 1/2`. */
  lemma RoundRatioNearest(p: nat, q: nat)
    requires q > 0
    ensures 2 * q * RoundRatio(p, q) <= 2 * p + q < 2 * q * RoundRatio(p, q) + 2 * q
  {
    var n, d := 2 * p + q, 2 * q;
    assert d * (n / d) + n % d == n;
  }

  /** Raising the numerator by at most the denominator raises the rounded ratio by at most one. */
  lemma {:induction false} RoundRatioStep(p: nat, s: nat, q: nat)
    requires q > 0 && s <= q
    ensures RoundRatio(p, q) <= RoundRatio(p + s, q) <= RoundRatio(p, q) + 1
  {
    var a, b := RoundRatio(p, q), RoundRatio(p + s, q);
    RoundRatioNearest(p, q);
    RoundRatioNearest(p + s, q);
    var m := 2 * q;
    assert m * a <= 2 * p + q < m * a + m;
    assert m * b <= 2 * (p + s) + q < m * b + m;
    assert m * (b + 1) == m * b + m;
    assert m * (a + 2) == m * a + m + m;
    MulLess(m, a, b + 1);
    MulLess(m, b, a + 2);
  }

  /** The offset along the shorter axis after `i` steps along the longer one. */
  function ShorterOffset(i: nat, shorter: nat, longer: nat): nat
  {
    if shorter == 0 || longer == 0 then 0 else RoundRatio(i * shorter, longer)
  }

  lemma RoundRatioAtMost(p: nat, q: nat, m: nat)
    requires q > 0 && p <= q * m
    ensures RoundRatio(p, q) <= m
  {
    var r := RoundRatio(p, q);
    RoundRatioNearest(p, q);
    MulLess(2 * q, r, m + 1);
  }

  lemma RoundRatioExact(q: nat, m: nat)
    requires q > 0
    ensures RoundRatio(m * q, q) == m
  {
    assert 2 * (m * q) + q == (2 * q) * m + q;
    DivUnique(2 * (m * q) + q, 2 * q, m, q);
  }

  /** The offset stays within `[0, shorter]` for `i <= longer` and never decreases, since the slope is at most 1. */
  lemma {:induction false} ShorterOffsetBounds(i: nat, shorter: nat, longer: nat)
    requires shorter <= longer && i <= longer
    ensures ShorterOffset(i, shorter, longer) <= shorter
    ensures i == longer ==> ShorterOffset(i, shorter, longer) == shorter
    ensures i < longer ==> ShorterOffset(i, shorter, longer) <= ShorterOffset(i + 1, shorter, longer)
                                                      <= ShorterOffset(i, shorter, longer) + 1
  {
    if shorter != 0 && longer != 0 {
      MulMonotone(shorter, i, longer);
      assert i * shorter <= longer * shorter;
      RoundRatioAtMost(i * shorter, longer, shorter);
      if i == longer {
        RoundRatioExact(longer, shorter);
      }
      if i < longer {
        assert (i + 1) * shorter == i * shorter + shorter;
        RoundRatioStep(i * shorter, shorter, longer);
      }
    }
  }

  /** The i-th tile of the line from `start` to `end`. */
  function TileAt(start: Point, end: Point, i: nat): Point
  {
    var xDiff, yDiff := end.x - start.x, end.y - start.y;
    var xDiffIsLarger := Abs(xDiff) > Abs(yDiff);
    var xModifier := if xDiff < 0 then -1 else 1;
    var yModifier := if yDiff < 0 then -1 else 1;
    var longer, shorter := Max(Abs(xDiff), Abs(yDiff)), Min(Abs(xDiff), Abs(yDiff));
    var inc := ShorterOffset(i, shorter, longer);
    var dx, dy := if xDiffIsLarger then i else inc, if xDiffIsLarger then inc else i;
    Point(start.x + dx * xModifier, start.y + dy * yModifier)
  }

  function SegmentLength(start: Point, end: Point): nat
  {
    Max(Abs(end.x - start.x), Abs(end.y - start.y))
  }

  /** `tilesOnSegment`: `start` first, then one tile per unit step along the longer axis. */
  function TilesOnSegment(start: Point, end: Point): (tiles: seq<Point>)
    ensures |tiles| == SegmentLength(start, end) + 1
    ensures tiles[0] == start
    ensures start == end ==> tiles == [start]
  {
    if start == end then [start]
    else
      var longer := SegmentLength(start, end);
      [start] + seq(longer, k requires 0 <= k < longer => TileAt(start, end, k + 1))
  }

  lemma TilesAt(start: Point, end: Point, i: nat)
    requires i <= SegmentLength(start, end)
    ensures TilesOnSegment(start, end)[i] == TileAt(start, end, i)
  {
  }

  /** Tile `i` on its own: its place along each axis, and `end` at the last step. */
  lemma TileAtGeometry(start: Point, end: Point, i: nat)
    requires i <= SegmentLength(start, end)
    ensures var t := TileAt(start, end, i);
            var dx, dy := end.x - start.x, end.y - start.y;
            (Abs(dx) > Abs(dy) ==> t.x == start.x + (if dx < 0 then -(i as int) else i))
            && (Abs(dx) <= Abs(dy) ==> t.y == start.y + (if dy < 0 then -(i as int) else i))
            && Abs(t.x - start.x) <= Abs(dx) && Abs(t.y - start.y) <= Abs(dy)
            && (i == SegmentLength(start, end) ==> t == end)
  {
    var dx, dy := end.x - start.x, end.y - start.y;
    ShorterOffsetBounds(i, Min(Abs(dx), Abs(dy)), Max(Abs(dx), Abs(dy)));
  }

  /** Consecutive tiles differ by at most one on each axis and are distinct. */
  lemma TileAtStep(start: Point, end: Point, i: nat)
    requires i < SegmentLength(start, end)
    ensures var a, b := TileAt(start, end, i), TileAt(start, end, i + 1);
            Abs(b.x - a.x) <= 1 && Abs(b.y - a.y) <= 1 && a != b
  {
    var dx, dy := end.x - start.x, end.y - start.y;
    ShorterOffsetBounds(i, Min(Abs(dx), Abs(dy)), Max(Abs(dx), Abs(dy)));
  }

  /**
    Tile i is i steps from `start` along the dominant axis, in the direction
    of travel, and within the segment's box on the other axis; the last tile
    is `end`, and consecutive tiles are 8-adjacent.
   */
  lemma TilesOnSegmentGeometry(start: Point, end: Point, i: nat)
    requires i <= SegmentLength(start, end)
    ensures var t := TilesOnSegment(start, end)[i];
            var dx, dy := end.x - start.x, end.y - start.y;
            (Abs(dx) > Abs(dy) ==> t.x == start.x + (if dx < 0 then -(i as int) else i))
            && (Abs(dx) <= Abs(dy) ==> t.y == start.y + (if dy < 0 then -(i as int) else i))
            && Abs(t.x - start.x) <= Abs(dx) && Abs(t.y - start.y) <= Abs(dy)
    ensures i == SegmentLength(start, end) ==> TilesOnSegment(start, end)[i] == end
    ensures i < SegmentLength(start, end) ==>
              var a, b := TilesOnSegment(start, end)[i], TilesOnSegment(start, end)[i + 1];
              Abs(b.x - a.x) <= 1 && Abs(b.y - a.y) <= 1 && a != b
  {
    TilesAt(start, end, i);
    TileAtGeometry(start, end, i);
    if i < SegmentLength(start, end) {
      TilesAt(start, end, i + 1);
      TileAtStep(start, end, i);
    }
  }

  /** The four candidate neighbours in the order tried: left, right, up, down. */
  function Candidates(c: Point): seq<Point>
  {
    [Point(c.x - 1, c.y), Point(c.x + 1, c.y), Point(c.x, c.y - 1), Point(c.x, c.y + 1)]
  }

  predicate InBounds(p: Point, width: int, height: int)
  {
    0 <= p.x < width && 0 <= p.y < height
  }

  function KeepInBounds(ps: seq<Point>, width: int, height: int): (r: seq<Point>)
    ensures |r| <= |ps|
    ensures forall q :: q in r <==> q in ps && InBounds(q, width, height)
    decreases |ps|
  {
    if |ps| == 0 then []
    else (if InBounds(ps[0], width, height) then [ps[0]] else []) + KeepInBounds(ps[1..], width, height)
  }

  lemma KeepAll(ps: seq<Point>, width: int, height: int)
    requires forall k :: 0 <= k < |ps| ==> InBounds(ps[k], width, height)
    ensures KeepInBounds(ps, width, height) == ps
    decreases |ps|
  {
    if |ps| > 0 { KeepAll(ps[1..], width, height); }
  }

  lemma {:induction false} KeepSome(ps: seq<Point>, width: int, height: int)
    requires exists k :: 0 <= k < |ps| && !InBounds(ps[k], width, height)
    ensures |KeepInBounds(ps, width, height)| < |ps|
    decreases |ps|
  {
    if InBounds(ps[0], width, height) {
      var k :| 0 <= k < |ps| && !InBounds(ps[k], width, height);
      assert ps[1..][k - 1] == ps[k];
      KeepSome(ps[1..], width, height);
    }
  }

  /** `neighborsOf`: the in-bounds 4-neighbours of `c` (also `neighbors4`). */
  function NeighborsOf(c: Point, width: int, height: int): (r: seq<Point>)
    ensures forall q :: q in r <==> InBounds(q, width, height) && Abs(q.x - c.x) + Abs(q.y - c.y) == 1
  {
    assert forall q: Point :: Abs(q.x - c.x) + Abs(q.y - c.y) == 1 ==> q in Candidates(c);
    KeepInBounds(Candidates(c), width, height)
  }

  /** An interior centre has all four neighbours, in order left, right, up, down; a border centre has fewer. */
  lemma NeighborsCount(c: Point, width: int, height: int)
    ensures 1 <= c.x < width - 1 && 1 <= c.y < height - 1 ==> NeighborsOf(c, width, height) == Candidates(c)
    ensures InBounds(c, width, height) && !(1 <= c.x < width - 1 && 1 <= c.y < height - 1)
            ==> |NeighborsOf(c, width, height)| < 4
  {
    var cs := Candidates(c);
    if 1 <= c.x < width - 1 && 1 <= c.y < height - 1 {
      KeepAll(cs, width, height);
    } else if InBounds(c, width, height) {
      if c.x == 0 { assert !InBounds(cs[0], width, height); }
      else if c.x == width - 1 { assert !InBounds(cs[1], width, height); }
      else if c.y == 0 { assert !InBounds(cs[2], width, height); }
      else { assert !InBounds(cs[3], width, height); }
      KeepSome(cs, width, height);
    }
  }

  /** The eight cells around `c`, in the order `neighbors8` tries them. */
  function Ring(c: Point): seq<Point>
  {
    [Point(c.x - 1, c.y - 1), Point(c.x, c.y - 1), Point(c.x + 1, c.y - 1),
     Point(c.x - 1, c.y), Point(c.x + 1, c.y),
     Point(c.x - 1, c.y + 1), Point(c.x, c.y + 1), Point(c.x + 1, c.y + 1)]
  }

  /** `neighbors8`: the in-bounds cells of the 3×3 block around `c`, other than `c`. */
  function Neighbors8(c: Point, width: int, height: int): (r: seq<Point>)
    ensures |r| <= 8
  {
    KeepInBounds(Ring(c), width, height)
  }

  lemma Neighbors8Spec(c: Point, width: int, height: int)
    ensures forall q :: q in Neighbors8(c, width, height) <==>
              (InBounds(q, width, height) && q != c && Abs(q.x - c.x) <= 1 && Abs(q.y - c.y) <= 1)
  {
    var ring := Ring(c);
    forall q: Point | q != c && Abs(q.x - c.x) <= 1 && Abs(q.y - c.y) <= 1 ensures q in ring {
      if q.y == c.y - 1 {
        assert q == ring[0] || q == ring[1] || q == ring[2];
      } else if q.y == c.y {
        assert q == ring[3] || q == ring[4];
      } else {
        assert q == ring[5] || q == ring[6] || q == ring[7];
      }
    }
  }

  /** No point occurs twice. */
  predicate Distinct(ps: seq<Point>)
  {
    forall i, j :: 0 <= i < j < |ps| ==> ps[i] != ps[j]
  }

  lemma {:induction false} KeepDistinct(ps: seq<Point>, width: int, height: int)
    requires Distinct(ps)
    ensures Distinct(KeepInBounds(ps, width, height))
    decreases |ps|
  {
    if |ps| > 0 {
      var tail := ps[1..];
      forall i, j | 0 <= i < j < |tail| ensures tail[i] != tail[j] {
        assert tail[i] == ps[i + 1] && tail[j] == ps[j + 1];
      }
      KeepDistinct(tail, width, height);
    }
  }

  /** Both neighbourhoods list each cell once, so a loop over them visits each neighbour once. */
  lemma NeighborsDistinct(c: Point, width: int, height: int)
    ensures Distinct(NeighborsOf(c, width, height))
    ensures Distinct(Neighbors8(c, width, height))
  {
    KeepDistinct(Candidates(c), width, height);
    KeepDistinct(Ring(c), width, height);
  }
}
