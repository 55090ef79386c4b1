// The read-only geometry of `DuckEntity` in src/duck.cpp and its
// `commitEntityPresence`. The duck's position is a pair of reals (the float
// physics of `step` is not modelled); the duck's shape is a `PixelShape`
// whose `hasPixel` reads the pixel classifier, passed in as `cls`.
module Ducks {
  import opened Base
  import opened Pixels
  import opened Assets
  import opened Grids
  import opened World

  // ---------------------------------------------------------------------
  // Rounding

  /** `std::floor` to an int. */
  function FloorOf(r: real): (i: int)
    ensures (i as real) <= r < (i as real) + 1.0
  {
    r.Floor
  }

  /** `std::ceil` to an int. */
  function CeilOf(r: real): (i: int)
    ensures (i as real) - 1.0 < r <= (i as real)
  {
    if (r.Floor as real) == r then r.Floor else r.Floor + 1
  }

  /** `std::round` to an int: to the nearest integer, halves away from zero. */
  function RoundOf(r: real): (i: int)
    ensures -0.5 <= (i as real) - r <= 0.5
    ensures (i as real) - r == 0.5 ==> r >= 0.0
    ensures (i as real) - r == -0.5 ==> r < 0.0
  {
    if r >= 0.0 then (r + 0.5).Floor else -((-r + 0.5).Floor)
  }

  /** Rounding is symmetric about zero. */
  lemma RoundOdd(r: real)
    ensures RoundOf(-r) == -RoundOf(r)
  {
    if r == 0.0 {
    } else if r > 0.0 {
      assert -r < 0.0;
    }
  }

  // ---------------------------------------------------------------------
  // The duck's pixels

  /** Offset `(dx, dy)` is an opaque pixel of the duck's shape (`hasPixel`). */
  predicate DuckPixel(s: PixelShape, cls: Classifier, dx: int, dy: int)
  {
    s.Valid() && s.Contains(dx, dy) && s.HasPixel(cls, dx, dy)
  }

  /** `padding` of `isOutOfWorld`. */
  const Padding: int := 10

  /**
    `isOutOfWorld`: the duck at `(x, y)`, of size `sw` x `sh`, is more than
    the padding beyond the left, right, top or bottom edge of a `w` x `h` world.
   */
  predicate OutOfWorld(x: real, y: real, sw: int, sh: int, w: int, h: int)
  {
    || x + (sw as real) < -(Padding as real)
    || x > (w + Padding) as real
    || y + (sh as real) < -(Padding as real)
    || y > (h + Padding) as real
  }

  // ---------------------------------------------------------------------
  // willCollideAt

  /** A cell that stops the duck: in bounds, Solid and not free-falling. */
  predicate Blocks(g: Grid, x: int, y: int)
    requires g.Valid()
  {
    g.InBounds(x, y) && g.TagAt(x, y).pclass == Solid && !g.TagAt(x, y).isFreeFalling
  }

  /** Column `dx` of the duck placed at `(tx, ty)` has an opaque pixel on a blocking cell. */
  predicate ColumnCollides(g: Grid, s: PixelShape, cls: Classifier, tx: int, ty: int, dx: int)
    requires g.Valid()
  {
    exists dy :: 0 <= dy < s.height && DuckPixel(s, cls, dx, dy) && Blocks(g, tx + dx, ty + dy)
  }

  /** `willCollideAt(tx, ty)`: some column of the duck collides. */
  predicate Collides(g: Grid, s: PixelShape, cls: Classifier, tx: int, ty: int)
    requires g.Valid()
  {
    exists dx :: 0 <= dx < s.width && ColumnCollides(g, s, cls, tx, ty, dx)
  }

  /**
    Seen from the world: the duck at `(tx, ty)` collides iff some blocking
    cell lies under an opaque pixel of its shape.
   */
  lemma CollidesMeaning(g: Grid, s: PixelShape, cls: Classifier, tx: int, ty: int)
    requires g.Valid()
    ensures Collides(g, s, cls, tx, ty) <==> exists x, y :: Blocks(g, x, y) && DuckPixel(s, cls, x - tx, y - ty)
  {
    if Collides(g, s, cls, tx, ty) {
      var dx :| 0 <= dx < s.width && ColumnCollides(g, s, cls, tx, ty, dx);
      var dy :| 0 <= dy < s.height && DuckPixel(s, cls, dx, dy) && Blocks(g, tx + dx, ty + dy);
      assert DuckPixel(s, cls, (tx + dx) - tx, (ty + dy) - ty);
    }
    if exists x, y :: Blocks(g, x, y) && DuckPixel(s, cls, x - tx, y - ty) {
      var x, y :| Blocks(g, x, y) && DuckPixel(s, cls, x - tx, y - ty);
      assert ty + (y - ty) == y;
      assert ColumnCollides(g, s, cls, tx, ty, x - tx);
    }
  }

  /** A duck placed wholly off the grid collides with nothing: off-grid pixels are ignored. */
  lemma OffGridNeverCollides(g: Grid, s: PixelShape, cls: Classifier, tx: int, ty: int)
    requires g.Valid()
    requires tx >= g.width || tx + s.width <= 0 || ty >= g.height || ty + s.height <= 0
    ensures !Collides(g, s, cls, tx, ty)
  {
    forall dx | 0 <= dx < s.width
      ensures !ColumnCollides(g, s, cls, tx, ty, dx)
    {
      forall dy | 0 <= dy < s.height
        ensures !(DuckPixel(s, cls, dx, dy) && Blocks(g, tx + dx, ty + dy))
      {
      }
    }
  }

  /** A duck out of the world does not collide where it stands. */
  lemma OutOfWorldNeverCollides(g: Grid, s: PixelShape, cls: Classifier, x: real, y: real)
    requires g.Valid() && OutOfWorld(x, y, s.width, s.height, g.width, g.height)
    ensures !Collides(g, s, cls, RoundOf(x), RoundOf(y))
  {
    OffGridNeverCollides(g, s, cls, RoundOf(x), RoundOf(y));
  }

  // ---------------------------------------------------------------------
  // commitEntityPresence

  /**
    The cells marked for the opaque pixel `(dx, dy)`, in the loop's order:
    the floor and ceiling column, each with the floor and ceiling row.
   */
  function PixelCells(fx: int, cx: int, fy: int, cy: int, dx: int, dy: int): (ps: seq<Point>)
    ensures |ps| == 4
    ensures forall p :: p in ps <==> (p.x == fx + dx || p.x == cx + dx) && (p.y == fy + dy || p.y == cy + dy)
  {
    [Point(fx + dx, fy + dy), Point(fx + dx, cy + dy), Point(cx + dx, fy + dy), Point(cx + dx, cy + dy)]
  }

  /**
    The duck's opaque pixels as a mask, column by column: entry `[dx][dy]`
    is `hasPixel(dx, dy)`.
   */
  function DuckMask(s: PixelShape, cls: Classifier): (m: seq<seq<bool>>)
    ensures |m| == s.width && forall dx :: 0 <= dx < s.width ==> |m[dx]| == s.height
  {
    seq(s.width, dx => seq(s.height, dy => DuckPixel(s, cls, dx, dy)))
  }

  /** Entry `(dx, dy)` of a mask is present and set. */
  predicate MaskSet(m: seq<seq<bool>>, dx: int, dy: int)
  {
    0 <= dx < |m| && 0 <= dy < |m[dx]| && m[dx][dy]
  }

  lemma DuckMaskAt(s: PixelShape, cls: Classifier, dx: int, dy: int)
    ensures MaskSet(DuckMask(s, cls), dx, dy) <==> DuckPixel(s, cls, dx, dy)
  {
  }

  /** The cells marked for the set entries of column `dx`, one row after another. */
  function ColumnMarks(col: seq<bool>, fx: int, cx: int, fy: int, cy: int, dx: int): seq<seq<Point>>
  {
    seq(|col|, dy requires 0 <= dy < |col| => if col[dy] then PixelCells(fx, cx, fy, cy, dx, dy) else [])
  }

  /** The cells marked for each column of a mask. */
  function ShapeMarks(m: seq<seq<bool>>, fx: int, cx: int, fy: int, cy: int): seq<seq<Point>>
  {
    seq(|m|, dx requires 0 <= dx < |m| => Flatten(ColumnMarks(m[dx], fx, cx, fy, cy, dx)))
  }

  /** Every cell `commitEntityPresence` marks, in visiting order. */
  function PresenceCells(s: PixelShape, cls: Classifier, fx: int, cx: int, fy: int, cy: int): seq<Point>
  {
    Flatten(ShapeMarks(DuckMask(s, cls), fx, cx, fy, cy))
  }

  /**
    The cell `(px, py)` is marked iff it is the floor or ceiling cell of a
    set entry: an offset from the floor or ceiling corner is set.
   */
  predicate Marked(m: seq<seq<bool>>, fx: int, cx: int, fy: int, cy: int, px: int, py: int)
  {
    || MaskSet(m, px - fx, py - fy)
    || MaskSet(m, px - fx, py - cy)
    || MaskSet(m, px - cx, py - fy)
    || MaskSet(m, px - cx, py - cy)
  }

  /** A cell marked for column `dx` is on the column's floor or ceiling, below a set entry. */
  lemma ColumnMarksHave(col: seq<bool>, fx: int, cx: int, fy: int, cy: int, dx: int, p: Point)
    requires p in Flatten(ColumnMarks(col, fx, cx, fy, cy, dx))
    ensures p.x == fx + dx || p.x == cx + dx
    ensures (0 <= p.y - fy < |col| && col[p.y - fy]) || (0 <= p.y - cy < |col| && col[p.y - cy])
  {
    var rows := ColumnMarks(col, fx, cx, fy, cy, dx);
    InFlatten(rows, p);
    var k :| 0 <= k < |rows| && p in rows[k];
    assert col[k] && p in PixelCells(fx, cx, fy, cy, dx, k);
  }

  /** The floor and ceiling cells of a set entry of column `dx` are marked. */
  lemma ColumnMarksHit(col: seq<bool>, fx: int, cx: int, fy: int, cy: int, dx: int, dy: int, p: Point)
    requires 0 <= dy < |col| && col[dy] && p in PixelCells(fx, cx, fy, cy, dx, dy)
    ensures p in Flatten(ColumnMarks(col, fx, cx, fy, cy, dx))
  {
    var rows := ColumnMarks(col, fx, cx, fy, cy, dx);
    InFlatten(rows, p);
    assert p in rows[dy];
  }

  /** A cell marked for a mask is marked for one of its columns. */
  lemma ShapeMarksColumn(m: seq<seq<bool>>, fx: int, cx: int, fy: int, cy: int, p: Point) returns (k: int)
    requires p in Flatten(ShapeMarks(m, fx, cx, fy, cy))
    ensures 0 <= k < |m| && p in Flatten(ColumnMarks(m[k], fx, cx, fy, cy, k))
  {
    var cols := ShapeMarks(m, fx, cx, fy, cy);
    InFlatten(cols, p);
    k :| 0 <= k < |cols| && p in cols[k];
  }

  /** A marked cell is the floor or ceiling cell of a set entry. */
  lemma PresenceHave(m: seq<seq<bool>>, fx: int, cx: int, fy: int, cy: int, p: Point)
    requires p in Flatten(ShapeMarks(m, fx, cx, fy, cy))
    ensures Marked(m, fx, cx, fy, cy, p.x, p.y)
  {
    var k := ShapeMarksColumn(m, fx, cx, fy, cy, p);
    ColumnMarksHave(m[k], fx, cx, fy, cy, k, p);
    var dx := if p.x == fx + k then p.x - fx else p.x - cx;
    assert dx == k;
    if 0 <= p.y - fy < |m[k]| && m[k][p.y - fy] {
      assert MaskSet(m, dx, p.y - fy);
    } else {
      assert MaskSet(m, dx, p.y - cy);
    }
  }

  /** The floor and ceiling cells of every set entry are marked. */
  lemma PresenceHit(m: seq<seq<bool>>, fx: int, cx: int, fy: int, cy: int, dx: int, dy: int, p: Point)
    requires MaskSet(m, dx, dy) && p in PixelCells(fx, cx, fy, cy, dx, dy)
    ensures p in Flatten(ShapeMarks(m, fx, cx, fy, cy))
  {
    var cols := ShapeMarks(m, fx, cx, fy, cy);
    ColumnMarksHit(m[dx], fx, cx, fy, cy, dx, dy, p);
    InFlatten(cols, p);
    assert p in cols[dx];
  }

  /** The marked cells are exactly those `Marked` describes. */
  lemma PresenceMeaning(m: seq<seq<bool>>, fx: int, cx: int, fy: int, cy: int, px: int, py: int)
    ensures Point(px, py) in Flatten(ShapeMarks(m, fx, cx, fy, cy)) <==> Marked(m, fx, cx, fy, cy, px, py)
  {
    var p := Point(px, py);
    if p in Flatten(ShapeMarks(m, fx, cx, fy, cy)) {
      PresenceHave(m, fx, cx, fy, cy, p);
    }
    if Marked(m, fx, cx, fy, cy, px, py) {
      var dx, dy :| dx in {px - fx, px - cx} && dy in {py - fy, py - cy} && MaskSet(m, dx, dy);
      PresenceHit(m, fx, cx, fy, cy, dx, dy, p);
    }
  }

  /** Marking one cell: an in-bounds cell gets its `external_entity_present` flag set. */
  function Mark(g: Grid, p: Point): (r: Grid)
    requires g.Valid()
    ensures r.Valid() && r.width == g.width && r.height == g.height && r.tags == g.tags && r.elems == g.elems
  {
    if g.InBounds(p.x, p.y) then g.WithStatic(p.x, p.y, g.StaticAt(p.x, p.y).(externalEntityPresent := true)) else g
  }

  /** Marking cells one after another. */
  function MarkAll(g: Grid, ps: seq<Point>): (r: Grid)
    requires g.Valid()
    ensures r.Valid() && r.width == g.width && r.height == g.height && r.tags == g.tags && r.elems == g.elems
    decreases |ps|
  {
    if |ps| == 0 then g else Mark(MarkAll(g, ps[..|ps| - 1]), ps[|ps| - 1])
  }

  lemma {:induction false} MarkAllAppend(g: Grid, ps: seq<Point>, qs: seq<Point>)
    requires g.Valid()
    ensures MarkAll(g, ps + qs) == MarkAll(MarkAll(g, ps), qs)
    decreases |qs|
  {
    if |qs| > 0 {
      assert (ps + qs)[..|ps + qs| - 1] == ps + qs[..|qs| - 1];
      MarkAllAppend(g, ps, qs[..|qs| - 1]);
    } else {
      assert ps + qs == ps;
    }
  }

  /**
    After marking a list of cells, an in-bounds cell has its flag set iff it
    is listed or was set before; nothing else of its static tag changes, and
    no flag is cleared.
   */
  lemma {:induction false} MarkAllMeaning(g: Grid, ps: seq<Point>, x: int, y: int)
    requires g.Valid() && g.InBounds(x, y)
    ensures MarkAll(g, ps).StaticAt(x, y)
            == if Point(x, y) in ps then g.StaticAt(x, y).(externalEntityPresent := true) else g.StaticAt(x, y)
    decreases |ps|
  {
    if |ps| > 0 {
      var front := ps[..|ps| - 1];
      MarkAllMeaning(g, front, x, y);
      var h := MarkAll(g, front);
      var p := ps[|ps| - 1];
      if h.InBounds(p.x, p.y) {
        WithStaticCells(h, p.x, p.y, h.StaticAt(p.x, p.y).(externalEntityPresent := true));
      }
      assert Point(x, y) in ps <==> Point(x, y) in front || Point(x, y) == p;
    }
  }

  lemma MarkAllNext(g: Grid, ps: seq<Point>, k: int)
    requires g.Valid() && 0 <= k < |ps|
    ensures MarkAll(g, ps[..k + 1]) == Mark(MarkAll(g, ps[..k]), ps[k])
  {
    assert ps[..k + 1][..k] == ps[..k];
  }

  /** Marking only off-grid cells changes nothing. */
  lemma {:induction false} MarkAllOffGrid(g: Grid, ps: seq<Point>)
    requires g.Valid() && forall p :: p in ps ==> !g.InBounds(p.x, p.y)
    ensures MarkAll(g, ps) == g
    decreases |ps|
  {
    if |ps| > 0 {
      assert forall p :: p in ps[..|ps| - 1] ==> p in ps;
      MarkAllOffGrid(g, ps[..|ps| - 1]);
    }
  }

  /** A duck out of the world marks no cell. */
  lemma OutOfWorldMarksNothing(g: Grid, s: PixelShape, cls: Classifier, x: real, y: real)
    requires g.Valid() && OutOfWorld(x, y, s.width, s.height, g.width, g.height)
    ensures MarkAll(g, PresenceCells(s, cls, FloorOf(x), CeilOf(x), FloorOf(y), CeilOf(y))) == g
  {
    var fx, cx, fy, cy := FloorOf(x), CeilOf(x), FloorOf(y), CeilOf(y);
    var ps := PresenceCells(s, cls, fx, cx, fy, cy);
    forall p | p in ps
      ensures !g.InBounds(p.x, p.y)
    {
      PresenceMeaning(DuckMask(s, cls), fx, cx, fy, cy, p.x, p.y);
    }
    MarkAllOffGrid(g, ps);
  }

  /** Splitting the next row off a flattening. */
  lemma FlattenNext<T>(ls: seq<seq<T>>, k: int)
    requires 0 <= k < |ls|
    ensures Flatten(ls[..k + 1]) == Flatten(ls[..k]) + ls[k]
  {
    assert ls[..k + 1][..k] == ls[..k];
  }

  // ---------------------------------------------------------------------
  // The entity

  class DuckEntity {
    const shape: PixelShape
    var x: real
    var y: real

    /** `DuckEntity(pos)`. */
    constructor(shape: PixelShape, x: real, y: real)
      ensures this.shape == shape && this.x == x && this.y == y
    {
      this.shape, this.x, this.y := shape, x, y;
    }

    /** `setPosition`. */
    method SetPosition(x: real, y: real)
      modifies this
      ensures this.x == x && this.y == y
    {
      this.x, this.y := x, y;
    }

    /** `isOutOfWorld` for a `width` x `height` level. */
    method IsOutOfWorld(width: int, height: int) returns (b: bool)
      ensures b <==> OutOfWorld(x, y, shape.width, shape.height, width, height)
    {
      var padding := 10;
      if x + (shape.width as real) < -(padding as real) {
        return true;
      }
      if x > (width + padding) as real {
        return true;
      }
      if y + (shape.height as real) < -(padding as real) {
        return true;
      }
      if y > (height + padding) as real {
        return true;
      }
      return false;
    }

    /** The inner loop of `willCollideAt`: the rows of column `dx`. */
    method ColumnCollidesAt(world: PixelWorld, cls: Classifier, tx: int, ty: int, dx: int) returns (b: bool)
      requires world.Valid() && shape.Valid() && 0 <= dx < shape.width && 0 <= tx + dx < world.width
      ensures b == ColumnCollides(world.Cells(), shape, cls, tx, ty, dx)
    {
      ghost var g := world.Cells();
      var wx := tx + dx;
      for dy := 0 to shape.height
        invariant forall k :: 0 <= k < dy ==> !(DuckPixel(shape, cls, dx, k) && Blocks(g, wx, ty + k))
      {
        if !shape.HasPixel(cls, dx, dy) {
          continue;
        }
        var wy := ty + dy;
        if wy < 0 || wy >= world.height {
          continue;
        }
        var tag := world.TagOf(wx, wy);
        if tag.pclass == Solid && !tag.isFreeFalling {
          assert DuckPixel(shape, cls, dx, dy) && Blocks(g, tx + dx, ty + dy);
          return true;
        }
      }
      return false;
    }

    /**
      `willCollideAt(tx, ty)`: the duck placed at `(tx, ty)` collides; the
      columns off the grid are skipped.
     */
    method WillCollideAt(world: PixelWorld, cls: Classifier, tx: int, ty: int) returns (b: bool)
      requires world.Valid() && shape.Valid()
      ensures b == Collides(world.Cells(), shape, cls, tx, ty)
    {
      ghost var g := world.Cells();
      for dx := 0 to shape.width
        invariant forall k :: 0 <= k < dx ==> !ColumnCollides(g, shape, cls, tx, ty, k)
      {
        var wx := tx + dx;
        if wx < 0 || wx >= world.width {
          assert !ColumnCollides(g, shape, cls, tx, ty, dx);
          continue;
        }
        var hit := ColumnCollidesAt(world, cls, tx, ty, dx);
        if hit {
          return true;
        }
      }
      return false;
    }

    /** `currentlyColliding`: `willCollideAt` at the rounded position. */
    method CurrentlyColliding(world: PixelWorld, cls: Classifier) returns (b: bool)
      requires world.Valid() && shape.Valid()
      ensures b == Collides(world.Cells(), shape, cls, RoundOf(x), RoundOf(y))
    {
      b := WillCollideAt(world, cls, RoundOf(x), RoundOf(y));
    }

    /** Marking one cell through `staticTagOf`, when it is in bounds. */
    static method MarkAt(world: PixelWorld, p: Point)
      requires world.Valid()
      modifies world.statics
      ensures world.Cells() == Mark(old(world.Cells()), p)
    {
      if world.InBounds(p.x, p.y) {
        var st := world.StaticTagOf(p.x, p.y);
        world.SetStatic(p.x, p.y, st.(externalEntityPresent := true));
      }
    }

    /** The four cells of one opaque pixel. */
    static method MarkPixel(world: PixelWorld, fx: int, cx: int, fy: int, cy: int, dx: int, dy: int)
      requires world.Valid()
      modifies world.statics
      ensures world.Cells() == MarkAll(old(world.Cells()), PixelCells(fx, cx, fy, cy, dx, dy))
    {
      ghost var g := world.Cells();
      var ps := PixelCells(fx, cx, fy, cy, dx, dy);
      MarkAt(world, ps[0]);
      MarkAt(world, ps[1]);
      MarkAt(world, ps[2]);
      MarkAt(world, ps[3]);
      MarkAllNext(g, ps, 0);
      MarkAllNext(g, ps, 1);
      MarkAllNext(g, ps, 2);
      MarkAllNext(g, ps, 3);
      assert ps[..4] == ps;
    }

    /** The rows of column `dx` in `commitEntityPresence`. */
    method MarkColumn(world: PixelWorld, cls: Classifier, fx: int, cx: int, fy: int, cy: int, dx: int)
      requires world.Valid() && shape.Valid() && 0 <= dx < shape.width
      modifies world.statics
      ensures world.Cells() == MarkAll(old(world.Cells()), Flatten(ColumnMarks(DuckMask(shape, cls)[dx], fx, cx, fy, cy, dx)))
    {
      ghost var g := world.Cells();
      ghost var rows := ColumnMarks(DuckMask(shape, cls)[dx], fx, cx, fy, cy, dx);
      for dy := 0 to shape.height
        invariant world.Cells() == MarkAll(g, Flatten(rows[..dy]))
      {
        FlattenNext(rows, dy);
        MarkAllAppend(g, Flatten(rows[..dy]), rows[dy]);
        if shape.HasPixel(cls, dx, dy) {
          MarkPixel(world, fx, cx, fy, cy, dx, dy);
        }
      }
      assert rows[..shape.height] == rows;
    }

    /**
      `commitEntityPresence`: sets `external_entity_present` on the in-bounds
      floor and ceiling cells of every opaque pixel, and changes nothing else.
     */
    method CommitEntityPresence(world: PixelWorld, cls: Classifier)
      requires world.Valid() && shape.Valid()
      modifies world.statics
      ensures world.Cells() == MarkAll(old(world.Cells()), PresenceCells(shape, cls, FloorOf(x), CeilOf(x), FloorOf(y), CeilOf(y)))
    {
      var fx, cx, fy, cy := FloorOf(x), CeilOf(x), FloorOf(y), CeilOf(y);
      ghost var g := world.Cells();
      ghost var cols := ShapeMarks(DuckMask(shape, cls), fx, cx, fy, cy);
      for dx := 0 to shape.width
        invariant world.Cells() == MarkAll(g, Flatten(cols[..dx]))
      {
        FlattenNext(cols, dx);
        MarkAllAppend(g, Flatten(cols[..dx]), cols[dx]);
        MarkColumn(world, cls, fx, cx, fy, cy, dx);
      }
      assert cols[..shape.width] == cols;
    }
  }

  /**
    What `commitEntityPresence` leaves in each cell: the flag is set exactly
    on the cells `Marked` by the duck's mask (the floor and ceiling cells of
    its opaque pixels, see `MarkedDuck`), kept where it was already set, and
    the tags, elements and laser flags are untouched.
   */
  lemma PresenceCommitted(g: Grid, s: PixelShape, cls: Classifier, x: real, y: real, px: int, py: int)
    requires g.Valid() && g.InBounds(px, py)
    ensures var fx, cx, fy, cy := FloorOf(x), CeilOf(x), FloorOf(y), CeilOf(y);
            var r := MarkAll(g, PresenceCells(s, cls, fx, cx, fy, cy));
            && r.tags == g.tags && r.elems == g.elems
            && r.StaticAt(px, py) == g.StaticAt(px, py).(externalEntityPresent :=
                 g.StaticAt(px, py).externalEntityPresent || Marked(DuckMask(s, cls), fx, cx, fy, cy, px, py))
  {
    var fx, cx, fy, cy := FloorOf(x), CeilOf(x), FloorOf(y), CeilOf(y);
    var ps := PresenceCells(s, cls, fx, cx, fy, cy);
    MarkAllMeaning(g, ps, px, py);
    PresenceMeaning(DuckMask(s, cls), fx, cx, fy, cy, px, py);
  }

  /** `Marked` on the duck's mask, in terms of its opaque pixels. */
  lemma MarkedDuck(s: PixelShape, cls: Classifier, fx: int, cx: int, fy: int, cy: int, px: int, py: int)
    ensures Marked(DuckMask(s, cls), fx, cx, fy, cy, px, py)
            <==> || DuckPixel(s, cls, px - fx, py - fy) || DuckPixel(s, cls, px - fx, py - cy)
                 || DuckPixel(s, cls, px - cx, py - fy) || DuckPixel(s, cls, px - cx, py - cy)
  {
    DuckMaskAt(s, cls, px - fx, py - fy);
    DuckMaskAt(s, cls, px - fx, py - cy);
    DuckMaskAt(s, cls, px - cx, py - fy);
    DuckMaskAt(s, cls, px - cx, py - cy);
  }
}
