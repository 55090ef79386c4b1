// The data half of src/structures/shape.cpp: what a `PixelShapedStructure`
// records about its shape when it is built (the classified type of each
// shape pixel and the list of point-of-interest cells), and `pixelTypeOf`.
// The half that reads and writes the world is in shape_world.dfy.
module Shapes {
  import opened Base
  import opened Pixels
  import opened Assets

  /**
    A `PixelShapedStructure`: its top-left corner in the world, its shape, the
    classification of every shape pixel (`_pixel_types`, row-major) and the
    POI cells in row-major order.
   */
  datatype ShapeBase = ShapeBase(x: int, y: int, shape: PixelShape, types: seq<TypeAndColor>, poi: seq<Point>)
  {
    function Width(): nat { shape.width }

    function Height(): nat { shape.height }

    predicate Valid()
    {
      && shape.Valid() && |types| == shape.width * shape.height
      && forall k :: 0 <= k < |poi| ==> shape.Contains(poi[k].x, poi[k].y)
    }

    /** `pixelTypeOf`: the classified type of shape cell `(px, py)`, which must lie in the shape. */
    function PixelTypeOf(px: int, py: int): PixelType
      requires Valid() && shape.Contains(px, py)
    {
      types[CellIndex(px, py, shape.width, shape.height)].kind
    }

    /** The classification of shape cell `(px, py)`. */
    function TypeAt(px: int, py: int): TypeAndColor
      requires Valid() && shape.Contains(px, py)
    {
      types[CellIndex(px, py, shape.width, shape.height)]
    }
  }

  /** The classification of the first `n` shape cells in row-major order. */
  function TypesBefore(shape: PixelShape, cls: Classifier, n: nat): (ts: seq<TypeAndColor>)
    requires shape.Valid() && n <= shape.width * shape.height
    ensures |ts| == n
    decreases n
  {
    if n == 0 then []
    else
      var p := CellAt(n - 1, shape.width, shape.height);
      TypesBefore(shape, cls, n - 1) + [PixelTypeFromColor(cls, shape.ColorOf(p.x, p.y))]
  }

  /** `_pixel_types`: each shape pixel's colour, classified, in row-major order. */
  function TypesOf(shape: PixelShape, cls: Classifier): (ts: seq<TypeAndColor>)
    requires shape.Valid()
    ensures |ts| == shape.width * shape.height
  {
    TypesBefore(shape, cls, shape.width * shape.height)
  }

  /** The POI cells among the first `n` cells in row-major order, in that order. */
  function POIsBefore(shape: PixelShape, cls: Classifier, n: nat): (ps: seq<Point>)
    requires shape.Valid() && n <= shape.width * shape.height
    ensures forall k :: 0 <= k < |ps| ==> shape.Contains(ps[k].x, ps[k].y)
    decreases n
  {
    if n == 0 then []
    else
      var p := CellAt(n - 1, shape.width, shape.height);
      POIsBefore(shape, cls, n - 1) + (if shape.IsPOIPixel(cls, p.x, p.y) then [p] else [])
  }

  /** `poi`: every POI cell of the shape, in row-major order. */
  function POIsOf(shape: PixelShape, cls: Classifier): seq<Point>
    requires shape.Valid()
  {
    POIsBefore(shape, cls, shape.width * shape.height)
  }

  function ShapeBaseOf(x: int, y: int, shape: PixelShape, cls: Classifier): (b: ShapeBase)
    requires shape.Valid()
    ensures b.Valid()
  {
    ShapeBase(x, y, shape, TypesOf(shape, cls), POIsOf(shape, cls))
  }

  /** The row-major index of a shape cell. */
  function RowMajor(shape: PixelShape, p: Point): int
    requires shape.Contains(p.x, p.y)
  {
    CellIndex(p.x, p.y, shape.width, shape.height)
  }

  /**
    The first `n` cells contribute exactly their POI cells, each once, in
    strictly increasing row-major order.
   */
  lemma {:induction false} POIsBeforeSpec(shape: PixelShape, cls: Classifier, n: nat)
    requires shape.Valid() && n <= shape.width * shape.height
    ensures var ps := POIsBefore(shape, cls, n);
            && (forall p: Point :: p in ps <==>
                  shape.Contains(p.x, p.y) && RowMajor(shape, p) < n && shape.IsPOIPixel(cls, p.x, p.y))
            && (forall i, j :: 0 <= i < j < |ps| ==> RowMajor(shape, ps[i]) < RowMajor(shape, ps[j]))
            && (forall i :: 0 <= i < |ps| ==> RowMajor(shape, ps[i]) < n)
    decreases n
  {
    if n > 0 {
      POIsBeforeSpec(shape, cls, n - 1);
      var p := CellAt(n - 1, shape.width, shape.height);
      forall q: Point | shape.Contains(q.x, q.y) && RowMajor(shape, q) == n - 1 ensures q == p {
        CellIndexInjective(q.x, q.y, p.x, p.y, shape.width, shape.height);
      }
    }
  }

  /** `poi` lists exactly the POI-coloured cells of the shape, in row-major order and without repeats. */
  lemma POIsOfSpec(shape: PixelShape, cls: Classifier)
    requires shape.Valid()
    ensures var ps := POIsOf(shape, cls);
            && (forall p: Point :: p in ps <==> shape.Contains(p.x, p.y) && shape.IsPOIPixel(cls, p.x, p.y))
            && (forall i, j :: 0 <= i < j < |ps| ==> RowMajor(shape, ps[i]) < RowMajor(shape, ps[j]))
  {
    POIsBeforeSpec(shape, cls, shape.width * shape.height);
  }

  lemma {:induction false} TypesBeforeAt(shape: PixelShape, cls: Classifier, n: nat, k: nat)
    requires shape.Valid() && k < n <= shape.width * shape.height
    ensures var p := CellAt(k, shape.width, shape.height);
            TypesBefore(shape, cls, n)[k] == PixelTypeFromColor(cls, shape.ColorOf(p.x, p.y))
    decreases n
  {
    if k < n - 1 {
      TypesBeforeAt(shape, cls, n - 1, k);
    }
  }

  /** Each shape cell's recorded type is the classification of its colour, wherever the structure sits. */
  lemma TypesOfAt(shape: PixelShape, cls: Classifier, x: int, y: int, sx: int, sy: int)
    requires shape.Valid() && shape.Contains(sx, sy)
    ensures ShapeBaseOf(x, y, shape, cls).TypeAt(sx, sy) == PixelTypeFromColor(cls, shape.ColorOf(sx, sy))
  {
    CellAtIndex(sx, sy, shape.width, shape.height);
    TypesBeforeAt(shape, cls, shape.width * shape.height, CellIndex(sx, sy, shape.width, shape.height));
  }

  /** What visiting shape cell `(sx, sy)` contributes to `_pixel_types` and to `poi`. */
  lemma VisitCell(shape: PixelShape, cls: Classifier, sx: int, sy: int)
    requires shape.Valid() && shape.Contains(sx, sy)
    ensures var k := CellIndex(sx, sy, shape.width, shape.height);
            && TypesBefore(shape, cls, k + 1) == TypesBefore(shape, cls, k) + [PixelTypeFromColor(cls, shape.ColorOf(sx, sy))]
            && POIsBefore(shape, cls, k + 1)
               == POIsBefore(shape, cls, k) + (if shape.IsPOIPixel(cls, sx, sy) then [Point(sx, sy)] else [])
  {
    CellAtIndex(sx, sy, shape.width, shape.height);
  }

  /** One cell of the constructor's pass: records its type and, if it is a POI, appends it. */
  method ClassifyCell(shape: PixelShape, cls: Classifier, types: array<TypeAndColor>, sx: nat, sy: nat, poi: seq<Point>)
    returns (poi': seq<Point>)
    requires shape.Valid() && shape.Contains(sx, sy) && types.Length == shape.width * shape.height
    requires var k := CellIndex(sx, sy, shape.width, shape.height);
             poi == POIsBefore(shape, cls, k) && types[..k] == TypesBefore(shape, cls, k)
    modifies types
    ensures var k := CellIndex(sx, sy, shape.width, shape.height);
            poi' == POIsBefore(shape, cls, k + 1) && types[..k + 1] == TypesBefore(shape, cls, k + 1)
  {
    var k := CellIndex(sx, sy, shape.width, shape.height);
    VisitCell(shape, cls, sx, sy);
    types[k] := PixelTypeFromColor(cls, shape.ColorOf(sx, sy));
    assert types[..k + 1] == types[..k] + [types[k]];
    poi' := poi;
    if shape.IsPOIPixel(cls, sx, sy) {
      poi' := poi' + [Point(sx, sy)];
    }
  }

  /**
    One row of the constructor's pass: classifies row `sy`, whose cells start
    at index `start`, into `types` and appends the row's POIs.
   */
  method ClassifyRow(shape: PixelShape, cls: Classifier, types: array<TypeAndColor>, sy: nat, start: nat, poi: seq<Point>)
    returns (poi': seq<Point>)
    requires shape.Valid() && sy < shape.height && types.Length == shape.width * shape.height
    requires start == sy * shape.width && start + shape.width <= types.Length
    requires poi == POIsBefore(shape, cls, start)
    requires types[..start] == TypesBefore(shape, cls, start)
    modifies types
    ensures poi' == POIsBefore(shape, cls, start + shape.width)
    ensures types[..start + shape.width] == TypesBefore(shape, cls, start + shape.width)
  {
    var w, h := shape.width, shape.height;
    var sx := 0;
    poi' := poi;
    while sx < w
      invariant 0 <= sx <= w
      invariant types[..start + sx] == TypesBefore(shape, cls, start + sx)
      invariant poi' == POIsBefore(shape, cls, start + sx)
    {
      poi' := ClassifyCell(shape, cls, types, sx, sy, poi');
      sx := sx + 1;
    }
  }

  /**
    The `PixelShapedStructure` constructor: one row-major pass over the shape
    that fills `_pixel_types` and collects the POIs.
   */
  method NewShapeBase(x: int, y: int, shape: PixelShape, cls: Classifier) returns (b: ShapeBase)
    requires shape.Valid()
    ensures b == ShapeBaseOf(x, y, shape, cls)
  {
    var w, h := shape.width, shape.height;
    var types := new TypeAndColor[w * h];
    var poi: seq<Point> := [];
    var sy, start := 0, 0;
    while sy < h
      invariant 0 <= sy <= h && start == sy * w && start <= w * h
      invariant types[..start] == TypesBefore(shape, cls, start)
      invariant poi == POIsBefore(shape, cls, start)
    {
      MulMonotone(w, sy + 1, h);
      assert w * (sy + 1) == start + w;
      poi := ClassifyRow(shape, cls, types, sy, start, poi);
      sy, start := sy + 1, start + w;
    }
    assert start == w * h;
    assert types[..] == types[..w * h];
    b := ShapeBase(x, y, shape, types[..], poi);
  }
}
