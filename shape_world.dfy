// The half of src/structures/shape.cpp that reads and writes the world:
// `setup` (stamp the shape into the world), `step` (is every shape cell
// still of its type?) and `customRender` (draw Decoration cells into the
// frame buffer). Each pass visits the shape cells in row-major order; the
// functions here fold over that order and the lemmas say what each pass
// does to a single cell.
module ShapeWorld {
  import opened Base
  import opened Pixels
  import opened Assets
  import opened Shapes
  import opened Grids
  import opened World

  /**
    The footprint lies inside the world. `tagOf` and `replacePixel` do no
    bounds check, so every pass here needs it.
   */
  predicate FitsIn(b: ShapeBase, width: int, height: int)
  {
    0 <= b.x && b.x + b.Width() <= width && 0 <= b.y && b.y + b.Height() <= height
  }

  /** World cell `(a, c)` lies under a shape cell of row-major index below `n`. */
  predicate Under(b: ShapeBase, a: int, c: int, n: int)
  {
    b.shape.Contains(a - b.x, c - b.y) && CellIndex(a - b.x, c - b.y, b.Width(), b.Height()) < n
  }

  /** The world cell under shape cell `k`, and the facts that locate it. */
  lemma UnderCell(b: ShapeBase, k: int, a: int, c: int)
    requires 0 <= k < b.Width() * b.Height()
    ensures var p := CellAt(k, b.Width(), b.Height());
            && (a == b.x + p.x && c == b.y + p.y ==> Under(b, a, c, k + 1) && !Under(b, a, c, k))
            && (!(a == b.x + p.x && c == b.y + p.y) ==> (Under(b, a, c, k + 1) <==> Under(b, a, c, k)))
  {
    var p := CellAt(k, b.Width(), b.Height());
    if b.shape.Contains(a - b.x, c - b.y) {
      CellIndexInjective(a - b.x, c - b.y, p.x, p.y, b.Width(), b.Height());
    }
  }

  // ----- setup -----

  /** The generator draws one shape cell's new element takes: Oil's and Wood's burn time, and the colour roll. */
  datatype CellDraws = CellDraws(oil: nat, wood: nat, color: nat)

  /** One draw per shape cell, each in the binomials' ranges. */
  predicate DrawsFor(b: ShapeBase, ds: seq<CellDraws>)
  {
    |ds| == b.Width() * b.Height() && forall k :: 0 <= k < |ds| ==> ds[k].oil <= 24 && ds[k].wood <= 48
  }

  /** The element `setup` gives shape cell `(sx, sy)`: `constructElementByType` of its recorded type. */
  function PlacedElement(b: ShapeBase, sx: int, sy: int, d: CellDraws): Element
    requires b.Valid() && b.shape.Contains(sx, sy) && d.oil <= 24 && d.wood <= 48
  {
    ConstructElementByType(b.TypeAt(sx, sy).kind, d.oil, d.wood)
  }

  /** The tag `setup` gives shape cell `(sx, sy)`: the element's own, with the recorded colour unless that is 255. */
  function PlacedTag(b: ShapeBase, cfg: Config, sx: int, sy: int, d: CellDraws): Tag
    requires b.Valid() && b.shape.Contains(sx, sy) && d.oil <= 24 && d.wood <= 48
  {
    var t := NewTag(PlacedElement(b, sx, sy, d), cfg, d.color);
    if b.TypeAt(sx, sy).colorIndex != 255 then t.(colorIndex := b.TypeAt(sx, sy).colorIndex) else t
  }

  /** `setup` at shape cell `k` (row-major): skip Air; otherwise replace the cell and override its colour. */
  function SetupCell(g: Grid, b: ShapeBase, cfg: Config, ds: seq<CellDraws>, k: int): (r: Grid)
    requires g.Valid() && b.Valid() && FitsIn(b, g.width, g.height) && DrawsFor(b, ds)
    requires 0 <= k < b.Width() * b.Height()
    ensures r.Valid() && r.width == g.width && r.height == g.height && r.statics == g.statics
  {
    var p := CellAt(k, b.Width(), b.Height());
    var tc := b.TypeAt(p.x, p.y);
    if tc.kind == Air then g
    else
      var wx, wy := b.x + p.x, b.y + p.y;
      var h := g.ReplaceNew(wx, wy, PlacedElement(b, p.x, p.y, ds[k]), cfg, ds[k].color);
      if tc.colorIndex != 255 then h.WithTag(wx, wy, h.TagAt(wx, wy).(colorIndex := tc.colorIndex)) else h
  }

  /** The first `n` shape cells of `setup`. */
  function SetupBefore(g: Grid, b: ShapeBase, cfg: Config, ds: seq<CellDraws>, n: nat): (r: Grid)
    requires g.Valid() && b.Valid() && FitsIn(b, g.width, g.height) && DrawsFor(b, ds)
    requires n <= b.Width() * b.Height()
    ensures r.Valid() && r.width == g.width && r.height == g.height && r.statics == g.statics
    decreases n
  {
    if n == 0 then g else SetupCell(SetupBefore(g, b, cfg, ds, n - 1), b, cfg, ds, n - 1)
  }

  /** `PixelShapedStructure::setup`. */
  function Setup(g: Grid, b: ShapeBase, cfg: Config, ds: seq<CellDraws>): (r: Grid)
    requires g.Valid() && b.Valid() && FitsIn(b, g.width, g.height) && DrawsFor(b, ds)
    ensures r.Valid() && r.width == g.width && r.height == g.height && r.statics == g.statics
  {
    SetupBefore(g, b, cfg, ds, b.Width() * b.Height())
  }

  /** What `setup` leaves in world cell `(a, c)` when the shape cell above it is stamped. */
  predicate Stamped(r: Grid, b: ShapeBase, cfg: Config, ds: seq<CellDraws>, a: int, c: int)
    requires r.Valid() && r.InBounds(a, c) && b.Valid() && DrawsFor(b, ds) && b.shape.Contains(a - b.x, c - b.y)
  {
    var k := CellIndex(a - b.x, c - b.y, b.Width(), b.Height());
    && r.ElemAt(a, c) == PlacedElement(b, a - b.x, c - b.y, ds[k])
    && r.TagAt(a, c) == PlacedTag(b, cfg, a - b.x, c - b.y, ds[k])
  }

  /** What `setup` has done to world cell `(a, c)` of `g` once it has visited the first `n` shape cells. */
  predicate SetupHolds(r: Grid, g: Grid, b: ShapeBase, cfg: Config, ds: seq<CellDraws>, n: int, a: int, c: int)
    requires r.Valid() && g.Valid() && r.width == g.width && r.height == g.height && g.InBounds(a, c)
    requires b.Valid() && DrawsFor(b, ds)
  {
    if Under(b, a, c, n) && b.TypeAt(a - b.x, c - b.y).kind != Air then Stamped(r, b, cfg, ds, a, c)
    else r.TagAt(a, c) == g.TagAt(a, c) && r.ElemAt(a, c) == g.ElemAt(a, c)
  }

  /** Visiting shape cell `k` stamps the world cell under it, unless it is Air, and touches no other cell. */
  lemma SetupCellCell(g: Grid, h: Grid, b: ShapeBase, cfg: Config, ds: seq<CellDraws>, k: int, a: int, c: int)
    requires g.Valid() && h.Valid() && h.width == g.width && h.height == g.height && g.InBounds(a, c)
    requires b.Valid() && FitsIn(b, g.width, g.height) && DrawsFor(b, ds)
    requires 0 <= k < b.Width() * b.Height()
    requires SetupHolds(h, g, b, cfg, ds, k, a, c)
    ensures SetupHolds(SetupCell(h, b, cfg, ds, k), g, b, cfg, ds, k + 1, a, c)
  {
    var p := CellAt(k, b.Width(), b.Height());
    var tc := b.TypeAt(p.x, p.y);
    var wx, wy := b.x + p.x, b.y + p.y;
    UnderCell(b, k, a, c);
    if tc.kind != Air {
      var e := PlacedElement(b, p.x, p.y, ds[k]);
      ReplaceCells(h, wx, wy, e, NewTag(e, cfg, ds[k].color));
      var h' := h.ReplaceNew(wx, wy, e, cfg, ds[k].color);
      WithTagCells(h', wx, wy, h'.TagAt(wx, wy).(colorIndex := tc.colorIndex));
    }
  }

  /**
    After the first `n` shape cells, each world cell under one of them that
    is not Air holds its placed element and tag; every other cell is as it was.
   */
  lemma {:induction false} SetupBeforeCells(g: Grid, b: ShapeBase, cfg: Config, ds: seq<CellDraws>, n: nat)
    requires g.Valid() && b.Valid() && FitsIn(b, g.width, g.height) && DrawsFor(b, ds)
    requires n <= b.Width() * b.Height()
    ensures forall a, c :: g.InBounds(a, c) ==> SetupHolds(SetupBefore(g, b, cfg, ds, n), g, b, cfg, ds, n, a, c)
    decreases n
  {
    if n > 0 {
      var h := SetupBefore(g, b, cfg, ds, n - 1);
      SetupBeforeCells(g, b, cfg, ds, n - 1);
      forall a, c | g.InBounds(a, c) ensures SetupHolds(SetupCell(h, b, cfg, ds, n - 1), g, b, cfg, ds, n, a, c) {
        SetupCellCell(g, h, b, cfg, ds, n - 1, a, c);
      }
    }
  }

  /**
    `setup` stamps every non-Air shape cell into the world cell under it (its
    type's element, with the recorded colour unless that is 255) and leaves
    every other cell alone.
   */
  lemma SetupSpec(g: Grid, b: ShapeBase, cfg: Config, ds: seq<CellDraws>)
    requires g.Valid() && b.Valid() && FitsIn(b, g.width, g.height) && DrawsFor(b, ds)
    ensures var r := Setup(g, b, cfg, ds);
            && r.statics == g.statics
            && forall a, c :: g.InBounds(a, c) ==>
                 if b.shape.Contains(a - b.x, c - b.y) && b.TypeAt(a - b.x, c - b.y).kind != Air then Stamped(r, b, cfg, ds, a, c)
                 else r.TagAt(a, c) == g.TagAt(a, c) && r.ElemAt(a, c) == g.ElemAt(a, c)
  {
    var r := Setup(g, b, cfg, ds);
    SetupBeforeCells(g, b, cfg, ds, b.Width() * b.Height());
    forall a, c | g.InBounds(a, c)
      ensures if b.shape.Contains(a - b.x, c - b.y) && b.TypeAt(a - b.x, c - b.y).kind != Air then Stamped(r, b, cfg, ds, a, c)
              else r.TagAt(a, c) == g.TagAt(a, c) && r.ElemAt(a, c) == g.ElemAt(a, c)
    {
      assert SetupHolds(r, g, b, cfg, ds, b.Width() * b.Height(), a, c);
    }
  }

  /** `setup` at one shape cell, on the world. */
  method SetupCellAt(w: PixelWorld, b: ShapeBase, ds: seq<CellDraws>, sx: nat, sy: nat)
    requires w.Valid() && b.Valid() && FitsIn(b, w.width, w.height) && DrawsFor(b, ds) && b.shape.Contains(sx, sy)
    modifies w.tags, w.elems
    ensures w.Cells() == SetupCell(old(w.Cells()), b, w.cfg, ds, CellIndex(sx, sy, b.Width(), b.Height()))
  {
    var k := CellIndex(sx, sy, b.Width(), b.Height());
    CellAtIndex(sx, sy, b.Width(), b.Height());
    var tc := b.TypeAt(sx, sy);
    if tc.kind == Air {
      return;
    }
    var wx, wy := b.x + sx, b.y + sy;
    w.ReplacePixel(wx, wy, PlacedElement(b, sx, sy, ds[k]), ds[k].color);
    if tc.colorIndex != 255 {
      var t := w.TagOf(wx, wy);
      w.SetTag(wx, wy, t.(colorIndex := tc.colorIndex));
    }
  }

  /** One row of `setup`: row `sy`, whose cells start at row-major index `start`. */
  method SetupRowAt(w: PixelWorld, b: ShapeBase, ds: seq<CellDraws>, sy: nat, start: nat, ghost g: Grid)
    requires w.Valid() && b.Valid() && FitsIn(b, w.width, w.height) && DrawsFor(b, ds) && g.Valid()
    requires g.width == w.width && g.height == w.height
    requires sy < b.Height() && start == sy * b.Width() && start + b.Width() <= b.Width() * b.Height()
    requires w.Cells() == SetupBefore(g, b, w.cfg, ds, start)
    modifies w.tags, w.elems
    ensures w.Cells() == SetupBefore(g, b, w.cfg, ds, start + b.Width())
  {
    var sx := 0;
    while sx < b.Width()
      invariant 0 <= sx <= b.Width()
      invariant w.Cells() == SetupBefore(g, b, w.cfg, ds, start + sx)
    {
      SetupCellAt(w, b, ds, sx, sy);
      sx := sx + 1;
    }
  }

  /** `PixelShapedStructure::setup` on the world: the row-major double loop. */
  method SetupAt(w: PixelWorld, b: ShapeBase, ds: seq<CellDraws>)
    requires w.Valid() && b.Valid() && FitsIn(b, w.width, w.height) && DrawsFor(b, ds)
    modifies w.tags, w.elems
    ensures w.Cells() == Setup(old(w.Cells()), b, w.cfg, ds)
  {
    ghost var g := w.Cells();
    var wd, ht := b.Width(), b.Height();
    var sy, start := 0, 0;
    while sy < ht
      invariant 0 <= sy <= ht && start == wd * sy
      invariant w.Cells() == SetupBefore(g, b, w.cfg, ds, start)
    {
      RowStart(wd, ht, sy);
      SetupRowAt(w, b, ds, sy, start, g);
      sy, start := sy + 1, start + wd;
    }
  }

  // ----- step -----

  /** Shape cell `(sx, sy)` is Air, or the world cell under it has its recorded type. */
  predicate CellIntact(g: Grid, b: ShapeBase, sx: int, sy: int)
    requires g.Valid() && b.Valid() && FitsIn(b, g.width, g.height) && b.shape.Contains(sx, sy)
  {
    b.TypeAt(sx, sy).kind == Air || g.TagAt(b.x + sx, b.y + sy).kind == b.TypeAt(sx, sy).kind
  }

  /** `PixelShapedStructure::step`: every non-Air shape cell is still of its recorded type. */
  predicate Intact(g: Grid, b: ShapeBase)
    requires g.Valid() && b.Valid() && FitsIn(b, g.width, g.height)
  {
    forall sx, sy :: 0 <= sx < b.Width() && 0 <= sy < b.Height() ==> CellIntact(g, b, sx, sy)
  }

  /**
    A structure just stamped by `setup` passes its own check, as long as
    no shape type maps to another type's element.
   */
  lemma SetupIntact(g: Grid, b: ShapeBase, cfg: Config, ds: seq<CellDraws>)
    requires g.Valid() && b.Valid() && FitsIn(b, g.width, g.height) && DrawsFor(b, ds)
    requires forall sx, sy :: b.shape.Contains(sx, sy) ==> b.TypeAt(sx, sy).kind in {Air, Decoration, Stone, Wood, Copper, Sand, Water, Oil}
    ensures Intact(Setup(g, b, cfg, ds), b)
  {
    var r := Setup(g, b, cfg, ds);
    SetupSpec(g, b, cfg, ds);
    forall sx, sy | b.shape.Contains(sx, sy) ensures CellIntact(r, b, sx, sy) {
      var k := CellIndex(sx, sy, b.Width(), b.Height());
      ConstructElementByTypeKinds(b.TypeAt(sx, sy).kind, ds[k].oil, ds[k].wood);
      assert r.InBounds(b.x + sx, b.y + sy);
    }
  }

  /** One row of the check: stops at the first shape cell whose world cell has the wrong type. */
  method IntactRowAt(w: PixelWorld, b: ShapeBase, sy: nat) returns (ok: bool)
    requires w.Valid() && b.Valid() && FitsIn(b, w.width, w.height) && sy < b.Height()
    ensures ok <==> forall sx :: 0 <= sx < b.Width() ==> CellIntact(w.Cells(), b, sx, sy)
  {
    var sx := 0;
    while sx < b.Width()
      invariant 0 <= sx <= b.Width()
      invariant forall i :: 0 <= i < sx ==> CellIntact(w.Cells(), b, i, sy)
    {
      var expected := b.TypeAt(sx, sy).kind;
      if expected != Air {
        var t := w.TagOf(b.x + sx, b.y + sy);
        if t.kind != expected {
          assert !CellIntact(w.Cells(), b, sx, sy);
          return false;
        }
      }
      sx := sx + 1;
    }
    return true;
  }

  /** `PixelShapedStructure::step` on the world. */
  method IntactAt(w: PixelWorld, b: ShapeBase) returns (ok: bool)
    requires w.Valid() && b.Valid() && FitsIn(b, w.width, w.height)
    ensures ok == Intact(w.Cells(), b)
  {
    var sy := 0;
    while sy < b.Height()
      invariant 0 <= sy <= b.Height()
      invariant forall j, i :: 0 <= j < sy && 0 <= i < b.Width() ==> CellIntact(w.Cells(), b, i, j)
    {
      var rowOk := IntactRowAt(w, b, sy);
      if !rowOk {
        return false;
      }
      sy := sy + 1;
    }
    return true;
  }

  // ----- customRender -----

  /** Byte `ch` of world cell `(a, c)` in the RGBA frame buffer of a `width` x `height` world. */
  function ByteIndex(a: int, c: int, ch: int, width: int, height: int): (i: nat)
    requires 0 <= a < width && 0 <= c < height && 0 <= ch < 4
    ensures i < width * height * 4
  {
    CellIndex(a, c, width, height) * 4 + ch
  }

  /** Distinct (cell, channel) pairs have distinct bytes. */
  lemma ByteIndexInjective(a1: int, c1: int, ch1: int, a2: int, c2: int, ch2: int, width: int, height: int)
    requires 0 <= a1 < width && 0 <= c1 < height && 0 <= ch1 < 4
    requires 0 <= a2 < width && 0 <= c2 < height && 0 <= ch2 < 4
    ensures ByteIndex(a1, c1, ch1, width, height) == ByteIndex(a2, c2, ch2, width, height) <==> a1 == a2 && c1 == c2 && ch1 == ch2
  {
    CellIndexInjective(a1, c1, a2, c2, width, height);
  }

  /** `customRender` at shape cell `k`: a Decoration cell writes its shape colour over its four buffer bytes. */
  function RenderCell(bs: seq<byte>, width: nat, height: nat, b: ShapeBase, k: int): (r: seq<byte>)
    requires b.Valid() && FitsIn(b, width, height) && |bs| == width * height * 4
    requires 0 <= k < b.Width() * b.Height()
    ensures |r| == |bs|
  {
    var p := CellAt(k, b.Width(), b.Height());
    if b.TypeAt(p.x, p.y).kind != Decoration then bs
    else
      var wx, wy := b.x + p.x, b.y + p.y;
      var col := b.shape.ColorOf(p.x, p.y);
      bs[ByteIndex(wx, wy, 0, width, height) := col.r][ByteIndex(wx, wy, 1, width, height) := col.g]
        [ByteIndex(wx, wy, 2, width, height) := col.b][ByteIndex(wx, wy, 3, width, height) := col.a]
  }

  /** The first `n` shape cells of `customRender`. */
  function RenderBefore(bs: seq<byte>, width: nat, height: nat, b: ShapeBase, n: nat): (r: seq<byte>)
    requires b.Valid() && FitsIn(b, width, height) && |bs| == width * height * 4
    requires n <= b.Width() * b.Height()
    ensures |r| == |bs|
    decreases n
  {
    if n == 0 then bs else RenderCell(RenderBefore(bs, width, height, b, n - 1), width, height, b, n - 1)
  }

  /** What byte `ch` of world cell `(a, c)` holds once the first `n` shape cells are drawn over `bs`. */
  predicate RenderHolds(r: seq<byte>, bs: seq<byte>, width: nat, height: nat, b: ShapeBase, n: int, a: int, c: int, ch: int)
    requires b.Valid() && |bs| == |r| == width * height * 4
    requires 0 <= a < width && 0 <= c < height && 0 <= ch < 4
  {
    r[ByteIndex(a, c, ch, width, height)]
    == if Under(b, a, c, n) && b.TypeAt(a - b.x, c - b.y).kind == Decoration then Channel(b.shape.ColorOf(a - b.x, c - b.y), ch)
       else bs[ByteIndex(a, c, ch, width, height)]
  }

  /** Drawing shape cell `k` writes only the bytes of the world cell under it, and only for a Decoration cell. */
  lemma RenderCellByte(h: seq<byte>, bs: seq<byte>, width: nat, height: nat, b: ShapeBase, k: int, a: int, c: int, ch: int)
    requires b.Valid() && FitsIn(b, width, height) && |bs| == |h| == width * height * 4
    requires 0 <= k < b.Width() * b.Height()
    requires 0 <= a < width && 0 <= c < height && 0 <= ch < 4
    requires RenderHolds(h, bs, width, height, b, k, a, c, ch)
    ensures RenderHolds(RenderCell(h, width, height, b, k), bs, width, height, b, k + 1, a, c, ch)
  {
    var p := CellAt(k, b.Width(), b.Height());
    var wx, wy := b.x + p.x, b.y + p.y;
    UnderCell(b, k, a, c);
    ByteIndexInjective(a, c, ch, wx, wy, 0, width, height);
    ByteIndexInjective(a, c, ch, wx, wy, 1, width, height);
    ByteIndexInjective(a, c, ch, wx, wy, 2, width, height);
    ByteIndexInjective(a, c, ch, wx, wy, 3, width, height);
  }

  /**
    After the first `n` shape cells, each world cell under a Decoration cell
    among them carries that cell's colour in its four bytes, in the order
    r, g, b, a; every other byte is as it was.
   */
  lemma {:induction false} RenderBeforeBytes(bs: seq<byte>, width: nat, height: nat, b: ShapeBase, n: nat)
    requires b.Valid() && FitsIn(b, width, height) && |bs| == width * height * 4
    requires n <= b.Width() * b.Height()
    ensures forall a, c, ch :: 0 <= a < width && 0 <= c < height && 0 <= ch < 4 ==>
              RenderHolds(RenderBefore(bs, width, height, b, n), bs, width, height, b, n, a, c, ch)
    decreases n
  {
    if n > 0 {
      RenderBeforeBytes(bs, width, height, b, n - 1);
      var h := RenderBefore(bs, width, height, b, n - 1);
      var r := RenderCell(h, width, height, b, n - 1);
      forall a, c, ch | 0 <= a < width && 0 <= c < height && 0 <= ch < 4
        ensures RenderHolds(r, bs, width, height, b, n, a, c, ch)
      {
        RenderCellByte(h, bs, width, height, b, n - 1, a, c, ch);
      }
    }
  }

  /** `customRender` writes exactly the Decoration cells' colours, each into its own cell's bytes. */
  lemma RenderSpec(bs: seq<byte>, width: nat, height: nat, b: ShapeBase)
    requires b.Valid() && FitsIn(b, width, height) && |bs| == width * height * 4
    ensures var r := RenderBefore(bs, width, height, b, b.Width() * b.Height());
            forall a, c, ch :: 0 <= a < width && 0 <= c < height && 0 <= ch < 4 ==>
              r[ByteIndex(a, c, ch, width, height)]
              == if b.shape.Contains(a - b.x, c - b.y) && b.TypeAt(a - b.x, c - b.y).kind == Decoration
                 then Channel(b.shape.ColorOf(a - b.x, c - b.y), ch)
                 else bs[ByteIndex(a, c, ch, width, height)]
  {
    var r := RenderBefore(bs, width, height, b, b.Width() * b.Height());
    RenderBeforeBytes(bs, width, height, b, b.Width() * b.Height());
    forall a, c, ch | 0 <= a < width && 0 <= c < height && 0 <= ch < 4
      ensures r[ByteIndex(a, c, ch, width, height)]
              == if b.shape.Contains(a - b.x, c - b.y) && b.TypeAt(a - b.x, c - b.y).kind == Decoration
                 then Channel(b.shape.ColorOf(a - b.x, c - b.y), ch)
                 else bs[ByteIndex(a, c, ch, width, height)]
    {
      assert RenderHolds(r, bs, width, height, b, b.Width() * b.Height(), a, c, ch);
    }
  }

  /** `RenderSpec` at one byte of the world buffer. */
  lemma RenderSpecAt(bs: seq<byte>, width: nat, height: nat, b: ShapeBase, a: int, c: int, ch: int)
    requires b.Valid() && FitsIn(b, width, height) && |bs| == width * height * 4
    requires 0 <= a < width && 0 <= c < height && 0 <= ch < 4
    ensures RenderBefore(bs, width, height, b, b.Width() * b.Height())[ByteIndex(a, c, ch, width, height)]
            == if b.shape.Contains(a - b.x, c - b.y) && b.TypeAt(a - b.x, c - b.y).kind == Decoration
               then Channel(b.shape.ColorOf(a - b.x, c - b.y), ch)
               else bs[ByteIndex(a, c, ch, width, height)]
  {
    RenderSpec(bs, width, height, b);
  }

  /** `customRender` at one shape cell, on the buffer. */
  method RenderCellAt(buf: array<byte>, width: nat, height: nat, b: ShapeBase, sx: nat, sy: nat)
    requires b.Valid() && FitsIn(b, width, height) && buf.Length == width * height * 4 && b.shape.Contains(sx, sy)
    modifies buf
    ensures buf[..] == RenderCell(old(buf[..]), width, height, b, CellIndex(sx, sy, b.Width(), b.Height()))
  {
    CellAtIndex(sx, sy, b.Width(), b.Height());
    if b.TypeAt(sx, sy).kind != Decoration {
      return;
    }
    var wx, wy := b.x + sx, b.y + sy;
    var col := b.shape.ColorOf(sx, sy);
    buf[ByteIndex(wx, wy, 0, width, height)] := col.r;
    buf[ByteIndex(wx, wy, 1, width, height)] := col.g;
    buf[ByteIndex(wx, wy, 2, width, height)] := col.b;
    buf[ByteIndex(wx, wy, 3, width, height)] := col.a;
  }

  /** One row of `customRender`: row `sy`, whose cells start at row-major index `start`. */
  method RenderRowAt(buf: array<byte>, width: nat, height: nat, b: ShapeBase, sy: nat, start: nat, ghost bs: seq<byte>)
    requires b.Valid() && FitsIn(b, width, height) && buf.Length == width * height * 4 && |bs| == buf.Length
    requires sy < b.Height() && start == sy * b.Width() && start + b.Width() <= b.Width() * b.Height()
    requires buf[..] == RenderBefore(bs, width, height, b, start)
    modifies buf
    ensures buf[..] == RenderBefore(bs, width, height, b, start + b.Width())
  {
    var sx := 0;
    while sx < b.Width()
      invariant 0 <= sx <= b.Width()
      invariant buf[..] == RenderBefore(bs, width, height, b, start + sx)
    {
      RenderCellAt(buf, width, height, b, sx, sy);
      sx := sx + 1;
    }
  }

  /** `PixelShapedStructure::customRender` on the frame buffer of a `width` x `height` world. */
  method CustomRenderAt(buf: array<byte>, width: nat, height: nat, b: ShapeBase)
    requires b.Valid() && FitsIn(b, width, height) && buf.Length == width * height * 4
    modifies buf
    ensures buf[..] == RenderBefore(old(buf[..]), width, height, b, b.Width() * b.Height())
  {
    ghost var bs := buf[..];
    var wd, ht := b.Width(), b.Height();
    var sy, start := 0, 0;
    while sy < ht
      invariant 0 <= sy <= ht && start == wd * sy
      invariant buf[..] == RenderBefore(bs, width, height, b, start)
    {
      RowStart(wd, ht, sy);
      RenderRowAt(buf, width, height, b, sy, start, bs);
      sy, start := sy + 1, start + wd;
    }
  }
}
