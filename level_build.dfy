// The world a loaded level starts with, from `Level::loadFromAsset` in
// src/loader.cpp. The world begins all Air. During the scan every pixel that
// is not a marker replaces its cell with the element of its classified type,
// and the class's colour overrides the new tag's unless it is 255; a marker's
// cell stays Air. After the scan each collected structure is constructed and
// added to the world: its `setup` stamps its shape and it is inserted by
// priority.
module LevelBuild {
  import opened Base
  import opened Pixels
  import opened Assets
  import opened Shapes
  import opened Grids
  import opened Structures
  import opened ShapeWorld
  import opened Simulation
  import opened Loader

  // ---------------------------------------------------------------------
  // The cells

  /** One draw per world cell for `constructElementByType` and the new tag, each in the binomials' ranges. */
  predicate LevelDraws(ds: seq<CellDraws>, n: int)
  {
    |ds| == n && forall k :: 0 <= k < |ds| ==> ds[k].oil <= 24 && ds[k].wood <= 48
  }

  /** The element a classified pixel puts in its cell: `constructElementByType` of its type. */
  function LoadedElement(tc: TypeAndColor, d: CellDraws): Element
    requires d.oil <= 24 && d.wood <= 48
  {
    ConstructElementByType(tc.kind, d.oil, d.wood)
  }

  /** The tag that cell gets: the new element's own, with the class's colour unless that is 255. */
  function LoadedTag(tc: TypeAndColor, cfg: Config, d: CellDraws): Tag
    requires d.oil <= 24 && d.wood <= 48
  {
    var t := NewTag(LoadedElement(tc, d), cfg, d.color);
    if tc.colorIndex != 255 then t.(colorIndex := tc.colorIndex) else t
  }

  /** Pixel `k` of the scan on the world: a marker (`None`) leaves its cell, a classified pixel replaces it. */
  function PaintCell(g: Grid, cells: seq<Option<TypeAndColor>>, cfg: Config, ds: seq<CellDraws>, k: int): (r: Grid)
    requires g.Valid() && |cells| == g.width * g.height && LevelDraws(ds, |cells|) && 0 <= k < |cells|
    ensures r.Valid() && r.width == g.width && r.height == g.height && r.statics == g.statics
  {
    match cells[k]
    case None => g
    case Some(tc) =>
      var p := CellAt(k, g.width, g.height);
      var h := g.ReplaceNew(p.x, p.y, LoadedElement(tc, ds[k]), cfg, ds[k].color);
      if tc.colorIndex != 255 then h.WithTag(p.x, p.y, h.TagAt(p.x, p.y).(colorIndex := tc.colorIndex)) else h
  }

  /** The first `n` pixels of the scan, in row-major order. */
  function PaintBefore(g: Grid, cells: seq<Option<TypeAndColor>>, cfg: Config, ds: seq<CellDraws>, n: nat): (r: Grid)
    requires g.Valid() && |cells| == g.width * g.height && LevelDraws(ds, |cells|) && n <= |cells|
    ensures r.Valid() && r.width == g.width && r.height == g.height && r.statics == g.statics
    decreases n
  {
    if n == 0 then g else PaintCell(PaintBefore(g, cells, cfg, ds, n - 1), cells, cfg, ds, n - 1)
  }

  /** The world once the scan is done: a fresh `width` x `height` world with every pixel visited. */
  function PaintLevel(cells: seq<Option<TypeAndColor>>, width: nat, height: nat, cfg: Config, ds: seq<CellDraws>): (r: Grid)
    requires |cells| == width * height && LevelDraws(ds, |cells|)
    ensures r.Valid() && r.width == width && r.height == height
  {
    PaintBefore(NewGrid(width, height, cfg), cells, cfg, ds, |cells|)
  }

  /** What the scan has left in cell `(a, c)` of `g` once it has visited the first `n` pixels. */
  predicate Painted(r: Grid, g: Grid, cells: seq<Option<TypeAndColor>>, cfg: Config, ds: seq<CellDraws>, n: int, a: int, c: int)
    requires r.Valid() && g.Valid() && r.width == g.width && r.height == g.height && g.InBounds(a, c)
    requires |cells| == g.width * g.height && LevelDraws(ds, |cells|)
  {
    var k := CellIndex(a, c, g.width, g.height);
    if k < n && cells[k].Some? then
      r.ElemAt(a, c) == LoadedElement(cells[k].value, ds[k]) && r.TagAt(a, c) == LoadedTag(cells[k].value, cfg, ds[k])
    else r.TagAt(a, c) == g.TagAt(a, c) && r.ElemAt(a, c) == g.ElemAt(a, c)
  }

  /** Visiting pixel `k` paints the cell at index `k`, unless it is a marker, and touches no other cell. */
  lemma PaintCellCell(g: Grid, h: Grid, cells: seq<Option<TypeAndColor>>, cfg: Config, ds: seq<CellDraws>, k: int, a: int, c: int)
    requires g.Valid() && h.Valid() && h.width == g.width && h.height == g.height && g.InBounds(a, c)
    requires |cells| == g.width * g.height && LevelDraws(ds, |cells|) && 0 <= k < |cells|
    requires Painted(h, g, cells, cfg, ds, k, a, c)
    ensures Painted(PaintCell(h, cells, cfg, ds, k), g, cells, cfg, ds, k + 1, a, c)
  {
    var p := CellAt(k, g.width, g.height);
    CellIndexInjective(p.x, p.y, a, c, g.width, g.height);
    if cells[k].Some? {
      var tc := cells[k].value;
      var e := LoadedElement(tc, ds[k]);
      ReplaceCells(h, p.x, p.y, e, NewTag(e, cfg, ds[k].color));
      var h' := h.ReplaceNew(p.x, p.y, e, cfg, ds[k].color);
      WithTagCells(h', p.x, p.y, h'.TagAt(p.x, p.y).(colorIndex := tc.colorIndex));
    }
  }

  /** After the first `n` pixels, each of their cells is painted and every later cell is as it was. */
  lemma {:induction false} PaintBeforeCells(g: Grid, cells: seq<Option<TypeAndColor>>, cfg: Config, ds: seq<CellDraws>, n: nat)
    requires g.Valid() && |cells| == g.width * g.height && LevelDraws(ds, |cells|) && n <= |cells|
    ensures forall a, c :: g.InBounds(a, c) ==> Painted(PaintBefore(g, cells, cfg, ds, n), g, cells, cfg, ds, n, a, c)
    decreases n
  {
    if n > 0 {
      var h := PaintBefore(g, cells, cfg, ds, n - 1);
      PaintBeforeCells(g, cells, cfg, ds, n - 1);
      forall a, c | g.InBounds(a, c) ensures Painted(PaintCell(h, cells, cfg, ds, n - 1), g, cells, cfg, ds, n, a, c) {
        PaintCellCell(g, h, cells, cfg, ds, n - 1, a, c);
      }
    }
  }

  /** What cell `k` of the loaded world holds before any structure is added. */
  predicate LevelCell(r: Grid, cells: seq<Option<TypeAndColor>>, cfg: Config, ds: seq<CellDraws>, k: int)
    requires r.Valid() && |cells| == r.width * r.height && LevelDraws(ds, |cells|) && 0 <= k < |cells|
  {
    var p := CellAt(k, r.width, r.height);
    match cells[k]
    case None => r.ElemAt(p.x, p.y) == AirElement && r.TagAt(p.x, p.y) == AirTag(cfg)
    case Some(tc) => r.ElemAt(p.x, p.y) == LoadedElement(tc, ds[k]) && r.TagAt(p.x, p.y) == LoadedTag(tc, cfg, ds[k])
  }

  /**
    The scan leaves every classified cell holding its type's element with the
    class's colour (unless 255), every marker cell Air, and no static flag set.
   */
  lemma PaintLevelCells(cells: seq<Option<TypeAndColor>>, width: nat, height: nat, cfg: Config, ds: seq<CellDraws>)
    requires |cells| == width * height && LevelDraws(ds, |cells|)
    ensures var r := PaintLevel(cells, width, height, cfg, ds);
            && (forall k :: 0 <= k < |cells| ==> LevelCell(r, cells, cfg, ds, k))
            && forall x, y :: r.InBounds(x, y) ==> r.StaticAt(x, y) == ClearStatic
  {
    var g := NewGrid(width, height, cfg);
    var r := PaintLevel(cells, width, height, cfg, ds);
    NewGridCells(width, height, cfg);
    PaintBeforeCells(g, cells, cfg, ds, |cells|);
    forall k | 0 <= k < |cells| ensures LevelCell(r, cells, cfg, ds, k) {
      var p := CellAt(k, width, height);
      assert Painted(r, g, cells, cfg, ds, |cells|, p.x, p.y);
    }
    forall x, y | r.InBounds(x, y) ensures r.StaticAt(x, y) == ClearStatic {
      assert g.StaticAt(x, y) == ClearStatic;
    }
  }

  /**
    For the cells of a loaded plan: the world cell of every non-marker pixel
    holds the element `constructElementByType` makes for the pixel's class,
    with the class's colour unless that is 255, and every marker's cell is Air.
   */
  lemma PaintLevelFromImage(img: Image, cls: Classifier, cells: seq<Option<TypeAndColor>>, cfg: Config, ds: seq<CellDraws>)
    requires img.Valid() && |cells| == img.width * img.height && LevelDraws(ds, |cells|)
    requires forall i :: 0 <= i < |cells| ==> cells[i] == CellPlan(img, cls, i)
    ensures var r := PaintLevel(cells, img.width, img.height, cfg, ds);
            forall i :: 0 <= i < |cells| ==>
              var p := CellAt(i, img.width, img.height);
              if IsMarkerAt(img, i) then r.ElemAt(p.x, p.y) == AirElement && r.TagAt(p.x, p.y) == AirTag(cfg)
              else r.ElemAt(p.x, p.y) == LoadedElement(PixelTypeFromColor(cls, img.pixels[i]), ds[i])
                   && r.TagAt(p.x, p.y) == LoadedTag(PixelTypeFromColor(cls, img.pixels[i]), cfg, ds[i])
  {
    var r := PaintLevel(cells, img.width, img.height, cfg, ds);
    PaintLevelCells(cells, img.width, img.height, cfg, ds);
    forall i | 0 <= i < |cells|
      ensures var p := CellAt(i, img.width, img.height);
              if IsMarkerAt(img, i) then r.ElemAt(p.x, p.y) == AirElement && r.TagAt(p.x, p.y) == AirTag(cfg)
              else r.ElemAt(p.x, p.y) == LoadedElement(PixelTypeFromColor(cls, img.pixels[i]), ds[i])
                   && r.TagAt(p.x, p.y) == LoadedTag(PixelTypeFromColor(cls, img.pixels[i]), cfg, ds[i])
    {
      assert LevelCell(r, cells, cfg, ds, i);
    }
  }

  // ---------------------------------------------------------------------
  // The structures

  /**
    The shapes the two constructors load from assets: one emitter shape per
    direction (`laser-emitter/shapes`, indexed by the direction) and the
    pressure plate's.
   */
  datatype StructureShapes = StructureShapes(north: PixelShape, east: PixelShape, south: PixelShape, west: PixelShape, plate: PixelShape)
  {
    predicate Valid()
    {
      north.Valid() && east.Valid() && south.Valid() && west.Valid() && plate.Valid()
    }

    /** `laserEmitterShape(dir)`. */
    function Emitter(d: FacingDirection): (s: PixelShape)
      requires Valid()
      ensures s.Valid()
    {
      match d
      case North => north
      case East => east
      case South => south
      case West => west
    }
  }

  /**
    The structure a marker makes: a `LaserEmitter` facing the probed
    direction, whose constructor refuses a shape without exactly one POI, or a
    `PressurePlate`, which always succeeds.
   */
  function MakeStructure(p: Placed, sh: StructureShapes, cls: Classifier): (r: Result<Structure, StructureError>)
    requires sh.Valid()
    ensures r.Ok? <==> p.PlateAt? || |POIsOf(sh.Emitter(p.dir), cls)| == 1
    ensures r.Ok? ==> && r.value.Valid() && r.value.base.x == p.x && r.value.base.y == p.y && r.value.powerCap == 0
                      && r.value.kind == (if p.LaserAt? then Emitter(p.dir) else Plate)
                      && r.value.base.shape == (if p.LaserAt? then sh.Emitter(p.dir) else sh.plate)
                      && (p.LaserAt? ==> |r.value.base.poi| == 1)
    ensures r.Err? ==> r.error == WrongPOICount("LaserEmitter", |POIsOf(sh.Emitter(p.dir), cls)|)
  {
    match p
    case LaserAt(x, y, dir) => NewEmitter(x, y, dir, sh.Emitter(dir), cls)
    case PlateAt(x, y) => Ok(Build(x, y, sh.plate, cls, Plate))
  }

  /** The structures of the markers in scan order, or the refusal of the first constructor that refuses. */
  function MakeStructures(ps: seq<Placed>, sh: StructureShapes, cls: Classifier): (r: Result<seq<Structure>, StructureError>)
    requires sh.Valid()
    ensures r.Ok? <==> forall i :: 0 <= i < |ps| ==> MakeStructure(ps[i], sh, cls).Ok?
    ensures r.Ok? ==> |r.value| == |ps| && forall i :: 0 <= i < |ps| ==> r.value[i] == MakeStructure(ps[i], sh, cls).value
    ensures r.Err? ==> exists i :: 0 <= i < |ps| && MakeStructure(ps[i], sh, cls) == Err(r.error)
                                   && forall j :: 0 <= j < i ==> MakeStructure(ps[j], sh, cls).Ok?
    decreases |ps|
  {
    if ps == [] then Ok([])
    else
      match MakeStructure(ps[0], sh, cls)
      case Err(e) => Err(e)
      case Ok(s) =>
        var rest := MakeStructures(ps[1..], sh, cls);
        if rest.Err? then
          ghost var i :| 0 <= i < |ps[1..]| && MakeStructure(ps[1..][i], sh, cls) == Err(rest.error)
                         && forall j :: 0 <= j < i ==> MakeStructure(ps[1..][j], sh, cls).Ok?;
          assert MakeStructure(ps[i + 1], sh, cls) == Err(rest.error);
          Err(rest.error)
        else Ok([s] + rest.value)
  }

  /** `addStructure` for each structure in turn; a refused gate setup stops the loop with its blocked cell. */
  function AddStructures(g: Grid, ss: seq<Structure>, xs: seq<Structure>, cfg: Config, dss: seq<seq<CellDraws>>)
    : (r: Result<(Grid, seq<Structure>), Point>)
    requires g.Valid() && AllPlaced(xs, g.width, g.height)
    requires |dss| == |xs| && forall i :: 0 <= i < |xs| ==> DrawsFor(xs[i].base, dss[i])
    ensures r.Ok? ==> r.value.0.Valid() && r.value.0.width == g.width && r.value.0.height == g.height
    ensures r.Ok? ==> multiset(r.value.1) == multiset(ss) + multiset(xs)
    ensures (forall i :: 0 <= i < |xs| ==> !xs[i].kind.GateKind?) ==> r.Ok?
    decreases |xs|
  {
    if xs == [] then Ok((g, ss))
    else
      match AddStructure(g, ss, xs[0], cfg, dss[0])
      case Err(q) => Err(q)
      case Ok(v) =>
        InsertMultiset(ss, xs[0]);
        assert xs == [xs[0]] + xs[1..];
        AddStructures(v.0, v.1, xs[1..], cfg, dss[1..])
  }

  /** The `setup` of each structure in turn. */
  function SetupAll(g: Grid, xs: seq<Structure>, cfg: Config, dss: seq<seq<CellDraws>>): (r: Grid)
    requires g.Valid() && AllPlaced(xs, g.width, g.height)
    requires |dss| == |xs| && forall i :: 0 <= i < |xs| ==> DrawsFor(xs[i].base, dss[i])
    ensures r.Valid() && r.width == g.width && r.height == g.height && r.statics == g.statics
    decreases |xs|
  {
    if xs == [] then g else SetupAll(Setup(g, xs[0].base, cfg, dss[0]), xs[1..], cfg, dss[1..])
  }

  /**
    Adding structures to a world whose list is sorted by priority and lies in
    the world keeps both; when none is a gate, the cells are those of each
    structure's `setup` in turn.
   */
  lemma {:induction false} AddStructuresKeepsList(g: Grid, ss: seq<Structure>, xs: seq<Structure>, cfg: Config, dss: seq<seq<CellDraws>>)
    requires g.Valid() && AllPlaced(xs, g.width, g.height)
    requires |dss| == |xs| && forall i :: 0 <= i < |xs| ==> DrawsFor(xs[i].base, dss[i])
    requires SortedByPriority(ss) && AllPlaced(ss, g.width, g.height)
    ensures var r := AddStructures(g, ss, xs, cfg, dss);
            r.Ok? ==> && SortedByPriority(r.value.1) && AllPlaced(r.value.1, g.width, g.height)
                      && ((forall i :: 0 <= i < |xs| ==> !xs[i].kind.GateKind?) ==> r.value.0 == SetupAll(g, xs, cfg, dss))
    decreases |xs|
  {
    if xs != [] {
      AddStructureKeepsList(g, ss, xs[0], cfg, dss[0]);
      var v := AddStructure(g, ss, xs[0], cfg, dss[0]);
      if v.Ok? {
        AddStructuresKeepsList(v.value.0, v.value.1, xs[1..], cfg, dss[1..]);
      }
    }
  }

  /** Structure `s` stamps world cell `(a, c)`: a non-Air cell of its shape lies over it. */
  predicate StampsCell(s: Structure, a: int, c: int)
    requires s.Valid()
  {
    s.base.shape.Contains(a - s.base.x, c - s.base.y) && s.base.TypeAt(a - s.base.x, c - s.base.y).kind != Air
  }

  /** The structures after index `lo` that stamp no cell `(a, c)` are those of the tail after `lo - 1`. */
  lemma ShiftUnstamped(xs: seq<Structure>, lo: int, a: int, c: int)
    requires 0 <= lo < |xs| && forall j :: 0 <= j < |xs| ==> xs[j].Valid()
    requires forall j :: lo < j < |xs| ==> !StampsCell(xs[j], a, c)
    ensures forall j :: lo - 1 < j < |xs[1..]| ==> xs[1..][j].Valid() && !StampsCell(xs[1..][j], a, c)
  {
    forall j | lo - 1 < j < |xs[1..]| ensures xs[1..][j].Valid() && !StampsCell(xs[1..][j], a, c) {
      assert xs[1..][j] == xs[j + 1];
    }
  }

  /** After the setups, a cell no structure stamps is as it was. */
  lemma {:induction false} SetupAllUnstamped(g: Grid, xs: seq<Structure>, cfg: Config, dss: seq<seq<CellDraws>>, a: int, c: int)
    requires g.Valid() && AllPlaced(xs, g.width, g.height) && g.InBounds(a, c)
    requires |dss| == |xs| && forall i :: 0 <= i < |xs| ==> DrawsFor(xs[i].base, dss[i])
    requires forall i :: 0 <= i < |xs| ==> !StampsCell(xs[i], a, c)
    ensures var r := SetupAll(g, xs, cfg, dss);
            r.TagAt(a, c) == g.TagAt(a, c) && r.ElemAt(a, c) == g.ElemAt(a, c)
    decreases |xs|
  {
    if xs != [] {
      var h := Setup(g, xs[0].base, cfg, dss[0]);
      SetupSpec(g, xs[0].base, cfg, dss[0]);
      TailPlaced(xs, g.width, g.height);
      ShiftUnstamped(xs, 0, a, c);
      SetupAllUnstamped(h, xs[1..], cfg, dss[1..], a, c);
    }
  }

  /** After the setups, a stamped cell holds what the last structure over it put there. */
  lemma {:induction false} SetupAllLast(g: Grid, xs: seq<Structure>, cfg: Config, dss: seq<seq<CellDraws>>, i: int, a: int, c: int)
    requires g.Valid() && AllPlaced(xs, g.width, g.height) && g.InBounds(a, c)
    requires |dss| == |xs| && forall i :: 0 <= i < |xs| ==> DrawsFor(xs[i].base, dss[i])
    requires 0 <= i < |xs| && StampsCell(xs[i], a, c) && forall j :: i < j < |xs| ==> !StampsCell(xs[j], a, c)
    ensures Stamped(SetupAll(g, xs, cfg, dss), xs[i].base, cfg, dss[i], a, c)
    decreases |xs|
  {
    var h := Setup(g, xs[0].base, cfg, dss[0]);
    var r := SetupAll(g, xs, cfg, dss);
    TailPlaced(xs, g.width, g.height);
    ShiftUnstamped(xs, i, a, c);
    if i == 0 {
      SetupSpec(g, xs[0].base, cfg, dss[0]);
      assert Stamped(h, xs[0].base, cfg, dss[0], a, c);
      SetupAllUnstamped(h, xs[1..], cfg, dss[1..], a, c);
    } else {
      assert xs[1..][i - 1] == xs[i];
      SetupAllLast(h, xs[1..], cfg, dss[1..], i - 1, a, c);
    }
  }

  /** The tail of a placed list is placed. */
  lemma TailPlaced(xs: seq<Structure>, width: int, height: int)
    requires |xs| > 0 && AllPlaced(xs, width, height)
    ensures AllPlaced(xs[1..], width, height)
  {
    forall j | 0 <= j < |xs[1..]| ensures Simulation.Placed(xs[1..][j], width, height) {
      assert xs[1..][j] == xs[j + 1];
    }
  }

  // ---------------------------------------------------------------------
  // The level's world

  /** The world of a loaded level: its cells and its priority-ordered structure list. */
  datatype LevelWorld = LevelWorld(grid: Grid, structures: seq<Structure>)

  /**
    What the source demands of the structures: each lies in the world
    (`setup` writes its cells unchecked), and one draw list per structure.
   */
  predicate StructuresFit(xs: seq<Structure>, dss: seq<seq<CellDraws>>, width: int, height: int)
  {
    && |dss| == |xs|
    && forall i :: 0 <= i < |xs| ==> xs[i].Valid() && FitsIn(xs[i].base, width, height) && DrawsFor(xs[i].base, dss[i])
  }

  /**
    The world `loadFromAsset` builds from a plan: the scanned cells, then the
    structures constructed in marker order and added one by one. A refused
    emitter shape is the constructor's error.
   */
  function BuildWorld(plan: LevelPlan, width: nat, height: nat, cfg: Config, ds: seq<CellDraws>,
                      sh: StructureShapes, cls: Classifier, dss: seq<seq<CellDraws>>): (r: Result<LevelWorld, StructureError>)
    requires |plan.cells| == width * height && LevelDraws(ds, |plan.cells|) && sh.Valid()
    requires var m := MakeStructures(plan.structures, sh, cls); m.Ok? ==> StructuresFit(m.value, dss, width, height)
    ensures r.Ok? <==> MakeStructures(plan.structures, sh, cls).Ok?
    ensures r.Err? ==> r.error == MakeStructures(plan.structures, sh, cls).error
    ensures r.Ok? ==> && r.value.grid.Valid() && r.value.grid.width == width && r.value.grid.height == height
                      && multiset(r.value.structures) == multiset(MakeStructures(plan.structures, sh, cls).value)
  {
    var g := PaintLevel(plan.cells, width, height, cfg, ds);
    match MakeStructures(plan.structures, sh, cls)
    case Err(e) => Err(e)
    case Ok(xs) =>
      MadePlaced(plan.structures, sh, cls, xs, dss, width, height);
      match AddStructures(g, [], xs, cfg, dss)
      case Ok(v) => Ok(LevelWorld(v.0, v.1))
      case Err(_) => assert false; Err(MissingPOI(""))
  }

  /** The constructed structures are no gates and each is placed in the world. */
  lemma MadePlaced(ps: seq<Placed>, sh: StructureShapes, cls: Classifier, xs: seq<Structure>, dss: seq<seq<CellDraws>>, width: int, height: int)
    requires sh.Valid() && MakeStructures(ps, sh, cls) == Ok(xs) && StructuresFit(xs, dss, width, height)
    ensures AllPlaced(xs, width, height)
    ensures forall i :: 0 <= i < |xs| ==> !xs[i].kind.GateKind?
  {
    forall i | 0 <= i < |xs| ensures Simulation.Placed(xs[i], width, height) && !xs[i].kind.GateKind? {
      assert xs[i] == MakeStructure(ps[i], sh, cls).value;
    }
  }

  /**
    The loaded level's world: its structure list is sorted by priority, lies
    in the world and holds exactly the constructed structures; its cells are
    the scanned ones with each structure's `setup` applied in marker order;
    a cell no structure stamps holds what the scan left there.
   */
  lemma BuildWorldSpec(plan: LevelPlan, width: nat, height: nat, cfg: Config, ds: seq<CellDraws>,
                       sh: StructureShapes, cls: Classifier, dss: seq<seq<CellDraws>>)
    requires |plan.cells| == width * height && LevelDraws(ds, |plan.cells|) && sh.Valid()
    requires var m := MakeStructures(plan.structures, sh, cls); m.Ok? ==> StructuresFit(m.value, dss, width, height)
    ensures var r := BuildWorld(plan, width, height, cfg, ds, sh, cls, dss);
            r.Ok? ==> var xs := MakeStructures(plan.structures, sh, cls).value;
                      && SortedByPriority(r.value.structures) && AllPlaced(r.value.structures, width, height)
                      && r.value.grid == SetupAll(PaintLevel(plan.cells, width, height, cfg, ds), xs, cfg, dss)
                      && forall k :: 0 <= k < |plan.cells| ==>
                           var p := CellAt(k, width, height);
                           (forall i :: 0 <= i < |xs| ==> !StampsCell(xs[i], p.x, p.y)) ==>
                             LevelCell(r.value.grid, plan.cells, cfg, ds, k)
  {
    var r := BuildWorld(plan, width, height, cfg, ds, sh, cls, dss);
    if r.Ok? {
      var xs := MakeStructures(plan.structures, sh, cls).value;
      var g := PaintLevel(plan.cells, width, height, cfg, ds);
      MadePlaced(plan.structures, sh, cls, xs, dss, width, height);
      AddStructuresKeepsList(g, [], xs, cfg, dss);
      PaintLevelCells(plan.cells, width, height, cfg, ds);
      forall k | 0 <= k < |plan.cells|
        ensures var p := CellAt(k, width, height);
                (forall i :: 0 <= i < |xs| ==> !StampsCell(xs[i], p.x, p.y)) ==> LevelCell(r.value.grid, plan.cells, cfg, ds, k)
      {
        var p := CellAt(k, width, height);
        if forall i :: 0 <= i < |xs| ==> !StampsCell(xs[i], p.x, p.y) {
          SetupAllUnstamped(g, xs, cfg, dss, p.x, p.y);
        }
        assert LevelCell(g, plan.cells, cfg, ds, k);
      }
    }
  }
}
