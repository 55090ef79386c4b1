// The closing check of src/structures/gate.cpp as written, on a concrete
// world where it lets the gate's bar overwrite a Solid cell.
module GateFinding {
  import opened Base
  import opened Pixels
  import opened Assets
  import opened Shapes
  import opened Grids
  import opened Structures
  import opened ShapeWorld
  import opened Electric
  import opened Rewrites
  import opened Gates

  /** A one-cell shape whose only cell is its POI, and whose type is Air (so it is always intact). */
  const PointShape: ShapeBase := ShapeBase(0, 0, PixelShape(1, 1, [0, 0, 0, 0]), [TypeAndColor(Air, 0)], [Point(0, 0)])

  /** A South-facing gate at the top of a one-column world, unpowered and open by one cell. */
  const OpenByOne: Structure := Structure(PointShape, 0, GateKind(South, 3))

  /** The contents of row `y` of the sample column. */
  function SampleElement(y: int): Element
  {
    if y == 19 then SandElement else if y == 20 then AirElement else StoneElement
  }

  /** The tag of row `y` of the sample column: the class and type of its element, nothing stored. */
  function SampleTag(y: int): (t: Tag)
    ensures t.electricPower == 0
    ensures 0 <= y < 21 ==> t.pclass == (if y <= 19 then Solid else Gas)
  {
    if y == 19 then PlainTag(Sand, Solid, 0, true, 2)
    else if y == 20 then PlainTag(Air, Gas, 0, false, 5)
    else PlainTag(Stone, Solid, 0, false, 10)
  }

  /**
    A column 21 cells high: the gate's bar on rows 0 to 18 (it has slid back one
    cell, off the top), Sand that fell into the vacated row 19, Air below.
   */
  function SampleColumn(): (g: Grid)
    ensures g.Valid()
  {
    Grid(1, 21, seq(21, SampleTag), seq(21, SampleElement), seq(21, _ => ClearStatic))
  }

  /** In a one-column grid, row `y` is stored at index `y`. */
  lemma ColumnCell(g: Grid, y: int)
    requires g.Valid() && g.width == 1 && 0 <= y < g.height
    ensures g.TagAt(0, y) == g.tags[y] && g.ElemAt(0, y) == g.elems[y]
  {
    assert CellIndex(0, y, 1, g.height) == y;
  }

  /** The sample gate fits its column, and so are its cells of interest. */
  lemma SampleColumnCells()
    ensures var g := SampleColumn();
            && FitsIn(PointShape, g.width, g.height)
            && g.TagAt(0, 0).electricPower == 0
            && g.TagAt(0, 19).pclass == Solid && g.ElemAt(0, 19) == SandElement && g.TagAt(0, 20).pclass == Gas
  {
    var g := SampleColumn();
    ColumnCell(g, 0);
    ColumnCell(g, 19);
    ColumnCell(g, 20);
  }

  /** The sample gate is intact and unpowered. */
  lemma SampleColumnFacts()
    ensures var g := SampleColumn();
            && FitsIn(PointShape, g.width, g.height) && Intact(g, PointShape) && InputCap(g, PointShape, 0) == 0
  {
    var g := SampleColumn();
    var b := PointShape;
    SampleColumnCells();
    assert CellIntact(g, b, 0, 0);
    assert PowerUnder(g, b, 0, 0) == 0;
  }

  /** Closing the sample gate to progress 0 puts Stone on row 19. */
  lemma SampleCloseFills(cfg: Config)
    ensures CloseFurther(SampleColumn(), PointShape, South, 0, cfg).ElemAt(0, 19) == StoneElement
  {
    var g := SampleColumn();
    var b := PointShape;
    var stoneJobs := PathJobs(b, South, GateLength - 0 - 1, StoneElement);
    assert stoneJobs == [Job(Point(0, 19), StoneElement)];
    assert stoneJobs[..0] == [];
    var front := RewriteEach(g, stoneJobs, KeepHeat, cfg);
    ReplaceCells(g, 0, 19, StoneElement, NewTag(StoneElement, cfg, 0).(heat := g.TagAt(0, 19).heat));
    var airJobs := PathJobs(b, South, -0 - 1, AirElement);
    assert Targets(airJobs) == [Point(0, -1)];
    RewriteEachOutside(front, airJobs, KeepHeat, cfg, 0, 19);
  }

  /**
    The closing check as written examines the cell one beyond the one the bar
    is about to fill: in the sample column it looks at the Air on row 20, lets
    the gate close, and the bar's front overwrites the Sand on row 19 with
    Stone. The corrected check sees the Sand and the gate stays put.
   */
  lemma AsWrittenCheckCrushes(cfg: Config)
    ensures var g := SampleColumn();
            && g.TagAt(0, 19).pclass == Solid && g.ElemAt(0, 19) == SandElement
            && !OnBar(PointShape, South, OpenProgress(3), Point(0, 19))
            && GateStepWith(g, OpenByOne, cfg, AsWritten).alive
            && GateStepWith(g, OpenByOne, cfg, AsWritten).grid.ElemAt(0, 19) == StoneElement
            && GateStepWith(g, OpenByOne, cfg, Corrected).grid == g
  {
    SampleColumnCells();
    SampleRowOffBar();
    SampleAsWrittenCloses(cfg);
    SampleCloseFills(cfg);
    SampleCorrectedStays(cfg);
  }

  /** The row-19 cell is just past the front of the bar at progress 1. */
  lemma SampleRowOffBar()
    ensures !OnBar(PointShape, South, 1, Point(0, 19))
  {
    forall k, i | 0 <= k < |PointShape.poi| && -1 <= i < GateLength - 1
      ensures Along(WorldPOI(PointShape, k), South, i) != Point(0, 19)
    {
    }
  }

  /** The sample gate's step, with either check, moves the bar from progress 1 to the progress of its next state. */
  lemma SampleStepMoves(cfg: Config, chk: Check)
    ensures var g := SampleColumn();
            && GateStepWith(g, OpenByOne, cfg, chk).alive
            && GateStepWith(g, OpenByOne, cfg, chk).grid
               == MoveBar(g, PointShape, South, 1, OpenProgress(NextState(g, PointShape, South, 3, false, chk)), cfg)
  {
    SampleColumnFacts();
    GateStepParts(SampleColumn(), OpenByOne, cfg, chk);
    assert OpenProgress(3) == 1;
  }

  /** Unpowered, the sample gate's state drops to 2 as written, and stays at 3 with the corrected check. */
  lemma SampleNextState()
    ensures NextState(SampleColumn(), PointShape, South, 3, false, AsWritten) == 2
    ensures NextState(SampleColumn(), PointShape, South, 3, false, Corrected) == 3
  {
    SampleColumnCells();
    assert OpenProgress(3) == 1;
    assert Along(WorldPOI(PointShape, 0), South, 20) == Point(0, 20);
    assert Along(WorldPOI(PointShape, 0), South, 19) == Point(0, 19);
    assert BlockedAt(SampleColumn(), Point(0, 19));
  }

  /** As written, the unpowered sample gate closes its last cell. */
  lemma SampleAsWrittenCloses(cfg: Config)
    ensures var g := SampleColumn();
            && GateStepWith(g, OpenByOne, cfg, AsWritten).alive
            && GateStepWith(g, OpenByOne, cfg, AsWritten).grid == CloseFurther(g, PointShape, South, 0, cfg)
  {
    SampleStepMoves(cfg, AsWritten);
    SampleNextState();
    assert OpenProgress(2) == 0;
  }

  /** Corrected, the unpowered sample gate sees the Sand and stays where it is. */
  lemma SampleCorrectedStays(cfg: Config)
    ensures var g := SampleColumn(); GateStepWith(g, OpenByOne, cfg, Corrected).grid == g
  {
    SampleStepMoves(cfg, Corrected);
    SampleNextState();
  }
}
