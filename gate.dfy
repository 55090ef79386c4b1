// src/structures/gate.cpp: a gate is a bar of Stone, `GateLength` cells long,
// that runs from each POI in the gate's direction. While powered it slides
// backwards one cell every `GateOpenSpeed` ticks (the bar's front cell turns
// to Air and a Stone cell appears behind its back); unpowered it slides
// forward again. It only moves when the cell it is about to fill is not Solid.
module Gates {
  import opened Base
  import opened Pixels
  import opened Assets
  import opened Shapes
  import opened Grids
  import opened World
  import opened Structures
  import opened ShapeWorld
  import opened Electric
  import opened Rewrites
  import opened Raster2D

  /** `gate_length`. */
  const GateLength: int := 20
  /** `gate_open_speed`: ticks per cell. */
  const GateOpenSpeed: int := 3

  /** `_openProgress`: how many cells the bar has slid back. */
  function OpenProgress(openState: int): int
  {
    TruncDiv(openState, GateOpenSpeed)
  }

  /** One loop over `poi` at offset `i`: a job per POI, in POI order, writing `e`. */
  function PathJobs(b: ShapeBase, d: FacingDirection, i: int, e: Element): (js: seq<Job>)
    ensures |js| == |b.poi|
    ensures forall k :: 0 <= k < |b.poi| ==> js[k] == Job(Along(WorldPOI(b, k), d, i), e)
  {
    seq(|b.poi|, k requires 0 <= k < |b.poi| => Job(Along(WorldPOI(b, k), d, i), e))
  }

  /** An in-bounds cell of class Solid. */
  predicate BlockedAt(g: Grid, p: Point)
    requires g.Valid()
  {
    g.InBounds(p.x, p.y) && g.TagAt(p.x, p.y).pclass == Solid
  }

  /** Which cell `_canMoveFurther` examines when closing: the source's, or the one the bar will fill. */
  datatype Check = AsWritten | Corrected

  /** The offset `_canMoveFurther` examines for a move to progress `next`. */
  function CheckedOffset(next: int, direction: int, chk: Check): int
  {
    if direction < 0 then (if chk == AsWritten then GateLength - next else GateLength - next - 1)
    else -next
  }

  /** No POI's cell at offset `off` is blocked. */
  predicate PathClear(g: Grid, b: ShapeBase, d: FacingDirection, off: int)
    requires g.Valid()
  {
    forall k :: 0 <= k < |b.poi| ==> !BlockedAt(g, Along(WorldPOI(b, k), d, off))
  }

  /** `_canMoveFurther(world, direction)`. */
  predicate CanMoveFurther(g: Grid, b: ShapeBase, d: FacingDirection, openState: int, direction: int, chk: Check)
    requires g.Valid()
  {
    var next := OpenProgress(openState) + direction;
    0 <= next < GateLength && PathClear(g, b, d, CheckedOffset(next, direction, chk))
  }

  /** `_openFurther` at the new progress: the front cells become Air, then the cells behind the back become Stone. */
  function OpenFurther(g: Grid, b: ShapeBase, d: FacingDirection, progress: int, cfg: Config): (r: Grid)
    requires g.Valid()
    ensures r.Valid() && r.width == g.width && r.height == g.height && r.statics == g.statics
  {
    var front := RewriteEach(g, PathJobs(b, d, GateLength - progress, AirElement), KeepHeat, cfg);
    RewriteEach(front, PathJobs(b, d, -progress, StoneElement), KeepHeat, cfg)
  }

  /** `_closeFurther` at the new progress: the cells past the front become Stone, then the back cells become Air. */
  function CloseFurther(g: Grid, b: ShapeBase, d: FacingDirection, progress: int, cfg: Config): (r: Grid)
    requires g.Valid()
    ensures r.Valid() && r.width == g.width && r.height == g.height && r.statics == g.statics
  {
    var front := RewriteEach(g, PathJobs(b, d, GateLength - progress - 1, StoneElement), KeepHeat, cfg);
    RewriteEach(front, PathJobs(b, d, -progress - 1, AirElement), KeepHeat, cfg)
  }

  /** The open state after one step: one higher while powered, one lower otherwise, when the bar can move. */
  function NextState(g: Grid, b: ShapeBase, d: FacingDirection, openState: int, powered: bool, chk: Check): int
    requires g.Valid()
  {
    if powered then (if CanMoveFurther(g, b, d, openState, 1, chk) then openState + 1 else openState)
    else if CanMoveFurther(g, b, d, openState, -1, chk) then openState - 1 else openState
  }

  /** The end of `Gate::step`: open further when the progress rose, close further when it fell. */
  function MoveBar(g: Grid, b: ShapeBase, d: FacingDirection, p: int, p': int, cfg: Config): (r: Grid)
    requires g.Valid()
    ensures r.Valid() && r.width == g.width && r.height == g.height && r.statics == g.statics
  {
    if p' > p then OpenFurther(g, b, d, p', cfg)
    else if p' < p then CloseFurther(g, b, d, p', cfg)
    else g
  }

  /**
    `Gate::step`, with the closing check `chk`: a broken shape removes the
    gate; otherwise the capacitor is updated, the state moves by at most one
    towards open or closed, and the bar moves when the progress changes.
   */
  function GateStepWith(g: Grid, s: Structure, cfg: Config, chk: Check): (r: StepResult)
    requires g.Valid() && s.Valid() && s.kind.GateKind? && FitsIn(s.base, g.width, g.height)
    ensures r.grid.Valid() && r.grid.width == g.width && r.grid.height == g.height && r.grid.statics == g.statics
    ensures !r.alive <==> !Intact(g, s.base)
    ensures !r.alive ==> r.grid == g && r.structure == s
    ensures r.alive ==> r.structure.base == s.base && r.structure.kind.GateKind? && r.structure.kind.dir == s.kind.dir
    ensures r.alive ==> r.structure.powerCap == InputCap(g, s.base, s.powerCap)
    ensures r.alive ==> var st, st' := s.kind.openState, r.structure.kind.openState;
              && (r.structure.IsPowered() ==> st <= st' <= st + 1)
              && (!r.structure.IsPowered() ==> st - 1 <= st' <= st)
              && (0 <= st && OpenProgress(st) < GateLength ==> 0 <= st' && OpenProgress(st') < GateLength)
  {
    var b := s.base;
    if !Intact(g, b) then StepResult(false, g, s)
    else
      var cap := InputCap(g, b, s.powerCap);
      var d, st := s.kind.dir, s.kind.openState;
      var st' := NextState(g, b, d, st, cap > 0, chk);
      var p, p' := OpenProgress(st), OpenProgress(st');
      StepResult(true, MoveBar(g, b, d, p, p', cfg), Structure(b, cap, GateKind(d, st')))
  }

  /** An intact gate's step, piece by piece (used to evaluate steps on concrete worlds). */
  lemma GateStepParts(g: Grid, s: Structure, cfg: Config, chk: Check)
    requires g.Valid() && s.Valid() && s.kind.GateKind? && FitsIn(s.base, g.width, g.height) && Intact(g, s.base)
    ensures var cap := InputCap(g, s.base, s.powerCap);
            var st' := NextState(g, s.base, s.kind.dir, s.kind.openState, cap > 0, chk);
            GateStepWith(g, s, cfg, chk)
            == StepResult(true, MoveBar(g, s.base, s.kind.dir, OpenProgress(s.kind.openState), OpenProgress(st'), cfg),
                          Structure(s.base, cap, GateKind(s.kind.dir, st')))
  {
  }

  /** A cell on the bar of a gate at progress `p`: offsets `-p` to `GateLength - 1 - p` from a POI. */
  ghost predicate OnBar(b: ShapeBase, d: FacingDirection, p: int, q: Point)
  {
    exists k, i :: 0 <= k < |b.poi| && -p <= i < GateLength - p && Along(WorldPOI(b, k), d, i) == q
  }

  /**
    The progress moves by at most one cell a step, and only into cells the
    check found free: behind the back when opening, at offset
    `CheckedOffset(p - 1, -1, chk)` when closing.
   */
  lemma NextStateMoves(g: Grid, b: ShapeBase, d: FacingDirection, st: int, powered: bool, chk: Check)
    requires g.Valid() && 0 <= st
    ensures var p, p' := OpenProgress(st), OpenProgress(NextState(g, b, d, st, powered, chk));
            && p - 1 <= p' <= p + 1
            && (p' > p ==> powered && PathClear(g, b, d, -(p + 1)))
            && (p' < p ==> !powered && PathClear(g, b, d, CheckedOffset(p - 1, -1, chk)))
  {
  }

  /** Opening to progress `p + 1` when the cells behind the back were free touches only the old bar and those cells. */
  lemma OpenNeverCrushes(g: Grid, b: ShapeBase, d: FacingDirection, p: int, cfg: Config, a: int, c: int)
    requires g.Valid() && PathClear(g, b, d, -(p + 1))
    requires g.InBounds(a, c) && g.TagAt(a, c).pclass == Solid && !OnBar(b, d, p, Point(a, c))
    ensures CellOf(OpenFurther(g, b, d, p + 1, cfg), a, c) == CellOf(g, a, c)
  {
    var q := Point(a, c);
    var airJobs := PathJobs(b, d, GateLength - (p + 1), AirElement);
    var stoneJobs := PathJobs(b, d, -(p + 1), StoneElement);
    forall k | 0 <= k < |b.poi| ensures Targets(airJobs)[k] != q && Targets(stoneJobs)[k] != q {
      assert Along(WorldPOI(b, k), d, GateLength - 1 - p) != q;
      assert !BlockedAt(g, Along(WorldPOI(b, k), d, -(p + 1)));
    }
    RewriteEachOutside(g, airJobs, KeepHeat, cfg, a, c);
    RewriteEachOutside(RewriteEach(g, airJobs, KeepHeat, cfg), stoneJobs, KeepHeat, cfg, a, c);
  }

  /** Closing to progress `p - 1` when the cells past the front were free touches only the old bar and those cells. */
  lemma CloseNeverCrushes(g: Grid, b: ShapeBase, d: FacingDirection, p: int, cfg: Config, a: int, c: int)
    requires g.Valid() && PathClear(g, b, d, GateLength - p)
    requires g.InBounds(a, c) && g.TagAt(a, c).pclass == Solid && !OnBar(b, d, p, Point(a, c))
    ensures CellOf(CloseFurther(g, b, d, p - 1, cfg), a, c) == CellOf(g, a, c)
  {
    var q := Point(a, c);
    var stoneJobs := PathJobs(b, d, GateLength - (p - 1) - 1, StoneElement);
    var airJobs := PathJobs(b, d, -(p - 1) - 1, AirElement);
    forall k | 0 <= k < |b.poi| ensures Targets(airJobs)[k] != q && Targets(stoneJobs)[k] != q {
      assert Along(WorldPOI(b, k), d, -p) != q;
      assert !BlockedAt(g, Along(WorldPOI(b, k), d, GateLength - p));
    }
    RewriteEachOutside(g, stoneJobs, KeepHeat, cfg, a, c);
    RewriteEachOutside(RewriteEach(g, stoneJobs, KeepHeat, cfg), airJobs, KeepHeat, cfg, a, c);
  }

  /** Moving the bar by at most one cell into free cells touches only the old bar and those cells. */
  lemma MoveBarNeverCrushes(g: Grid, b: ShapeBase, d: FacingDirection, p: int, p': int, cfg: Config, a: int, c: int)
    requires g.Valid() && p - 1 <= p' <= p + 1
    requires p' > p ==> PathClear(g, b, d, -(p + 1))
    requires p' < p ==> PathClear(g, b, d, GateLength - p)
    requires g.InBounds(a, c) && g.TagAt(a, c).pclass == Solid && !OnBar(b, d, p, Point(a, c))
    ensures CellOf(MoveBar(g, b, d, p, p', cfg), a, c) == CellOf(g, a, c)
  {
    if p' > p {
      OpenNeverCrushes(g, b, d, p, cfg, a, c);
    } else if p' < p {
      CloseNeverCrushes(g, b, d, p, cfg, a, c);
    }
  }

  /** The moving part of a corrected step never crushes a Solid cell off the bar. */
  lemma StepMoveNeverCrushes(g: Grid, b: ShapeBase, d: FacingDirection, st: int, powered: bool, cfg: Config, a: int, c: int)
    requires g.Valid() && 0 <= st
    requires g.InBounds(a, c) && g.TagAt(a, c).pclass == Solid && !OnBar(b, d, OpenProgress(st), Point(a, c))
    ensures var p, p' := OpenProgress(st), OpenProgress(NextState(g, b, d, st, powered, Corrected));
            CellOf(MoveBar(g, b, d, p, p', cfg), a, c) == CellOf(g, a, c)
  {
    var p, p' := OpenProgress(st), OpenProgress(NextState(g, b, d, st, powered, Corrected));
    NextStateMoves(g, b, d, st, powered, Corrected);
    assert CheckedOffset(p - 1, -1, Corrected) == GateLength - p;
    MoveBarNeverCrushes(g, b, d, p, p', cfg, a, c);
  }

  /**
    With the corrected check, a gate step never crushes anything: a Solid cell
    off the bar is left exactly as it was. It moves only cells of the old bar
    and cells the check found free.
   */
  lemma GateNeverCrushes(g: Grid, s: Structure, cfg: Config, a: int, c: int)
    requires g.Valid() && s.Valid() && s.kind.GateKind? && FitsIn(s.base, g.width, g.height)
    requires 0 <= s.kind.openState
    requires g.InBounds(a, c) && g.TagAt(a, c).pclass == Solid
    requires !OnBar(s.base, s.kind.dir, OpenProgress(s.kind.openState), Point(a, c))
    ensures CellOf(GateStepWith(g, s, cfg, Corrected).grid, a, c) == CellOf(g, a, c)
  {
    if Intact(g, s.base) {
      GateStepParts(g, s, cfg, Corrected);
      StepMoveNeverCrushes(g, s.base, s.kind.dir, s.kind.openState, InputCap(g, s.base, s.powerCap) > 0, cfg, a, c);
    }
  }

  /** The coordinate across a gate's direction: x for North and South, y for East and West. */
  function Across(p: Point, d: FacingDirection): int
  {
    if d == North || d == South then p.x else p.y
  }

  /** No two POIs share a lane, so their bars run side by side and never meet. */
  predicate LanesApart(b: ShapeBase, d: FacingDirection)
  {
    forall k, k' :: 0 <= k < k' < |b.poi| ==> Across(b.poi[k], d) != Across(b.poi[k'], d)
  }

  /** With lanes apart, a bar cell names its POI and its offset. */
  lemma AlongInjective(b: ShapeBase, d: FacingDirection, k: int, i: int, k': int, i': int)
    requires LanesApart(b, d) && 0 <= k < |b.poi| && 0 <= k' < |b.poi|
    ensures Along(WorldPOI(b, k), d, i) == Along(WorldPOI(b, k'), d, i') <==> k == k' && i == i'
  {
    if Along(WorldPOI(b, k), d, i) == Along(WorldPOI(b, k'), d, i') {
      assert Across(b.poi[k], d) == Across(b.poi[k'], d);
    }
  }

  /** With lanes apart, one loop over `poi` visits distinct cells. */
  lemma PathDistinct(b: ShapeBase, d: FacingDirection, i: int, e: Element)
    requires LanesApart(b, d)
    ensures Distinct(Targets(PathJobs(b, d, i, e)))
  {
    var ts := Targets(PathJobs(b, d, i, e));
    forall k, k' | 0 <= k < k' < |ts| ensures ts[k] != ts[k'] {
      AlongInjective(b, d, k, i, k', i);
    }
  }

  /** Cell `i` of POI `k`'s lane. */
  function BarCell(b: ShapeBase, d: FacingDirection, k: int, i: int): Point
    requires 0 <= k < |b.poi|
  {
    Along(WorldPOI(b, k), d, i)
  }

  /** The cell holds Stone, or lies outside the world. */
  predicate StoneAt(g: Grid, q: Point)
    requires g.Valid()
  {
    g.InBounds(q.x, q.y) ==> g.ElemAt(q.x, q.y) == StoneElement
  }

  /** Every in-bounds cell of the bar at progress `p` holds Stone. */
  ghost predicate BarStone(g: Grid, b: ShapeBase, d: FacingDirection, p: int)
    requires g.Valid()
  {
    forall k, i :: 0 <= k < |b.poi| && -p <= i < GateLength - p ==> StoneAt(g, BarCell(b, d, k, i))
  }

  /** A pass over one lane offset does not visit the lanes' cells at other offsets. */
  lemma LaneMiss(b: ShapeBase, d: FacingDirection, off: int, e: Element, k: int, i: int)
    requires LanesApart(b, d) && 0 <= k < |b.poi| && i != off
    ensures BarCell(b, d, k, i) !in Targets(PathJobs(b, d, off, e))
  {
    var jobs := PathJobs(b, d, off, e);
    forall k' | 0 <= k' < |b.poi| ensures Targets(jobs)[k'] != BarCell(b, d, k, i) {
      AlongInjective(b, d, k', off, k, i);
    }
  }

  /** A Stone pass over one lane offset leaves Stone on its cells. */
  lemma PassFills(g: Grid, b: ShapeBase, d: FacingDirection, off: int, cfg: Config, k: int)
    requires g.Valid() && LanesApart(b, d) && 0 <= k < |b.poi|
    ensures StoneAt(RewriteEach(g, PathJobs(b, d, off, StoneElement), KeepHeat, cfg), BarCell(b, d, k, off))
  {
    var jobs := PathJobs(b, d, off, StoneElement);
    PathDistinct(b, d, off, StoneElement);
    RewriteEachCells(g, jobs, KeepHeat, cfg);
    assert jobs[k].at == BarCell(b, d, k, off);
  }

  /** Opening one cell fills the cell behind the back of each lane. */
  lemma OpenFillsBack(g: Grid, b: ShapeBase, d: FacingDirection, p: int, cfg: Config, k: int)
    requires g.Valid() && LanesApart(b, d) && 0 <= k < |b.poi|
    ensures StoneAt(OpenFurther(g, b, d, p + 1, cfg), BarCell(b, d, k, -(p + 1)))
  {
    var front := RewriteEach(g, PathJobs(b, d, GateLength - (p + 1), AirElement), KeepHeat, cfg);
    PassFills(front, b, d, -(p + 1), cfg, k);
  }

  /** Opening one cell touches no other cell of the new bar. */
  lemma OpenKeepsRest(g: Grid, b: ShapeBase, d: FacingDirection, p: int, cfg: Config, k: int, i: int)
    requires g.Valid() && LanesApart(b, d) && 0 <= k < |b.poi| && -(p + 1) < i < GateLength - (p + 1)
    requires g.InBounds(BarCell(b, d, k, i).x, BarCell(b, d, k, i).y)
    ensures var q := BarCell(b, d, k, i); CellOf(OpenFurther(g, b, d, p + 1, cfg), q.x, q.y) == CellOf(g, q.x, q.y)
  {
    var q := BarCell(b, d, k, i);
    LaneMiss(b, d, GateLength - (p + 1), AirElement, k, i);
    LaneMiss(b, d, -(p + 1), StoneElement, k, i);
    TwoPassesSkip(g, PathJobs(b, d, GateLength - (p + 1), AirElement), PathJobs(b, d, -(p + 1), StoneElement), cfg, q.x, q.y);
  }

  /** Opening one cell moves a whole Stone bar back by one. */
  lemma OpenKeepsBar(g: Grid, b: ShapeBase, d: FacingDirection, p: int, cfg: Config)
    requires g.Valid() && LanesApart(b, d) && BarStone(g, b, d, p)
    ensures BarStone(OpenFurther(g, b, d, p + 1, cfg), b, d, p + 1)
  {
    forall k, i | 0 <= k < |b.poi| && -(p + 1) <= i < GateLength - (p + 1)
      ensures StoneAt(OpenFurther(g, b, d, p + 1, cfg), BarCell(b, d, k, i))
    {
      var q := BarCell(b, d, k, i);
      if i == -(p + 1) {
        OpenFillsBack(g, b, d, p, cfg, k);
      } else if g.InBounds(q.x, q.y) {
        assert StoneAt(g, q);
        OpenKeepsRest(g, b, d, p, cfg, k, i);
      }
    }
  }

  /** Closing one cell fills the cell past the front of each lane. */
  lemma CloseFillsFront(g: Grid, b: ShapeBase, d: FacingDirection, p: int, cfg: Config, k: int)
    requires g.Valid() && LanesApart(b, d) && 0 <= k < |b.poi|
    ensures StoneAt(CloseFurther(g, b, d, p - 1, cfg), BarCell(b, d, k, GateLength - p))
  {
    var q := BarCell(b, d, k, GateLength - p);
    var front := RewriteEach(g, PathJobs(b, d, GateLength - p, StoneElement), KeepHeat, cfg);
    PassFills(g, b, d, GateLength - p, cfg, k);
    if g.InBounds(q.x, q.y) {
      LaneMiss(b, d, -p, AirElement, k, GateLength - p);
      RewriteEachOutside(front, PathJobs(b, d, -p, AirElement), KeepHeat, cfg, q.x, q.y);
    }
  }

  /** Closing one cell touches no other cell of the new bar. */
  lemma CloseKeepsRest(g: Grid, b: ShapeBase, d: FacingDirection, p: int, cfg: Config, k: int, i: int)
    requires g.Valid() && LanesApart(b, d) && 0 <= k < |b.poi| && -(p - 1) <= i < GateLength - p
    requires g.InBounds(BarCell(b, d, k, i).x, BarCell(b, d, k, i).y)
    ensures var q := BarCell(b, d, k, i); CellOf(CloseFurther(g, b, d, p - 1, cfg), q.x, q.y) == CellOf(g, q.x, q.y)
  {
    var q := BarCell(b, d, k, i);
    LaneMiss(b, d, GateLength - p, StoneElement, k, i);
    LaneMiss(b, d, -p, AirElement, k, i);
    TwoPassesSkip(g, PathJobs(b, d, GateLength - p, StoneElement), PathJobs(b, d, -p, AirElement), cfg, q.x, q.y);
  }

  /** Closing one cell moves a whole Stone bar forward by one. */
  lemma CloseKeepsBar(g: Grid, b: ShapeBase, d: FacingDirection, p: int, cfg: Config)
    requires g.Valid() && LanesApart(b, d) && BarStone(g, b, d, p)
    ensures BarStone(CloseFurther(g, b, d, p - 1, cfg), b, d, p - 1)
  {
    forall k, i | 0 <= k < |b.poi| && -(p - 1) <= i < GateLength - (p - 1)
      ensures StoneAt(CloseFurther(g, b, d, p - 1, cfg), BarCell(b, d, k, i))
    {
      var q := BarCell(b, d, k, i);
      if i == GateLength - p {
        CloseFillsFront(g, b, d, p, cfg, k);
      } else if g.InBounds(q.x, q.y) {
        assert StoneAt(g, q);
        CloseKeepsRest(g, b, d, p, cfg, k, i);
      }
    }
  }

  /** Moving the bar by at most one cell keeps it whole. */
  lemma MoveBarKeepsBar(g: Grid, b: ShapeBase, d: FacingDirection, p: int, p': int, cfg: Config)
    requires g.Valid() && LanesApart(b, d) && BarStone(g, b, d, p) && p - 1 <= p' <= p + 1
    ensures BarStone(MoveBar(g, b, d, p, p', cfg), b, d, p')
  {
    if p' > p {
      OpenKeepsBar(g, b, d, p, cfg);
    } else if p' < p {
      CloseKeepsBar(g, b, d, p, cfg);
    }
  }

  /**
    The gate's invariant: when the bar is whole Stone at the gate's progress
    before a step, it is whole Stone at its progress after the step.
   */
  lemma GateKeepsBar(g: Grid, s: Structure, cfg: Config, chk: Check)
    requires g.Valid() && s.Valid() && s.kind.GateKind? && FitsIn(s.base, g.width, g.height)
    requires 0 <= s.kind.openState && LanesApart(s.base, s.kind.dir)
    requires BarStone(g, s.base, s.kind.dir, OpenProgress(s.kind.openState))
    ensures var r := GateStepWith(g, s, cfg, chk);
            r.alive ==> BarStone(r.grid, s.base, s.kind.dir, OpenProgress(r.structure.kind.openState))
  {
    var b, d, st := s.base, s.kind.dir, s.kind.openState;
    if Intact(g, b) {
      var cap := InputCap(g, b, s.powerCap);
      var p, p' := OpenProgress(st), OpenProgress(NextState(g, b, d, st, cap > 0, chk));
      NextStateMoves(g, b, d, st, cap > 0, chk);
      GateStepParts(g, s, cfg, chk);
      MoveBarKeepsBar(g, b, d, p, p', cfg);
    }
  }

  /**
    The cells `Gate::setup` visits, in its loop order: offset `i` from 0 to
    `GateLength - 1` outside, the POIs inside. Job `CellIndex(k, i, |poi|, GateLength)`
    is POI `k` at offset `i`.
   */
  function SetupJobs(b: ShapeBase, d: FacingDirection): (js: seq<Job>)
    ensures |js| == |b.poi| * GateLength
  {
    seq(|b.poi| * GateLength, m requires 0 <= m < |b.poi| * GateLength =>
      var c := CellAt(m, |b.poi|, GateLength); Job(BarCell(b, d, c.x, c.y), StoneElement))
  }

  lemma SetupJobsAt(b: ShapeBase, d: FacingDirection, k: int, i: int)
    requires 0 <= k < |b.poi| && 0 <= i < GateLength
    ensures SetupJobs(b, d)[CellIndex(k, i, |b.poi|, GateLength)] == Job(BarCell(b, d, k, i), StoneElement)
  {
    CellAtIndex(k, i, |b.poi|, GateLength);
  }

  /** With lanes apart, the setup loop visits every cell once. */
  lemma SetupDistinct(b: ShapeBase, d: FacingDirection)
    requires LanesApart(b, d)
    ensures Distinct(Targets(SetupJobs(b, d)))
  {
    var js := SetupJobs(b, d);
    var ts := Targets(js);
    forall m, m' | 0 <= m < m' < |ts| ensures ts[m] != ts[m'] {
      var c, c' := CellAt(m, |b.poi|, GateLength), CellAt(m', |b.poi|, GateLength);
      AlongInjective(b, d, c.x, c.y, c'.x, c'.y);
    }
  }

  /**
    The first `n` iterations of the setup loop: every visited in-bounds cell
    becomes Stone keeping its heat, and the first Solid one stops the setup
    with its position (the `runtime_error`).
   */
  function BarSetupBefore(g: Grid, jobs: seq<Job>, n: nat, cfg: Config): (r: Result<Grid, Point>)
    requires g.Valid() && n <= |jobs|
    ensures r.Ok? ==> r.value.Valid() && r.value.width == g.width && r.value.height == g.height
    decreases n
  {
    if n == 0 then Ok(g)
    else
      match BarSetupBefore(g, jobs, n - 1, cfg)
      case Err(p) => Err(p)
      case Ok(h) =>
        if BlockedAt(h, jobs[n - 1].at) then Err(jobs[n - 1].at) else Ok(RewriteOne(h, jobs[n - 1], KeepHeat, cfg))
  }

  /** Until it throws, the setup loop is a Stone pass over the cells visited so far. */
  lemma {:induction false} BarSetupBeforeOk(g: Grid, jobs: seq<Job>, n: nat, cfg: Config)
    requires g.Valid() && n <= |jobs| && BarSetupBefore(g, jobs, n, cfg).Ok?
    ensures BarSetupBefore(g, jobs, n, cfg).value == RewriteEach(g, jobs[..n], KeepHeat, cfg)
    decreases n
  {
    if n > 0 {
      BarSetupBeforeOk(g, jobs, n - 1, cfg);
      assert jobs[..n][..n - 1] == jobs[..n - 1];
    }
  }

  /** Whether the first `n` cells visited are all free of Solid pixels. */
  predicate NoneBlocked(g: Grid, jobs: seq<Job>, n: int)
    requires g.Valid() && n <= |jobs|
  {
    forall m :: 0 <= m < n ==> !BlockedAt(g, jobs[m].at)
  }

  /**
    Over distinct cells, the setup loop fails exactly when one of the visited
    cells was Solid to begin with, and then reports the first such cell.
   */
  lemma {:induction false} BarSetupBeforeSpec(g: Grid, jobs: seq<Job>, n: nat, cfg: Config)
    requires g.Valid() && n <= |jobs| && Distinct(Targets(jobs))
    ensures var r := BarSetupBefore(g, jobs, n, cfg);
            && (r.Ok? <==> NoneBlocked(g, jobs, n))
            && (r.Err? ==> exists m :: 0 <= m < n && jobs[m].at == r.error && BlockedAt(g, r.error) && NoneBlocked(g, jobs, m))
    decreases n
  {
    if n > 0 {
      BarSetupBeforeSpec(g, jobs, n - 1, cfg);
      var r := BarSetupBefore(g, jobs, n - 1, cfg);
      if r.Ok? {
        BarSetupBeforeOk(g, jobs, n - 1, cfg);
        var q := jobs[n - 1].at;
        var front := jobs[..n - 1];
        if g.InBounds(q.x, q.y) {
          forall i | 0 <= i < n - 1 ensures Targets(front)[i] != q {
            assert Targets(jobs)[i] != Targets(jobs)[n - 1];
          }
          RewriteEachOutside(g, front, KeepHeat, cfg, q.x, q.y);
        }
        assert BlockedAt(r.value, q) == BlockedAt(g, q);
      }
    }
  }

  /** The loop of `Gate::setup` after `PixelShapedStructure::setup`. */
  function GateBarSetup(g: Grid, b: ShapeBase, d: FacingDirection, cfg: Config): Result<Grid, Point>
    requires g.Valid()
  {
    BarSetupBefore(g, SetupJobs(b, d), |SetupJobs(b, d)|, cfg)
  }

  /** The setup loop's cells are exactly the cells of the closed bar. */
  lemma SetupJobsOnBar(b: ShapeBase, d: FacingDirection, m: int)
    requires 0 <= m < |SetupJobs(b, d)|
    ensures OnBar(b, d, 0, SetupJobs(b, d)[m].at)
  {
    var c := CellAt(m, |b.poi|, GateLength);
    assert SetupJobs(b, d)[m].at == Along(WorldPOI(b, c.x), d, c.y);
  }

  /** The bar setup succeeds exactly when no in-bounds cell of the closed bar is Solid. */
  lemma GateBarSetupOk(g: Grid, b: ShapeBase, d: FacingDirection, cfg: Config)
    requires g.Valid() && LanesApart(b, d)
    ensures GateBarSetup(g, b, d, cfg).Ok?
            <==> forall k, i :: 0 <= k < |b.poi| && 0 <= i < GateLength ==> !BlockedAt(g, BarCell(b, d, k, i))
  {
    var js := SetupJobs(b, d);
    SetupDistinct(b, d);
    BarSetupBeforeSpec(g, js, |js|, cfg);
    if NoneBlocked(g, js, |js|) {
      forall k, i | 0 <= k < |b.poi| && 0 <= i < GateLength ensures !BlockedAt(g, BarCell(b, d, k, i)) {
        SetupJobsAt(b, d, k, i);
      }
    } else {
      var m :| 0 <= m < |js| && BlockedAt(g, js[m].at);
      var c := CellAt(m, |b.poi|, GateLength);
      assert js[m].at == BarCell(b, d, c.x, c.y);
    }
  }

  /** A failed bar setup names a Solid cell of the closed bar. */
  lemma GateBarSetupErr(g: Grid, b: ShapeBase, d: FacingDirection, cfg: Config)
    requires g.Valid() && LanesApart(b, d) && GateBarSetup(g, b, d, cfg).Err?
    ensures BlockedAt(g, GateBarSetup(g, b, d, cfg).error) && OnBar(b, d, 0, GateBarSetup(g, b, d, cfg).error)
  {
    var js := SetupJobs(b, d);
    SetupDistinct(b, d);
    BarSetupBeforeSpec(g, js, |js|, cfg);
    var e :| 0 <= e < |js| && js[e].at == GateBarSetup(g, b, d, cfg).error && BlockedAt(g, js[e].at);
    SetupJobsOnBar(b, d, e);
  }

  /** A successful bar setup lays a whole Stone bar at progress 0. */
  lemma GateBarSetupStone(g: Grid, b: ShapeBase, d: FacingDirection, cfg: Config)
    requires g.Valid() && LanesApart(b, d) && GateBarSetup(g, b, d, cfg).Ok?
    ensures BarStone(GateBarSetup(g, b, d, cfg).value, b, d, 0)
  {
    var js := SetupJobs(b, d);
    var r := GateBarSetup(g, b, d, cfg).value;
    BarSetupBeforeOk(g, js, |js|, cfg);
    assert js[..|js|] == js;
    SetupDistinct(b, d);
    RewriteEachCells(g, js, KeepHeat, cfg);
    forall k, i | 0 <= k < |b.poi| && 0 <= i < GateLength ensures StoneAt(r, BarCell(b, d, k, i)) {
      SetupJobsAt(b, d, k, i);
    }
  }

  /** A successful bar setup changes nothing off the closed bar. */
  lemma GateBarSetupElsewhere(g: Grid, b: ShapeBase, d: FacingDirection, cfg: Config, a: int, c: int)
    requires g.Valid() && GateBarSetup(g, b, d, cfg).Ok?
    requires g.InBounds(a, c) && !OnBar(b, d, 0, Point(a, c))
    ensures CellOf(GateBarSetup(g, b, d, cfg).value, a, c) == CellOf(g, a, c)
  {
    var js := SetupJobs(b, d);
    BarSetupBeforeOk(g, js, |js|, cfg);
    assert js[..|js|] == js;
    if Point(a, c) in Targets(js) {
      var m :| 0 <= m < |js| && Targets(js)[m] == Point(a, c);
      SetupJobsOnBar(b, d, m);
    }
    RewriteEachOutside(g, js, KeepHeat, cfg, a, c);
  }

  /**
    `Gate::setup`: stamp the shape, then lay the bar. The result is the
    cells afterwards, or the blocking cell the setup threw on.
   */
  function GateSetup(g: Grid, s: Structure, cfg: Config, ds: seq<CellDraws>): Result<Grid, Point>
    requires g.Valid() && s.Valid() && s.kind.GateKind? && FitsIn(s.base, g.width, g.height) && DrawsFor(s.base, ds)
  {
    GateBarSetup(Setup(g, s.base, cfg, ds), s.base, s.kind.dir, cfg)
  }

  /** Once the setup loop has thrown, later iterations do not run. */
  lemma {:induction false} SetupStaysErr(g: Grid, jobs: seq<Job>, m: nat, n: nat, cfg: Config)
    requires g.Valid() && m <= n <= |jobs| && BarSetupBefore(g, jobs, m, cfg).Err?
    ensures BarSetupBefore(g, jobs, n, cfg) == BarSetupBefore(g, jobs, m, cfg)
    decreases n
  {
    if n > m {
      SetupStaysErr(g, jobs, m, n - 1, cfg);
    }
  }

  /** `_canMoveFurther` with the closing check `chk` (`AsWritten` is the source's): the loop over `poi` stops at the first Solid cell. */
  method CanMoveFurtherAt(w: PixelWorld, b: ShapeBase, d: FacingDirection, openState: int, direction: int, chk: Check)
    returns (ok: bool)
    requires w.Valid()
    ensures ok == CanMoveFurther(w.Cells(), b, d, openState, direction, chk)
  {
    var next := OpenProgress(openState) + direction;
    if next < 0 || next >= GateLength {
      return false;
    }
    var off := CheckedOffset(next, direction, chk);
    var k := 0;
    while k < |b.poi|
      invariant 0 <= k <= |b.poi|
      invariant forall k' :: 0 <= k' < k ==> !BlockedAt(w.Cells(), Along(WorldPOI(b, k'), d, off))
    {
      var q := Along(WorldPOI(b, k), d, off);
      if w.InBounds(q.x, q.y) && w.ClassOfIs(q.x, q.y, Solid) {
        return false;
      }
      k := k + 1;
    }
    return true;
  }

  /** `_openFurther`. */
  method OpenFurtherAt(w: PixelWorld, b: ShapeBase, d: FacingDirection, progress: int)
    requires w.Valid()
    modifies w.tags, w.elems
    ensures w.Cells() == OpenFurther(old(w.Cells()), b, d, progress, w.cfg)
  {
    RewriteEachAt(w, PathJobs(b, d, GateLength - progress, AirElement), KeepHeat);
    RewriteEachAt(w, PathJobs(b, d, -progress, StoneElement), KeepHeat);
  }

  /** `_closeFurther`. */
  method CloseFurtherAt(w: PixelWorld, b: ShapeBase, d: FacingDirection, progress: int)
    requires w.Valid()
    modifies w.tags, w.elems
    ensures w.Cells() == CloseFurther(old(w.Cells()), b, d, progress, w.cfg)
  {
    RewriteEachAt(w, PathJobs(b, d, GateLength - progress - 1, StoneElement), KeepHeat);
    RewriteEachAt(w, PathJobs(b, d, -progress - 1, AirElement), KeepHeat);
  }

  /** The middle of `Gate::step`: move the state one step if the bar can move that way. */
  method NextStateAt(w: PixelWorld, b: ShapeBase, d: FacingDirection, openState: int, powered: bool, chk: Check)
    returns (st': int)
    requires w.Valid()
    ensures st' == NextState(w.Cells(), b, d, openState, powered, chk)
  {
    st' := openState;
    if powered {
      var can := CanMoveFurtherAt(w, b, d, openState, 1, chk);
      if can {
        st' := openState + 1;
      }
    } else {
      var can := CanMoveFurtherAt(w, b, d, openState, -1, chk);
      if can {
        st' := openState - 1;
      }
    }
  }

  /** The end of `Gate::step`. */
  method MoveBarAt(w: PixelWorld, b: ShapeBase, d: FacingDirection, p: int, p': int)
    requires w.Valid()
    modifies w.tags, w.elems
    ensures w.Cells() == MoveBar(old(w.Cells()), b, d, p, p', w.cfg)
  {
    if p' > p {
      OpenFurtherAt(w, b, d, p');
    } else if p' < p {
      CloseFurtherAt(w, b, d, p');
    }
  }

  /** `Gate::step` on the world with the closing check `chk`: returns whether the gate stays, and its new state. */
  method GateStepAt(w: PixelWorld, s: Structure, chk: Check) returns (alive: bool, s': Structure)
    requires w.Valid() && s.Valid() && s.kind.GateKind? && FitsIn(s.base, w.width, w.height)
    modifies w.tags, w.elems
    ensures StepResult(alive, w.Cells(), s') == GateStepWith(old(w.Cells()), s, w.cfg, chk)
  {
    var b, d := s.base, s.kind.dir;
    var intact := IntactAt(w, b);
    if !intact {
      return false, s;
    }
    GateStepParts(w.Cells(), s, w.cfg, chk);
    var cap := InputStepAt(w, b, s.powerCap);
    var st := NextStateAt(w, b, d, s.kind.openState, cap > 0, chk);
    MoveBarAt(w, b, d, OpenProgress(s.kind.openState), OpenProgress(st));
    return true, Structure(b, cap, GateKind(d, st));
  }

  /** One iteration of the setup loop: throw on a Solid cell, otherwise write Stone there. */
  method SetupStepAt(w: PixelWorld, ghost h: Grid, jobs: seq<Job>, m: nat) returns (blocked: bool)
    requires w.Valid() && h.Valid() && m < |jobs| && BarSetupBefore(h, jobs, m, w.cfg) == Ok(w.Cells())
    requires jobs[m].e == StoneElement
    modifies w.tags, w.elems
    ensures BarSetupBefore(h, jobs, m + 1, w.cfg) == if blocked then Err(jobs[m].at) else Ok(w.Cells())
  {
    var q := jobs[m].at;
    blocked := false;
    if w.InBounds(q.x, q.y) {
      var tag := w.TagOf(q.x, q.y);
      if tag.pclass == Solid {
        return true;
      }
    }
    RewriteOneAt(w, jobs[m], KeepHeat);
  }

  /** One pass of the setup's outer loop: the row of bar cells `i` along the path, one per POI. */
  method SetupRowAt(w: PixelWorld, ghost h: Grid, jobs: seq<Job>, start: nat, n: nat) returns (err: Option<Point>)
    requires w.Valid() && h.Valid() && start + n <= |jobs|
    requires forall m :: 0 <= m < |jobs| ==> jobs[m].e == StoneElement
    requires BarSetupBefore(h, jobs, start, w.cfg) == Ok(w.Cells())
    modifies w.tags, w.elems
    ensures err.None? ==> BarSetupBefore(h, jobs, start + n, w.cfg) == Ok(w.Cells())
    ensures err.Some? ==> BarSetupBefore(h, jobs, |jobs|, w.cfg) == Err(err.value)
  {
    var k := 0;
    while k < n
      invariant 0 <= k <= n
      invariant BarSetupBefore(h, jobs, start + k, w.cfg) == Ok(w.Cells())
    {
      var blocked := SetupStepAt(w, h, jobs, start + k);
      if blocked {
        SetupStaysErr(h, jobs, start + k + 1, |jobs|, w.cfg);
        return Some(jobs[start + k].at);
      }
      k := k + 1;
    }
    return None;
  }

  /** Every job of the setup loop writes Stone. */
  lemma SetupJobsStone(b: ShapeBase, d: FacingDirection)
    ensures forall m :: 0 <= m < |SetupJobs(b, d)| ==> SetupJobs(b, d)[m].e == StoneElement
  {
    forall m | 0 <= m < |SetupJobs(b, d)| ensures SetupJobs(b, d)[m].e == StoneElement {
      SetupJobsOnBar(b, d, m);
    }
  }

  /** The outer loop of `Gate::setup` over rows 0 to 19, on any list of Stone jobs `n` to a row. */
  method SetupRowsAt(w: PixelWorld, ghost h: Grid, jobs: seq<Job>, n: nat) returns (err: Option<Point>)
    requires w.Valid() && h.Valid() && |jobs| == n * GateLength
    requires forall m :: 0 <= m < |jobs| ==> jobs[m].e == StoneElement
    requires BarSetupBefore(h, jobs, 0, w.cfg) == Ok(w.Cells())
    modifies w.tags, w.elems
    ensures err.None? ==> BarSetupBefore(h, jobs, |jobs|, w.cfg) == Ok(w.Cells())
    ensures err.Some? ==> BarSetupBefore(h, jobs, |jobs|, w.cfg) == Err(err.value)
  {
    var i, start := 0, 0;
    while i < GateLength
      invariant 0 <= i <= GateLength && start == n * i && start <= |jobs|
      invariant BarSetupBefore(h, jobs, start, w.cfg) == Ok(w.Cells())
    {
      RowStart(n, GateLength, i);
      err := SetupRowAt(w, h, jobs, start, n);
      if err.Some? {
        return;
      }
      i, start := i + 1, start + n;
    }
    return None;
  }

  /** The bar loop of `Gate::setup`. */
  method GateBarSetupAt(w: PixelWorld, b: ShapeBase, d: FacingDirection) returns (err: Option<Point>)
    requires w.Valid()
    modifies w.tags, w.elems
    ensures var r := GateBarSetup(old(w.Cells()), b, d, w.cfg);
            && (err.None? <==> r.Ok?)
            && (r.Ok? ==> w.Cells() == r.value)
            && (r.Err? ==> err == Some(r.error))
  {
    SetupJobsStone(b, d);
    err := SetupRowsAt(w, w.Cells(), SetupJobs(b, d), |b.poi|);
  }

  /**
    `Gate::setup` on the world: `None` when it succeeded, else the blocking
    cell it threw on (the cells it then leaves behind are not specified).
   */
  method GateSetupAt(w: PixelWorld, s: Structure, ds: seq<CellDraws>) returns (err: Option<Point>)
    requires w.Valid() && s.Valid() && s.kind.GateKind? && FitsIn(s.base, w.width, w.height) && DrawsFor(s.base, ds)
    modifies w.tags, w.elems
    ensures var r := GateSetup(old(w.Cells()), s, w.cfg, ds);
            && (err.None? <==> r.Ok?)
            && (r.Ok? ==> w.Cells() == r.value)
            && (r.Err? ==> err == Some(r.error))
  {
    SetupAt(w, s.base, ds);
    err := GateBarSetupAt(w, s.base, s.kind.dir);
  }
}
