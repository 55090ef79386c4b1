// The cell passes the structures of src/structures/ run over their points of
// interest (POIs) or along a gate's path: each visits a list of world cells
// in order and rewrites every in-bounds one in the same way. A pass is a
// fold over its jobs; `RewriteEachCells` says what it does to each cell.
module Rewrites {
  import opened Base
  import opened Pixels
  import opened Grids
  import opened World
  import opened Raster2D
  import opened Structures
  import opened Assets
  import opened Shapes
  import opened ShapeWorld

  /**
    What a structure's `step` returns, with what it leaves behind: `alive` is
    false when the structure is to be removed; `grid` is the world's cells and
    `structure` the structure's own state afterwards.
   */
  datatype StepResult = StepResult(alive: bool, grid: Grid, structure: Structure)

  /** One cell a pass visits, and the element it writes there. */
  datatype Job = Job(at: Point, e: Element)

  /** How a pass rewrites a cell. */
  datatype Rewrite =
      /** Replace the cell with the job's element, then write the old heat back (gates, transistors). */
    | KeepHeat
      /** Replace the cell with the job's element, but only when the cell is of class Gas (taps). */
    | IfGas
      /** Raise the heat by an amount, capped at `heat_max` (the heater). */
    | Warm(amount: int)

  /** The contents of one cell. */
  datatype Cell = Cell(tag: Tag, elem: Element)

  function CellOf(g: Grid, x: int, y: int): Cell
    requires g.Valid() && g.InBounds(x, y)
  {
    Cell(g.TagAt(x, y), g.ElemAt(x, y))
  }

  /** What a rewrite makes of one cell. */
  function Rewritten(c: Cell, j: Job, rw: Rewrite, cfg: Config): Cell
  {
    match rw
    case KeepHeat => Cell(NewTag(j.e, cfg, 0).(heat := c.tag.heat), j.e)
    case IfGas => if c.tag.pclass == Gas then Cell(NewTag(j.e, cfg, 0), j.e) else c
    case Warm(n) => Cell(c.tag.(heat := Min(c.tag.heat + n, cfg.heatMax)), c.elem)
  }

  /** One job: an out-of-bounds cell is skipped; a heat change writes the tag only. */
  function RewriteOne(g: Grid, j: Job, rw: Rewrite, cfg: Config): (r: Grid)
    requires g.Valid()
    ensures r.Valid() && r.width == g.width && r.height == g.height && r.statics == g.statics
  {
    var x, y := j.at.x, j.at.y;
    if !g.InBounds(x, y) then g
    else
      var c := Rewritten(CellOf(g, x, y), j, rw, cfg);
      if rw.Warm? then g.WithTag(x, y, c.tag)
      else if rw.IfGas? && g.TagAt(x, y).pclass != Gas then g
      else g.Replace(x, y, c.elem, c.tag)
  }

  /** The jobs in order. */
  function RewriteEach(g: Grid, jobs: seq<Job>, rw: Rewrite, cfg: Config): (r: Grid)
    requires g.Valid()
    ensures r.Valid() && r.width == g.width && r.height == g.height && r.statics == g.statics
    decreases |jobs|
  {
    if |jobs| == 0 then g else RewriteOne(RewriteEach(g, jobs[..|jobs| - 1], rw, cfg), jobs[|jobs| - 1], rw, cfg)
  }

  /** The cells a list of jobs visits. */
  function Targets(jobs: seq<Job>): (ps: seq<Point>)
    ensures |ps| == |jobs| && forall k :: 0 <= k < |jobs| ==> ps[k] == jobs[k].at
  {
    seq(|jobs|, k requires 0 <= k < |jobs| => jobs[k].at)
  }

  /** One job rewrites its own cell and no other. */
  lemma RewriteOneCell(g: Grid, j: Job, rw: Rewrite, cfg: Config, a: int, c: int)
    requires g.Valid() && g.InBounds(a, c)
    ensures CellOf(RewriteOne(g, j, rw, cfg), a, c)
            == if j.at == Point(a, c) then Rewritten(CellOf(g, a, c), j, rw, cfg) else CellOf(g, a, c)
  {
    var x, y := j.at.x, j.at.y;
    if g.InBounds(x, y) {
      var cell := Rewritten(CellOf(g, x, y), j, rw, cfg);
      if rw.Warm? {
        WithTagCells(g, x, y, cell.tag);
      } else if !(rw.IfGas? && g.TagAt(x, y).pclass != Gas) {
        ReplaceCells(g, x, y, cell.elem, cell.tag);
      }
    }
  }

  /** A cell no job visits keeps its contents, whatever the jobs. */
  lemma {:induction false} RewriteEachOutside(g: Grid, jobs: seq<Job>, rw: Rewrite, cfg: Config, a: int, c: int)
    requires g.Valid() && g.InBounds(a, c) && Point(a, c) !in Targets(jobs)
    ensures CellOf(RewriteEach(g, jobs, rw, cfg), a, c) == CellOf(g, a, c)
    decreases |jobs|
  {
    if |jobs| > 0 {
      var n := |jobs|;
      var front := jobs[..n - 1];
      forall i | 0 <= i < n - 1 ensures Targets(front)[i] != Point(a, c) {
        assert Targets(jobs)[i] == front[i].at;
      }
      RewriteEachOutside(g, front, rw, cfg, a, c);
      RewriteOneCell(RewriteEach(g, front, rw, cfg), jobs[n - 1], rw, cfg, a, c);
      assert Targets(jobs)[n - 1] == jobs[n - 1].at;
    }
  }

  /** Two passes in a row leave a cell neither visits alone. */
  lemma TwoPassesSkip(g: Grid, first: seq<Job>, second: seq<Job>, cfg: Config, a: int, c: int)
    requires g.Valid() && g.InBounds(a, c) && Point(a, c) !in Targets(first) && Point(a, c) !in Targets(second)
    ensures CellOf(RewriteEach(RewriteEach(g, first, KeepHeat, cfg), second, KeepHeat, cfg), a, c) == CellOf(g, a, c)
  {
    RewriteEachOutside(g, first, KeepHeat, cfg, a, c);
    RewriteEachOutside(RewriteEach(g, first, KeepHeat, cfg), second, KeepHeat, cfg, a, c);
  }

  /**
    A pass over jobs with distinct cells rewrites each in-bounds job cell once,
    from its original contents, and leaves every other cell as it was.
   */
  lemma {:induction false} RewriteEachCells(g: Grid, jobs: seq<Job>, rw: Rewrite, cfg: Config)
    requires g.Valid() && Distinct(Targets(jobs))
    ensures var r := RewriteEach(g, jobs, rw, cfg);
            && (forall k :: 0 <= k < |jobs| && g.InBounds(jobs[k].at.x, jobs[k].at.y) ==>
                  CellOf(r, jobs[k].at.x, jobs[k].at.y) == Rewritten(CellOf(g, jobs[k].at.x, jobs[k].at.y), jobs[k], rw, cfg))
            && (forall a, c :: g.InBounds(a, c) && Point(a, c) !in Targets(jobs) ==> CellOf(r, a, c) == CellOf(g, a, c))
    decreases |jobs|
  {
    if |jobs| > 0 {
      var n := |jobs|;
      var front := jobs[..n - 1];
      var h := RewriteEach(g, front, rw, cfg);
      var r := RewriteEach(g, jobs, rw, cfg);
      assert Distinct(Targets(front)) by {
        forall i, j | 0 <= i < j < n - 1 ensures Targets(front)[i] != Targets(front)[j] {
          assert Targets(jobs)[i] != Targets(jobs)[j];
        }
      }
      RewriteEachCells(g, front, rw, cfg);
      forall k | 0 <= k < n && g.InBounds(jobs[k].at.x, jobs[k].at.y)
        ensures CellOf(r, jobs[k].at.x, jobs[k].at.y) == Rewritten(CellOf(g, jobs[k].at.x, jobs[k].at.y), jobs[k], rw, cfg)
      {
        RewriteOneCell(h, jobs[n - 1], rw, cfg, jobs[k].at.x, jobs[k].at.y);
        if k == n - 1 {
          forall i | 0 <= i < n - 1 ensures Targets(front)[i] != jobs[k].at {
            assert Targets(jobs)[i] != Targets(jobs)[k];
          }
        } else {
          assert front[k] == jobs[k];
          assert Targets(jobs)[k] != Targets(jobs)[n - 1];
        }
      }
      forall a, c | g.InBounds(a, c) && Point(a, c) !in Targets(jobs) ensures CellOf(r, a, c) == CellOf(g, a, c) {
        RewriteOneCell(h, jobs[n - 1], rw, cfg, a, c);
        assert Targets(jobs)[n - 1] == jobs[n - 1].at;
      }
    }
  }

  // ----- passes over the POIs -----

  /** The world position of POI `k`. */
  function WorldPOI(b: ShapeBase, k: int): Point
    requires 0 <= k < |b.poi|
  {
    Point(b.x + b.poi[k].x, b.y + b.poi[k].y)
  }

  /** One loop over `poi` writing `e` at each POI in turn. */
  function POIJobs(b: ShapeBase, e: Element): (js: seq<Job>)
    ensures |js| == |b.poi|
    ensures forall k :: 0 <= k < |b.poi| ==> js[k] == Job(WorldPOI(b, k), e)
  {
    seq(|b.poi|, k requires 0 <= k < |b.poi| => Job(WorldPOI(b, k), e))
  }

  /** The POIs of a shape that lies in the world are world cells. */
  lemma POIInBounds(g: Grid, b: ShapeBase, k: int)
    requires g.Valid() && b.Valid() && FitsIn(b, g.width, g.height) && 0 <= k < |b.poi|
    ensures g.InBounds(WorldPOI(b, k).x, WorldPOI(b, k).y)
  {
  }

  /** The POIs a shape lists are pairwise distinct: they are found in strictly increasing row-major order. */
  lemma ShapePOIsDistinct(shape: PixelShape, cls: Classifier)
    requires shape.Valid()
    ensures Distinct(POIsOf(shape, cls))
  {
    POIsOfSpec(shape, cls);
  }

  /** Distinct POIs are distinct world cells. */
  lemma POIJobsDistinct(b: ShapeBase, e: Element)
    requires Distinct(b.poi)
    ensures Distinct(Targets(POIJobs(b, e)))
  {
    var js := POIJobs(b, e);
    forall i, j | 0 <= i < j < |js| ensures Targets(js)[i] != Targets(js)[j] {
      assert b.poi[i] != b.poi[j];
    }
  }

  /**
    A pass over the POIs of a shape lying in the world: every POI becomes what
    the rewrite makes of it, and every other cell is left as it was.
   */
  lemma POIPassCells(g: Grid, b: ShapeBase, e: Element, rw: Rewrite, cfg: Config)
    requires g.Valid() && b.Valid() && FitsIn(b, g.width, g.height) && Distinct(b.poi)
    ensures var r := RewriteEach(g, POIJobs(b, e), rw, cfg);
            && (forall k :: 0 <= k < |b.poi| ==>
                  CellOf(r, WorldPOI(b, k).x, WorldPOI(b, k).y)
                  == Rewritten(CellOf(g, WorldPOI(b, k).x, WorldPOI(b, k).y), Job(WorldPOI(b, k), e), rw, cfg))
            && (forall a, c :: g.InBounds(a, c) && Point(a, c) !in Targets(POIJobs(b, e)) ==> CellOf(r, a, c) == CellOf(g, a, c))
  {
    var js := POIJobs(b, e);
    POIJobsDistinct(b, e);
    RewriteEachCells(g, js, rw, cfg);
    forall k | 0 <= k < |b.poi|
      ensures CellOf(RewriteEach(g, js, rw, cfg), WorldPOI(b, k).x, WorldPOI(b, k).y)
              == Rewritten(CellOf(g, WorldPOI(b, k).x, WorldPOI(b, k).y), Job(WorldPOI(b, k), e), rw, cfg)
    {
      POIInBounds(g, b, k);
      assert js[k] == Job(WorldPOI(b, k), e);
    }
  }

  /** A cell that is not a POI is not visited by a POI pass. */
  lemma NotPOINotTarget(b: ShapeBase, e: Element, q: Point)
    requires forall k :: 0 <= k < |b.poi| ==> WorldPOI(b, k) != q
    ensures q !in Targets(POIJobs(b, e))
  {
  }

  /** One job on the world: read the cell, rewrite it. */
  method RewriteOneAt(w: PixelWorld, j: Job, rw: Rewrite)
    requires w.Valid()
    modifies w.tags, w.elems
    ensures w.Cells() == RewriteOne(old(w.Cells()), j, rw, w.cfg)
  {
    var x, y := j.at.x, j.at.y;
    if !(0 <= x < w.width && 0 <= y < w.height) {
      return;
    }
    var tag := w.TagOf(x, y);
    match rw
    case KeepHeat =>
      w.ReplaceKeepHeat(x, y, j.e, 0);
    case IfGas =>
      if tag.pclass == Gas {
        w.ReplacePixel(x, y, j.e, 0);
      }
    case Warm(n) =>
      w.SetTag(x, y, tag.(heat := Min(tag.heat + n, w.cfg.heatMax)));
  }

  /** A whole pass on the world, job by job. */
  method RewriteEachAt(w: PixelWorld, jobs: seq<Job>, rw: Rewrite)
    requires w.Valid()
    modifies w.tags, w.elems
    ensures w.Cells() == RewriteEach(old(w.Cells()), jobs, rw, w.cfg)
  {
    ghost var g := w.Cells();
    var i := 0;
    while i < |jobs|
      invariant 0 <= i <= |jobs|
      invariant w.Cells() == RewriteEach(g, jobs[..i], rw, w.cfg)
    {
      assert jobs[..i + 1][..i] == jobs[..i];
      RewriteOneAt(w, jobs[i], rw);
      i := i + 1;
    }
    assert jobs[..|jobs|] == jobs;
  }
}
