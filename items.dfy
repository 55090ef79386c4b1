// The player's tools of src/items/: the brush size shared by every brush
// (brush.cpp) and the oil, water, copper and fire brushes that paint an
// `n` x `n` square of the world around the cursor. A brush walks the square
// line by line (column by column, or row by row for fire) and treats each
// cell it covers in one way (a `Paint`). A pass is specified as a fold over
// the visits (`PaintEach`, and `PaintUsed` for the flag some brushes
// return); the lemmas say what the fold does to each cell. Drawing the brush
// outline is not part of this model.
module Items {
  import opened Base
  import opened Pixels
  import opened Grids
  import opened World
  import opened Raster2D
  import opened Rewrites

  // ----- painting -----

  /** How a brush treats a cell it covers. */
  datatype Paint =
      /** Replace a cell of class Gas with the visit's element and the tag `newTag` (the oil and water brushes). */
    | IfGasPaint(newTag: Tag)
      /** Replace a cell no external entity stands on with the visit's element and `newTag`, keeping the heat (the copper brush). */
    | FreePaint(newTag: Tag)
      /** Set the heat (the fire brush). */
    | HeatPaint(heat: int)

  /** `newTag` is the tag a new `e` starts with: what `replacePixel` writes with the element. */
  predicate Fresh(p: Paint, e: Element, cfg: Config)
  {
    !p.HeatPaint? ==> p.newTag == NewTag(e, cfg, 0)
  }

  /** How the water brush paints: Gas cells become water with a new water tag. */
  function WaterPaint(cfg: Config): Paint { IfGasPaint(NewTag(WaterElement, cfg, 0)) }

  /** How the oil brush paints: Gas cells become oil with a new oil tag. */
  function OilPaint(cfg: Config): Paint { IfGasPaint(NewTag(NewOil(0), cfg, 0)) }

  /** How the copper brush paints: cells nobody stands on become copper with a new copper tag and their old heat. */
  function CopperPaint(cfg: Config): Paint { FreePaint(NewTag(CopperElement, cfg, 0)) }

  /** Every oil element starts with the same tag, whatever its burn time. */
  lemma OilTagsAgree(cfg: Config, draw: nat)
    requires draw <= 24
    ensures Fresh(OilPaint(cfg), NewOil(draw), cfg)
  {
  }

  /** Whether a brush changes a covered cell. */
  predicate Applies(c: Cell, s: StaticTag, p: Paint)
  {
    match p
    case IfGasPaint(_) => c.tag.pclass == Gas
    case FreePaint(_) => !s.externalEntityPresent
    case HeatPaint(_) => true
  }

  /** What a brush makes of a covered cell it changes. */
  function Painted(c: Cell, j: Job, p: Paint): Cell
  {
    match p
    case IfGasPaint(t) => Cell(t, j.e)
    case FreePaint(t) => Cell(t.(heat := c.tag.heat), j.e)
    case HeatPaint(h) => Cell(c.tag.(heat := h), c.elem)
  }

  /** Visit `j` changes its cell of `g`: the cell is in the world and the brush applies to it. */
  predicate Changes(g: Grid, j: Job, p: Paint)
    requires g.Valid()
  {
    g.InBounds(j.at.x, j.at.y) && Applies(CellOf(g, j.at.x, j.at.y), g.StaticAt(j.at.x, j.at.y), p)
  }

  /** What a brush leaves in the cell of visit `j`, from the cell as it was. */
  function PaintedCell(g: Grid, j: Job, p: Paint): Cell
    requires g.Valid() && g.InBounds(j.at.x, j.at.y)
  {
    var c := CellOf(g, j.at.x, j.at.y);
    if Applies(c, g.StaticAt(j.at.x, j.at.y), p) then Painted(c, j, p) else c
  }

  /** One visit: a cell outside the world is skipped, a heat change writes the tag only. */
  function PaintOne(g: Grid, j: Job, p: Paint): (r: Grid)
    requires g.Valid()
    ensures r.Valid() && r.width == g.width && r.height == g.height && r.statics == g.statics
  {
    var x, y := j.at.x, j.at.y;
    if !Changes(g, j, p) then g
    else
      var c := Painted(CellOf(g, x, y), j, p);
      if p.HeatPaint? then g.WithTag(x, y, c.tag) else g.Replace(x, y, c.elem, c.tag)
  }

  /** The visits in order. */
  function PaintEach(g: Grid, jobs: seq<Job>, p: Paint): (r: Grid)
    requires g.Valid()
    ensures r.Valid() && r.width == g.width && r.height == g.height && r.statics == g.statics
    decreases |jobs|
  {
    if |jobs| == 0 then g else PaintOne(PaintEach(g, jobs[..|jobs| - 1], p), jobs[|jobs| - 1], p)
  }

  /** The `used` flag of a pass: some visit changed its cell, as the world was when it came. */
  predicate PaintUsed(g: Grid, jobs: seq<Job>, p: Paint)
    requires g.Valid()
    decreases |jobs|
  {
    |jobs| > 0 && (PaintUsed(g, jobs[..|jobs| - 1], p) || Changes(PaintEach(g, jobs[..|jobs| - 1], p), jobs[|jobs| - 1], p))
  }

  /** A pass over `a + b` is the pass over `a` followed by the pass over `b`. */
  lemma {:induction false} PaintAppend(g: Grid, a: seq<Job>, b: seq<Job>, p: Paint)
    requires g.Valid()
    ensures PaintEach(g, a + b, p) == PaintEach(PaintEach(g, a, p), b, p)
    ensures PaintUsed(g, a + b, p) == (PaintUsed(g, a, p) || PaintUsed(PaintEach(g, a, p), b, p))
    decreases |b|
  {
    if |b| == 0 {
      assert a + b == a;
    } else {
      var front := b[..|b| - 1];
      assert (a + b)[..|a + b| - 1] == a + front;
      assert (a + b)[|a + b| - 1] == b[|b| - 1];
      PaintAppend(g, a, front, p);
    }
  }

  /** A pass over the first `k + 1` visits is the pass over the first `k` followed by visit `k`. */
  lemma PaintNextVisit(g: Grid, jobs: seq<Job>, k: int, p: Paint)
    requires g.Valid() && 0 <= k < |jobs|
    ensures PaintEach(g, jobs[..k + 1], p) == PaintOne(PaintEach(g, jobs[..k], p), jobs[k], p)
    ensures PaintUsed(g, jobs[..k + 1], p) == (PaintUsed(g, jobs[..k], p) || Changes(PaintEach(g, jobs[..k], p), jobs[k], p))
  {
    assert jobs[..k + 1][..k] == jobs[..k];
  }

  /** A pass over the first `k + 1` lines is the pass over the first `k` followed by line `k`. */
  lemma PaintNextLine(g: Grid, lines: seq<seq<Job>>, k: int, p: Paint)
    requires g.Valid() && 0 <= k < |lines|
    ensures PaintEach(g, Flatten(lines[..k + 1]), p) == PaintEach(PaintEach(g, Flatten(lines[..k]), p), lines[k], p)
    ensures PaintUsed(g, Flatten(lines[..k + 1]), p) == (PaintUsed(g, Flatten(lines[..k]), p) || PaintUsed(PaintEach(g, Flatten(lines[..k]), p), lines[k], p))
  {
    assert lines[..k + 1][..k] == lines[..k];
    PaintAppend(g, Flatten(lines[..k]), lines[k], p);
  }

  /** A pass none of whose visits is in the world changes nothing and is not used. */
  lemma {:induction false} PaintOutside(g: Grid, jobs: seq<Job>, p: Paint)
    requires g.Valid() && forall k :: 0 <= k < |jobs| ==> !g.InBounds(jobs[k].at.x, jobs[k].at.y)
    ensures PaintEach(g, jobs, p) == g && !PaintUsed(g, jobs, p)
    decreases |jobs|
  {
    if |jobs| > 0 {
      PaintOutside(g, jobs[..|jobs| - 1], p);
    }
  }

  /** One visit changes its own cell, as `PaintedCell` says, and no other. */
  lemma PaintOneCell(g: Grid, j: Job, p: Paint, a: int, c: int)
    requires g.Valid() && g.InBounds(a, c)
    ensures CellOf(PaintOne(g, j, p), a, c) == if j.at == Point(a, c) then PaintedCell(g, j, p) else CellOf(g, a, c)
  {
    var x, y := j.at.x, j.at.y;
    if Changes(g, j, p) {
      var cell := Painted(CellOf(g, x, y), j, p);
      if p.HeatPaint? {
        WithTagCells(g, x, y, cell.tag);
      } else {
        ReplaceCells(g, x, y, cell.elem, cell.tag);
      }
    }
  }

  /** Dropping the last visit keeps the visits distinct, and the last one's cell is none of the others'. */
  lemma DistinctFront(jobs: seq<Job>)
    requires |jobs| > 0 && Distinct(Targets(jobs))
    ensures Distinct(Targets(jobs[..|jobs| - 1]))
    ensures jobs[|jobs| - 1].at !in Targets(jobs[..|jobs| - 1])
  {
    var n := |jobs|;
    var front := jobs[..n - 1];
    forall i, j | 0 <= i < j < n - 1 ensures Targets(front)[i] != Targets(front)[j] {
      assert Targets(jobs)[i] != Targets(jobs)[j];
    }
    forall i | 0 <= i < n - 1 ensures Targets(front)[i] != jobs[n - 1].at {
      assert Targets(jobs)[i] != Targets(jobs)[n - 1];
    }
  }

  /**
    A pass whose visits are distinct cells changes each visited cell of the
    world as `PaintedCell` says, from its original contents, and leaves every
    other cell as it was.
   */
  lemma {:induction false} PaintEachCells(g: Grid, jobs: seq<Job>, p: Paint)
    requires g.Valid() && Distinct(Targets(jobs))
    ensures var r := PaintEach(g, jobs, p);
            && (forall k :: 0 <= k < |jobs| && g.InBounds(jobs[k].at.x, jobs[k].at.y) ==>
                  CellOf(r, jobs[k].at.x, jobs[k].at.y) == PaintedCell(g, jobs[k], p))
            && (forall a, c :: g.InBounds(a, c) && Point(a, c) !in Targets(jobs) ==> CellOf(r, a, c) == CellOf(g, a, c))
    decreases |jobs|
  {
    if |jobs| > 0 {
      var n := |jobs|;
      var front := jobs[..n - 1];
      var h := PaintEach(g, front, p);
      var r := PaintEach(g, jobs, p);
      DistinctFront(jobs);
      PaintEachCells(g, front, p);
      forall k | 0 <= k < n && g.InBounds(jobs[k].at.x, jobs[k].at.y)
        ensures CellOf(r, jobs[k].at.x, jobs[k].at.y) == PaintedCell(g, jobs[k], p)
      {
        PaintOneCell(h, jobs[n - 1], p, jobs[k].at.x, jobs[k].at.y);
        if k < n - 1 {
          assert front[k] == jobs[k];
          assert Targets(jobs)[k] != Targets(jobs)[n - 1];
        }
      }
      forall a, c | g.InBounds(a, c) && Point(a, c) !in Targets(jobs) ensures CellOf(r, a, c) == CellOf(g, a, c) {
        PaintOneCell(h, jobs[n - 1], p, a, c);
        assert Targets(jobs)[n - 1] == jobs[n - 1].at;
      }
    }
  }

  /** On distinct cells, the last visit finds its cell as it was before the pass. */
  lemma LastVisitSees(g: Grid, jobs: seq<Job>, p: Paint)
    requires g.Valid() && |jobs| > 0 && Distinct(Targets(jobs))
    ensures Changes(PaintEach(g, jobs[..|jobs| - 1], p), jobs[|jobs| - 1], p) == Changes(g, jobs[|jobs| - 1], p)
  {
    var front := jobs[..|jobs| - 1];
    var last := jobs[|jobs| - 1];
    DistinctFront(jobs);
    PaintEachCells(g, front, p);
    if g.InBounds(last.at.x, last.at.y) {
      assert CellOf(PaintEach(g, front, p), last.at.x, last.at.y) == CellOf(g, last.at.x, last.at.y);
    }
  }

  /** Some visit of `jobs` changes its cell of `g` exactly when the last one does or one before it does. */
  lemma SomeVisitChangesFront(g: Grid, jobs: seq<Job>, front: seq<Job>, p: Paint)
    requires g.Valid() && |jobs| > 0 && front == jobs[..|jobs| - 1]
    ensures (exists k :: 0 <= k < |jobs| && Changes(g, jobs[k], p)) <==>
            (exists k :: 0 <= k < |front| && Changes(g, front[k], p)) || Changes(g, jobs[|jobs| - 1], p)
  {
    if exists k :: 0 <= k < |jobs| && Changes(g, jobs[k], p) {
      var k :| 0 <= k < |jobs| && Changes(g, jobs[k], p);
      if k < |jobs| - 1 {
        assert front[k] == jobs[k];
      }
    }
    if exists k :: 0 <= k < |jobs| - 1 && Changes(g, front[k], p) {
      var k :| 0 <= k < |jobs| - 1 && Changes(g, front[k], p);
      assert jobs[k] == front[k];
    }
  }

  /**
    On distinct cells, a pass is used exactly when one of its visits finds
    its cell, in the world as it was before the pass, one the brush changes.
   */
  lemma {:induction false} PaintUsedMeans(g: Grid, jobs: seq<Job>, p: Paint)
    requires g.Valid() && Distinct(Targets(jobs))
    ensures PaintUsed(g, jobs, p) <==> exists k :: 0 <= k < |jobs| && Changes(g, jobs[k], p)
    decreases |jobs|
  {
    if |jobs| > 0 {
      var n := |jobs|;
      var front := jobs[..n - 1];
      DistinctFront(jobs);
      PaintUsedMeans(g, front, p);
      LastVisitSees(g, jobs, p);
      SomeVisitChangesFront(g, jobs, front, p);
    }
  }

  // ----- the square a brush covers -----

  /** Visit `i` of line `d`: down column `x0 + d` when `byColumn`, else along row `y0 + d`. */
  function LineCell(x0: int, y0: int, byColumn: bool, d: int, i: int): Point
  {
    if byColumn then Point(x0 + d, y0 + i) else Point(x0 + i, y0 + d)
  }

  /** Where in its line, and in which line, a cell of the square is visited. */
  function LinePos(x0: int, y0: int, byColumn: bool, a: int, c: int): (di: (int, int))
    ensures LineCell(x0, y0, byColumn, di.0, di.1) == Point(a, c)
  {
    if byColumn then (a - x0, c - y0) else (c - y0, a - x0)
  }

  /** `n` lines of `n` entries each. */
  predicate SquareShape<T>(es: seq<seq<T>>, n: nat)
  {
    |es| == n && forall d :: 0 <= d < n ==> |es[d]| == n
  }

  /** Line `d` of a brush pass, with the element each visit writes. */
  function LineJobs(x0: int, y0: int, byColumn: bool, d: int, col: seq<Element>): (line: seq<Job>)
    ensures |line| == |col|
  {
    seq(|col|, i requires 0 <= i < |col| => Job(LineCell(x0, y0, byColumn, d, i), col[i]))
  }

  /** The visits of a brush pass, line by line. */
  function SquareLines(x0: int, y0: int, n: nat, byColumn: bool, es: seq<seq<Element>>): (ls: seq<seq<Job>>)
    requires SquareShape(es, n)
    ensures SquareShape(ls, n)
    ensures forall d, i :: 0 <= d < n && 0 <= i < n ==> ls[d][i] == Job(LineCell(x0, y0, byColumn, d, i), es[d][i])
  {
    seq(n, d requires 0 <= d < n => LineJobs(x0, y0, byColumn, d, es[d]))
  }

  /** The visits of a brush pass in order. */
  function SquareJobs(x0: int, y0: int, n: nat, byColumn: bool, es: seq<seq<Element>>): (js: seq<Job>)
    requires SquareShape(es, n)
  {
    Flatten(SquareLines(x0, y0, n, byColumn, es))
  }

  /** Visit `d * n + i` of a pass is entry `i` of line `d`. */
  lemma SquareVisit(x0: int, y0: int, n: nat, byColumn: bool, es: seq<seq<Element>>, d: int, i: int)
    requires SquareShape(es, n) && 0 <= d < n && 0 <= i < n
    ensures |SquareJobs(x0, y0, n, byColumn, es)| == n * n
    ensures var k := CellIndex(i, d, n, n);
            k < n * n && SquareJobs(x0, y0, n, byColumn, es)[k] == Job(LineCell(x0, y0, byColumn, d, i), es[d][i])
  {
    FlattenAt(SquareLines(x0, y0, n, byColumn, es), n, d, i);
  }

  /** Every visit of a pass is entry `i` of some line `d`. */
  lemma SquareVisitOf(x0: int, y0: int, n: nat, byColumn: bool, es: seq<seq<Element>>, k: int)
    requires SquareShape(es, n) && 0 <= k < |SquareJobs(x0, y0, n, byColumn, es)|
    ensures |SquareJobs(x0, y0, n, byColumn, es)| == n * n
    ensures var q := CellAt(k, n, n);
            SquareJobs(x0, y0, n, byColumn, es)[k] == Job(LineCell(x0, y0, byColumn, q.y, q.x), es[q.y][q.x])
  {
    FlattenAt(SquareLines(x0, y0, n, byColumn, es), n, 0, 0);
    var q := CellAt(k, n, n);
    SquareVisit(x0, y0, n, byColumn, es, q.y, q.x);
  }

  /** A brush visits each cell of its square once. */
  lemma SquareJobsDistinct(x0: int, y0: int, n: nat, byColumn: bool, es: seq<seq<Element>>)
    requires SquareShape(es, n)
    ensures Distinct(Targets(SquareJobs(x0, y0, n, byColumn, es)))
  {
    var js := SquareJobs(x0, y0, n, byColumn, es);
    forall k1, k2 | 0 <= k1 < k2 < |js| ensures Targets(js)[k1] != Targets(js)[k2] {
      SquareVisitOf(x0, y0, n, byColumn, es, k1);
      SquareVisitOf(x0, y0, n, byColumn, es, k2);
      var q1, q2 := CellAt(k1, n, n), CellAt(k2, n, n);
      CellIndexInjective(q1.x, q1.y, q2.x, q2.y, n, n);
    }
  }

  /** The visited cells are exactly the cells of the square. */
  lemma SquareJobsCover(x0: int, y0: int, n: nat, byColumn: bool, es: seq<seq<Element>>, a: int, c: int)
    requires SquareShape(es, n)
    ensures Point(a, c) in Targets(SquareJobs(x0, y0, n, byColumn, es)) <==> x0 <= a < x0 + n && y0 <= c < y0 + n
  {
    var js := SquareJobs(x0, y0, n, byColumn, es);
    if x0 <= a < x0 + n && y0 <= c < y0 + n {
      var di := LinePos(x0, y0, byColumn, a, c);
      SquareVisit(x0, y0, n, byColumn, es, di.0, di.1);
      assert Targets(js)[CellIndex(di.1, di.0, n, n)] == Point(a, c);
    }
    if Point(a, c) in Targets(js) {
      var k :| 0 <= k < |js| && Targets(js)[k] == Point(a, c);
      SquareVisitOf(x0, y0, n, byColumn, es, k);
    }
  }

  /**
    A pass over the square, cell by cell: a cell of the world inside the
    square is painted from its original contents with the element its visit
    carries; every other cell is unchanged.
   */
  lemma SquareCells(g: Grid, x0: int, y0: int, n: nat, byColumn: bool, es: seq<seq<Element>>, p: Paint, a: int, c: int)
    requires g.Valid() && SquareShape(es, n) && g.InBounds(a, c)
    ensures var r := PaintEach(g, SquareJobs(x0, y0, n, byColumn, es), p);
            if x0 <= a < x0 + n && y0 <= c < y0 + n then
              var di := LinePos(x0, y0, byColumn, a, c);
              CellOf(r, a, c) == PaintedCell(g, Job(Point(a, c), es[di.0][di.1]), p)
            else CellOf(r, a, c) == CellOf(g, a, c)
  {
    var jobs := SquareJobs(x0, y0, n, byColumn, es);
    SquareJobsDistinct(x0, y0, n, byColumn, es);
    PaintEachCells(g, jobs, p);
    SquareJobsCover(x0, y0, n, byColumn, es, a, c);
    if x0 <= a < x0 + n && y0 <= c < y0 + n {
      var di := LinePos(x0, y0, byColumn, a, c);
      SquareVisit(x0, y0, n, byColumn, es, di.0, di.1);
      assert jobs[CellIndex(di.1, di.0, n, n)].at == Point(a, c);
    }
  }

  /** A pass over the square is used exactly when some cell of the world inside the square is one the brush changes. */
  lemma SquareUsed(g: Grid, x0: int, y0: int, n: nat, byColumn: bool, es: seq<seq<Element>>, p: Paint)
    requires g.Valid() && SquareShape(es, n)
    ensures PaintUsed(g, SquareJobs(x0, y0, n, byColumn, es), p) <==>
              exists a, c :: x0 <= a < x0 + n && y0 <= c < y0 + n && g.InBounds(a, c)
                             && Applies(CellOf(g, a, c), g.StaticAt(a, c), p)
  {
    var jobs := SquareJobs(x0, y0, n, byColumn, es);
    SquareJobsDistinct(x0, y0, n, byColumn, es);
    PaintUsedMeans(g, jobs, p);
    if PaintUsed(g, jobs, p) {
      var k :| 0 <= k < |jobs| && Changes(g, jobs[k], p);
      SquareJobsCover(x0, y0, n, byColumn, es, jobs[k].at.x, jobs[k].at.y);
      assert Targets(jobs)[k] == jobs[k].at;
    }
    if exists a, c :: x0 <= a < x0 + n && y0 <= c < y0 + n && g.InBounds(a, c) && Applies(CellOf(g, a, c), g.StaticAt(a, c), p) {
      var a, c :| x0 <= a < x0 + n && y0 <= c < y0 + n && g.InBounds(a, c) && Applies(CellOf(g, a, c), g.StaticAt(a, c), p);
      var di := LinePos(x0, y0, byColumn, a, c);
      SquareVisit(x0, y0, n, byColumn, es, di.0, di.1);
      assert Changes(g, jobs[CellIndex(di.1, di.0, n, n)], p);
    }
  }

  // ----- the passes on the world -----

  /** One visit on the world, as the oil, water and copper brushes make it. */
  method VisitAt(w: PixelWorld, j: Job, p: Paint) returns (applied: bool)
    requires w.Valid() && !p.HeatPaint? && Fresh(p, j.e, w.cfg)
    modifies w.tags, w.elems
    ensures w.Cells() == PaintOne(old(w.Cells()), j, p)
    ensures applied == Changes(old(w.Cells()), j, p)
  {
    var x, y := j.at.x, j.at.y;
    if x < 0 || x >= w.width || y < 0 || y >= w.height {
      return false;
    }
    if p.IfGasPaint? {
      applied := w.ClassOfIs(x, y, Gas);
      if applied {
        w.ReplacePixel(x, y, j.e, 0);
      }
    } else {
      applied := !w.StaticTagOf(x, y).externalEntityPresent;
      if applied {
        w.ReplaceKeepHeat(x, y, j.e, 0);
      }
    }
  }

  /**
    The inner loop of the oil, water and copper brushes: the visits of line
    `d`, down world column `x0 + d` from row `y0`, each as `VisitAt` makes
    it; the result says whether any of them changed its cell.
   */
  method PaintColumn(w: PixelWorld, p: Paint, x0: int, y0: int, d: int, col: seq<Element>) returns (used: bool)
    requires w.Valid() && !p.HeatPaint?
    requires forall i :: 0 <= i < |col| ==> Fresh(p, col[i], w.cfg)
    modifies w.tags, w.elems
    ensures w.Cells() == PaintEach(old(w.Cells()), LineJobs(x0, y0, true, d, col), p)
    ensures used == PaintUsed(old(w.Cells()), LineJobs(x0, y0, true, d, col), p)
  {
    ghost var h := w.Cells();
    ghost var line := LineJobs(x0, y0, true, d, col);
    used := false;
    for dy := 0 to |col|
      invariant w.Cells() == PaintEach(h, line[..dy], p)
      invariant used == PaintUsed(h, line[..dy], p)
    {
      PaintNextVisit(h, line, dy, p);
      var applied := VisitAt(w, Job(Point(x0 + d, y0 + dy), col[dy]), p);
      used := used || applied;
    }
    assert line[..|col|] == line;
  }

  /** One visit of the fire brush on the world: the cell's heat becomes `heat_max`. */
  method HeatAt(w: PixelWorld, j: Job)
    requires w.Valid() && 0 <= j.at.x < w.width && 0 <= j.at.y < w.height
    modifies w.tags
    ensures w.Cells() == PaintOne(old(w.Cells()), j, HeatPaint(w.cfg.heatMax))
  {
    var tag := w.TagOf(j.at.x, j.at.y);
    w.SetTag(j.at.x, j.at.y, tag.(heat := w.cfg.heatMax));
  }

  /** The inner loop of the fire brush: the cells of line `d`, along world row `y0 + d` from column `x0`, get heat `heat_max`. */
  method HeatRow(w: PixelWorld, x0: int, y0: int, d: int, col: seq<Element>)
    requires w.Valid() && 0 <= x0 && x0 + |col| <= w.width && 0 <= y0 + d < w.height
    modifies w.tags
    ensures w.Cells() == PaintEach(old(w.Cells()), LineJobs(x0, y0, false, d, col), HeatPaint(w.cfg.heatMax))
  {
    ghost var h := w.Cells();
    ghost var line := LineJobs(x0, y0, false, d, col);
    for dx := 0 to |col|
      invariant w.Cells() == PaintEach(h, line[..dx], HeatPaint(w.cfg.heatMax))
    {
      PaintNextVisit(h, line, dx, HeatPaint(w.cfg.heatMax));
      HeatAt(w, Job(Point(x0 + dx, y0 + d), col[dx]));
    }
    assert line[..|col|] == line;
  }

  /**
    The two loops of the oil, water and copper brushes: the lines of the
    square at `(x0, y0)`, column by column. With `skipOffColumns` (the copper
    brush) a column outside the world is skipped as a whole, which changes
    nothing: each of its visits would have been skipped.
   */
  method PaintSquare(w: PixelWorld, p: Paint, x0: int, y0: int, n: nat, es: seq<seq<Element>>, skipOffColumns: bool)
    returns (used: bool)
    requires w.Valid() && !p.HeatPaint? && SquareShape(es, n)
    requires forall d, i :: 0 <= d < n && 0 <= i < n ==> Fresh(p, es[d][i], w.cfg)
    modifies w.tags, w.elems
    ensures w.Cells() == PaintEach(old(w.Cells()), SquareJobs(x0, y0, n, true, es), p)
    ensures used == PaintUsed(old(w.Cells()), SquareJobs(x0, y0, n, true, es), p)
  {
    ghost var g := w.Cells();
    ghost var lines := SquareLines(x0, y0, n, true, es);
    used := false;
    for dx := 0 to n
      invariant w.Cells() == PaintEach(g, Flatten(lines[..dx]), p)
      invariant used == PaintUsed(g, Flatten(lines[..dx]), p)
    {
      PaintNextLine(g, lines, dx, p);
      if skipOffColumns && (x0 + dx < 0 || x0 + dx >= w.width) {
        PaintOutside(w.Cells(), lines[dx], p);
      } else {
        var u := PaintColumn(w, p, x0, y0, dx, es[dx]);
        used := used || u;
      }
    }
    assert lines[..n] == lines;
  }

  /** The two loops of the fire brush: the lines of the square at `(x0, y0)`, row by row, with no bounds check. */
  method HeatSquare(w: PixelWorld, x0: int, y0: int, n: nat)
    requires w.Valid() && 0 <= x0 && x0 + n <= w.width && 0 <= y0 && y0 + n <= w.height
    modifies w.tags
    ensures w.Cells() == PaintEach(old(w.Cells()), SquareJobs(x0, y0, n, false, SameElements(AirElement, n)), HeatPaint(w.cfg.heatMax))
  {
    var es := SameElements(AirElement, n);
    ghost var p := HeatPaint(w.cfg.heatMax);
    ghost var g := w.Cells();
    ghost var lines := SquareLines(x0, y0, n, false, es);
    for dy := 0 to n
      invariant w.Cells() == PaintEach(g, Flatten(lines[..dy]), p)
    {
      PaintNextLine(g, lines, dy, p);
      HeatRow(w, x0, y0, dy, es[dy]);
    }
    assert lines[..n] == lines;
  }

  // ----- the brush size -----

  /** `BrushSizeChangableItem`: a brush size kept in `[1, maxSize]`. */
  class BrushSize {
    var size: int
    const maxSize: int

    predicate Valid()
      reads this
    {
      1 <= size <= maxSize
    }

    /** The two-argument constructor: the initial size clamped into `[1, maxSize]`. */
    constructor Clamped(maxSize: int, initial: int)
      requires 1 <= maxSize
      ensures Valid() && this.maxSize == maxSize && size == Clamp(initial, 1, maxSize)
    {
      this.maxSize := maxSize;
      size := Clamp(initial, 1, maxSize);
    }

    /** The one-argument constructor: the brush starts at its largest. */
    constructor (maxSize: int)
      ensures this.maxSize == maxSize && size == maxSize
      ensures 1 <= maxSize ==> Valid()
    {
      this.maxSize := maxSize;
      size := maxSize;
    }

    /** `changeBrushSize`: the size moves by `delta`, saturating at 1 and at `maxSize`. */
    method ChangeBrushSize(delta: int)
      requires Valid()
      modifies this
      ensures Valid() && size == Clamp(old(size) + delta, 1, maxSize)
    {
      size := Clamp(size + delta, 1, maxSize);
    }

    /**
      `brushTopLeft`: the top-left cell of the square centred on `(x, y)`.
      `scale` is not used.
     */
    function TopLeft(x: int, y: int, scale: int): (p: Point)
      requires Valid()
      reads this
      ensures p.x + size / 2 == x && p.y + size / 2 == y
      ensures p.x <= x < p.x + size && p.y <= y < p.y + size
    {
      Point(x - size / 2, y - size / 2)
    }
  }

  // ----- the four brushes -----

  /** The oil brush's largest (and starting) size: 24 for the large brush, 12 otherwise. */
  function OilMaxSize(large: bool): int { if large then 24 else 12 }

  /**
    The draws `Oil::create` takes for a brush of size `n`, one per visit,
    indexed by column and row, each a Binomial(24, 1/2) value.
   */
  predicate OilDrawsOk(draws: seq<seq<nat>>, n: nat)
  {
    SquareShape(draws, n) && forall d, i :: 0 <= d < n && 0 <= i < n ==> draws[d][i] <= 24
  }

  /** The elements the oil brush writes: fresh oil built from each visit's draw. */
  function OilElements(draws: seq<seq<nat>>, n: nat): (es: seq<seq<Element>>)
    requires OilDrawsOk(draws, n)
    ensures SquareShape(es, n) && forall d, i :: 0 <= d < n && 0 <= i < n ==> es[d][i] == NewOil(draws[d][i])
  {
    seq(n, d requires 0 <= d < n => seq(n, i requires 0 <= i < n => NewOil(draws[d][i])))
  }

  /** `e` at every visit. */
  function SameElements(e: Element, n: nat): (es: seq<seq<Element>>)
    ensures SquareShape(es, n) && forall d, i :: 0 <= d < n && 0 <= i < n ==> es[d][i] == e
  {
    seq(n, _ => seq(n, _ => e))
  }

  /** `OilBrush`. */
  class OilBrush {
    const large: bool
    const brush: BrushSize

    constructor (large: bool)
      ensures this.large == large && fresh(brush) && brush.Valid()
      ensures brush.maxSize == OilMaxSize(large) && brush.size == brush.maxSize
    {
      this.large := large;
      brush := new BrushSize(OilMaxSize(large));
    }

    /** `name`. */
    function Name(): (s: string)
      ensures s == (if large then "Oil[L]" else "Oil")
    {
      if large then "Oil[L]" else "Oil"
    }

    /** The visits of `use` at `(x, y)`: the square at `brushTopLeft`, column by column. */
    function Jobs(x: int, y: int, scale: int, draws: seq<seq<nat>>): seq<Job>
      requires brush.Valid() && OilDrawsOk(draws, brush.size)
      reads brush
    {
      var tl := brush.TopLeft(x, y, scale);
      SquareJobs(tl.x, tl.y, brush.size, true, OilElements(draws, brush.size))
    }

    /**
      `use`: every in-bounds Gas cell of the square becomes fresh oil; the
      result says whether any cell was replaced.
     */
    method Use(w: PixelWorld, x: int, y: int, scale: int, draws: seq<seq<nat>>) returns (used: bool)
      requires w.Valid() && brush.Valid() && OilDrawsOk(draws, brush.size)
      modifies w.tags, w.elems
      ensures w.Cells() == PaintEach(old(w.Cells()), Jobs(x, y, scale, draws), OilPaint(w.cfg))
      ensures used == PaintUsed(old(w.Cells()), Jobs(x, y, scale, draws), OilPaint(w.cfg))
    {
      var tl := brush.TopLeft(x, y, scale);
      var es := OilElements(draws, brush.size);
      forall d, i | 0 <= d < brush.size && 0 <= i < brush.size ensures Fresh(OilPaint(w.cfg), es[d][i], w.cfg) {
        OilTagsAgree(w.cfg, draws[d][i]);
      }
      used := PaintSquare(w, OilPaint(w.cfg), tl.x, tl.y, brush.size, es, false);
    }
  }

  /** `WaterBrush`: size at most 3, asked to start at 9. */
  class WaterBrush {
    const brush: BrushSize

    constructor ()
      ensures fresh(brush) && brush.Valid() && brush.maxSize == 3 && brush.size == 3
    {
      brush := new BrushSize.Clamped(3, 9);
    }

    /** The visits of `use` at `(x, y)`: the square at `brushTopLeft`, column by column. */
    function Jobs(x: int, y: int, scale: int): seq<Job>
      requires brush.Valid()
      reads brush
    {
      var tl := brush.TopLeft(x, y, scale);
      SquareJobs(tl.x, tl.y, brush.size, true, SameElements(WaterElement, brush.size))
    }

    /** `use`: every in-bounds Gas cell of the square becomes water; it always reports success. */
    method Use(w: PixelWorld, x: int, y: int, scale: int) returns (ok: bool)
      requires w.Valid() && brush.Valid()
      modifies w.tags, w.elems
      ensures ok
      ensures w.Cells() == PaintEach(old(w.Cells()), Jobs(x, y, scale), WaterPaint(w.cfg))
    {
      var tl := brush.TopLeft(x, y, scale);
      var _ := PaintSquare(w, WaterPaint(w.cfg), tl.x, tl.y, brush.size, SameElements(WaterElement, brush.size), false);
      return true;
    }
  }

  /** `CopperBrush`: size 2. */
  class CopperBrush {
    const brush: BrushSize

    constructor ()
      ensures fresh(brush) && brush.Valid() && brush.maxSize == 2 && brush.size == 2
    {
      brush := new BrushSize(2);
    }

    /** `name`. */
    function Name(): (s: string)
      ensures s == "Copper"
    {
      "Copper"
    }

    /** The visits of `use` at `(x, y)`: the square at `brushTopLeft`, column by column. */
    function Jobs(x: int, y: int, scale: int): seq<Job>
      requires brush.Valid()
      reads brush
    {
      var tl := brush.TopLeft(x, y, scale);
      SquareJobs(tl.x, tl.y, brush.size, true, SameElements(CopperElement, brush.size))
    }

    /**
      `use`: every in-bounds cell of the square with no external entity on it
      becomes copper with its old heat; the result says whether any cell was
      replaced. A column outside the world is skipped as a whole.
     */
    method Use(w: PixelWorld, x: int, y: int, scale: int) returns (used: bool)
      requires w.Valid() && brush.Valid()
      modifies w.tags, w.elems
      ensures w.Cells() == PaintEach(old(w.Cells()), Jobs(x, y, scale), CopperPaint(w.cfg))
      ensures used == PaintUsed(old(w.Cells()), Jobs(x, y, scale), CopperPaint(w.cfg))
    {
      var tl := brush.TopLeft(x, y, scale);
      used := PaintSquare(w, CopperPaint(w.cfg), tl.x, tl.y, brush.size, SameElements(CopperElement, brush.size), true);
    }
  }

  /** `FireBrush`: size 3. */
  class FireBrush {
    const brush: BrushSize

    constructor ()
      ensures fresh(brush) && brush.Valid() && brush.maxSize == 3 && brush.size == 3
    {
      brush := new BrushSize(3);
    }

    /** `name`. */
    function Name(): (s: string)
      ensures s == "Fire"
    {
      "Fire"
    }

    /** The visits of `use` at `(x, y)`: the square at `brushTopLeft`, row by row. */
    function Jobs(x: int, y: int, scale: int): seq<Job>
      requires brush.Valid()
      reads brush
    {
      var tl := brush.TopLeft(x, y, scale);
      SquareJobs(tl.x, tl.y, brush.size, false, SameElements(AirElement, brush.size))
    }

    /** The square at `brushTopLeft` lies in the world: `use` does no bounds check. */
    predicate Inside(w: PixelWorld, x: int, y: int, scale: int)
      requires brush.Valid()
      reads brush
    {
      var tl := brush.TopLeft(x, y, scale);
      0 <= tl.x && tl.x + brush.size <= w.width && 0 <= tl.y && tl.y + brush.size <= w.height
    }

    /** `use`: every cell of the square gets `heat_max`; it always reports success. */
    method Use(w: PixelWorld, x: int, y: int, scale: int) returns (ok: bool)
      requires w.Valid() && brush.Valid() && Inside(w, x, y, scale)
      modifies w.tags
      ensures ok
      ensures w.Cells() == PaintEach(old(w.Cells()), Jobs(x, y, scale), HeatPaint(w.cfg.heatMax))
    {
      var tl := brush.TopLeft(x, y, scale);
      HeatSquare(w, tl.x, tl.y, brush.size);
      return true;
    }
  }

  // ----- what each brush does to a cell -----

  /**
    The oil brush, cell by cell: an in-bounds Gas cell of the square becomes
    fresh oil built from its visit's draw; every other cell is unchanged.
   */
  lemma OilBrushCells(g: Grid, x0: int, y0: int, n: nat, draws: seq<seq<nat>>, cfg: Config, a: int, c: int)
    requires g.Valid() && OilDrawsOk(draws, n) && g.InBounds(a, c)
    ensures var r := PaintEach(g, SquareJobs(x0, y0, n, true, OilElements(draws, n)), OilPaint(cfg));
            if x0 <= a < x0 + n && y0 <= c < y0 + n && g.TagAt(a, c).pclass == Gas then
              var e := NewOil(draws[a - x0][c - y0]);
              CellOf(r, a, c) == Cell(NewTag(e, cfg, 0), e)
            else CellOf(r, a, c) == CellOf(g, a, c)
  {
    SquareCells(g, x0, y0, n, true, OilElements(draws, n), OilPaint(cfg), a, c);
    if x0 <= a < x0 + n && y0 <= c < y0 + n {
      OilTagsAgree(cfg, draws[a - x0][c - y0]);
    }
  }

  /** The oil brush reports use exactly when the square covers an in-bounds Gas cell. */
  lemma OilBrushUsed(g: Grid, x0: int, y0: int, n: nat, draws: seq<seq<nat>>, cfg: Config)
    requires g.Valid() && OilDrawsOk(draws, n)
    ensures PaintUsed(g, SquareJobs(x0, y0, n, true, OilElements(draws, n)), OilPaint(cfg)) <==>
              exists a, c :: x0 <= a < x0 + n && y0 <= c < y0 + n && g.InBounds(a, c) && g.TagAt(a, c).pclass == Gas
  {
    SquareUsed(g, x0, y0, n, true, OilElements(draws, n), OilPaint(cfg));
  }

  /** The water brush, cell by cell: an in-bounds Gas cell of the square becomes water; every other cell is unchanged. */
  lemma WaterBrushCells(g: Grid, x0: int, y0: int, n: nat, cfg: Config, a: int, c: int)
    requires g.Valid() && g.InBounds(a, c)
    ensures var r := PaintEach(g, SquareJobs(x0, y0, n, true, SameElements(WaterElement, n)), WaterPaint(cfg));
            if x0 <= a < x0 + n && y0 <= c < y0 + n && g.TagAt(a, c).pclass == Gas then
              CellOf(r, a, c) == Cell(NewTag(WaterElement, cfg, 0), WaterElement)
            else CellOf(r, a, c) == CellOf(g, a, c)
  {
    SquareCells(g, x0, y0, n, true, SameElements(WaterElement, n), WaterPaint(cfg), a, c);
  }

  /**
    The copper brush, cell by cell: an in-bounds cell of the square with no
    external entity on it becomes copper and keeps its heat, whatever it
    was; every other cell is unchanged.
   */
  lemma CopperBrushCells(g: Grid, x0: int, y0: int, n: nat, cfg: Config, a: int, c: int)
    requires g.Valid() && g.InBounds(a, c)
    ensures var r := PaintEach(g, SquareJobs(x0, y0, n, true, SameElements(CopperElement, n)), CopperPaint(cfg));
            if x0 <= a < x0 + n && y0 <= c < y0 + n && !g.StaticAt(a, c).externalEntityPresent then
              CellOf(r, a, c) == Cell(NewTag(CopperElement, cfg, 0).(heat := g.TagAt(a, c).heat), CopperElement)
            else CellOf(r, a, c) == CellOf(g, a, c)
  {
    SquareCells(g, x0, y0, n, true, SameElements(CopperElement, n), CopperPaint(cfg), a, c);
  }

  /** The copper brush reports use exactly when the square covers an in-bounds cell no external entity stands on. */
  lemma CopperBrushUsed(g: Grid, x0: int, y0: int, n: nat, cfg: Config)
    requires g.Valid()
    ensures PaintUsed(g, SquareJobs(x0, y0, n, true, SameElements(CopperElement, n)), CopperPaint(cfg)) <==>
              exists a, c :: x0 <= a < x0 + n && y0 <= c < y0 + n && g.InBounds(a, c) && !g.StaticAt(a, c).externalEntityPresent
  {
    SquareUsed(g, x0, y0, n, true, SameElements(CopperElement, n), CopperPaint(cfg));
  }

  /** The fire brush, cell by cell: a cell of the square gets heat `h` and nothing else changes. */
  lemma FireBrushCells(g: Grid, x0: int, y0: int, n: nat, h: int, a: int, c: int)
    requires g.Valid() && g.InBounds(a, c)
    ensures var r := PaintEach(g, SquareJobs(x0, y0, n, false, SameElements(AirElement, n)), HeatPaint(h));
            if x0 <= a < x0 + n && y0 <= c < y0 + n then
              CellOf(r, a, c) == Cell(g.TagAt(a, c).(heat := h), g.ElemAt(a, c))
            else CellOf(r, a, c) == CellOf(g, a, c)
  {
    SquareCells(g, x0, y0, n, false, SameElements(AirElement, n), HeatPaint(h), a, c);
  }
}
