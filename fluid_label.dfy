// Step 1 of `fluidAnalysisStep` in src/fallsand/fluid.cpp: the fluid cells
// are split into 4-connected components by a stack-driven flood fill, one
// fill per unmarked fluid cell in column-major order. A cell is marked when
// it is popped, not when it is pushed, so a cell can be pushed (and listed
// in `fluid_pixels`) more than once. The proofs run on values: the set of
// fluid cells, the marked set, the ids given so far and the stack.
module FluidLabels {
  import opened Base
  import opened Pixels
  import opened Grids
  import opened World
  import opened Raster2D

  /** Two cells that share an edge. */
  predicate Adjacent(p: Point, q: Point) { Abs(q.x - p.x) + Abs(q.y - p.y) == 1 }

  /** The fluid cells of a grid. */
  ghost function FluidCells(g: Grid): set<Point>
    requires g.Valid()
  {
    set a, b | 0 <= a < g.width && 0 <= b < g.height && g.TagAt(a, b).pclass == Fluid :: Point(a, b)
  }

  /** A cell is in `FluidCells` exactly when it lies in the grid and its class is Fluid. */
  lemma FluidCellsSpec(g: Grid)
    requires g.Valid()
    ensures forall p :: p in FluidCells(g) <==> g.InBounds(p.x, p.y) && g.TagAt(p.x, p.y).pclass == Fluid
  {
  }

  /** Every fluid cell lies in the grid. */
  lemma FluidCellsInBounds(g: Grid)
    requires g.Valid()
    ensures forall p :: p in FluidCells(g) ==> InBounds(p, g.width, g.height)
  {
  }

  /** `FluidCellsSpec` for one cell. */
  lemma FluidCellAt(g: Grid, a: int, b: int)
    requires g.Valid() && g.InBounds(a, b)
    ensures Point(a, b) in FluidCells(g) <==> g.TagAt(a, b).pclass == Fluid
  {
  }

  /**
    Between two fills: every marked cell is fluid and has an id below
    `count`, ids agree across every edge between a marked and a fluid cell
    (so the fluid neighbour is marked too), and `pixels` lists exactly the
    marked cells.
   */
  ghost predicate Settled(fl: set<Point>, marked: set<Point>, ids: map<Point, int>, pixels: seq<Point>, count: int)
  {
    && 0 <= count && marked <= fl && ids.Keys == marked
    && (forall p :: p in marked ==> 0 <= ids[p] < count)
    && (forall p, q :: p in marked && q in fl && Adjacent(p, q) ==> q in marked && ids[q] == ids[p])
    && (forall p :: p in pixels <==> p in marked)
  }

  /**
    Across an edge from a marked cell, the fluid neighbour has the same id,
    or is unmarked, on the stack, and the marked cell has the current id.
   */
  ghost predicate Closure(fl: set<Point>, marked: set<Point>, ids: map<Point, int>, stack: seq<Point>, count: int)
    requires ids.Keys == marked
  {
    forall p, q :: p in marked && q in fl && Adjacent(p, q) ==>
      if q in marked then ids[q] == ids[p] else q in stack && ids[p] == count
  }

  /** An unmarked fluid neighbour of a marked stack entry sits above that entry. */
  ghost predicate Above(fl: set<Point>, marked: set<Point>, stack: seq<Point>)
  {
    forall i, q :: 0 <= i < |stack| && stack[i] in marked && q in fl && q !in marked && Adjacent(stack[i], q) ==>
      q in stack[i + 1..]
  }

  /** The marked cells are fluid and carry ids in `[0, count]`. */
  ghost predicate Marks(fl: set<Point>, marked: set<Point>, ids: map<Point, int>, count: int)
  {
    && 0 <= count && marked <= fl && ids.Keys == marked
    && (forall p :: p in marked ==> 0 <= ids[p] <= count)
  }

  /** The stack holds fluid cells, and a marked one has the current id. */
  ghost predicate StackOk(fl: set<Point>, marked: set<Point>, ids: map<Point, int>, stack: seq<Point>, count: int)
    requires ids.Keys == marked
  {
    forall i :: 0 <= i < |stack| ==> stack[i] in fl && (stack[i] in marked ==> ids[stack[i]] == count)
  }

  /** During the fill of component `count`. */
  ghost predicate Filling(fl: set<Point>, marked: set<Point>, ids: map<Point, int>, stack: seq<Point>, pixels: seq<Point>, count: int)
  {
    && Marks(fl, marked, ids, count)
    && StackOk(fl, marked, ids, stack, count)
    && Closure(fl, marked, ids, stack, count)
    && Above(fl, marked, stack)
    && (forall p :: p in pixels <==> p in marked)
  }

  /** `pushed` holds exactly the cells of `ns` that are fluid and not marked. */
  ghost predicate PushedAll(fl: set<Point>, ns: seq<Point>, marked: set<Point>, pushed: seq<Point>)
  {
    forall q :: q in pushed <==> q in ns && q in fl && q !in marked
  }

  /** A fill starts from a settled state with one unmarked fluid seed. */
  lemma StartFill(fl: set<Point>, marked: set<Point>, ids: map<Point, int>, pixels: seq<Point>, count: int, seed: Point)
    requires Settled(fl, marked, ids, pixels, count) && seed in fl && seed !in marked
    ensures Filling(fl, marked, ids, [seed], pixels, count)
  {
  }

  /** A fill whose stack has run empty leaves a settled state with one more component. */
  lemma EndFill(fl: set<Point>, marked: set<Point>, ids: map<Point, int>, pixels: seq<Point>, count: int)
    requires Filling(fl, marked, ids, [], pixels, count)
    ensures Settled(fl, marked, ids, pixels, count + 1)
  {
  }

  /** A cell popped a second time has no unmarked fluid neighbour left, so it pushes nothing. */
  lemma PopAgain(fl: set<Point>, marked: set<Point>, ids: map<Point, int>, stack: seq<Point>, pixels: seq<Point>, count: int,
                 width: int, height: int)
    requires Filling(fl, marked, ids, stack, pixels, count) && |stack| > 0 && stack[|stack| - 1] in marked
    ensures forall q :: q in NeighborsOf(stack[|stack| - 1], width, height) ==> q !in fl || q in marked
  {
    var n := |stack|;
    var ns := NeighborsOf(stack[n - 1], width, height);
    assert forall q :: q in ns && q in fl && q !in marked ==> Adjacent(stack[n - 1], q);
    assert forall q :: q in ns && q in fl && q !in marked ==> q in stack[n..];
    assert stack[n..] == [];
  }

  /** `Closure` after a pop. */
  lemma PopClosure(fl: set<Point>, marked: set<Point>, ids: map<Point, int>, stack: seq<Point>, count: int,
                   width: int, height: int, pushed: seq<Point>)
    requires ids.Keys == marked && |stack| > 0
    requires StackOk(fl, marked, ids, stack, count) && Closure(fl, marked, ids, stack, count)
    requires forall p :: p in fl ==> InBounds(p, width, height)
    requires PushedAll(fl, NeighborsOf(stack[|stack| - 1], width, height), marked + {stack[|stack| - 1]}, pushed)
    ensures var p := stack[|stack| - 1];
            Closure(fl, marked + {p}, ids[p := count], stack[..|stack| - 1] + pushed, count)
  {
    var n := |stack|;
    var p := stack[n - 1];
    var m' := marked + {p};
    var ids' := ids[p := count];
    var stack' := stack[..n - 1] + pushed;
    assert stack == stack[..n - 1] + [p];
    forall p0, q | p0 in m' && q in fl && Adjacent(p0, q)
      ensures if q in m' then ids'[q] == ids'[p0] else q in stack' && ids'[p0] == count
    {
      if p0 == p {
        if q in marked {
          assert Adjacent(q, p);
          assert ids[q] == count;
        } else if q != p {
          assert q in pushed;
        }
      } else if q !in marked && q != p {
        assert q in stack[..n - 1];
      }
    }
  }

  /** `Above` after a pop: the pushed cells go on top. */
  lemma PopAbove(fl: set<Point>, marked: set<Point>, stack: seq<Point>, width: int, height: int, pushed: seq<Point>)
    requires Above(fl, marked, stack) && |stack| > 0
    requires forall p :: p in fl ==> InBounds(p, width, height)
    requires PushedAll(fl, NeighborsOf(stack[|stack| - 1], width, height), marked + {stack[|stack| - 1]}, pushed)
    ensures var p := stack[|stack| - 1];
            Above(fl, marked + {p}, stack[..|stack| - 1] + pushed)
  {
    var n := |stack|;
    var p := stack[n - 1];
    var m' := marked + {p};
    var stack' := stack[..n - 1] + pushed;
    forall i, q | 0 <= i < |stack'| && stack'[i] in m' && q in fl && q !in m' && Adjacent(stack'[i], q)
      ensures q in stack'[i + 1..]
    {
      assert i < n - 1 && stack'[i] == stack[i];
      assert stack'[i + 1..] == stack[i + 1..n - 1] + pushed;
      if stack[i] == p {
        assert q in NeighborsOf(p, width, height);
        assert q in pushed;
      } else {
        assert stack[i + 1..] == stack[i + 1..n - 1] + [p];
        assert q in stack[i + 1..n - 1];
      }
    }
  }

  /**
    One pop: the top cell is marked with the current id and listed, and its
    unmarked fluid neighbours are pushed.
   */
  lemma PopKeeps(fl: set<Point>, marked: set<Point>, ids: map<Point, int>, stack: seq<Point>, pixels: seq<Point>, count: int,
                 width: int, height: int, pushed: seq<Point>)
    requires Filling(fl, marked, ids, stack, pixels, count) && |stack| > 0
    requires forall p :: p in fl ==> InBounds(p, width, height)
    requires PushedAll(fl, NeighborsOf(stack[|stack| - 1], width, height), marked + {stack[|stack| - 1]}, pushed)
    ensures var p := stack[|stack| - 1];
            Filling(fl, marked + {p}, ids[p := count], stack[..|stack| - 1] + pushed, pixels + [p], count)
  {
    var n := |stack|;
    var p := stack[n - 1];
    var stack' := stack[..n - 1] + pushed;
    PopClosure(fl, marked, ids, stack, count, width, height, pushed);
    PopAbove(fl, marked, stack, width, height, pushed);
    forall i | 0 <= i < |stack'|
      ensures stack'[i] in fl && (stack'[i] in marked + {p} ==> ids[p := count][stack'[i]] == count)
    {
      if i < n - 1 { assert stack'[i] == stack[i]; }
    }
  }

  /** Marking an unmarked fluid cell leaves one fluid cell fewer to mark. */
  lemma MarkShrinks(fl: set<Point>, marked: set<Point>, p: Point)
    requires p in fl && p !in marked
    ensures |fl - (marked + {p})| < |fl - marked|
  {
    assert fl - (marked + {p}) == (fl - marked) - {p};
  }

  /** The marks and ids as the two arrays keep them. */
  ghost predicate Linked(dirty: array2<bool>, cid: array2<int>, marked: set<Point>, ids: map<Point, int>)
    reads dirty, cid
  {
    && dirty.Length0 == cid.Length0 && dirty.Length1 == cid.Length1
    && (forall p :: p in marked ==> 0 <= p.x < dirty.Length0 && 0 <= p.y < dirty.Length1)
    && (forall a, b :: 0 <= a < dirty.Length0 && 0 <= b < dirty.Length1 ==>
          dirty[a, b] == (Point(a, b) in marked)
          && cid[a, b] == if Point(a, b) in ids then ids[Point(a, b)] else -1)
  }

  /** One more candidate looked at: it is pushed exactly when it is fluid and unmarked. */
  lemma PushedStep(fl: set<Point>, ns: seq<Point>, k: int, marked: set<Point>, pushed: seq<Point>, take: bool)
    requires 0 <= k < |ns| && PushedAll(fl, ns[..k], marked, pushed)
    requires take <==> ns[k] in fl && ns[k] !in marked
    ensures PushedAll(fl, ns[..k + 1], marked, if take then pushed + [ns[k]] else pushed)
  {
    assert forall r :: r in ns[..k + 1] <==> r in ns[..k] || r == ns[k];
  }

  /**
    The neighbour loop of one pop over candidate cells `ns`, all in the
    grid: the fluid candidates not yet marked go on the stack, in order.
   */
  method PushCandidates(g: Grid, dirty: array2<bool>, cid: array2<int>, ns: seq<Point>, stack: seq<Point>,
                        ghost fl: set<Point>, ghost marked: set<Point>, ghost ids: map<Point, int>)
    returns (stack': seq<Point>, ghost pushed: seq<Point>)
    requires g.Valid() && fl == FluidCells(g) && Linked(dirty, cid, marked, ids)
    requires dirty.Length0 == g.width && dirty.Length1 == g.height
    requires forall j :: 0 <= j < |ns| ==> InBounds(ns[j], g.width, g.height)
    ensures stack' == stack + pushed && PushedAll(fl, ns, marked, pushed)
  {
    stack' := stack;
    pushed := [];
    for k := 0 to |ns|
      invariant stack' == stack + pushed
      invariant PushedAll(fl, ns[..k], marked, pushed)
    {
      var q := ns[k];
      FluidCellAt(g, q.x, q.y);
      var take := g.TagAt(q.x, q.y).pclass == Fluid && !dirty[q.x, q.y];
      PushedStep(fl, ns, k, marked, pushed, take);
      if take {
        stack', pushed := stack' + [q], pushed + [q];
      }
    }
    assert ns[..|ns|] == ns;
  }

  /**
    The neighbour loop of one pop: the unmarked fluid neighbours of `p` go
    on the stack; with none, the stack is unchanged.
   */
  method PushNeighbors(g: Grid, dirty: array2<bool>, cid: array2<int>, p: Point, stack: seq<Point>,
                       ghost fl: set<Point>, ghost marked: set<Point>, ghost ids: map<Point, int>)
    returns (stack': seq<Point>, ghost pushed: seq<Point>)
    requires g.Valid() && fl == FluidCells(g) && Linked(dirty, cid, marked, ids)
    requires dirty.Length0 == g.width && dirty.Length1 == g.height
    ensures stack' == stack + pushed && PushedAll(fl, NeighborsOf(p, g.width, g.height), marked, pushed)
    ensures (forall q :: q in NeighborsOf(p, g.width, g.height) ==> q !in fl || q in marked) ==> pushed == []
  {
    var ns := NeighborsOf(p, g.width, g.height);
    assert forall j :: 0 <= j < |ns| ==> InBounds(ns[j], g.width, g.height) by {
      forall j | 0 <= j < |ns| ensures InBounds(ns[j], g.width, g.height) { assert ns[j] in ns; }
    }
    stack', pushed := PushCandidates(g, dirty, cid, ns, stack, fl, marked, ids);
    if pushed != [] {
      assert pushed[0] in pushed;
    }
  }

  /** A pop marks the cell and gives it the current id. */
  method MarkCell(dirty: array2<bool>, cid: array2<int>, p: Point, count: int,
                  ghost marked: set<Point>, ghost ids: map<Point, int>)
    requires Linked(dirty, cid, marked, ids) && 0 <= p.x < dirty.Length0 && 0 <= p.y < dirty.Length1
    modifies dirty, cid
    ensures Linked(dirty, cid, marked + {p}, ids[p := count])
  {
    dirty[p.x, p.y] := true;
    cid[p.x, p.y] := count;
  }

  /** What one pop achieves, as `Pop` needs it for the loop: the fill goes on, and it makes progress. */
  lemma PopStep(fl: set<Point>, marked: set<Point>, ids: map<Point, int>, stack: seq<Point>, pixels: seq<Point>, count: int,
                width: int, height: int, pushed: seq<Point>)
    requires Filling(fl, marked, ids, stack, pixels, count) && |stack| > 0
    requires forall p :: p in fl ==> InBounds(p, width, height)
    requires var p := stack[|stack| - 1];
             && PushedAll(fl, NeighborsOf(p, width, height), marked + {p}, pushed)
             && ((forall q :: q in NeighborsOf(p, width, height) ==> q !in fl || q in marked + {p}) ==> pushed == [])
    ensures var p := stack[|stack| - 1];
            var stack' := stack[..|stack| - 1] + pushed;
            && Filling(fl, marked + {p}, ids[p := count], stack', pixels + [p], count)
            && (|fl - (marked + {p})| < |fl - marked| || (marked + {p} == marked && |stack'| < |stack|))
  {
    var p := stack[|stack| - 1];
    PopKeeps(fl, marked, ids, stack, pixels, count, width, height, pushed);
    if p in marked {
      PopAgain(fl, marked, ids, stack, pixels, count, width, height);
      assert marked + {p} == marked;
      assert pushed == [];
    } else {
      MarkShrinks(fl, marked, p);
    }
  }

  /**
    One round of the fill loop: pop the top cell, mark it with id `count`,
    list it, and push its unmarked fluid neighbours. Either one more fluid
    cell is marked, or the popped cell was marked already and the stack is
    shorter.
   */
  method Pop(g: Grid, dirty: array2<bool>, cid: array2<int>, stack: seq<Point>, pixels: seq<Point>, count: nat,
             ghost fl: set<Point>, ghost marked: set<Point>, ghost ids: map<Point, int>)
    returns (stack': seq<Point>, pixels': seq<Point>, ghost marked': set<Point>, ghost ids': map<Point, int>)
    requires g.Valid() && fl == FluidCells(g) && forall p :: p in fl ==> InBounds(p, g.width, g.height)
    requires dirty.Length0 == g.width && dirty.Length1 == g.height
    requires Filling(fl, marked, ids, stack, pixels, count) && Linked(dirty, cid, marked, ids) && stack != []
    modifies dirty, cid
    ensures Filling(fl, marked', ids', stack', pixels', count) && Linked(dirty, cid, marked', ids')
    ensures marked' == marked + {stack[|stack| - 1]}
    ensures |fl - marked'| < |fl - marked| || (marked' == marked && |stack'| < |stack|)
  {
    var p := stack[|stack| - 1];
    MarkCell(dirty, cid, p, count, marked, ids);
    marked', ids' := marked + {p}, ids[p := count];
    pixels' := pixels + [p];
    ghost var pushed;
    stack', pushed := PushNeighbors(g, dirty, cid, p, stack[..|stack| - 1], fl, marked', ids');
    PopStep(fl, marked, ids, stack, pixels, count, g.width, g.height, pushed);
  }

  /**
    One fill from an unmarked fluid cell: pop a cell, mark it with id
    `count`, list it, push its unmarked fluid neighbours, until the stack is
    empty.
   */
  method Fill(g: Grid, dirty: array2<bool>, cid: array2<int>, seed: Point, count: nat, pixels: seq<Point>,
              ghost fl: set<Point>, ghost marked: set<Point>, ghost ids: map<Point, int>)
    returns (pixels': seq<Point>, ghost marked': set<Point>, ghost ids': map<Point, int>)
    requires g.Valid() && fl == FluidCells(g)
    requires dirty.Length0 == g.width && dirty.Length1 == g.height
    requires Settled(fl, marked, ids, pixels, count) && Linked(dirty, cid, marked, ids)
    requires seed in fl && seed !in marked
    modifies dirty, cid
    ensures Settled(fl, marked', ids', pixels', count + 1) && Linked(dirty, cid, marked', ids')
    ensures marked <= marked' && seed in marked'
  {
    var stack := [seed];
    pixels', marked', ids' := pixels, marked, ids;
    FluidCellsInBounds(g);
    StartFill(fl, marked, ids, pixels, count, seed);
    while stack != []
      invariant Filling(fl, marked', ids', stack, pixels', count)
      invariant Linked(dirty, cid, marked', ids')
      invariant marked <= marked' && (seed in marked' || stack == [seed])
      decreases |fl - marked'|, |stack|
    {
      stack, pixels', marked', ids' := Pop(g, dirty, cid, stack, pixels', count, fl, marked', ids');
    }
    EndFill(fl, marked', ids', pixels', count);
  }

  /** The scan has reached column `x`, row `y`: every fluid cell before it is marked. */
  ghost predicate ScannedTo(fl: set<Point>, marked: set<Point>, x: int, y: int, height: int)
  {
    forall a, b :: ((0 <= a < x && 0 <= b < height) || (a == x && 0 <= b < y)) && Point(a, b) in fl ==> Point(a, b) in marked
  }

  /** A finished column is the start of the next. */
  lemma NextColumn(fl: set<Point>, marked: set<Point>, x: int, height: int)
    requires ScannedTo(fl, marked, x, height, height)
    ensures ScannedTo(fl, marked, x + 1, 0, height)
  {
  }

  /** A scan past the last column has marked every fluid cell. */
  lemma ScanDone(fl: set<Point>, marked: set<Point>, width: int, height: int)
    requires ScannedTo(fl, marked, width, 0, height) && marked <= fl
    requires forall p :: p in fl ==> InBounds(p, width, height)
    ensures marked == fl
  {
    forall p | p in fl ensures p in marked {
      assert InBounds(p, width, height);
    }
  }

  /**
    The inner loop of the scan, down column `x`: each fluid cell not yet
    marked starts a fill with the next id.
   */
  method ScanColumn(g: Grid, dirty: array2<bool>, cid: array2<int>, x: int, pixels: seq<Point>, count: nat,
                    ghost fl: set<Point>, ghost marked: set<Point>, ghost ids: map<Point, int>)
    returns (pixels': seq<Point>, count': nat, ghost marked': set<Point>, ghost ids': map<Point, int>)
    requires g.Valid() && fl == FluidCells(g) && 0 <= x < g.width
    requires dirty.Length0 == g.width && dirty.Length1 == g.height
    requires Settled(fl, marked, ids, pixels, count) && Linked(dirty, cid, marked, ids)
    requires ScannedTo(fl, marked, x, 0, g.height)
    modifies dirty, cid
    ensures Settled(fl, marked', ids', pixels', count') && Linked(dirty, cid, marked', ids')
    ensures ScannedTo(fl, marked', x + 1, 0, g.height)
  {
    pixels', count', marked', ids' := pixels, count, marked, ids;
    for y := 0 to g.height
      invariant Settled(fl, marked', ids', pixels', count') && Linked(dirty, cid, marked', ids')
      invariant ScannedTo(fl, marked', x, y, g.height)
    {
      FluidCellAt(g, x, y);
      if g.TagAt(x, y).pclass == Fluid && !dirty[x, y] {
        pixels', marked', ids' := Fill(g, dirty, cid, Point(x, y), count', pixels', fl, marked', ids');
        count' := count' + 1;
      }
    }
    NextColumn(fl, marked', x, g.height);
  }

  /**
    Step 1 of `fluidAnalysisStep`: `_fluid_cid` starts at -1 everywhere;
    each fluid cell not yet marked starts a component, and the fill marks
    every fluid cell reachable through fluid cells with that component's id.
    On return every fluid cell has an id in `[0, count)`, every other cell
    keeps -1, two fluid cells that share an edge have the same id, and
    `pixels` (`fluid_pixels`) lists exactly the fluid cells. The fill's
    dirty marks are kept in an array of their own that starts clear, as the
    world's flags are when the analysis begins (`step` ends by clearing
    them).
   */
  method Label(w: PixelWorld) returns (cid: array2<int>, pixels: seq<Point>, count: nat)
    requires w.Valid()
    ensures fresh(cid) && cid.Length0 == w.width && cid.Length1 == w.height
    ensures forall a, b :: 0 <= a < w.width && 0 <= b < w.height ==>
              if w.Cells().TagAt(a, b).pclass == Fluid then 0 <= cid[a, b] < count else cid[a, b] == -1
    ensures forall p, q :: p in FluidCells(w.Cells()) && q in FluidCells(w.Cells()) && Adjacent(p, q) ==>
              cid[p.x, p.y] == cid[q.x, q.y]
    ensures forall p :: p in pixels <==> p in FluidCells(w.Cells())
  {
    var g := w.Cells();
    var width, height := g.width, g.height;
    ghost var fl := FluidCells(g);
    cid := new int[width, height]((_, _) => -1);
    var dirty := new bool[width, height]((_, _) => false);
    ghost var marked: set<Point> := {};
    ghost var ids: map<Point, int> := map[];
    pixels := [];
    count := 0;
    for x := 0 to width
      invariant Settled(fl, marked, ids, pixels, count)
      invariant Linked(dirty, cid, marked, ids)
      invariant ScannedTo(fl, marked, x, 0, height)
    {
      pixels, count, marked, ids := ScanColumn(g, dirty, cid, x, pixels, count, fl, marked, ids);
    }
    FluidCellsInBounds(g);
    ScanDone(fl, marked, width, height);
    FluidCellsSpec(g);
  }
}
