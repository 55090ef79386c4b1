// Step 2 of `fluidAnalysisStep` in src/fallsand/fluid.cpp, on the world:
// row by row, the scan with `last_comp_id`, the three `dircnt` counters and
// `loc`, and the `handle` closure that writes a group's `fluid_dir` values
// back in order, in the source's order of counting, pushing and closing.
// Each row pass is proved to leave the row as `RowResultAsWritten` of
// fluid_rows.dfy says, and every other cell and field as it was.
module FluidPass {
  import opened Base
  import opened Pixels
  import opened Grids
  import opened World
  import opened FluidRows

  /** `D` has one row of `fluid_dir` values per grid row, each as wide as the grid. */
  predicate Shaped(g: Grid, D: seq<seq<int>>)
  {
    |D| == g.height && forall y :: 0 <= y < |D| ==> |D[y]| == g.width
  }

  /** The `fluid_dir` values of a grid, row by row. */
  function DirsOf(g: Grid): (D: seq<seq<int>>)
    requires g.Valid()
    ensures Shaped(g, D)
  {
    seq(g.height, y requires 0 <= y < g.height => seq(g.width, x requires 0 <= x < g.width => g.TagAt(x, y).fluidDir))
  }

  lemma DirsOfAt(g: Grid)
    requires g.Valid()
    ensures forall x, y :: g.InBounds(x, y) ==> DirsOf(g)[y][x] == g.TagAt(x, y).fluidDir
  {
  }

  lemma CellAtAll(width: nat, height: nat)
    ensures forall x, y :: 0 <= x < width && 0 <= y < height ==> CellAt(CellIndex(x, y, width, height), width, height) == Point(x, y)
  {
    forall x, y | 0 <= x < width && 0 <= y < height
      ensures CellAt(CellIndex(x, y, width, height), width, height) == Point(x, y)
    {
      CellAtIndex(x, y, width, height);
    }
  }

  /** The grid with every cell's `fluid_dir` taken from `D`, and nothing else changed. */
  function WithDirs(g: Grid, D: seq<seq<int>>): (r: Grid)
    requires g.Valid() && Shaped(g, D)
    ensures r.Valid() && r.width == g.width && r.height == g.height && r.elems == g.elems && r.statics == g.statics
  {
    g.(tags := seq(|g.tags|, k requires 0 <= k < |g.tags| =>
                     var p := CellAt(k, g.width, g.height); g.tags[k].(fluidDir := D[p.y][p.x])))
  }

  lemma WithDirsAt(g: Grid, D: seq<seq<int>>)
    requires g.Valid() && Shaped(g, D)
    ensures forall x, y :: g.InBounds(x, y) ==> WithDirs(g, D).TagAt(x, y) == g.TagAt(x, y).(fluidDir := D[y][x])
  {
    CellAtAll(g.width, g.height);
  }

  /** Putting back a grid's own values changes nothing. */
  lemma WithDirsOf(g: Grid)
    requires g.Valid()
    ensures WithDirs(g, DirsOf(g)) == g
  {
    WithDirsAt(g, DirsOf(g));
    DirsOfAt(g);
    SameCells(WithDirs(g, DirsOf(g)), g);
  }

  /** Later values replace earlier ones. */
  lemma WithDirsTwice(g: Grid, D: seq<seq<int>>, E: seq<seq<int>>)
    requires g.Valid() && Shaped(g, D) && Shaped(g, E)
    ensures WithDirs(WithDirs(g, D), E) == WithDirs(g, E)
  {
    WithDirsAt(g, D);
    WithDirsAt(WithDirs(g, D), E);
    WithDirsAt(g, E);
    SameCells(WithDirs(WithDirs(g, D), E), WithDirs(g, E));
  }

  /** Replacing one row of a grid's `fluid_dir` values keeps the shape. */
  lemma ShapedRow(g: Grid, y: int, r: seq<int>)
    requires g.Valid() && 0 <= y < g.height && |r| == g.width
    ensures Shaped(g, DirsOf(g)[y := r])
  {
  }

  /** One tag write that only sets a `fluid_dir` in row `y` is one entry of that row changed. */
  lemma RowStep(g: Grid, y: int, r: seq<int>, x: int, v: int)
    requires g.Valid() && g.InBounds(x, y) && |r| == g.width
    ensures Shaped(g, DirsOf(g)[y := r]) && Shaped(g, DirsOf(g)[y := r[x := v]])
    ensures var h := WithDirs(g, DirsOf(g)[y := r]);
            h.WithTag(x, y, h.TagAt(x, y).(fluidDir := v)) == WithDirs(g, DirsOf(g)[y := r[x := v]])
  {
    var D := DirsOf(g)[y := r];
    var D' := DirsOf(g)[y := r[x := v]];
    var h := WithDirs(g, D);
    WithDirsAt(g, D);
    WithDirsAt(g, D');
    WithTagCells(h, x, y, h.TagAt(x, y).(fluidDir := v));
    SameCells(h.WithTag(x, y, h.TagAt(x, y).(fluidDir := v)), WithDirs(g, D'));
  }

  /** Row `y` as the pass reads it: class and `fluid_dir` from the world, the id from `_fluid_cid`. */
  ghost function RowOf(g: Grid, cid: array2<int>, y: int): (row: seq<RowCell>)
    requires g.Valid() && 0 <= y < g.height && cid.Length0 == g.width && cid.Length1 == g.height
    reads cid
    ensures |row| == g.width
  {
    seq(g.width, x requires 0 <= x < g.width reads cid => RowCell(g.TagAt(x, y).pclass, g.TagAt(x, y).fluidDir, cid[x, y]))
  }

  lemma RowOfAt(g: Grid, cid: array2<int>, y: int, x: int)
    requires g.Valid() && g.InBounds(x, y) && cid.Length0 == g.width && cid.Length1 == g.height
    ensures RowOf(g, cid, y)[x] == RowCell(g.TagAt(x, y).pclass, g.TagAt(x, y).fluidDir, cid[x, y])
  {
  }

  /** The three `dircnt` counters hold how many of the values are -1, 0 and +1. */
  predicate Counted(dircnt: seq<int>, ds: seq<int>)
  {
    |dircnt| == 3 && dircnt[0] == Count(ds, -1) && dircnt[1] == Count(ds, 0) && dircnt[2] == Count(ds, 1)
    && dircnt[0] + dircnt[1] + dircnt[2] == |ds|
  }

  /**
    `handle`: without a running group nothing happens; otherwise the cells
    of `loc` get `dircnt[0]` times -1, then `dircnt[1]` times 0, then +1,
    left to right, and the counters, `loc` and `last_comp_id` start over.
    Row `y` of `fluid_dir` values goes from `r` to `r'`; `g0` is the grid
    the pass started from.
   */
  method Handle(w: PixelWorld, y: int, loc: seq<int>, dircnt: seq<int>, last: int,
                ghost g0: Grid, ghost r: seq<int>)
    returns (loc': seq<int>, dircnt': seq<int>, last': int, ghost r': seq<int>)
    requires w.Valid() && g0.Valid() && g0.width == w.width && g0.height == w.height && 0 <= y < w.height
    requires |r| == w.width && Shaped(g0, DirsOf(g0)[y := r]) && w.Cells() == WithDirs(g0, DirsOf(g0)[y := r])
    requires forall j :: 0 <= j < |loc| ==> 0 <= loc[j] < w.width
    requires |dircnt| == 3 && dircnt[0] >= 0 && dircnt[1] >= 0 && dircnt[2] >= 0
    requires dircnt[0] + dircnt[1] + dircnt[2] == |loc|
    modifies w.tags
    ensures |r'| == w.width && Shaped(g0, DirsOf(g0)[y := r']) && w.Cells() == WithDirs(g0, DirsOf(g0)[y := r'])
    ensures last == -1 ==> loc' == loc && dircnt' == dircnt && last' == -1 && r' == r
    ensures last != -1 ==> loc' == [] && dircnt' == [0, 0, 0] && last' == -1
                           && r' == Write(r, loc, Redistribution(dircnt[0], dircnt[1], |loc|))
  {
    if last == -1 {
      return loc, dircnt, last, r;
    }
    ghost var vs := Redistribution(dircnt[0], dircnt[1], |loc|);
    var neg, zero := dircnt[0], dircnt[1];
    r' := r;
    for j := 0 to |loc|
      invariant neg == if j <= dircnt[0] then dircnt[0] - j else 0
      invariant zero == if j <= dircnt[0] then dircnt[1] else Max(0, dircnt[1] - (j - dircnt[0]))
      invariant r' == Write(r, loc[..j], vs[..j])
      invariant Shaped(g0, DirsOf(g0)[y := r']) && w.Cells() == WithDirs(g0, DirsOf(g0)[y := r'])
    {
      var p := loc[j];
      var v;
      if neg > 0 {
        v := -1;
        neg := neg - 1;
      } else if zero > 0 {
        v := 0;
        zero := zero - 1;
      } else {
        assert dircnt[2] > 0;
        v := 1;
      }
      assert v == vs[j];
      var t := w.TagOf(p, y);
      w.SetTag(p, y, t.(fluidDir := v));
      RowStep(g0, y, r', p, v);
      assert loc[..j + 1][..j] == loc[..j] && vs[..j + 1][..j] == vs[..j];
      r' := r'[p := v];
    }
    assert loc[..|loc|] == loc && vs[..|loc|] == vs;
    loc', dircnt', last' := [], [0, 0, 0], -1;
  }

  /** A grid's `fluid_dir` values read back after they were set from `D`. */
  lemma DirsOfWith(g: Grid, D: seq<seq<int>>)
    requires g.Valid() && Shaped(g, D)
    ensures DirsOf(WithDirs(g, D)) == D
  {
    var E := DirsOf(WithDirs(g, D));
    WithDirsAt(g, D);
    DirsOfAt(WithDirs(g, D));
    forall y | 0 <= y < |D| ensures E[y] == D[y] {
      forall x | 0 <= x < g.width ensures E[y][x] == D[y][x] {
        assert g.InBounds(x, y);
      }
    }
  }

  /** The row a grid holds is the row of `fluid_dir` values the pass starts from. */
  lemma RowDirs(g: Grid, cid: array2<int>, y: int)
    requires g.Valid() && 0 <= y < g.height && cid.Length0 == g.width && cid.Length1 == g.height
    ensures Dirs(RowOf(g, cid, y)) == DirsOf(g)[y]
  {
    DirsOfAt(g);
  }

  /** A cell whose entry in `r` is its original `fluid_dir` reads as the original cell. */
  lemma ReadBack(g: Grid, y: int, r: seq<int>, x: int)
    requires g.Valid() && g.InBounds(x, y) && |r| == g.width && r[x] == g.TagAt(x, y).fluidDir
    ensures Shaped(g, DirsOf(g)[y := r]) && WithDirs(g, DirsOf(g)[y := r]).TagAt(x, y) == g.TagAt(x, y)
  {
    DirsOfAt(g);
    WithDirsAt(g, DirsOf(g)[y := r]);
  }

  /**
    The state of the pass over one row at column `x`: `closed` are the
    groups `handle` has written, `loc` and `last` the running group, and
    what is left of the scan, in the source's order, gives the row's
    groups. `dircnt` counts the running group's original values, and the
    cells from `x` on still hold theirs. Right after `handle` has taken the
    first cell of a new component into the group before it, `loc` is empty
    while `last` already names the new component.
   */
  ghost predicate PassOk(row: seq<RowCell>, x: nat, closed: seq<seq<int>>, loc: seq<int>, dircnt: seq<int>, last: int)
  {
    && x <= |row|
    && GroupsFromAsWritten(row, x, closed, loc, last) == GroupsAsWritten(row)
    && (last == -1 ==> loc == [])
    && (forall j :: 0 <= j < |loc| ==> 0 <= loc[j] < x)
    && Counted(dircnt, Pick(Dirs(row), loc))
    && (forall a :: x <= a < |row| ==> ApplyGroups(Dirs(row), closed)[a] == row[a].dir)
  }

  /** `handle` on the running group `loc` writes exactly what `ApplyGroups` adds for it as a new group. */
  lemma PassClose(row: seq<RowCell>, x: nat, closed: seq<seq<int>>, loc: seq<int>, dircnt: seq<int>)
    requires x <= |row| && (forall j :: 0 <= j < |loc| ==> 0 <= loc[j] < x) && Counted(dircnt, Pick(Dirs(row), loc))
    requires forall a :: x <= a < |row| ==> ApplyGroups(Dirs(row), closed)[a] == row[a].dir
    ensures ApplyGroups(Dirs(row), closed + Close(loc))
            == Write(ApplyGroups(Dirs(row), closed), loc, Redistribution(dircnt[0], dircnt[1], |loc|))
    ensures forall a :: x <= a < |row| ==> ApplyGroups(Dirs(row), closed + Close(loc))[a] == row[a].dir
  {
    var d0 := Dirs(row);
    if loc == [] {
      assert closed + Close(loc) == closed;
    } else {
      assert (closed + [loc])[..|closed|] == closed;
      forall a | x <= a < |row| ensures ApplyGroups(d0, closed + [loc])[a] == row[a].dir {
        assert a !in loc;
        WriteElsewhere(ApplyGroups(d0, closed), loc, Levelled(Pick(d0, loc)), a);
      }
    }
  }

  /** With no running group the counters are all zero. */
  lemma CountedNone(dircnt: seq<int>, d: seq<int>)
    requires Counted(dircnt, Pick(d, []))
    ensures dircnt == [0, 0, 0]
  {
  }

  /** The pass after a Solid cell at `x`, at which `handle` closes the running group, if any. */
  lemma PassSolid(row: seq<RowCell>, x: nat, closed: seq<seq<int>>, loc: seq<int>, dircnt: seq<int>, last: int)
    requires PassOk(row, x, closed, loc, dircnt, last) && x < |row| && row[x].pclass == Solid
    ensures PassOk(row, x + 1, closed + Close(loc), [], [0, 0, 0], -1)
    ensures ApplyGroups(Dirs(row), closed + Close(loc))
            == Write(ApplyGroups(Dirs(row), closed), loc, Redistribution(dircnt[0], dircnt[1], |loc|))
    ensures last == -1 ==> loc == [] && dircnt == [0, 0, 0] && closed + Close(loc) == closed
  {
    PassClose(row, x, closed, loc, dircnt);
    if last == -1 {
      CountedNone(dircnt, Dirs(row));
      assert closed + Close(loc) == closed;
    }
  }

  /** The pass after a gas or particle cell at `x`, which it passes over. */
  lemma PassOther(row: seq<RowCell>, x: nat, closed: seq<seq<int>>, loc: seq<int>, dircnt: seq<int>, last: int)
    requires PassOk(row, x, closed, loc, dircnt, last) && x < |row| && row[x].pclass != Solid && row[x].pclass != Fluid
    ensures PassOk(row, x + 1, closed, loc, dircnt, last)
  {
  }

  /** Counting one more value. */
  lemma CountedPush(row: seq<RowCell>, loc: seq<int>, dircnt: seq<int>, x: int)
    requires Counted(dircnt, Pick(Dirs(row), loc)) && 0 <= x < |row| && -1 <= row[x].dir <= 1
    ensures Counted(dircnt[row[x].dir + 1 := dircnt[row[x].dir + 1] + 1], Pick(Dirs(row), loc + [x]))
  {
    var d0 := Dirs(row);
    var P := Pick(d0, loc);
    assert Pick(d0, loc + [x]) == P + [d0[x]];
    assert (P + [d0[x]])[..|P|] == P;
  }

  /** The pass after a fluid cell at `x` of the running component, or the first one after a Solid. */
  lemma PassJoin(row: seq<RowCell>, x: nat, closed: seq<seq<int>>, loc: seq<int>, dircnt: seq<int>, last: int)
    requires Labelled(row) && PassOk(row, x, closed, loc, dircnt, last) && x < |row| && row[x].pclass == Fluid
    requires -1 <= row[x].dir <= 1 && (last == -1 || last == row[x].cid)
    ensures PassOk(row, x + 1, closed, loc + [x], dircnt[row[x].dir + 1 := dircnt[row[x].dir + 1] + 1], row[x].cid)
  {
    CountedPush(row, loc, dircnt, x);
  }

  /**
    The pass after a fluid cell at `x` of another component: it is counted
    and pushed first, so `handle` writes it with the running group, and the
    next group starts empty under its component id.
   */
  lemma PassSplit(row: seq<RowCell>, x: nat, closed: seq<seq<int>>, loc: seq<int>, dircnt: seq<int>, last: int)
    requires Labelled(row) && PassOk(row, x, closed, loc, dircnt, last) && x < |row| && row[x].pclass == Fluid
    requires -1 <= row[x].dir <= 1 && last != -1 && last != row[x].cid
    ensures var dircnt1 := dircnt[row[x].dir + 1 := dircnt[row[x].dir + 1] + 1];
            && Counted(dircnt1, Pick(Dirs(row), loc + [x]))
            && ApplyGroups(Dirs(row), closed + [loc + [x]])
               == Write(ApplyGroups(Dirs(row), closed), loc + [x], Redistribution(dircnt1[0], dircnt1[1], |loc + [x]|))
            && PassOk(row, x + 1, closed + [loc + [x]], [], [0, 0, 0], row[x].cid)
  {
    var dircnt1 := dircnt[row[x].dir + 1 := dircnt[row[x].dir + 1] + 1];
    CountedPush(row, loc, dircnt, x);
    PassClose(row, x + 1, closed, loc + [x], dircnt1);
    assert Close(loc + [x]) == [loc + [x]];
    assert Pick(Dirs(row), []) == [];
  }

  /** At the end of the row the last `handle` completes the row's groups. */
  lemma PassEnd(row: seq<RowCell>, closed: seq<seq<int>>, loc: seq<int>, dircnt: seq<int>, last: int)
    requires PassOk(row, |row|, closed, loc, dircnt, last)
    ensures last == -1 ==> ApplyGroups(Dirs(row), closed) == RowResultAsWritten(row)
    ensures last != -1 ==> Write(ApplyGroups(Dirs(row), closed), loc, Redistribution(dircnt[0], dircnt[1], |loc|)) == RowResultAsWritten(row)
  {
    PassClose(row, |row|, closed, loc, dircnt);
    if last == -1 {
      assert closed + Close(loc) == closed;
    }
  }

  /** Fluid cells of row `y` carry a component id and a `fluid_dir` of -1, 0 or +1. */
  predicate RowReady(g: Grid, cid: array2<int>, y: int)
    requires g.Valid() && 0 <= y < g.height && cid.Length0 == g.width && cid.Length1 == g.height
    reads cid
  {
    forall x :: 0 <= x < g.width && g.TagAt(x, y).pclass == Fluid ==> cid[x, y] >= 0 && -1 <= g.TagAt(x, y).fluidDir <= 1
  }

  /**
    One column of the pass: a Solid cell runs `handle`; a fluid cell is
    counted and pushed onto `loc`, and when its component differs from
    `last_comp_id`, `handle` runs and the component becomes the running one.
   */
  method PassCell(w: PixelWorld, cid: array2<int>, y: int, x: int, loc: seq<int>, dircnt: seq<int>, last: int,
                  ghost g0: Grid, ghost row: seq<RowCell>, ghost closed: seq<seq<int>>)
    returns (loc': seq<int>, dircnt': seq<int>, last': int, ghost closed': seq<seq<int>>)
    requires w.Valid() && g0.Valid() && g0.width == w.width && g0.height == w.height
    requires 0 <= y < w.height && 0 <= x < w.width && cid.Length0 == w.width && cid.Length1 == w.height
    requires RowReady(g0, cid, y) && row == RowOf(g0, cid, y) && Labelled(row)
    requires PassOk(row, x, closed, loc, dircnt, last)
    requires Shaped(g0, DirsOf(g0)[y := ApplyGroups(Dirs(row), closed)])
    requires w.Cells() == WithDirs(g0, DirsOf(g0)[y := ApplyGroups(Dirs(row), closed)])
    modifies w.tags
    ensures PassOk(row, x + 1, closed', loc', dircnt', last')
    ensures Shaped(g0, DirsOf(g0)[y := ApplyGroups(Dirs(row), closed')])
    ensures w.Cells() == WithDirs(g0, DirsOf(g0)[y := ApplyGroups(Dirs(row), closed')])
  {
    ghost var r := ApplyGroups(Dirs(row), closed);
    ReadBack(g0, y, r, x);
    var t := w.TagOf(x, y);
    assert t == g0.TagAt(x, y);
    RowOfAt(g0, cid, y, x);
    closed' := closed;
    if t.pclass == Solid {
      PassSolid(row, x, closed, loc, dircnt, last);
      closed' := closed + Close(loc);
      ghost var r';
      loc', dircnt', last', r' := Handle(w, y, loc, dircnt, last, g0, r);
      return;
    }
    if t.pclass != Fluid {
      PassOther(row, x, closed, loc, dircnt, last);
      return loc, dircnt, last, closed;
    }
    loc', dircnt', last', closed' := PassFluid(w, y, x, cid[x, y], t.fluidDir, loc, dircnt, last, g0, row, closed);
  }

  /** A fluid cell of component `c` with `fluid_dir` value `dir` at column `x`: counted, pushed, and then `handle` when `c` is not the running component. */
  method PassFluid(w: PixelWorld, y: int, x: int, c: int, dir: int, loc: seq<int>, dircnt: seq<int>, last: int,
                   ghost g0: Grid, ghost row: seq<RowCell>, ghost closed: seq<seq<int>>)
    returns (loc': seq<int>, dircnt': seq<int>, last': int, ghost closed': seq<seq<int>>)
    requires w.Valid() && g0.Valid() && g0.width == w.width && g0.height == w.height
    requires 0 <= y < w.height && 0 <= x < w.width && |row| == w.width && Labelled(row)
    requires row[x].pclass == Fluid && row[x].cid == c && row[x].dir == dir && -1 <= dir <= 1
    requires PassOk(row, x, closed, loc, dircnt, last)
    requires Shaped(g0, DirsOf(g0)[y := ApplyGroups(Dirs(row), closed)])
    requires w.Cells() == WithDirs(g0, DirsOf(g0)[y := ApplyGroups(Dirs(row), closed)])
    modifies w.tags
    ensures PassOk(row, x + 1, closed', loc', dircnt', last')
    ensures Shaped(g0, DirsOf(g0)[y := ApplyGroups(Dirs(row), closed')])
    ensures w.Cells() == WithDirs(g0, DirsOf(g0)[y := ApplyGroups(Dirs(row), closed')])
  {
    ghost var r := ApplyGroups(Dirs(row), closed);
    dircnt' := dircnt[dir + 1 := dircnt[dir + 1] + 1];
    loc' := loc + [x];
    if last != c && last != -1 {
      loc', dircnt', last', closed' := PassNewComponent(w, y, x, c, loc', dircnt', last, g0, row, closed, loc, dircnt);
    } else if last != c {
      // with no running group `handle` returns at once
      PassJoin(row, x, closed, loc, dircnt, last);
      ghost var r';
      loc', dircnt', last', r' := Handle(w, y, loc', dircnt', last, g0, r);
      closed' := closed;
      last' := c;
    } else {
      PassJoin(row, x, closed, loc, dircnt, last);
      closed' := closed;
      last' := c;
    }
  }

  /**
    The rest of `PassFluid` for a cell of a component other than the
    running one: `handle` writes the running group with the cell already
    pushed onto it, and `c` becomes the running component.
   */
  method PassNewComponent(w: PixelWorld, y: int, x: int, c: int, loc1: seq<int>, dircnt1: seq<int>, last: int,
                          ghost g0: Grid, ghost row: seq<RowCell>, ghost closed: seq<seq<int>>,
                          ghost loc: seq<int>, ghost dircnt: seq<int>)
    returns (loc': seq<int>, dircnt': seq<int>, last': int, ghost closed': seq<seq<int>>)
    requires w.Valid() && g0.Valid() && g0.width == w.width && g0.height == w.height
    requires 0 <= y < w.height && 0 <= x < w.width && |row| == w.width && Labelled(row)
    requires row[x].pclass == Fluid && row[x].cid == c && -1 <= row[x].dir <= 1 && last != -1 && last != c
    requires PassOk(row, x, closed, loc, dircnt, last)
    requires loc1 == loc + [x] && dircnt1 == dircnt[row[x].dir + 1 := dircnt[row[x].dir + 1] + 1]
    requires Shaped(g0, DirsOf(g0)[y := ApplyGroups(Dirs(row), closed)])
    requires w.Cells() == WithDirs(g0, DirsOf(g0)[y := ApplyGroups(Dirs(row), closed)])
    modifies w.tags
    ensures PassOk(row, x + 1, closed', loc', dircnt', last')
    ensures Shaped(g0, DirsOf(g0)[y := ApplyGroups(Dirs(row), closed')])
    ensures w.Cells() == WithDirs(g0, DirsOf(g0)[y := ApplyGroups(Dirs(row), closed')])
  {
    PassSplit(row, x, closed, loc, dircnt, last);
    ghost var r';
    loc', dircnt', last', r' := Handle(w, y, loc1, dircnt1, last, g0, ApplyGroups(Dirs(row), closed));
    closed' := closed + [loc1];
    last' := c;
  }

  /**
    The pass over row `y`, in the source's order: the row's `fluid_dir`
    values become `RowResultAsWritten` of the row, and every other cell and
    field is unchanged.
   */
  method RowPass(w: PixelWorld, cid: array2<int>, y: int)
    requires w.Valid() && 0 <= y < w.height && cid.Length0 == w.width && cid.Length1 == w.height
    requires RowReady(w.Cells(), cid, y)
    modifies w.tags
    ensures Shaped(old(w.Cells()), DirsOf(old(w.Cells()))[y := RowResultAsWritten(RowOf(old(w.Cells()), cid, y))])
    ensures w.Cells() == WithDirs(old(w.Cells()), DirsOf(old(w.Cells()))[y := RowResultAsWritten(RowOf(old(w.Cells()), cid, y))])
  {
    ghost var g0 := w.Cells();
    ghost var row := RowOf(g0, cid, y);
    ghost var D0 := DirsOf(g0);
    ghost var closed: seq<seq<int>> := [];
    RowDirs(g0, cid, y);
    WithDirsOf(g0);
    assert D0[y := Dirs(row)] == D0;
    var last := -1;
    var dircnt := [0, 0, 0];
    var loc: seq<int> := [];
    for x := 0 to w.width
      invariant Labelled(row)
      invariant PassOk(row, x, closed, loc, dircnt, last)
      invariant Shaped(g0, D0[y := ApplyGroups(Dirs(row), closed)])
      invariant w.Cells() == WithDirs(g0, D0[y := ApplyGroups(Dirs(row), closed)])
    {
      loc, dircnt, last, closed := PassCell(w, cid, y, x, loc, dircnt, last, g0, row, closed);
    }
    PassEnd(row, closed, loc, dircnt, last);
    ghost var r';
    loc, dircnt, last, r' := Handle(w, y, loc, dircnt, last, g0, ApplyGroups(Dirs(row), closed));
  }

  /** Every fluid cell carries a component id and a `fluid_dir` of -1, 0 or +1, as the labelling and the fluid tags leave them. */
  predicate Ready(g: Grid, cid: array2<int>)
    requires g.Valid() && cid.Length0 == g.width && cid.Length1 == g.height
    reads cid
  {
    forall x, y :: 0 <= x < g.width && 0 <= y < g.height && g.TagAt(x, y).pclass == Fluid ==> cid[x, y] >= 0 && -1 <= g.TagAt(x, y).fluidDir <= 1
  }

  /** The `fluid_dir` values after the row passes of rows `0 .. n - 1`. */
  ghost function RowsDone(g: Grid, cid: array2<int>, n: int): (D: seq<seq<int>>)
    requires g.Valid() && cid.Length0 == g.width && cid.Length1 == g.height
    reads cid
    ensures Shaped(g, D)
  {
    seq(g.height, y requires 0 <= y < g.height reads cid => if y < n then RowResultAsWritten(RowOf(g, cid, y)) else DirsOf(g)[y])
  }

  /** The `fluid_dir` values after all row passes. */
  ghost function AllRows(g: Grid, cid: array2<int>): (D: seq<seq<int>>)
    requires g.Valid() && cid.Length0 == g.width && cid.Length1 == g.height
    reads cid
    ensures Shaped(g, D)
  {
    RowsDone(g, cid, g.height)
  }

  /** Row `n` is still as it was when the rows before it are done, so its pass sees the original row. */
  lemma RowsStep(g0: Grid, cid: array2<int>, n: int)
    requires g0.Valid() && cid.Length0 == g0.width && cid.Length1 == g0.height && 0 <= n < g0.height
    requires Ready(g0, cid)
    ensures var g := WithDirs(g0, RowsDone(g0, cid, n));
            && RowOf(g, cid, n) == RowOf(g0, cid, n) && RowReady(g, cid, n)
            && WithDirs(g, DirsOf(g)[n := RowResultAsWritten(RowOf(g, cid, n))]) == WithDirs(g0, RowsDone(g0, cid, n + 1))
  {
    var P := RowsDone(g0, cid, n);
    var g := WithDirs(g0, P);
    WithDirsAt(g0, P);
    DirsOfAt(g0);
    assert RowOf(g, cid, n) == RowOf(g0, cid, n);
    DirsOfWith(g0, P);
    var R := RowResultAsWritten(RowOf(g0, cid, n));
    assert P[n := R] == RowsDone(g0, cid, n + 1);
    WithDirsTwice(g0, P, P[n := R]);
  }

  /** Before any row pass, nothing is done. */
  lemma RowsNone(g0: Grid, cid: array2<int>)
    requires g0.Valid() && cid.Length0 == g0.width && cid.Length1 == g0.height
    ensures WithDirs(g0, RowsDone(g0, cid, 0)) == g0
  {
    assert RowsDone(g0, cid, 0) == DirsOf(g0);
    WithDirsOf(g0);
  }

  /** Step 2 of the fluid analysis: the row pass on every row, top to bottom. */
  method RowsPass(w: PixelWorld, cid: array2<int>)
    requires w.Valid() && cid.Length0 == w.width && cid.Length1 == w.height
    requires Ready(w.Cells(), cid)
    modifies w.tags
    ensures w.Cells() == WithDirs(old(w.Cells()), AllRows(old(w.Cells()), cid))
  {
    ghost var g0 := w.Cells();
    RowsNone(g0, cid);
    for y := 0 to w.height
      invariant w.Cells() == WithDirs(g0, RowsDone(g0, cid, y))
    {
      RowsStep(g0, cid, y);
      RowPass(w, cid, y);
    }
  }

  /** One group after its row pass: its values are in order and are the values it had, rearranged. */
  lemma GroupLevelled(row: seq<RowCell>, i: int)
    requires 0 <= i < |GroupsAsWritten(row)|
    requires forall x :: 0 <= x < |row| && row[x].pclass == Fluid ==> -1 <= row[x].dir <= 1
    ensures var G := GroupsAsWritten(row)[i]; var P := Pick(RowResultAsWritten(row), G);
            && (forall j :: 0 <= j < |G| ==> 0 <= G[j] < |row| && row[G[j]].pclass == Fluid)
            && (forall j, k :: 0 <= j <= k < |P| ==> P[j] <= P[k])
            && multiset(P) == multiset(Pick(Dirs(row), G))
  {
    var G := GroupsAsWritten(row)[i];
    RowResultAsWrittenMeaning(row);
    var Q := Pick(Dirs(row), G);
    assert UnitDirs(Q);
    assert Pick(RowResultAsWritten(row), G) == Levelled(Q);
    LevelledSorted(Q);
    LevelledPermutes(Q);
  }

  /**
    What the row passes do to the grid: only `fluid_dir` changes, and a
    cell that is not fluid keeps it; in every row each group's values end
    up in order and are the values the group had, rearranged.
   */
  lemma AllRowsMeaning(g: Grid, cid: array2<int>)
    requires g.Valid() && cid.Length0 == g.width && cid.Length1 == g.height
    requires Ready(g, cid)
    ensures var h := WithDirs(g, AllRows(g, cid));
            && h.elems == g.elems && h.statics == g.statics
            && (forall x, y :: g.InBounds(x, y) ==> h.TagAt(x, y) == g.TagAt(x, y).(fluidDir := h.TagAt(x, y).fluidDir))
            && (forall x, y :: g.InBounds(x, y) && g.TagAt(x, y).pclass != Fluid ==> h.TagAt(x, y) == g.TagAt(x, y))
    ensures forall y, i :: 0 <= y < g.height && 0 <= i < |GroupsAsWritten(RowOf(g, cid, y))| ==>
              var G := GroupsAsWritten(RowOf(g, cid, y))[i]; var P := Pick(AllRows(g, cid)[y], G);
              && (forall j, k :: 0 <= j <= k < |P| ==> P[j] <= P[k])
              && multiset(P) == multiset(Pick(DirsOf(g)[y], G))
  {
    var D := AllRows(g, cid);
    WithDirsAt(g, D);
    DirsOfAt(g);
    forall x, y | g.InBounds(x, y) && g.TagAt(x, y).pclass != Fluid
      ensures WithDirs(g, D).TagAt(x, y) == g.TagAt(x, y)
    {
      var row := RowOf(g, cid, y);
      RowOfAt(g, cid, y, x);
      RowResultAsWrittenMeaning(row);
    }
    forall y, i | 0 <= y < g.height && 0 <= i < |GroupsAsWritten(RowOf(g, cid, y))|
      ensures var G := GroupsAsWritten(RowOf(g, cid, y))[i]; var P := Pick(D[y], G);
              && (forall j, k :: 0 <= j <= k < |P| ==> P[j] <= P[k])
              && multiset(P) == multiset(Pick(DirsOf(g)[y], G))
    {
      var row := RowOf(g, cid, y);
      RowDirs(g, cid, y);
      GroupLevelled(row, i);
    }
  }
}
