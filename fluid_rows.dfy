// Step 2 of `fluidAnalysisStep` in src/fallsand/fluid.cpp, on values: each
// row's fluid cells are cut into groups, and every group gets its own
// `fluid_dir` values back in order, -1s first, then 0s, then +1s (the
// `handle` closure). A Solid cell ends a group; gas and particle cells are
// passed over; a fluid cell of another component starts a new group. The
// source closes the running group only after it has added the new
// component's first cell to it; `GroupsAsWritten` models that order, which
// the world pass follows, and `Groups` the intended one, which is proved
// never to mix two components in a group.
module FluidRows {
  import opened Base
  import opened Pixels

  /** One cell of a row as the pass sees it: its class, its `fluid_dir` and its component id (`_fluid_cid`). */
  datatype RowCell = RowCell(pclass: PixelClass, dir: int, cid: int)

  /** The `fluid_dir` values of a row. */
  function Dirs(row: seq<RowCell>): (d: seq<int>)
    ensures |d| == |row| && forall x :: 0 <= x < |row| ==> d[x] == row[x].dir
  {
    seq(|row|, x requires 0 <= x < |row| => row[x].dir)
  }

  /** Every `fluid_dir` is -1, 0 or +1, the three counters `dircnt` has room for. */
  predicate UnitDirs(ds: seq<int>)
  {
    forall i :: 0 <= i < |ds| ==> -1 <= ds[i] <= 1
  }

  /** How many entries of `ds` equal `v`. */
  function Count(ds: seq<int>, v: int): (n: nat)
    ensures n <= |ds|
    decreases |ds|
  {
    if ds == [] then 0 else Count(ds[..|ds| - 1], v) + (if ds[|ds| - 1] == v then 1 else 0)
  }

  lemma {:induction false} CountMultiset(ds: seq<int>, v: int)
    ensures multiset(ds)[v] == Count(ds, v)
    decreases |ds|
  {
    if ds != [] {
      assert ds == ds[..|ds| - 1] + [ds[|ds| - 1]];
      CountMultiset(ds[..|ds| - 1], v);
    }
  }

  lemma {:induction false} CountTotal(ds: seq<int>)
    requires UnitDirs(ds)
    ensures Count(ds, -1) + Count(ds, 0) + Count(ds, 1) == |ds|
    decreases |ds|
  {
    if ds != [] {
      CountTotal(ds[..|ds| - 1]);
    }
  }

  /**
    What `handle` writes over a group of `n` cells of which `neg` hold -1
    and `zero` hold 0: `neg` times -1, then `zero` times 0, then +1 (the
    `assert(dircnt[2] > 0)` branch).
   */
  function Redistribution(neg: nat, zero: nat, n: nat): (r: seq<int>)
    ensures |r| == n
  {
    seq(n, j => if j < neg then -1 else if j < neg + zero then 0 else 1)
  }

  /** A group's `fluid_dir` values after `handle`. */
  function Levelled(ds: seq<int>): seq<int>
  {
    Redistribution(Count(ds, -1), Count(ds, 0), |ds|)
  }

  /** `handle` writes its values in order: never a larger one before a smaller one. */
  lemma LevelledSorted(ds: seq<int>)
    ensures |Levelled(ds)| == |ds|
    ensures forall i, j :: 0 <= i <= j < |ds| ==> Levelled(ds)[i] <= Levelled(ds)[j]
  {
  }

  /** `k` copies of `v`. */
  lemma {:induction false} ConstantMultiset(k: nat, v: int, u: int)
    ensures multiset(seq(k, _ => v))[u] == if u == v then k else 0
    decreases k
  {
    if k > 0 {
      assert seq(k, _ => v) == seq(k - 1, _ => v) + [v];
      ConstantMultiset(k - 1, v, u);
    }
  }

  /** `handle` keeps a group's multiset of `fluid_dir` values: it only puts them in order. */
  lemma LevelledPermutes(ds: seq<int>)
    requires UnitDirs(ds)
    ensures multiset(Levelled(ds)) == multiset(ds)
  {
    var a, b := Count(ds, -1), Count(ds, 0);
    CountTotal(ds);
    var c := |ds| - a - b;
    var r := Levelled(ds);
    assert r == seq(a, _ => -1) + seq(b, _ => 0) + seq(c, _ => 1);
    forall u
      ensures multiset(r)[u] == multiset(ds)[u]
    {
      ConstantMultiset(a, -1, u);
      ConstantMultiset(b, 0, u);
      ConstantMultiset(c, 1, u);
      CountMultiset(ds, u);
      if u != -1 && u != 0 && u != 1 {
        assert u !in ds;
      }
    }
  }

  /** The groups of a group list one after the other, as a group list ends with an open run. */
  function Close(open: seq<int>): seq<seq<int>>
  {
    if open == [] then [] else [open]
  }

  /**
    The groups of a row: `closed` holds the groups `handle` has written,
    `open` the positions `loc` holds and `last` is `last_comp_id`; the row
    is read from `x` on.
   */
  function GroupsFrom(row: seq<RowCell>, x: nat, closed: seq<seq<int>>, open: seq<int>, last: int): seq<seq<int>>
    decreases |row| - x
  {
    if x >= |row| then closed + Close(open)
    else if row[x].pclass == Solid then GroupsFrom(row, x + 1, closed + Close(open), [], -1)
    else if row[x].pclass != Fluid then GroupsFrom(row, x + 1, closed, open, last)
    else if last != -1 && last != row[x].cid then GroupsFrom(row, x + 1, closed + [open], [x], row[x].cid)
    else GroupsFrom(row, x + 1, closed, open + [x], row[x].cid)
  }

  /** The groups of one row, from the left. */
  function Groups(row: seq<RowCell>): seq<seq<int>>
  {
    GroupsFrom(row, 0, [], [], -1)
  }

  /**
    The groups as the source forms them: a fluid cell of a new component
    is added to the running group before that group is closed.
   */
  function GroupsFromAsWritten(row: seq<RowCell>, x: nat, closed: seq<seq<int>>, open: seq<int>, last: int): seq<seq<int>>
    decreases |row| - x
  {
    if x >= |row| then closed + Close(open)
    else if row[x].pclass == Solid then GroupsFromAsWritten(row, x + 1, closed + Close(open), [], -1)
    else if row[x].pclass != Fluid then GroupsFromAsWritten(row, x + 1, closed, open, last)
    else if last != -1 && last != row[x].cid then GroupsFromAsWritten(row, x + 1, closed + [open + [x]], [], row[x].cid)
    else GroupsFromAsWritten(row, x + 1, closed, open + [x], row[x].cid)
  }

  function GroupsAsWritten(row: seq<RowCell>): seq<seq<int>>
  {
    GroupsFromAsWritten(row, 0, [], [], -1)
  }

  /** The positions of the fluid cells of a row from `x` on, left to right. */
  function FluidFrom(row: seq<RowCell>, x: nat): (ps: seq<int>)
    decreases |row| - x
  {
    if x >= |row| then [] else (if row[x].pclass == Fluid then [x] else []) + FluidFrom(row, x + 1)
  }

  /** Every position of `FluidFrom(row, x)` is a fluid cell at or right of `x`, and they increase. */
  lemma {:induction false} FluidFromShape(row: seq<RowCell>, x: nat)
    ensures forall i :: 0 <= i < |FluidFrom(row, x)| ==>
              var p := FluidFrom(row, x)[i]; x <= p < |row| && row[p].pclass == Fluid
    ensures forall i, j :: 0 <= i < j < |FluidFrom(row, x)| ==> FluidFrom(row, x)[i] < FluidFrom(row, x)[j]
    ensures forall p :: x <= p < |row| && row[p].pclass == Fluid ==> p in FluidFrom(row, x)
    decreases |row| - x
  {
    if x < |row| {
      FluidFromShape(row, x + 1);
    }
  }

  lemma FlattenClose(closed: seq<seq<int>>, open: seq<int>)
    ensures Flatten(closed + Close(open)) == Flatten(closed) + open
  {
    if open != [] {
      assert (closed + [open])[..|closed|] == closed;
    } else {
      assert closed + Close(open) == closed;
    }
  }

  /** Every fluid cell is in exactly one group, and the groups follow each other left to right. */
  lemma {:induction false} GroupsFromCover(row: seq<RowCell>, x: nat, closed: seq<seq<int>>, open: seq<int>, last: int)
    ensures Flatten(GroupsFrom(row, x, closed, open, last)) == Flatten(closed) + open + FluidFrom(row, x)
    decreases |row| - x
  {
    if x >= |row| {
      FlattenClose(closed, open);
      assert Flatten(closed) + open + [] == Flatten(closed) + open;
    } else if row[x].pclass == Solid {
      GroupsFromCover(row, x + 1, closed + Close(open), [], -1);
      CoverSolid(row, x, closed, open);
    } else if row[x].pclass != Fluid {
      GroupsFromCover(row, x + 1, closed, open, last);
    } else if last != -1 && last != row[x].cid {
      GroupsFromCover(row, x + 1, closed + [open], [x], row[x].cid);
      CoverSplit(row, x, closed, open);
    } else {
      GroupsFromCover(row, x + 1, closed, open + [x], row[x].cid);
      CoverJoin(row, x, closed, open);
    }
  }

  lemma CoverSolid(row: seq<RowCell>, x: nat, closed: seq<seq<int>>, open: seq<int>)
    requires x < |row| && row[x].pclass == Solid
    ensures Flatten(closed + Close(open)) + [] + FluidFrom(row, x + 1) == Flatten(closed) + open + FluidFrom(row, x)
  {
    FlattenClose(closed, open);
    var rest := FluidFrom(row, x + 1);
    assert FluidFrom(row, x) == rest;
    assert (Flatten(closed) + open) + [] + rest == Flatten(closed) + open + rest;
  }

  lemma CoverSplit(row: seq<RowCell>, x: nat, closed: seq<seq<int>>, open: seq<int>)
    requires x < |row| && row[x].pclass == Fluid
    ensures Flatten(closed + [open]) + [x] + FluidFrom(row, x + 1) == Flatten(closed) + open + FluidFrom(row, x)
  {
    var rest := FluidFrom(row, x + 1);
    var fc := Flatten(closed);
    assert Flatten(closed + [open]) == fc + open by { assert (closed + [open])[..|closed|] == closed; }
    assert FluidFrom(row, x) == [x] + rest;
    assert (fc + open) + [x] + rest == fc + open + ([x] + rest);
  }

  lemma CoverJoin(row: seq<RowCell>, x: nat, closed: seq<seq<int>>, open: seq<int>)
    requires x < |row| && row[x].pclass == Fluid
    ensures Flatten(closed) + (open + [x]) + FluidFrom(row, x + 1) == Flatten(closed) + open + FluidFrom(row, x)
  {
    var rest := FluidFrom(row, x + 1);
    var fc := Flatten(closed);
    assert FluidFrom(row, x) == [x] + rest;
    assert fc + (open + [x]) + rest == fc + open + ([x] + rest);
  }

  /** As written, too, every fluid cell is in exactly one group, and the groups follow each other left to right. */
  lemma {:induction false} GroupsFromAsWrittenCover(row: seq<RowCell>, x: nat, closed: seq<seq<int>>, open: seq<int>, last: int)
    ensures Flatten(GroupsFromAsWritten(row, x, closed, open, last)) == Flatten(closed) + open + FluidFrom(row, x)
    decreases |row| - x
  {
    if x >= |row| {
      FlattenClose(closed, open);
      assert Flatten(closed) + open + [] == Flatten(closed) + open;
    } else if row[x].pclass == Solid {
      GroupsFromAsWrittenCover(row, x + 1, closed + Close(open), [], -1);
      CoverSolid(row, x, closed, open);
    } else if row[x].pclass != Fluid {
      GroupsFromAsWrittenCover(row, x + 1, closed, open, last);
    } else if last != -1 && last != row[x].cid {
      GroupsFromAsWrittenCover(row, x + 1, closed + [open + [x]], [], row[x].cid);
      CoverSplitAsWritten(row, x, closed, open);
    } else {
      GroupsFromAsWrittenCover(row, x + 1, closed, open + [x], row[x].cid);
      CoverJoin(row, x, closed, open);
    }
  }

  lemma CoverSplitAsWritten(row: seq<RowCell>, x: nat, closed: seq<seq<int>>, open: seq<int>)
    requires x < |row| && row[x].pclass == Fluid
    ensures Flatten(closed + [open + [x]]) + [] + FluidFrom(row, x + 1) == Flatten(closed) + open + FluidFrom(row, x)
  {
    var o := open + [x];
    FlattenClose(closed, o);
    assert Close(o) == [o];
    assert FluidFrom(row, x) == [x] + FluidFrom(row, x + 1);
    SnocShift(Flatten(closed), open, x, FluidFrom(row, x + 1));
  }

  /** Moving `x` from the end of the group to the head of the rest keeps the concatenation. */
  lemma SnocShift(fc: seq<int>, open: seq<int>, x: int, rest: seq<int>)
    ensures fc + (open + [x]) + [] + rest == fc + open + ([x] + rest)
  {
    assert fc + (open + [x]) + [] == fc + open + [x];
  }

  /** No Solid cell lies strictly between `a` and `b`. */
  predicate NoSolid(row: seq<RowCell>, a: int, b: int)
  {
    forall k :: a < k < b && 0 <= k < |row| ==> row[k].pclass != Solid
  }

  /** Two fluid cells, `a` left of `b`, with no Solid cell between them and the same component id. */
  predicate Joined(row: seq<RowCell>, a: int, b: int)
  {
    0 <= a < b < |row| && NoSolid(row, a, b) && row[a].cid == row[b].cid
  }

  /** Consecutive positions of a group are joined. */
  predicate Chain(row: seq<RowCell>, g: seq<int>)
  {
    forall j :: 0 <= j < |g| - 1 ==> Joined(row, g[j], g[j + 1])
  }

  /** Every group is a nonempty chain, and the last cell of a group is not joined to the first of the next. */
  predicate Cut(row: seq<RowCell>, gs: seq<seq<int>>)
  {
    && (forall i :: 0 <= i < |gs| ==> gs[i] != [] && Chain(row, gs[i]))
    && (forall i :: 0 <= i < |gs| - 1 && gs[i] != [] && gs[i + 1] != [] ==> !Joined(row, gs[i][|gs[i]| - 1], gs[i + 1][0]))
  }

  /** The state of the pass at column `x`, as `GroupsFrom` reads it. */
  ghost predicate ScanOk(row: seq<RowCell>, x: nat, closed: seq<seq<int>>, open: seq<int>, last: int)
  {
    && x <= |row|
    && Cut(row, closed)
    && Chain(row, open)
    && (open == [] <==> last == -1)
    && (open != [] ==> 0 <= open[|open| - 1] < x && last == row[open[|open| - 1]].cid && NoSolid(row, open[|open| - 1], x))
    && (closed != [] && open != [] ==> !Joined(row, closed[|closed| - 1][|closed[|closed| - 1]| - 1], open[0]))
    && (closed != [] && open == [] ==> !NoSolid(row, closed[|closed| - 1][|closed[|closed| - 1]| - 1], x))
    && (forall i, j :: 0 <= i < |closed| && 0 <= j < |closed[i]| ==> 0 <= closed[i][j] < x)
    && (forall j :: 0 <= j < |open| ==> 0 <= open[j] < x)
  }

  /** Component ids of fluid cells are never -1, as the labelling leaves them. */
  predicate Labelled(row: seq<RowCell>)
  {
    forall x :: 0 <= x < |row| && row[x].pclass == Fluid ==> row[x].cid >= 0
  }

  /** Closing the running group keeps the groups cut. */
  lemma CloseCut(row: seq<RowCell>, x: nat, closed: seq<seq<int>>, open: seq<int>, last: int)
    requires ScanOk(row, x, closed, open, last)
    ensures Cut(row, closed + Close(open))
  {
    if open != [] {
      var c' := closed + [open];
      forall i | 0 <= i < |c'| ensures c'[i] != [] && Chain(row, c'[i]) {
        if i < |closed| { assert c'[i] == closed[i]; }
      }
      forall i | 0 <= i < |c'| - 1 && c'[i] != [] && c'[i + 1] != []
        ensures !Joined(row, c'[i][|c'[i]| - 1], c'[i + 1][0])
      {
        assert c'[i] == closed[i];
        if i + 1 < |closed| { assert c'[i + 1] == closed[i + 1]; }
      }
    } else {
      assert closed + Close(open) == closed;
    }
  }

  /** `ScanOk` after a Solid cell at `x`: the running group is closed and sealed off by the Solid. */
  lemma ScanSolid(row: seq<RowCell>, x: nat, closed: seq<seq<int>>, open: seq<int>, last: int)
    requires ScanOk(row, x, closed, open, last) && x < |row| && row[x].pclass == Solid
    ensures ScanOk(row, x + 1, closed + Close(open), [], -1)
  {
    CloseCut(row, x, closed, open, last);
    var c' := closed + Close(open);
    if open != [] {
      assert c'[|c'| - 1] == open;
      assert !NoSolid(row, open[|open| - 1], x + 1) by { assert row[x].pclass == Solid; }
      forall i, j | 0 <= i < |c'| && 0 <= j < |c'[i]| ensures 0 <= c'[i][j] < x + 1 {
        if i < |closed| { assert c'[i] == closed[i]; }
      }
    } else {
      assert c' == closed;
    }
  }

  /** `ScanOk` after a gas or particle cell at `x`. */
  lemma ScanOther(row: seq<RowCell>, x: nat, closed: seq<seq<int>>, open: seq<int>, last: int)
    requires ScanOk(row, x, closed, open, last) && x < |row| && row[x].pclass != Solid && row[x].pclass != Fluid
    ensures ScanOk(row, x + 1, closed, open, last)
  {
  }

  /** `ScanOk` after a fluid cell of another component: the running group is closed and a new one starts. */
  lemma ScanSplit(row: seq<RowCell>, x: nat, closed: seq<seq<int>>, open: seq<int>, last: int)
    requires Labelled(row) && ScanOk(row, x, closed, open, last) && x < |row| && row[x].pclass == Fluid
    requires last != -1 && last != row[x].cid
    ensures ScanOk(row, x + 1, closed + [open], [x], row[x].cid)
  {
    var c' := closed + [open];
    assert c'[..|closed|] == closed;
    assert !Joined(row, open[|open| - 1], x);
  }

  /** `ScanOk` after a fluid cell that joins the running group (or starts the first one after a Solid). */
  lemma ScanJoin(row: seq<RowCell>, x: nat, closed: seq<seq<int>>, open: seq<int>, last: int)
    requires Labelled(row) && ScanOk(row, x, closed, open, last) && x < |row| && row[x].pclass == Fluid
    requires !(last != -1 && last != row[x].cid)
    ensures ScanOk(row, x + 1, closed, open + [x], row[x].cid)
  {
    var o' := open + [x];
    if open != [] {
      assert Joined(row, open[|open| - 1], x);
    } else if closed != [] {
      assert !Joined(row, closed[|closed| - 1][|closed[|closed| - 1]| - 1], x);
    }
    assert o'[..|open|] == open;
  }

  lemma {:induction false} GroupsFromCut(row: seq<RowCell>, x: nat, closed: seq<seq<int>>, open: seq<int>, last: int)
    requires Labelled(row) && ScanOk(row, x, closed, open, last)
    ensures Cut(row, GroupsFrom(row, x, closed, open, last))
    decreases |row| - x
  {
    if x >= |row| {
      CloseCut(row, x, closed, open, last);
    } else if row[x].pclass == Solid {
      ScanSolid(row, x, closed, open, last);
      GroupsFromCut(row, x + 1, closed + Close(open), [], -1);
    } else if row[x].pclass != Fluid {
      ScanOther(row, x, closed, open, last);
      GroupsFromCut(row, x + 1, closed, open, last);
    } else if last != -1 && last != row[x].cid {
      ScanSplit(row, x, closed, open, last);
      GroupsFromCut(row, x + 1, closed + [open], [x], row[x].cid);
    } else {
      ScanJoin(row, x, closed, open, last);
      GroupsFromCut(row, x + 1, closed, open + [x], row[x].cid);
    }
  }

  /**
    The groups of a row, stated without the scan: they list exactly the
    fluid cells, left to right; inside a group each cell is joined to the
    next (no Solid between them, the same component); and the last cell of
    a group is not joined to the first cell of the next.
   */
  lemma GroupsMeaning(row: seq<RowCell>)
    requires Labelled(row)
    ensures Flatten(Groups(row)) == FluidFrom(row, 0)
    ensures Cut(row, Groups(row))
    ensures forall i, j :: 0 <= i < |Groups(row)| && 0 <= j < |Groups(row)[i]| ==>
              0 <= Groups(row)[i][j] < |row| && row[Groups(row)[i][j]].pclass == Fluid
  {
    var gs := Groups(row);
    GroupsFromCover(row, 0, [], [], -1);
    GroupsFromCut(row, 0, [], [], -1);
    FluidFromShape(row, 0);
    forall i, j | 0 <= i < |gs| && 0 <= j < |gs[i]|
      ensures 0 <= gs[i][j] < |row| && row[gs[i][j]].pclass == Fluid
    {
      InFlatten(gs, gs[i][j]);
    }
  }

  /** `vs[j]` written at `ps[j]`, in order; positions outside `d` are ignored. */
  function Write(d: seq<int>, ps: seq<int>, vs: seq<int>): (r: seq<int>)
    requires |ps| == |vs|
    ensures |r| == |d|
    decreases |ps|
  {
    if ps == [] then d
    else
      var n := |ps| - 1;
      var r := Write(d, ps[..n], vs[..n]);
      if 0 <= ps[n] < |r| then r[ps[n] := vs[n]] else r
  }

  /** The entries of `d` at `ps`. */
  function Pick(d: seq<int>, ps: seq<int>): (r: seq<int>)
    ensures |r| == |ps|
  {
    seq(|ps|, i requires 0 <= i < |ps| => if 0 <= ps[i] < |d| then d[ps[i]] else 0)
  }

  /** Each group of `gs`, in order, rewritten by `handle` from the original values `d0`. */
  function ApplyGroups(d0: seq<int>, gs: seq<seq<int>>): (r: seq<int>)
    ensures |r| == |d0|
    decreases |gs|
  {
    if gs == [] then d0
    else
      var n := |gs| - 1;
      Write(ApplyGroups(d0, gs[..n]), gs[n], Levelled(Pick(d0, gs[n])))
  }

  /** The row's `fluid_dir` values after the pass. */
  function RowResult(row: seq<RowCell>): seq<int>
  {
    ApplyGroups(Dirs(row), Groups(row))
  }

  function RowResultAsWritten(row: seq<RowCell>): seq<int>
  {
    ApplyGroups(Dirs(row), GroupsAsWritten(row))
  }

  lemma {:induction false} WriteElsewhere(d: seq<int>, ps: seq<int>, vs: seq<int>, a: int)
    requires |ps| == |vs| && a !in ps && 0 <= a < |d|
    ensures Write(d, ps, vs)[a] == d[a]
    decreases |ps|
  {
    if ps != [] {
      var n := |ps| - 1;
      assert a !in ps[..n];
      WriteElsewhere(d, ps[..n], vs[..n], a);
    }
  }

  lemma {:induction false} WriteAt(d: seq<int>, ps: seq<int>, vs: seq<int>, j: int)
    requires |ps| == |vs| && 0 <= j < |ps| && 0 <= ps[j] < |d|
    requires forall i :: 0 <= i < |ps| && i != j ==> ps[i] != ps[j]
    ensures Write(d, ps, vs)[ps[j]] == vs[j]
    decreases |ps|
  {
    var n := |ps| - 1;
    if j < n {
      WriteAt(d, ps[..n], vs[..n], j);
    }
  }

  /** Positions in no group keep their original value. */
  lemma {:induction false} ApplyElsewhere(d0: seq<int>, gs: seq<seq<int>>, a: int)
    requires a !in Flatten(gs) && 0 <= a < |d0|
    ensures ApplyGroups(d0, gs)[a] == d0[a]
    decreases |gs|
  {
    if gs != [] {
      var n := |gs| - 1;
      assert Flatten(gs) == Flatten(gs[..n]) + gs[n];
      ApplyElsewhere(d0, gs[..n], a);
      WriteElsewhere(ApplyGroups(d0, gs[..n]), gs[n], Levelled(Pick(d0, gs[n])), a);
    }
  }

  /** Entries of a sequence with no repeats. */
  predicate Unique(s: seq<int>)
  {
    forall i, j :: 0 <= i < j < |s| ==> s[i] != s[j]
  }

  /** With no position in two groups, each group ends up as `handle` wrote it. */
  lemma {:induction false} ApplyAt(d0: seq<int>, gs: seq<seq<int>>, i: int, j: int)
    requires Unique(Flatten(gs)) && 0 <= i < |gs| && 0 <= j < |gs[i]|
    requires forall a, b :: 0 <= a < |gs| && 0 <= b < |gs[a]| ==> 0 <= gs[a][b] < |d0|
    ensures ApplyGroups(d0, gs)[gs[i][j]] == Levelled(Pick(d0, gs[i]))[j]
    decreases |gs|
  {
    var n := |gs| - 1;
    var front := gs[..n];
    var fl := Flatten(gs);
    assert fl == Flatten(front) + gs[n];
    var base := |Flatten(front)|;
    assert Unique(Flatten(front)) by {
      forall a, b | 0 <= a < b < |Flatten(front)| ensures Flatten(front)[a] != Flatten(front)[b] {
        assert fl[a] == Flatten(front)[a] && fl[b] == Flatten(front)[b];
      }
    }
    LevelledSorted(Pick(d0, gs[n]));
    if i == n {
      forall k | 0 <= k < |gs[n]| && k != j ensures gs[n][k] != gs[n][j] {
        assert fl[base + k] == gs[n][k] && fl[base + j] == gs[n][j];
      }
      assert gs[n][j] in fl by { assert fl[base + j] == gs[n][j]; }
      WriteAt(ApplyGroups(d0, front), gs[n], Levelled(Pick(d0, gs[n])), j);
    } else {
      assert gs[i] == front[i];
      InFlatten(front, gs[i][j]);
      var k :| 0 <= k < |Flatten(front)| && Flatten(front)[k] == gs[i][j];
      assert fl[k] == gs[i][j];
      forall m | 0 <= m < |gs[n]| ensures gs[n][m] != gs[i][j] {
        assert fl[base + m] == gs[n][m];
      }
      ApplyAt(d0, front, i, j);
      WriteElsewhere(ApplyGroups(d0, front), gs[n], Levelled(Pick(d0, gs[n])), gs[i][j]);
    }
  }

  /**
    Groups that list exactly the fluid cells of a row: a cell in no group
    (not fluid) keeps its `fluid_dir`, and the cells of each group get that
    group's values back in order.
   */
  lemma ApplyCovering(row: seq<RowCell>, gs: seq<seq<int>>)
    requires Flatten(gs) == FluidFrom(row, 0)
    ensures forall i, j :: 0 <= i < |gs| && 0 <= j < |gs[i]| ==> 0 <= gs[i][j] < |row| && row[gs[i][j]].pclass == Fluid
    ensures forall x :: 0 <= x < |row| && row[x].pclass != Fluid ==> ApplyGroups(Dirs(row), gs)[x] == row[x].dir
    ensures forall i, j :: 0 <= i < |gs| && 0 <= j < |gs[i]| ==>
              ApplyGroups(Dirs(row), gs)[gs[i][j]] == Levelled(Pick(Dirs(row), gs[i]))[j]
  {
    FluidFromShape(row, 0);
    var fl := FluidFrom(row, 0);
    forall i, j | 0 <= i < |gs| && 0 <= j < |gs[i]|
      ensures 0 <= gs[i][j] < |row| && row[gs[i][j]].pclass == Fluid
    {
      InFlatten(gs, gs[i][j]);
    }
    forall x | 0 <= x < |row| && row[x].pclass != Fluid
      ensures ApplyGroups(Dirs(row), gs)[x] == row[x].dir
    {
      assert x !in fl;
      ApplyElsewhere(Dirs(row), gs, x);
    }
    assert Unique(fl);
    forall i, j | 0 <= i < |gs| && 0 <= j < |gs[i]|
      ensures ApplyGroups(Dirs(row), gs)[gs[i][j]] == Levelled(Pick(Dirs(row), gs[i]))[j]
    {
      ApplyAt(Dirs(row), gs, i, j);
    }
  }

  /**
    What the pass does to one row: a cell in no group (not fluid) keeps its
    `fluid_dir`; the cells of each group get that group's values back in
    order, so each group keeps its multiset of values, now sorted.
   */
  lemma RowResultMeaning(row: seq<RowCell>)
    requires Labelled(row)
    ensures |RowResult(row)| == |row|
    ensures forall i, j :: 0 <= i < |Groups(row)| && 0 <= j < |Groups(row)[i]| ==> 0 <= Groups(row)[i][j] < |row|
    ensures forall x :: 0 <= x < |row| && row[x].pclass != Fluid ==> RowResult(row)[x] == row[x].dir
    ensures forall i, j :: 0 <= i < |Groups(row)| && 0 <= j < |Groups(row)[i]| ==>
              RowResult(row)[Groups(row)[i][j]] == Levelled(Pick(Dirs(row), Groups(row)[i]))[j]
  {
    GroupsMeaning(row);
    ApplyCovering(row, Groups(row));
  }

  /**
    The pass as written does the same to the groups it forms: they list
    exactly the fluid cells, a cell that is not fluid keeps its
    `fluid_dir`, and each group gets its own values back in order.
   */
  lemma RowResultAsWrittenMeaning(row: seq<RowCell>)
    ensures |RowResultAsWritten(row)| == |row|
    ensures Flatten(GroupsAsWritten(row)) == FluidFrom(row, 0)
    ensures forall i, j :: 0 <= i < |GroupsAsWritten(row)| && 0 <= j < |GroupsAsWritten(row)[i]| ==>
              0 <= GroupsAsWritten(row)[i][j] < |row| && row[GroupsAsWritten(row)[i][j]].pclass == Fluid
    ensures forall x :: 0 <= x < |row| && row[x].pclass != Fluid ==> RowResultAsWritten(row)[x] == row[x].dir
    ensures forall i, j :: 0 <= i < |GroupsAsWritten(row)| && 0 <= j < |GroupsAsWritten(row)[i]| ==>
              RowResultAsWritten(row)[GroupsAsWritten(row)[i][j]] == Levelled(Pick(Dirs(row), GroupsAsWritten(row)[i]))[j]
  {
    GroupsFromAsWrittenCover(row, 0, [], [], -1);
    assert Flatten<int>([]) + [] + FluidFrom(row, 0) == FluidFrom(row, 0);
    ApplyCovering(row, GroupsAsWritten(row));
  }

  /**
    The source's order puts the first cell of a new component into the
    previous group: with a fluid cell of component 0 moving right, a gas
    cell, and a fluid cell of component 1 moving left, the source forms one
    group of the two and swaps their directions, where each cell is a group
    of its own and keeps its direction.
   */
  lemma GroupsAsWrittenMixComponents()
    ensures var row := [RowCell(Fluid, 1, 0), RowCell(Gas, 0, -1), RowCell(Fluid, -1, 1)];
            && GroupsAsWritten(row) == [[0, 2]] && !Joined(row, 0, 2)
            && RowResultAsWritten(row) == [-1, 0, 1]
            && Groups(row) == [[0], [2]] && RowResult(row) == [1, 0, -1]
  {
    var row := [RowCell(Fluid, 1, 0), RowCell(Gas, 0, -1), RowCell(Fluid, -1, 1)];
    MixGroups(row);
    var d := Dirs(row);
    assert d == [1, 0, -1];
    MixAsWritten(d);
    MixIntended(d);
  }

  lemma MixGroups(row: seq<RowCell>)
    requires row == [RowCell(Fluid, 1, 0), RowCell(Gas, 0, -1), RowCell(Fluid, -1, 1)]
    ensures GroupsAsWritten(row) == [[0, 2]] && Groups(row) == [[0], [2]] && !Joined(row, 0, 2)
  {
    var none: seq<seq<int>> := [];
    var empty: seq<int> := [];
    assert [0] + [2] == [0, 2] && none + [[0, 2]] == [[0, 2]] && empty + [0] == [0] && none + [[0]] == [[0]];
    assert GroupsFromAsWritten(row, 3, [[0, 2]], [], 1) == [[0, 2]];
    assert GroupsFromAsWritten(row, 2, [], [0], 0) == [[0, 2]];
    assert GroupsFromAsWritten(row, 1, [], [0], 0) == [[0, 2]];
    assert GroupsFrom(row, 3, [[0]], [2], 1) == [[0], [2]];
    assert GroupsFrom(row, 2, [], [0], 0) == [[0], [2]];
    assert GroupsFrom(row, 1, [], [0], 0) == [[0], [2]];
  }

  lemma MixAsWritten(d: seq<int>)
    requires d == [1, 0, -1]
    ensures ApplyGroups(d, [[0, 2]]) == [-1, 0, 1]
  {
    assert Pick(d, [0, 2]) == [1, -1];
    assert Count([1, -1], -1) == 1 && Count([1, -1], 0) == 0 by {
      assert [1, -1][..1] == [1];
    }
    assert Levelled([1, -1]) == [-1, 1];
    assert [[0, 2]][..0] == [];
    assert Write(d, [0], [-1]) == [-1, 0, -1] by {
      assert [0][..0] == [] && [-1][..0] == [];
    }
    assert [0, 2][..1] == [0] && [-1, 1][..1] == [-1];
  }

  lemma MixIntended(d: seq<int>)
    requires d == [1, 0, -1]
    ensures ApplyGroups(d, [[0], [2]]) == [1, 0, -1]
  {
    assert Pick(d, [0]) == [1] && Pick(d, [2]) == [-1];
    assert Count([1], -1) == 0 && Count([1], 0) == 0 && Count([-1], -1) == 1 && Count([-1], 0) == 0;
    assert Levelled([1]) == [1] && Levelled([-1]) == [-1];
    assert [[0], [2]][..1] == [[0]] && [[0]][..0] == [];
    assert [0][..0] == [] && [1][..0] == [] && [2][..0] == [] && [-1][..0] == [];
    assert ApplyGroups(d, [[0]]) == d;
  }
}
