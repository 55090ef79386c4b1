// `densityAnalysisStep` of src/fallsand/fluid.cpp on the world: for every
// row from the second lowest up, the active ranges of the row, the fill
// plan of each range from the row below, and the matching swaps, each a
// `swapFluids` between a row-y cell and a fill position below it. The
// decisions are the row functions of `DensityRows`, read from the world as
// it stands when the range is reached.
module FluidDensity {
  import opened Base
  import opened Pixels
  import opened Grids
  import opened World
  import opened DensityRows

  /** The kinds of row `y`. */
  function KindRow(g: Grid, y: int): (ks: seq<PixelType>)
    requires g.Valid() && 0 <= y < g.height
    ensures |ks| == g.width && forall x :: 0 <= x < g.width ==> ks[x] == g.TagAt(x, y).kind
  {
    seq(g.width, x requires 0 <= x < g.width => g.TagAt(x, y).kind)
  }

  /** The classes of row `y`. */
  function ClassRow(g: Grid, y: int): (cs: seq<PixelClass>)
    requires g.Valid() && 0 <= y < g.height
    ensures |cs| == g.width && forall x :: 0 <= x < g.width ==> cs[x] == g.TagAt(x, y).pclass
  {
    seq(g.width, x requires 0 <= x < g.width => g.TagAt(x, y).pclass)
  }

  /** The swaps `(x, q)` applied in order, each trading `(x, y)` with `(q, y + 1)` by `swapFluids`; a swap outside the world is skipped. */
  function ApplyFluidSwaps(g: Grid, y: int, s: seq<(int, int)>): (h: Grid)
    requires g.Valid()
    ensures h.Valid() && h.width == g.width && h.height == g.height && h.statics == g.statics
    decreases |s|
  {
    if s == [] then g
    else
      var h := ApplyFluidSwaps(g, y, s[..|s| - 1]);
      var sw := s[|s| - 1];
      if h.InBounds(sw.0, y) && h.InBounds(sw.1, y + 1) then h.SwapFluids(sw.0, y, sw.1, y + 1) else h
  }

  /** The swaps of the range `[l, r]` of row `y` under `rule`, `popStale` choosing how `left_pos` is kept. */
  function RangeSwaps(g: Grid, y: int, l: int, r: int, rule: DensityRule, popStale: bool): seq<(int, int)>
    requires g.Valid()
  {
    if !(0 <= y && y + 1 < g.height && 0 <= l <= r < g.width) then []
    else RowSwaps(KindRow(g, y), KindRow(g, y + 1), ClassRow(g, y + 1), l, r, rule, popStale)
  }

  /** The ranges `rs` of row `y` handled in order, each planned on the grid the ranges before it left. */
  function RangesApply(g: Grid, y: int, rs: seq<(int, int)>, rule: DensityRule, popStale: bool): (h: Grid)
    requires g.Valid()
    ensures h.Valid() && h.width == g.width && h.height == g.height
    decreases |rs|
  {
    if rs == [] then g
    else RangesApply(ApplyFluidSwaps(g, y, RangeSwaps(g, y, rs[0].0, rs[0].1, rule, popStale)), y, rs[1..], rule, popStale)
  }

  /** The density pass over row `y` and the row below it. */
  function RowDensity(g: Grid, y: int, rule: DensityRule, popStale: bool): (h: Grid)
    requires g.Valid()
    ensures h.Valid() && h.width == g.width && h.height == g.height
  {
    if 0 <= y && y + 1 < g.height then RangesApply(g, y, Ranges(ClassRow(g, y)), rule, popStale) else g
  }

  /** The density pass over rows `y`, `y - 1`, ..., `0`, in that order. */
  function DensityFrom(g: Grid, y: int, rule: DensityRule, popStale: bool): (h: Grid)
    requires g.Valid()
    ensures h.Valid() && h.width == g.width && h.height == g.height
    decreases y + 1
  {
    if y < 0 then g else DensityFrom(RowDensity(g, y, rule, popStale), y - 1, rule, popStale)
  }

  /**
    `a` is `b` after `swapFluids` of `(x1, y1)` and `(x2, y2)`: the two
    cells trade tags, except for `fluidDir`, and elements, and every other
    cell stays.
   */
  ghost predicate SwappedFluids(b: Grid, a: Grid, x1: int, y1: int, x2: int, y2: int)
  {
    && b.Valid() && a.Valid() && a.width == b.width && a.height == b.height
    && b.InBounds(x1, y1) && b.InBounds(x2, y2)
    && a.TagAt(x1, y1) == b.TagAt(x2, y2).(fluidDir := b.TagAt(x1, y1).fluidDir)
    && a.TagAt(x2, y2) == b.TagAt(x1, y1).(fluidDir := b.TagAt(x2, y2).fluidDir)
    && a.ElemAt(x1, y1) == b.ElemAt(x2, y2) && a.ElemAt(x2, y2) == b.ElemAt(x1, y1)
    && forall u, v :: b.InBounds(u, v) && !(u == x1 && v == y1) && !(u == x2 && v == y2) ==>
         a.TagAt(u, v) == b.TagAt(u, v) && a.ElemAt(u, v) == b.ElemAt(u, v)
  }

  /** `swapFluids` as a relation between cells. */
  lemma SwapFluidsSwapped(b: Grid, x1: int, y1: int, x2: int, y2: int)
    requires b.Valid() && b.InBounds(x1, y1) && b.InBounds(x2, y2)
    ensures SwappedFluids(b, b.SwapFluids(x1, y1, x2, y2), x1, y1, x2, y2)
  {
    SwapFluidsCells(b, x1, y1, x2, y2);
  }

  /** `ApplyFluidSwaps` of a non-empty list, one level unfolded. */
  lemma ApplyUnfold(g: Grid, y: int, s: seq<(int, int)>)
    requires g.Valid() && s != []
    ensures var b := ApplyFluidSwaps(g, y, s[..|s| - 1]);
            var sw := s[|s| - 1];
            ApplyFluidSwaps(g, y, s) == if b.InBounds(sw.0, y) && b.InBounds(sw.1, y + 1) then b.SwapFluids(sw.0, y, sw.1, y + 1) else b
  {
  }

  /** The last swap of `s` in terms of cells: made when it lies in the world, skipped otherwise. */
  lemma ApplyLast(g: Grid, y: int, s: seq<(int, int)>)
    requires g.Valid() && s != []
    ensures var b := ApplyFluidSwaps(g, y, s[..|s| - 1]);
            var sw := s[|s| - 1];
            if b.InBounds(sw.0, y) && b.InBounds(sw.1, y + 1) then SwappedFluids(b, ApplyFluidSwaps(g, y, s), sw.0, y, sw.1, y + 1)
            else ApplyFluidSwaps(g, y, s) == b
  {
    var sw := s[|s| - 1];
    if g.InBounds(sw.0, y) && g.InBounds(sw.1, y + 1) {
      ApplyLastIn(g, y, s);
    } else {
      ApplyUnfold(g, y, s);
    }
  }

  /** The last swap of `s`, inside the world, in terms of cells. */
  lemma ApplyLastIn(g: Grid, y: int, s: seq<(int, int)>)
    requires g.Valid() && s != [] && g.InBounds(s[|s| - 1].0, y) && g.InBounds(s[|s| - 1].1, y + 1)
    ensures SwappedFluids(ApplyFluidSwaps(g, y, s[..|s| - 1]), ApplyFluidSwaps(g, y, s), s[|s| - 1].0, y, s[|s| - 1].1, y + 1)
  {
    var b := ApplyFluidSwaps(g, y, s[..|s| - 1]);
    var sw := s[|s| - 1];
    ApplyUnfold(g, y, s);
    SwapFluidsSwapped(b, sw.0, y, sw.1, y + 1);
  }

  /** `swapFluids` exchanges its two cells, each position keeping its `fluidDir`. */
  ghost predicate Exchanged(g: Grid, h: Grid, y: int, sw: (int, int))
  {
    && g.Valid() && h.Valid() && h.width == g.width && h.height == g.height
    && g.InBounds(sw.0, y) && g.InBounds(sw.1, y + 1)
    && h.TagAt(sw.0, y) == g.TagAt(sw.1, y + 1).(fluidDir := g.TagAt(sw.0, y).fluidDir)
    && h.TagAt(sw.1, y + 1) == g.TagAt(sw.0, y).(fluidDir := g.TagAt(sw.1, y + 1).fluidDir)
    && h.ElemAt(sw.0, y) == g.ElemAt(sw.1, y + 1)
    && h.ElemAt(sw.1, y + 1) == g.ElemAt(sw.0, y)
  }

  /** No swap of `s` touches the cell `(a, b)`. */
  predicate Untouched(s: seq<(int, int)>, y: int, a: int, b: int)
  {
    forall k :: 0 <= k < |s| ==> !(s[k].0 == a && b == y) && !(s[k].1 == a && b == y + 1)
  }

  /** A cell that no swap touches keeps its tag and element. */
  lemma {:induction false} ApplyFrame(g: Grid, y: int, s: seq<(int, int)>, a: int, b: int)
    requires g.Valid() && g.InBounds(a, b) && Untouched(s, y, a, b)
    ensures ApplyFluidSwaps(g, y, s).TagAt(a, b) == g.TagAt(a, b)
    ensures ApplyFluidSwaps(g, y, s).ElemAt(a, b) == g.ElemAt(a, b)
    decreases |s|
  {
    if s != [] {
      var s' := s[..|s| - 1];
      UntouchedPrefix(s, y, a, b);
      ApplyFrame(g, y, s', a, b);
      ApplyLast(g, y, s);
    }
  }

  lemma UntouchedPrefix(s: seq<(int, int)>, y: int, a: int, b: int)
    requires Untouched(s, y, a, b) && s != []
    ensures Untouched(s[..|s| - 1], y, a, b)
    ensures !(s[|s| - 1].0 == a && b == y) && !(s[|s| - 1].1 == a && b == y + 1)
  {
    assert forall k :: 0 <= k < |s| - 1 ==> s[..|s| - 1][k] == s[k];
  }

  /** Swaps inside rows `y` and `y + 1`, no column of either row used twice. */
  predicate SwapsOn(g: Grid, y: int, s: seq<(int, int)>)
  {
    && 0 <= y && y + 1 < g.height
    && (forall k :: 0 <= k < |s| ==> 0 <= s[k].0 < g.width && 0 <= s[k].1 < g.width)
    && (forall k, k' :: 0 <= k < k' < |s| ==> s[k].0 != s[k'].0 && s[k].1 != s[k'].1)
  }

  lemma SwapsOnPrefix(g: Grid, y: int, s: seq<(int, int)>)
    requires SwapsOn(g, y, s) && s != []
    ensures SwapsOn(g, y, s[..|s| - 1])
    ensures Untouched(s[..|s| - 1], y, s[|s| - 1].0, y) && Untouched(s[..|s| - 1], y, s[|s| - 1].1, y + 1)
  {
    assert forall k :: 0 <= k < |s| - 1 ==> s[..|s| - 1][k] == s[k];
  }

  /**
    Swaps that use no column twice exchange exactly their two cells: row
    y's cell moves down to its partner in row y + 1, the partner moves up,
    and each position keeps its own `fluidDir`.
   */
  lemma {:induction false} ApplyDistinct(g: Grid, y: int, s: seq<(int, int)>)
    requires g.Valid() && SwapsOn(g, y, s)
    ensures forall k :: 0 <= k < |s| ==> Exchanged(g, ApplyFluidSwaps(g, y, s), y, s[k])
    decreases |s|
  {
    if s != [] {
      var s' := s[..|s| - 1];
      var sw := s[|s| - 1];
      SwapsOnPrefix(g, y, s);
      ApplyDistinct(g, y, s');
      ApplyFrame(g, y, s', sw.0, y);
      ApplyFrame(g, y, s', sw.1, y + 1);
      ApplyLastIn(g, y, s);
      ExchangeStep(g, ApplyFluidSwaps(g, y, s'), ApplyFluidSwaps(g, y, s), y, s, s');
    }
  }

  /** The last swap, on columns the others do not use, keeps their exchanges and makes its own. */
  lemma ExchangeStep(g: Grid, b: Grid, a: Grid, y: int, s: seq<(int, int)>, s': seq<(int, int)>)
    requires g.Valid() && b.Valid() && SwapsOn(g, y, s) && s != [] && b.width == g.width && b.height == g.height
    requires s' == s[..|s| - 1] && forall k :: 0 <= k < |s'| ==> Exchanged(g, b, y, s'[k])
    requires var sw := s[|s| - 1];
             && b.TagAt(sw.0, y) == g.TagAt(sw.0, y) && b.ElemAt(sw.0, y) == g.ElemAt(sw.0, y)
             && b.TagAt(sw.1, y + 1) == g.TagAt(sw.1, y + 1) && b.ElemAt(sw.1, y + 1) == g.ElemAt(sw.1, y + 1)
             && SwappedFluids(b, a, sw.0, y, sw.1, y + 1)
    ensures forall k :: 0 <= k < |s| ==> Exchanged(g, a, y, s[k])
  {
    var sw := s[|s| - 1];
    forall k | 0 <= k < |s| - 1 ensures Exchanged(g, a, y, s[k]) {
      assert s'[k] == s[k];
      assert s[k].0 != sw.0 && s[k].1 != sw.1;
      assert Exchanged(g, b, y, s[k]);
    }
  }

  /**
    What the swaps of one range achieve, in a row below whose fluid cells
    are not of kind `Air`: each swap takes a cell of row y that moves over
    the fill type under `rule`, moves it down into a fill position of the range, and
    lifts the fluid there, of the lightest type below the range, into its
    place; no cell of either row is used twice.
   */
  lemma RangeLifts(g: Grid, y: int, l: int, r: int, rule: DensityRule)
    requires g.Valid() && 0 <= y && y + 1 < g.height && 0 <= l <= r < g.width
    requires NoAirFluid(KindRow(g, y + 1), ClassRow(g, y + 1), l, r + 1)
    ensures var s := RangeSwaps(g, y, l, r, rule, true);
            var ft := Plan(KindRow(g, y + 1), ClassRow(g, y + 1), l, r).fillType;
            var h := ApplyFluidSwaps(g, y, s);
            forall k :: 0 <= k < |s| ==>
              && l <= s[k].0 <= r && Moves(rule, g.TagAt(s[k].0, y).kind, ft)
              && l <= s[k].1 <= r && g.TagAt(s[k].1, y + 1).kind == ft && g.TagAt(s[k].1, y + 1).pclass == Fluid
              && Exchanged(g, h, y, s[k])
  {
    var ts, ks, cs := KindRow(g, y), KindRow(g, y + 1), ClassRow(g, y + 1);
    var s := RowSwaps(ts, ks, cs, l, r, rule, true);
    assert s == RangeSwaps(g, y, l, r, rule, true);
    var ft := Plan(ks, cs, l, r).fillType;
    RowSwapsMeaning(ts, ks, cs, l, r, rule);
    assert SwapsOn(g, y, s);
    ApplyDistinct(g, y, s);
    forall k | 0 <= k < |s|
      ensures Moves(rule, g.TagAt(s[k].0, y).kind, ft)
      ensures g.TagAt(s[k].1, y + 1).kind == ft && g.TagAt(s[k].1, y + 1).pclass == Fluid
    {
      assert ts[s[k].0] == g.TagAt(s[k].0, y).kind;
      assert ks[s[k].1] == g.TagAt(s[k].1, y + 1).kind && cs[s[k].1] == g.TagAt(s[k].1, y + 1).pclass;
    }
  }

  /**
    The swaps of one range as the pass runs them, whichever way `left_pos`
    is kept: each takes a cell of row y that moves over the fill type under
    `rule` and a fluid cell of the fill type below the range, the row-y
    columns increase, and there are at most as many swaps as fill positions.
   */
  lemma RangeMovers(g: Grid, y: int, l: int, r: int, rule: DensityRule, popStale: bool)
    requires g.Valid() && 0 <= y && y + 1 < g.height && 0 <= l <= r < g.width
    ensures var s := RangeSwaps(g, y, l, r, rule, popStale);
            var p := Plan(KindRow(g, y + 1), ClassRow(g, y + 1), l, r);
            && (forall k :: 0 <= k < |s| ==>
                  && l <= s[k].0 <= r && Moves(rule, g.TagAt(s[k].0, y).kind, p.fillType)
                  && l <= s[k].1 <= r && g.TagAt(s[k].1, y + 1).kind == p.fillType && g.TagAt(s[k].1, y + 1).pclass == Fluid)
            && (forall k, k' :: 0 <= k < k' < |s| ==> s[k].0 < s[k'].0)
            && |s| <= |p.fillPos|
  {
    var ts, ks, cs := KindRow(g, y), KindRow(g, y + 1), ClassRow(g, y + 1);
    var s := RowSwaps(ts, ks, cs, l, r, rule, popStale);
    assert s == RangeSwaps(g, y, l, r, rule, popStale);
    RowSwapsWithin(ts, ks, cs, l, r, rule, popStale);
    var ft := Plan(ks, cs, l, r).fillType;
    forall k | 0 <= k < |s|
      ensures Moves(rule, g.TagAt(s[k].0, y).kind, ft)
      ensures g.TagAt(s[k].1, y + 1).kind == ft && g.TagAt(s[k].1, y + 1).pclass == Fluid
    {
      assert ts[s[k].0] == g.TagAt(s[k].0, y).kind;
      assert ks[s[k].1] == g.TagAt(s[k].1, y + 1).kind && cs[s[k].1] == g.TagAt(s[k].1, y + 1).pclass;
    }
  }

  /** The first loop of a row: `active_ranges`, read from the world. */
  method ActiveRanges(w: PixelWorld, y: int) returns (rs: seq<(int, int)>)
    requires w.Valid() && 0 <= y < w.height
    ensures rs == Ranges(ClassRow(w.Cells(), y))
  {
    ghost var cs := ClassRow(w.Cells(), y);
    rs := [];
    var l := 0;
    for r := 0 to w.width
      invariant 0 <= l <= r
      invariant rs + RangesFrom(cs, l, r) == Ranges(cs)
    {
      var tag := w.TagOf(r, y);
      if tag.pclass == Fluid && r + 1 < w.width {
        continue;
      }
      RangesStep(cs, l, r);
      if r > l {
        rs := rs + [(l, if tag.pclass == Fluid then r else r - 1)];
      }
      l := r + 1;
    }
  }

  /** The second loop of a range: `fill_type`, `fill_pos` and `at_least_dual_fluids`, read from row `y + 1`. */
  method PlanFill(w: PixelWorld, y: int, l: int, r: int) returns (ft: PixelType, fp: seq<int>, dual: bool)
    requires w.Valid() && 0 <= y && y + 1 < w.height && 0 <= l <= r < w.width
    ensures FillPlan(ft, fp, dual) == Plan(KindRow(w.Cells(), y + 1), ClassRow(w.Cells(), y + 1), l, r)
  {
    ghost var ks, cs := KindRow(w.Cells(), y + 1), ClassRow(w.Cells(), y + 1);
    ft, fp, dual := Air, [], false;
    for x := l to r + 1
      invariant PlanFrom(ks, cs, x, r, FillPlan(ft, fp, dual)) == Plan(ks, cs, l, r)
    {
      var tag := w.TagOf(x, y + 1);
      if tag.pclass != Fluid {
        continue;
      }
      if ft != Air && ft != tag.kind {
        dual := true;
      }
      if ft == Air || IsDenser(ft, tag.kind) {
        ft := tag.kind;
        fp := [];
      }
      if tag.kind == ft {
        fp := fp + [x];
      }
    }
  }

  /**
    The choice of one column that moves, after the scan index `sp` and
    `left_pos` were brought up to column `x`: the nearer of `lp` and `rp`,
    the left one only when strictly nearer, with `efftective_infinity_of_x`
    (the width plus 10) standing for a side without a candidate;
    `avail_count` drops by one when a swap is chosen. With `popStale` a
    fill position at `x` itself, used from the right, also leaves `left_pos`.
   */
  method Choose(width: int, x: int, fp: seq<int>, sp: nat, left: seq<int>, avail: int, popStale: bool,
                ghost mv: seq<bool>, ghost st: MatchState)
    returns (sw: Option<(int, int)>, st': MatchState)
    requires 0 <= x < |mv| == width && st.sp <= |st.fillPos| && mv[x]
    requires MatchState(fp, sp, left, avail) == Arrive(st, x) && StateIn(Arrive(st, x), width)
    ensures (sw, st') == Column(mv, x, st, popStale)
  {
    var hasOption := false;
    var leftDis, rightDis := width + 10, width + 10;
    var lp, rp := 0, 0;
    if left != [] {
      hasOption := true;
      lp := left[|left| - 1];
      leftDis := x - lp;
    }
    if sp < |fp| {
      hasOption := true;
      rp := fp[sp];
      rightDis := rp - x;
    }
    if !hasOption {
      return None, MatchState(fp, sp, left, avail);
    }
    var avail' := avail - 1;
    if leftDis < rightDis {
      assert TakesLeft(Arrive(st, x), x);
      return Some((x, lp)), MatchState(fp, sp, left[..|left| - 1], avail');
    }
    assert !TakesLeft(Arrive(st, x), x);
    var left' := left;
    if popStale && rp == x && left != [] {
      left' := left[..|left| - 1];
    }
    return Some((x, rp)), MatchState(fp[sp := -1], sp, left', avail');
  }

  /** `while (sp < fill_pos.size() && (fill_pos[sp] == -1 || fill_pos[sp] < x)) sp += 1;` */
  method ScanTo(fp: seq<int>, sp0: nat, x: int) returns (sp: nat)
    requires sp0 <= |fp|
    ensures sp == Advance(fp, sp0, x)
  {
    sp := sp0;
    while sp < |fp| && (fp[sp] == -1 || fp[sp] < x)
      invariant sp0 <= sp <= |fp|
      invariant Advance(fp, sp, x) == Advance(fp, sp0, x)
      decreases |fp| - sp
    {
      sp := sp + 1;
    }
  }

  /** The scan before column `x`: `sp` brought up to `x`, and `x` pushed to `left_pos` when it is a fill position. */
  method ArriveAt(st: MatchState, x: int, width: int) returns (st1: MatchState)
    requires st.sp <= |st.fillPos| && StateIn(st, width) && 0 <= x < width
    ensures st1 == Arrive(st, x) && StateIn(st1, width)
  {
    var sp := ScanTo(st.fillPos, st.sp, x);
    var left := st.left;
    if sp < |st.fillPos| && st.fillPos[sp] == x {
      left := left + [x];
    }
    st1 := MatchState(st.fillPos, sp, left, st.avail);
  }

  /** The test that lets column `x` of row `y` stay: `typeOfIs` for `ByType`, `isDenserOrEqual` for `ByDensity`. */
  method Stays(w: PixelWorld, x: int, y: int, ft: PixelType, rule: DensityRule) returns (stay: bool)
    requires w.Valid() && w.InBounds(x, y)
    ensures stay <==> !Moves(rule, w.Cells().TagAt(x, y).kind, ft)
  {
    match rule {
      case ByType =>
        stay := w.TypeOfIs(x, y, ft);
      case ByDensity =>
        var tag := w.TagOf(x, y);
        stay := IsDenserOrEqual(ft, tag.kind);
    }
  }

  /** The movers of row `y` of `g` over fill type `ft`. */
  function MoverRow(g: Grid, y: int, ft: PixelType, rule: DensityRule): (mv: seq<bool>)
    requires g.Valid() && 0 <= y < g.height
    ensures |mv| == g.width
  {
    Movers(KindRow(g, y), ft, rule)
  }

  /** Cell `x` of row `y` is a mover exactly when its kind moves over `ft`. */
  lemma MoverRowAt(g: Grid, y: int, ft: PixelType, rule: DensityRule, x: int)
    requires g.Valid() && 0 <= y < g.height && 0 <= x < g.width
    ensures MoverRow(g, y, ft, rule)[x] <==> Moves(rule, g.TagAt(x, y).kind, ft)
  {
  }

  /** One column of the matching loop, with its `swapFluids`. */
  method MatchColumn(w: PixelWorld, y: int, x: int, ft: PixelType, rule: DensityRule, popStale: bool,
                     st: MatchState, ghost mv: seq<bool>)
    returns (sw: Option<(int, int)>, st': MatchState)
    requires w.Valid() && 0 <= y && y + 1 < w.height && 0 <= x < w.width
    requires |mv| == w.width && (mv[x] <==> Moves(rule, w.Cells().TagAt(x, y).kind, ft))
    requires st.sp <= |st.fillPos| && StateIn(st, w.width)
    modifies w.tags, w.elems
    ensures (sw, st') == Column(mv, x, st, popStale)
    ensures sw.Some? ==> 0 <= sw.value.1 < w.width
    ensures st'.sp <= |st'.fillPos| && StateIn(st', w.width)
    ensures w.Cells() == if sw.Some? then old(w.Cells()).SwapFluids(x, y, sw.value.1, y + 1) else old(w.Cells())
  {
    ColumnIn(mv, x, st, popStale);
    var st1 := ArriveAt(st, x, w.width);
    var stay := Stays(w, x, y, ft, rule);
    if stay {
      return None, st1;
    }
    sw, st' := Choose(w.width, x, st1.fillPos, st1.sp, st1.left, st1.avail, popStale, mv, st);
    if sw.Some? {
      w.SwapFluids(x, y, sw.value.1, y + 1);
    }
  }

  /** One `swapFluids` of `(sw.0, y)` and `(sw.1, y + 1)`, skipped outside the world. */
  function ApplyOne(g: Grid, y: int, sw: (int, int)): (h: Grid)
    requires g.Valid()
    ensures h.Valid() && h.width == g.width && h.height == g.height
  {
    if g.InBounds(sw.0, y) && g.InBounds(sw.1, y + 1) then g.SwapFluids(sw.0, y, sw.1, y + 1) else g
  }

  /** Swaps applied in order: the first one, then the rest on its result. */
  lemma {:induction false} ApplyCons(g: Grid, y: int, sw: (int, int), rest: seq<(int, int)>)
    requires g.Valid()
    ensures ApplyFluidSwaps(g, y, [sw] + rest) == ApplyFluidSwaps(ApplyOne(g, y, sw), y, rest)
    decreases |rest|
  {
    if rest == [] {
      assert [sw] + rest == [sw];
      assert [sw][..0] == [];
    } else {
      var s := [sw] + rest;
      var rest' := rest[..|rest| - 1];
      assert s[..|s| - 1] == [sw] + rest';
      assert s[|s| - 1] == rest[|rest| - 1];
      ApplyCons(g, y, sw, rest');
      ApplyUnfold(g, y, s);
      ApplyUnfold(ApplyOne(g, y, sw), y, rest);
    }
  }

  /**
    The matching loop of one range, `fp` being its plan's `fill_pos` and
    `mv` the movers of row `y`: what is left of the matching from column
    `x`, made on the current cells, gives the cells the whole matching
    makes on `g0`.
   */
  method MatchRange(w: PixelWorld, y: int, l: int, r: int, ft: PixelType, fp: seq<int>, rule: DensityRule, popStale: bool)
    requires w.Valid() && 0 <= y && y + 1 < w.height && 0 <= l <= r < w.width
    requires forall k :: 0 <= k < |fp| ==> 0 <= fp[k] < w.width
    modifies w.tags, w.elems
    ensures w.Cells() == ApplyFluidSwaps(old(w.Cells()), y, MatchSwaps(MoverRow(old(w.Cells()), y, ft, rule), fp, l, r, popStale))
  {
    ghost var g0 := w.Cells();
    ghost var mv := MoverRow(g0, y, ft, rule);
    forall i | 0 <= i < g0.width
      ensures mv[i] <==> Moves(rule, g0.TagAt(i, y).kind, ft)
    {
      MoverRowAt(g0, y, ft, rule, i);
    }
    MatchRun(w, y, l, r, ft, fp, rule, popStale, mv);
  }

  /**
    What the matching loop keeps before column `x` of `[l, r]`: the cells
    `g` still to be matched hold the movers `mv` from column `x` on, and what
    is left of the matching, made on `g`, gives `target`.
   */
  ghost predicate RunInv(g: Grid, y: int, x: int, r: int, ft: PixelType, rule: DensityRule, popStale: bool,
                         mv: seq<bool>, st: MatchState, target: Grid)
  {
    && g.Valid() && 0 <= y && y + 1 < g.height && 0 <= x <= r + 1 && r < g.width && |mv| == g.width
    && st.sp <= |st.fillPos| && StateIn(st, g.width)
    && (forall i :: x <= i < g.width ==> (mv[i] <==> Moves(rule, g.TagAt(i, y).kind, ft)))
    && ApplyFluidSwaps(g, y, MatchFrom(mv, x, r, st, popStale)) == target
  }

  /** The matching loop itself, over the movers `mv` of row `y`. */
  method MatchRun(w: PixelWorld, y: int, l: int, r: int, ft: PixelType, fp: seq<int>, rule: DensityRule, popStale: bool,
                  ghost mv: seq<bool>)
    requires w.Valid() && 0 <= y && y + 1 < w.height && 0 <= l <= r < w.width && |mv| == w.width
    requires forall k :: 0 <= k < |fp| ==> 0 <= fp[k] < w.width
    requires forall i :: 0 <= i < w.width ==> (mv[i] <==> Moves(rule, w.Cells().TagAt(i, y).kind, ft))
    modifies w.tags, w.elems
    ensures w.Cells() == ApplyFluidSwaps(old(w.Cells()), y, MatchSwaps(mv, fp, l, r, popStale))
  {
    ghost var target := ApplyFluidSwaps(w.Cells(), y, MatchSwaps(mv, fp, l, r, popStale));
    var st := MatchState(fp, 0, [], |fp|);
    RunStart(w.Cells(), y, l, r, ft, rule, popStale, mv, fp);
    var x := l;
    while x <= r
      invariant x <= r + 1 && RunInv(w.Cells(), y, x, r, ft, rule, popStale, mv, st, target)
      decreases r + 1 - x
    {
      var stop;
      st, stop := MatchStep(w, y, x, r, ft, rule, popStale, st, mv, target);
      if stop {
        return;
      }
      x := x + 1;
    }
    RunEnd(w.Cells(), y, r, ft, rule, popStale, mv, st, target);
  }

  /** The loop's invariant holds at the range's first column, before any swap. */
  lemma RunStart(g: Grid, y: int, l: int, r: int, ft: PixelType, rule: DensityRule, popStale: bool,
                 mv: seq<bool>, fp: seq<int>)
    requires g.Valid() && 0 <= y && y + 1 < g.height && 0 <= l <= r < g.width && |mv| == g.width
    requires forall k :: 0 <= k < |fp| ==> 0 <= fp[k] < g.width
    requires forall i :: 0 <= i < g.width ==> (mv[i] <==> Moves(rule, g.TagAt(i, y).kind, ft))
    ensures RunInv(g, y, l, r, ft, rule, popStale, mv, MatchState(fp, 0, [], |fp|),
                   ApplyFluidSwaps(g, y, MatchSwaps(mv, fp, l, r, popStale)))
  {
  }

  /** Past the range's last column the cells are the whole matching's. */
  lemma RunEnd(g: Grid, y: int, r: int, ft: PixelType, rule: DensityRule, popStale: bool,
               mv: seq<bool>, st: MatchState, target: Grid)
    requires RunInv(g, y, r + 1, r, ft, rule, popStale, mv, st, target)
    ensures g == target
  {
  }

  /**
    One turn of the matching loop, column `x`; `stop` when `avail_count`
    reaches zero, at which point the cells are the whole matching's.
   */
  method MatchStep(w: PixelWorld, y: int, x: int, r: int, ft: PixelType, rule: DensityRule, popStale: bool,
                   st: MatchState, ghost mv: seq<bool>, ghost target: Grid)
    returns (st': MatchState, stop: bool)
    requires w.Valid() && x <= r && RunInv(w.Cells(), y, x, r, ft, rule, popStale, mv, st, target)
    modifies w.tags, w.elems
    ensures stop ==> w.Cells() == target
    ensures !stop ==> RunInv(w.Cells(), y, x + 1, r, ft, rule, popStale, mv, st', target)
  {
    ghost var before := w.Cells();
    var sw;
    sw, st' := MatchColumn(w, y, x, ft, rule, popStale, st, mv);
    stop := sw.Some? && st'.avail == 0;
    RunAdvance(before, y, x, r, ft, rule, popStale, mv, st, target, sw, st');
  }

  /** The loop's invariant moves on by one column, on grids. */
  lemma RunAdvance(g: Grid, y: int, x: int, r: int, ft: PixelType, rule: DensityRule, popStale: bool,
                   mv: seq<bool>, st: MatchState, target: Grid, sw: Option<(int, int)>, st': MatchState)
    requires x <= r && RunInv(g, y, x, r, ft, rule, popStale, mv, st, target)
    requires (sw, st') == Column(mv, x, st, popStale)
    requires sw.Some? ==> 0 <= sw.value.1 < g.width
    requires st'.sp <= |st'.fillPos| && StateIn(st', g.width)
    ensures var h := if sw.Some? then g.SwapFluids(x, y, sw.value.1, y + 1) else g;
            && (sw.Some? && st'.avail == 0 ==> h == target)
            && (!(sw.Some? && st'.avail == 0) ==> RunInv(h, y, x + 1, r, ft, rule, popStale, mv, st', target))
  {
    MatchFromStep(mv, x, r, st, popStale);
    if sw.Some? {
      var h := g.SwapFluids(x, y, sw.value.1, y + 1);
      var rest := if st'.avail == 0 then [] else MatchFrom(mv, x + 1, r, st', popStale);
      ApplyCons(g, y, sw.value, rest);
      assert ApplyFluidSwaps(h, y, rest) == target;
      if st'.avail == 0 {
        assert h == target;
      } else {
        SwapKeepsRowAfter(g, y, x, sw.value.1);
        assert forall i :: x + 1 <= i < h.width ==> h.TagAt(i, y) == g.TagAt(i, y);
      }
    }
  }

  /** Swapping `(x, y)` with a cell below leaves row `y` after column `x` as it was. */
  lemma SwapKeepsRowAfter(g: Grid, y: int, x: int, p: int)
    requires g.Valid() && g.InBounds(x, y) && g.InBounds(p, y + 1)
    ensures var h := g.SwapFluids(x, y, p, y + 1);
            forall i :: x < i < g.width ==> h.TagAt(i, y) == g.TagAt(i, y)
  {
    SwapFluidsCells(g, x, y, p, y + 1);
  }

  /**
    One active range `[l, r]` of row `y`: nothing for a one-cell range;
    otherwise the plan of the row below and, unless it has no fill position
    (or, under `ByType`, a single fluid type), the matching.
   */
  method RangeDensity(w: PixelWorld, y: int, l: int, r: int, rule: DensityRule, popStale: bool)
    requires w.Valid() && 0 <= y && y + 1 < w.height && 0 <= l <= r < w.width
    modifies w.tags, w.elems
    ensures w.Cells() == ApplyFluidSwaps(old(w.Cells()), y, RangeSwaps(old(w.Cells()), y, l, r, rule, popStale))
  {
    if l == r {
      return;
    }
    var ft, fp, dual := PlanFill(w, y, l, r);
    if |fp| == 0 || (rule == ByType && !dual) {
      return;
    }
    PlanIn(KindRow(w.Cells(), y + 1), ClassRow(w.Cells(), y + 1), l, r);
    MatchRange(w, y, l, r, ft, fp, rule, popStale);
  }

  /** The density pass of row `y`: its active ranges, left to right, each on the cells the ones before it left. */
  method DensityRow(w: PixelWorld, y: int, rule: DensityRule, popStale: bool)
    requires w.Valid() && 0 <= y && y + 1 < w.height
    modifies w.tags, w.elems
    ensures w.Cells() == RowDensity(old(w.Cells()), y, rule, popStale)
  {
    ghost var g0 := w.Cells();
    var rs := ActiveRanges(w, y);
    RangesMeaning(ClassRow(g0, y));
    for i := 0 to |rs|
      invariant RangesApply(w.Cells(), y, rs[i..], rule, popStale) == RangesApply(g0, y, rs, rule, popStale)
    {
      assert rs[i..][0] == rs[i] && rs[i..][1..] == rs[i + 1..];
      assert MaximalRun(ClassRow(g0, y), rs[i].0, rs[i].1);
      RangeDensity(w, y, rs[i].0, rs[i].1, rule, popStale);
    }
    assert rs[|rs|..] == [];
  }

  /**
    `densityAnalysisStep`: the density pass of every row from the second
    lowest up to the top. fluid.cpp:32-138 runs it under `ByType`,
    fluidflow.cpp:120-221 under `ByDensity`; as written both keep a used
    fill position in `left_pos` (`popStale` false). What each range of the
    pass swaps is `RangeMovers`, and `DensityFluidsOnly` says that the pass
    only rearranges fluid cells.
   */
  method DensityStep(w: PixelWorld, rule: DensityRule, popStale: bool)
    requires w.Valid()
    modifies w.tags, w.elems
    ensures w.Cells() == DensityFrom(old(w.Cells()), w.height - 2, rule, popStale)
  {
    ghost var g0 := w.Cells();
    var y := w.height - 2;
    while y >= 0
      invariant y <= w.height - 2
      invariant DensityFrom(w.Cells(), y, rule, popStale) == DensityFrom(g0, w.height - 2, rule, popStale)
      decreases y + 1
    {
      DensityRow(w, y, rule, popStale);
      y := y - 1;
    }
  }

  /** `h` is `g` with only fluid cells rearranged: every cell keeps its class, and a cell that is not fluid stays as it was. */
  ghost predicate FluidsOnly(g: Grid, h: Grid)
  {
    && g.Valid() && h.Valid() && h.width == g.width && h.height == g.height
    && forall a, b :: g.InBounds(a, b) ==>
         && h.TagAt(a, b).pclass == g.TagAt(a, b).pclass
         && (g.TagAt(a, b).pclass != Fluid ==> h.TagAt(a, b) == g.TagAt(a, b) && h.ElemAt(a, b) == g.ElemAt(a, b))
  }

  lemma FluidsOnlyTrans(g: Grid, h: Grid, k: Grid)
    requires FluidsOnly(g, h) && FluidsOnly(h, k)
    ensures FluidsOnly(g, k)
  {
  }

  /** Every swap of `s` trades a fluid cell of row `y` of `g` with a fluid cell of row `y + 1`. */
  ghost predicate FluidPairs(g: Grid, y: int, s: seq<(int, int)>)
  {
    g.Valid() && forall k :: 0 <= k < |s| ==>
      && g.InBounds(s[k].0, y) && g.InBounds(s[k].1, y + 1)
      && g.TagAt(s[k].0, y).pclass == Fluid && g.TagAt(s[k].1, y + 1).pclass == Fluid
  }

  /** One exchange of two fluid cells changes only fluid cells. */
  lemma SwappedFluidsOnly(b: Grid, a: Grid, x1: int, y1: int, x2: int, y2: int)
    requires SwappedFluids(b, a, x1, y1, x2, y2)
    requires b.TagAt(x1, y1).pclass == Fluid && b.TagAt(x2, y2).pclass == Fluid
    ensures FluidsOnly(b, a)
  {
  }

  /** Swaps between fluid cells rearrange only fluid cells, and so keep every cell's class. */
  lemma {:induction false} ApplyFluidsOnly(g: Grid, y: int, s: seq<(int, int)>)
    requires g.Valid() && FluidPairs(g, y, s)
    ensures FluidsOnly(g, ApplyFluidSwaps(g, y, s))
    decreases |s|
  {
    if s != [] {
      var s' := s[..|s| - 1];
      var sw := s[|s| - 1];
      assert FluidPairs(g, y, s') by {
        forall k | 0 <= k < |s'| ensures s'[k] == s[k] { }
      }
      ApplyFluidsOnly(g, y, s');
      var b := ApplyFluidSwaps(g, y, s');
      ApplyLastIn(g, y, s);
      var a := ApplyFluidSwaps(g, y, s);
      assert b.TagAt(sw.0, y).pclass == Fluid && b.TagAt(sw.1, y + 1).pclass == Fluid;
      SwappedFluidsOnly(b, a, sw.0, y, sw.1, y + 1);
      FluidsOnlyTrans(g, b, a);
    }
  }

  /** The classes of row `y` are those of `g` in a grid that rearranged only fluid cells. */
  lemma FluidsOnlyClassRow(g: Grid, h: Grid, y: int)
    requires g.Valid() && h.Valid() && FluidsOnly(g, h) && 0 <= y < g.height
    ensures ClassRow(h, y) == ClassRow(g, y)
  {
  }

  /** Whatever its rule and its way of keeping `left_pos`, one range of fluid cells rearranges only fluid cells. */
  lemma RangeFluidsOnly(g: Grid, y: int, l: int, r: int, rule: DensityRule, popStale: bool)
    requires g.Valid() && 0 <= y && y + 1 < g.height && MaximalRun(ClassRow(g, y), l, r)
    ensures FluidsOnly(g, ApplyFluidSwaps(g, y, RangeSwaps(g, y, l, r, rule, popStale)))
  {
    var s := RangeSwaps(g, y, l, r, rule, popStale);
    RowSwapsWithin(KindRow(g, y), KindRow(g, y + 1), ClassRow(g, y + 1), l, r, rule, popStale);
    assert FluidPairs(g, y, s);
    ApplyFluidsOnly(g, y, s);
  }

  /** The ranges `rs`, maximal runs of fluid cells of row `y`, rearrange only fluid cells. */
  lemma {:induction false} RangesFluidsOnly(g: Grid, y: int, rs: seq<(int, int)>, rule: DensityRule, popStale: bool)
    requires g.Valid() && 0 <= y && y + 1 < g.height
    requires forall k :: 0 <= k < |rs| ==> MaximalRun(ClassRow(g, y), rs[k].0, rs[k].1)
    ensures FluidsOnly(g, RangesApply(g, y, rs, rule, popStale))
    decreases |rs|
  {
    if rs != [] {
      var h := ApplyFluidSwaps(g, y, RangeSwaps(g, y, rs[0].0, rs[0].1, rule, popStale));
      RangeFluidsOnly(g, y, rs[0].0, rs[0].1, rule, popStale);
      FluidsOnlyClassRow(g, h, y);
      assert forall k :: 0 <= k < |rs[1..]| ==> rs[1..][k] == rs[k + 1];
      RangesFluidsOnly(h, y, rs[1..], rule, popStale);
      FluidsOnlyTrans(g, h, RangesApply(h, y, rs[1..], rule, popStale));
    }
  }

  /**
    The density pass, under either rule and either way of keeping
    `left_pos`, only rearranges fluid cells: every cell keeps its class, and
    every cell that is not fluid keeps its tag and element.
   */
  lemma {:induction false} DensityFluidsOnly(g: Grid, y: int, rule: DensityRule, popStale: bool)
    requires g.Valid()
    ensures FluidsOnly(g, DensityFrom(g, y, rule, popStale))
    decreases y + 1
  {
    if y >= 0 {
      var h := RowDensity(g, y, rule, popStale);
      if y + 1 < g.height {
        RangesMeaning(ClassRow(g, y));
        RangesFluidsOnly(g, y, Ranges(ClassRow(g, y)), rule, popStale);
      }
      DensityFluidsOnly(h, y - 1, rule, popStale);
      FluidsOnlyTrans(g, h, DensityFrom(h, y - 1, rule, popStale));
    }
  }
}
