// `densityAnalysisStep` of src/fallsand/fluid.cpp on the values of two
// rows: the active ranges of row y, the fill plan read from row y + 1, and
// the matching that pairs row-y cells with fill positions below. The
// source keeps a fill position in `left_pos` after it has been used from
// the right; `MatchSwaps` models both that and the intended matching,
// and the properties of the matching are proved about the intended one.
module DensityRows {
  import opened Base
  import opened Pixels

  /** The active ranges from column `r` on, the current range starting at `l`. */
  function RangesFrom(cs: seq<PixelClass>, l: int, r: nat): seq<(int, int)>
    decreases |cs| - r
  {
    if r >= |cs| then []
    else if cs[r] == Fluid && r + 1 < |cs| then RangesFrom(cs, l, r + 1)
    else (if r > l then [(l, if cs[r] == Fluid then r else r - 1)] else []) + RangesFrom(cs, r + 1, r + 1)
  }

  /** One column of the range scan that ends the current range. */
  lemma RangesStep(cs: seq<PixelClass>, l: int, r: nat)
    requires r < |cs| && !(cs[r] == Fluid && r + 1 < |cs|)
    ensures RangesFrom(cs, l, r) == (if r > l then [(l, if cs[r] == Fluid then r else r - 1)] else []) + RangesFrom(cs, r + 1, r + 1)
  {
  }

  /** `active_ranges` of a row with classes `cs`. */
  function Ranges(cs: seq<PixelClass>): seq<(int, int)>
  {
    RangesFrom(cs, 0, 0)
  }

  /** `[a, b]` is a run of fluid cells that cannot be made longer on either side. */
  predicate MaximalRun(cs: seq<PixelClass>, a: int, b: int)
  {
    && 0 <= a <= b < |cs|
    && (forall x :: a <= x <= b ==> cs[x] == Fluid)
    && (a == 0 || cs[a - 1] != Fluid)
    && (b == |cs| - 1 || cs[b + 1] != Fluid)
  }

  /** Cell `x` is fluid and not a one-cell run in the last column, the one run the scan does not report. */
  predicate Reported(cs: seq<PixelClass>, x: int)
  {
    0 <= x < |cs| && cs[x] == Fluid && (x < |cs| - 1 || (x > 0 && cs[x - 1] == Fluid))
  }

  /**
    `rs` are maximal runs of fluid cells starting at `l` or later, left to
    right and apart, covering every reported cell from `l` on.
   */
  ghost predicate RangesFit(cs: seq<PixelClass>, rs: seq<(int, int)>, l: int)
  {
    && (forall k :: 0 <= k < |rs| ==> MaximalRun(cs, rs[k].0, rs[k].1) && l <= rs[k].0)
    && (forall k, k' :: 0 <= k < k' < |rs| ==> rs[k].1 < rs[k'].0)
    && (forall x :: l <= x && Reported(cs, x) ==> exists k :: 0 <= k < |rs| && rs[k].0 <= x <= rs[k].1)
  }

  lemma {:induction false} RangesFromMeaning(cs: seq<PixelClass>, l: int, r: nat)
    requires 0 <= l <= r <= |cs| && (r == |cs| ==> l == r)
    requires (l == 0 || l == |cs| || cs[l - 1] != Fluid) && (forall x :: l <= x < r ==> cs[x] == Fluid)
    ensures RangesFit(cs, RangesFrom(cs, l, r), l)
    decreases |cs| - r
  {
    if r >= |cs| {
    } else if cs[r] == Fluid && r + 1 < |cs| {
      RangesFromMeaning(cs, l, r + 1);
    } else {
      RangesFromMeaning(cs, r + 1, r + 1);
      RangesSplit(cs, l, r);
    }
  }

  /** The range closed at column `r`, followed by the ranges after it. */
  lemma RangesSplit(cs: seq<PixelClass>, l: int, r: nat)
    requires 0 <= l <= r < |cs| && (l == 0 || cs[l - 1] != Fluid) && (forall x :: l <= x < r ==> cs[x] == Fluid)
    requires !(cs[r] == Fluid && r + 1 < |cs|)
    requires RangesFit(cs, RangesFrom(cs, r + 1, r + 1), r + 1)
    ensures RangesFit(cs, RangesFrom(cs, l, r), l)
  {
    var rest := RangesFrom(cs, r + 1, r + 1);
    RangesStep(cs, l, r);
    if r > l {
      var b := if cs[r] == Fluid then r else r - 1;
      RunClosed(cs, l, r, b);
      RangesCons(cs, l, b, r, rest);
      assert RangesFrom(cs, l, r) == [(l, b)] + rest;
    } else {
      assert RangesFrom(cs, l, r) == rest;
      RangesWiden(cs, rest, r);
    }
  }

  /** The range the scan closes at column `r` is a maximal run. */
  lemma RunClosed(cs: seq<PixelClass>, l: int, r: int, b: int)
    requires 0 <= l < r < |cs| && (l == 0 || cs[l - 1] != Fluid) && (forall x :: l <= x < r ==> cs[x] == Fluid)
    requires !(cs[r] == Fluid && r + 1 < |cs|) && b == (if cs[r] == Fluid then r else r - 1)
    ensures MaximalRun(cs, l, b) && (b == r || (b == r - 1 && cs[r] != Fluid))
  {
  }

  /** Ranges after `r` are the ranges after `r - 1` when `r` is not reported. */
  lemma RangesWiden(cs: seq<PixelClass>, rest: seq<(int, int)>, r: int)
    requires RangesFit(cs, rest, r + 1) && !Reported(cs, r)
    ensures RangesFit(cs, rest, r)
  {
    forall x | r <= x && Reported(cs, x)
      ensures exists k :: 0 <= k < |rest| && rest[k].0 <= x <= rest[k].1
    {
      assert r + 1 <= x;
    }
  }

  /** A maximal run ending at `r`, or just before a non-fluid `r`, put in front of the ranges after `r`. */
  lemma RangesCons(cs: seq<PixelClass>, l: int, b: int, r: int, rest: seq<(int, int)>)
    requires MaximalRun(cs, l, b) && RangesFit(cs, rest, r + 1)
    requires b == r || (b == r - 1 && 0 <= r < |cs| && cs[r] != Fluid)
    ensures RangesFit(cs, [(l, b)] + rest, l)
  {
    var all := [(l, b)] + rest;
    forall k | 0 <= k < |all| ensures MaximalRun(cs, all[k].0, all[k].1) && l <= all[k].0 {
      if k > 0 { assert all[k] == rest[k - 1]; }
    }
    forall k, k' | 0 <= k < k' < |all| ensures all[k].1 < all[k'].0 {
      assert all[k'] == rest[k' - 1];
      if k > 0 { assert all[k] == rest[k - 1]; }
    }
    forall x | l <= x && Reported(cs, x)
      ensures exists k :: 0 <= k < |all| && all[k].0 <= x <= all[k].1
    {
      if x <= b {
        assert all[0].0 <= x <= all[0].1;
      } else {
        assert r + 1 <= x;
        var k :| 0 <= k < |rest| && rest[k].0 <= x <= rest[k].1;
        assert all[k + 1] == rest[k];
      }
    }
  }

  /**
    The active ranges of a row are maximal runs of fluid cells, left to
    right and apart from each other, and every fluid cell lies in one of
    them unless it is a one-cell run in the last column.
   */
  lemma RangesMeaning(cs: seq<PixelClass>)
    ensures RangesFit(cs, Ranges(cs), 0)
  {
    RangesFromMeaning(cs, 0, 0);
  }

  /** The fill plan of a range: the type to lift, where it lies in the row below, and whether two fluid types meet there. */
  datatype FillPlan = FillPlan(fillType: PixelType, fillPos: seq<int>, dual: bool)

  /** The plan scan of row y + 1 (kinds `ks`, classes `cs`) from column `x` to `r`. */
  function PlanFrom(ks: seq<PixelType>, cs: seq<PixelClass>, x: int, r: int, p: FillPlan): FillPlan
    requires 0 <= x && r < |ks| == |cs|
    decreases r + 1 - x
  {
    if x > r then p
    else if cs[x] != Fluid then PlanFrom(ks, cs, x + 1, r, p)
    else
      var t := ks[x];
      var dual := p.dual || (p.fillType != Air && p.fillType != t);
      var q := if p.fillType == Air || IsDenser(p.fillType, t) then FillPlan(t, [], dual) else p.(dual := dual);
      PlanFrom(ks, cs, x + 1, r, if t == q.fillType then q.(fillPos := q.fillPos + [x]) else q)
  }

  /** The fill plan of `[l, r]`. */
  function Plan(ks: seq<PixelType>, cs: seq<PixelClass>, l: int, r: int): FillPlan
    requires 0 <= l && r < |ks| == |cs|
  {
    PlanFrom(ks, cs, l, r, FillPlan(Air, [], false))
  }

  predicate Increasing(s: seq<int>)
  {
    forall i, j :: 0 <= i < j < |s| ==> s[i] < s[j]
  }

  /** Plan positions lie in the scanned range. */
  lemma {:induction false} PlanFromIn(ks: seq<PixelType>, cs: seq<PixelClass>, l: int, x: int, r: int, p: FillPlan)
    requires 0 <= l <= x <= r + 1 && r < |ks| == |cs|
    requires forall k :: 0 <= k < |p.fillPos| ==> l <= p.fillPos[k] < x && cs[p.fillPos[k]] == Fluid
    ensures forall k :: 0 <= k < |PlanFrom(ks, cs, x, r, p).fillPos| ==> FluidIn(cs, l, r + 1, PlanFrom(ks, cs, x, r, p).fillPos[k])
    decreases r + 1 - x
  {
    if x <= r {
      if cs[x] != Fluid {
        PlanFromIn(ks, cs, l, x + 1, r, p);
      } else {
        var t := ks[x];
        var dual := p.dual || (p.fillType != Air && p.fillType != t);
        var q := if p.fillType == Air || IsDenser(p.fillType, t) then FillPlan(t, [], dual) else p.(dual := dual);
        PlanFromIn(ks, cs, l, x + 1, r, if t == q.fillType then q.(fillPos := q.fillPos + [x]) else q);
      }
    } else {
      assert PlanFrom(ks, cs, x, r, p) == p;
    }
  }

  /** The fill positions of a plan of `[l, r]` are fluid cells of `[l, r]`. */
  lemma PlanIn(ks: seq<PixelType>, cs: seq<PixelClass>, l: int, r: int)
    requires 0 <= l <= r + 1 && r < |ks| == |cs|
    ensures forall k :: 0 <= k < |Plan(ks, cs, l, r).fillPos| ==> FluidIn(cs, l, r + 1, Plan(ks, cs, l, r).fillPos[k])
  {
    PlanFromIn(ks, cs, l, l, r, FillPlan(Air, [], false));
  }

  /** Every fill position of `p` is a cell of `ks` of the fill type. */
  ghost predicate FillKinds(ks: seq<PixelType>, p: FillPlan)
  {
    forall k :: 0 <= k < |p.fillPos| ==> 0 <= p.fillPos[k] < |ks| && ks[p.fillPos[k]] == p.fillType
  }

  /** A plan's fill positions, once they are of its fill type, stay so to the end of the scan. */
  lemma {:induction false} PlanFromKind(ks: seq<PixelType>, cs: seq<PixelClass>, x: int, r: int, p: FillPlan)
    requires 0 <= x && r < |ks| == |cs| && FillKinds(ks, p)
    ensures FillKinds(ks, PlanFrom(ks, cs, x, r, p))
    decreases r + 1 - x
  {
    if x <= r {
      if cs[x] != Fluid {
        PlanFromKind(ks, cs, x + 1, r, p);
      } else {
        var t := ks[x];
        var dual := p.dual || (p.fillType != Air && p.fillType != t);
        var q := if p.fillType == Air || IsDenser(p.fillType, t) then FillPlan(t, [], dual) else p.(dual := dual);
        var q' := if t == q.fillType then q.(fillPos := q.fillPos + [x]) else q;
        assert FillKinds(ks, q');
        PlanFromKind(ks, cs, x + 1, r, q');
      }
    }
  }

  /** Every fill position of a plan holds the plan's fill type. */
  lemma FillPosKind(ks: seq<PixelType>, cs: seq<PixelClass>, l: int, r: int)
    requires 0 <= l && r < |ks| == |cs|
    ensures FillKinds(ks, Plan(ks, cs, l, r))
  {
    PlanFromKind(ks, cs, l, r, FillPlan(Air, [], false));
  }

  /** No fluid cell of `[l, r)` has the kind `Air`, which the scan reads as "no type yet". */
  predicate NoAirFluid(ks: seq<PixelType>, cs: seq<PixelClass>, l: int, r: int)
    requires |ks| == |cs|
  {
    forall z :: l <= z < r && 0 <= z < |cs| && cs[z] == Fluid ==> ks[z] != Air
  }

  /** `z` is a fluid cell of `[l, r)`. */
  predicate FluidIn(cs: seq<PixelClass>, l: int, r: int, z: int)
  {
    l <= z < r && 0 <= z < |cs| && cs[z] == Fluid
  }

  /** `[l, r)` holds a fluid cell. */
  ghost predicate AnyFluid(cs: seq<PixelClass>, l: int, r: int)
  {
    exists z :: FluidIn(cs, l, r, z)
  }

  /** What the plan of `[l, x)` says about those cells. */
  ghost predicate PlanFits(ks: seq<PixelType>, cs: seq<PixelClass>, l: int, x: int, p: FillPlan)
    requires |ks| == |cs|
  {
    && (p.fillType == Air <==> !AnyFluid(cs, l, x))
    && (forall z :: FluidIn(cs, l, x, z) ==> Rank(p.fillType) <= Rank(ks[z]))
    && Increasing(p.fillPos)
    && (forall k :: 0 <= k < |p.fillPos| ==> FluidIn(cs, l, x, p.fillPos[k]) && ks[p.fillPos[k]] == p.fillType)
    && (forall z :: FluidIn(cs, l, x, z) && ks[z] == p.fillType ==> z in p.fillPos)
    && (p.fillType != Air ==> p.fillPos != [])
    && (!p.dual ==> forall z :: FluidIn(cs, l, x, z) ==> ks[z] == p.fillType)
    && (p.dual ==> exists z1, z2 :: FluidIn(cs, l, x, z1) && FluidIn(cs, l, x, z2) && ks[z1] != ks[z2])
  }

  /** One column of the plan scan keeps `PlanFits`. */
  lemma PlanStep(ks: seq<PixelType>, cs: seq<PixelClass>, l: int, x: int, r: int, p: FillPlan)
    requires 0 <= l <= x <= r < |ks| == |cs| && NoAirFluid(ks, cs, l, r + 1)
    requires PlanFits(ks, cs, l, x, p)
    ensures cs[x] != Fluid ==> PlanFits(ks, cs, l, x + 1, p)
    ensures cs[x] == Fluid ==>
              var t := ks[x];
              var dual := p.dual || (p.fillType != Air && p.fillType != t);
              var q := if p.fillType == Air || IsDenser(p.fillType, t) then FillPlan(t, [], dual) else p.(dual := dual);
              PlanFits(ks, cs, l, x + 1, if t == q.fillType then q.(fillPos := q.fillPos + [x]) else q)
  {
    if cs[x] != Fluid {
      PlanSkip(ks, cs, l, x, p);
    } else {
      var t := ks[x];
      var dual := p.dual || (p.fillType != Air && p.fillType != t);
      if p.fillType == Air || IsDenser(p.fillType, t) {
        PlanReplace(ks, cs, l, x, r, p, dual);
      } else if t == p.fillType {
        PlanAppend(ks, cs, l, x, r, p);
      } else {
        PlanHeavier(ks, cs, l, x, r, p);
      }
    }
  }

  /** A cell that is not fluid changes nothing in the plan. */
  lemma PlanSkip(ks: seq<PixelType>, cs: seq<PixelClass>, l: int, x: int, p: FillPlan)
    requires 0 <= l <= x < |ks| == |cs| && cs[x] != Fluid
    requires PlanFits(ks, cs, l, x, p)
    ensures PlanFits(ks, cs, l, x + 1, p)
  {
    forall z | FluidIn(cs, l, x + 1, z) ensures FluidIn(cs, l, x, z) {
    }
    forall k | 0 <= k < |p.fillPos| ensures FluidIn(cs, l, x + 1, p.fillPos[k]) {
    }
    if AnyFluid(cs, l, x + 1) {
      var z :| FluidIn(cs, l, x + 1, z);
      assert FluidIn(cs, l, x, z);
    }
    if AnyFluid(cs, l, x) {
      var z :| FluidIn(cs, l, x, z);
      assert FluidIn(cs, l, x + 1, z);
    }
    if p.dual {
      var z1, z2 :| FluidIn(cs, l, x, z1) && FluidIn(cs, l, x, z2) && ks[z1] != ks[z2];
      assert FluidIn(cs, l, x + 1, z1) && FluidIn(cs, l, x + 1, z2);
    }
  }

  /** A fluid cell whose type is the lightest so far starts a new fill list. */
  lemma PlanReplace(ks: seq<PixelType>, cs: seq<PixelClass>, l: int, x: int, r: int, p: FillPlan, dual: bool)
    requires 0 <= l <= x <= r < |ks| == |cs| && NoAirFluid(ks, cs, l, r + 1)
    requires PlanFits(ks, cs, l, x, p) && cs[x] == Fluid
    requires p.fillType == Air || IsDenser(p.fillType, ks[x])
    requires dual == (p.dual || (p.fillType != Air && p.fillType != ks[x]))
    ensures PlanFits(ks, cs, l, x + 1, FillPlan(ks[x], [x], dual))
  {
    var t := ks[x];
    forall z | FluidIn(cs, l, x + 1, z) ensures Rank(t) <= Rank(ks[z]) {
      if z < x { assert FluidIn(cs, l, x, z); }
    }
    assert forall z :: FluidIn(cs, l, x, z) ==> ks[z] != t;
    forall z | FluidIn(cs, l, x + 1, z) && ks[z] == t ensures z in [x] {
      assert !FluidIn(cs, l, x, z);
    }
    if dual {
      if p.dual {
        var z1, z2 :| FluidIn(cs, l, x, z1) && FluidIn(cs, l, x, z2) && ks[z1] != ks[z2];
        assert FluidIn(cs, l, x + 1, z1) && FluidIn(cs, l, x + 1, z2);
      } else {
        var z1 := p.fillPos[0];
        assert FluidIn(cs, l, x + 1, z1) && FluidIn(cs, l, x + 1, x) && ks[z1] != ks[x];
      }
    } else {
      assert p.fillType == Air;
      forall z | FluidIn(cs, l, x + 1, z) ensures ks[z] == t {
        assert !FluidIn(cs, l, x, z);
      }
    }
    assert FluidIn(cs, l, x + 1, x);
  }

  /** A fluid cell of the fill type joins the fill list. */
  lemma PlanAppend(ks: seq<PixelType>, cs: seq<PixelClass>, l: int, x: int, r: int, p: FillPlan)
    requires 0 <= l <= x <= r < |ks| == |cs| && NoAirFluid(ks, cs, l, r + 1)
    requires PlanFits(ks, cs, l, x, p) && cs[x] == Fluid && ks[x] == p.fillType
    ensures PlanFits(ks, cs, l, x + 1, p.(fillPos := p.fillPos + [x]))
  {
    var q := p.(fillPos := p.fillPos + [x]);
    assert FluidIn(cs, l, x + 1, x);
    forall z | FluidIn(cs, l, x + 1, z) ensures Rank(q.fillType) <= Rank(ks[z]) {
      if z < x { assert FluidIn(cs, l, x, z); }
    }
    forall k | 0 <= k < |q.fillPos| ensures FluidIn(cs, l, x + 1, q.fillPos[k]) && ks[q.fillPos[k]] == q.fillType {
      if k < |p.fillPos| { assert q.fillPos[k] == p.fillPos[k]; }
    }
    forall z | FluidIn(cs, l, x + 1, z) && ks[z] == q.fillType ensures z in q.fillPos {
      if z < x { assert FluidIn(cs, l, x, z); }
    }
    forall i, j | 0 <= i < j < |q.fillPos| ensures q.fillPos[i] < q.fillPos[j] {
      if j == |p.fillPos| { assert FluidIn(cs, l, x, q.fillPos[i]); }
    }
    if q.dual {
      var z1, z2 :| FluidIn(cs, l, x, z1) && FluidIn(cs, l, x, z2) && ks[z1] != ks[z2];
      assert FluidIn(cs, l, x + 1, z1) && FluidIn(cs, l, x + 1, z2);
    } else {
      forall z | FluidIn(cs, l, x + 1, z) ensures ks[z] == q.fillType {
        if z < x { assert FluidIn(cs, l, x, z); }
      }
    }
  }

  /** A fluid cell of a heavier type than the fill type only makes the range dual. */
  lemma PlanHeavier(ks: seq<PixelType>, cs: seq<PixelClass>, l: int, x: int, r: int, p: FillPlan)
    requires 0 <= l <= x <= r < |ks| == |cs| && NoAirFluid(ks, cs, l, r + 1)
    requires PlanFits(ks, cs, l, x, p) && cs[x] == Fluid
    requires p.fillType != Air && !IsDenser(p.fillType, ks[x]) && ks[x] != p.fillType
    ensures PlanFits(ks, cs, l, x + 1, p.(dual := true))
  {
    assert FluidIn(cs, l, x + 1, x);
    forall z | FluidIn(cs, l, x + 1, z) ensures Rank(p.fillType) <= Rank(ks[z]) {
      if z < x { assert FluidIn(cs, l, x, z); }
    }
    forall z | FluidIn(cs, l, x + 1, z) && ks[z] == p.fillType ensures z in p.fillPos {
      assert FluidIn(cs, l, x, z);
    }
    forall k | 0 <= k < |p.fillPos| ensures FluidIn(cs, l, x + 1, p.fillPos[k]) {
    }
    var z1 := p.fillPos[0];
    assert FluidIn(cs, l, x + 1, z1) && ks[z1] != ks[x];
  }

  lemma {:induction false} PlanFromMeaning(ks: seq<PixelType>, cs: seq<PixelClass>, l: int, x: int, r: int, p: FillPlan)
    requires 0 <= l <= x <= r + 1 && r < |ks| == |cs| && NoAirFluid(ks, cs, l, r + 1)
    requires PlanFits(ks, cs, l, x, p)
    ensures PlanFits(ks, cs, l, r + 1, PlanFrom(ks, cs, x, r, p))
    decreases r + 1 - x
  {
    if x <= r {
      PlanStep(ks, cs, l, x, r, p);
      var t := ks[x];
      var dual := p.dual || (p.fillType != Air && p.fillType != t);
      var q := if p.fillType == Air || IsDenser(p.fillType, t) then FillPlan(t, [], dual) else p.(dual := dual);
      PlanFromMeaning(ks, cs, l, x + 1, r, if cs[x] != Fluid then p else if t == q.fillType then q.(fillPos := q.fillPos + [x]) else q);
    }
  }

  /**
    The plan of `[l, r]` in a row whose fluid cells are not of kind `Air`:
    the fill type is the lightest fluid type there (none when there is no
    fluid), the fill positions are exactly its cells from left to right,
    and the range counts as dual exactly when two fluid types meet in it.
   */
  lemma PlanMeaning(ks: seq<PixelType>, cs: seq<PixelClass>, l: int, r: int)
    requires 0 <= l <= r < |ks| == |cs| && NoAirFluid(ks, cs, l, r + 1)
    ensures var p := Plan(ks, cs, l, r);
            && (p.fillType == Air <==> !AnyFluid(cs, l, r + 1))
            && (forall z :: FluidIn(cs, l, r + 1, z) ==> Rank(p.fillType) <= Rank(ks[z]))
            && Increasing(p.fillPos)
            && (forall k :: 0 <= k < |p.fillPos| ==> FluidIn(cs, l, r + 1, p.fillPos[k]) && ks[p.fillPos[k]] == p.fillType)
            && (forall z :: FluidIn(cs, l, r + 1, z) && ks[z] == p.fillType ==> z in p.fillPos)
            && (p.dual <==> exists z1, z2 :: FluidIn(cs, l, r + 1, z1) && FluidIn(cs, l, r + 1, z2) && ks[z1] != ks[z2])
  {
    PlanFromMeaning(ks, cs, l, l, r, FillPlan(Air, [], false));
    var p := Plan(ks, cs, l, r);
    if !p.dual {
      forall z1, z2 | FluidIn(cs, l, r + 1, z1) && FluidIn(cs, l, r + 1, z2) ensures ks[z1] == ks[z2] { }
    }
  }

  /** The matching state: the fill positions (`-1` once used from the right), the scan index `sp`, `left_pos` and `avail_count`. */
  datatype MatchState = MatchState(fillPos: seq<int>, sp: nat, left: seq<int>, avail: int)

  /** The scan index `sp` moved past used fill positions and those left of `x`. */
  function Advance(fp: seq<int>, sp: nat, x: int): (k: nat)
    requires sp <= |fp|
    ensures sp <= k <= |fp|
    ensures forall j :: sp <= j < k ==> fp[j] == -1 || fp[j] < x
    ensures k < |fp| ==> fp[k] != -1 && fp[k] >= x
    decreases |fp| - sp
  {
    if sp < |fp| && (fp[sp] == -1 || fp[sp] < x) then Advance(fp, sp + 1, x) else sp
  }

  /** The state on reaching column `x`: the scan index `sp` advanced, and `x` pushed to `left_pos` when it is a fill position. */
  function Arrive(st: MatchState, x: int): (st1: MatchState)
    requires st.sp <= |st.fillPos|
    ensures st1.fillPos == st.fillPos && st1.avail == st.avail && st.sp <= st1.sp <= |st1.fillPos|
  {
    var sp := Advance(st.fillPos, st.sp, x);
    st.(sp := sp, left := if sp < |st.fillPos| && st.fillPos[sp] == x then st.left + [x] else st.left)
  }

  /** Column `x` takes `lp`, the nearest fill position on its left, rather than the one at the scan index `sp`. */
  predicate TakesLeft(st1: MatchState, x: int)
    requires st1.sp <= |st1.fillPos|
  {
    st1.left != [] && (st1.sp == |st1.fillPos| || x - st1.left[|st1.left| - 1] < st1.fillPos[st1.sp] - x)
  }

  /**
    Column `x` of the matching over row y, `mv` marking the cells that move:
    the swap it makes, if any, and the next state. With `popStale` a fill
    position taken from the right is also dropped from `left_pos`.
   */
  function Column(mv: seq<bool>, x: int, st: MatchState, popStale: bool): (res: (Option<(int, int)>, MatchState))
    requires 0 <= x < |mv| && st.sp <= |st.fillPos|
    ensures |res.1.fillPos| == |st.fillPos| && res.1.sp <= |res.1.fillPos|
    ensures res.0.Some? ==> res.0.value.0 == x && mv[x] && res.1.avail == st.avail - 1
    ensures res.0.None? ==> res.1.avail == st.avail
  {
    var st1 := Arrive(st, x);
    var left := st1.left;
    if !mv[x] then (None, st1)
    else if TakesLeft(st1, x) then
      (Some((x, left[|left| - 1])), st1.(left := left[..|left| - 1], avail := st.avail - 1))
    else if st1.sp < |st1.fillPos| then
      var rp := st1.fillPos[st1.sp];
      var left' := if popStale && rp == x && left != [] then left[..|left| - 1] else left;
      (Some((x, rp)), st1.(fillPos := st1.fillPos[st1.sp := -1], left := left', avail := st.avail - 1))
    else (None, st1)
  }

  /** The scan state names only columns in `[0, n)`, apart from the used mark `-1`. */
  predicate StateIn(st: MatchState, n: int)
  {
    && (forall i :: 0 <= i < |st.left| ==> 0 <= st.left[i] < n)
    && (forall k :: 0 <= k < |st.fillPos| ==> st.fillPos[k] == -1 || 0 <= st.fillPos[k] < n)
  }

  /** A column keeps the scan state inside the row, and swaps with a column of the row. */
  lemma ColumnIn(mv: seq<bool>, x: int, st: MatchState, popStale: bool)
    requires 0 <= x < |mv| && st.sp <= |st.fillPos| && StateIn(st, |mv|)
    ensures StateIn(Column(mv, x, st, popStale).1, |mv|)
    ensures Column(mv, x, st, popStale).0.Some? ==> 0 <= Column(mv, x, st, popStale).0.value.1 < |mv|
  {
    var st1 := Arrive(st, x);
    assert StateIn(st1, |mv|);
    var left := st1.left;
    if left != [] {
      assert forall i :: 0 <= i < |left| - 1 ==> left[..|left| - 1][i] == left[i];
    }
  }

  /** The swaps of the matching from column `x` to `r`; it stops once `avail_count` reaches zero. */
  function MatchFrom(mv: seq<bool>, x: int, r: int, st: MatchState, popStale: bool): seq<(int, int)>
    requires 0 <= x <= r + 1 && r < |mv| && st.sp <= |st.fillPos|
    decreases r + 1 - x
  {
    if x > r then []
    else
      var (sw, st') := Column(mv, x, st, popStale);
      if sw.None? then MatchFrom(mv, x + 1, r, st', popStale)
      else if st'.avail == 0 then [sw.value]
      else [sw.value] + MatchFrom(mv, x + 1, r, st', popStale)
  }

  /** `MatchFrom` with its first column taken. */
  lemma MatchFromStep(mv: seq<bool>, x: int, r: int, st: MatchState, popStale: bool)
    requires 0 <= x <= r < |mv| && st.sp <= |st.fillPos|
    ensures var res := Column(mv, x, st, popStale);
            MatchFrom(mv, x, r, st, popStale) ==
              if res.0.None? then MatchFrom(mv, x + 1, r, res.1, popStale)
              else if res.1.avail == 0 then [res.0.value]
              else [res.0.value] + MatchFrom(mv, x + 1, r, res.1, popStale)
  {
  }

  /**
    The swaps `(x, q)` of the range `[l, r]`: the cell at `(x, y)` trades
    places with the one at `(q, y + 1)`. `popStale` selects whether a fill
    position taken from the right is also dropped from `left_pos`;
    fluid.cpp:124-131 does not drop it.
   */
  function MatchSwaps(mv: seq<bool>, fp: seq<int>, l: int, r: int, popStale: bool): seq<(int, int)>
    requires 0 <= l <= r < |mv|
  {
    MatchFrom(mv, l, r, MatchState(fp, 0, [], |fp|), popStale)
  }

  /** The fill positions of `st` are those of the plan, `fp0`, some marked used. */
  ghost predicate FillShape(fp0: seq<int>, st: MatchState)
  {
    && Increasing(fp0)
    && |st.fillPos| == |fp0| && st.sp <= |fp0|
    && (forall k :: 0 <= k < |fp0| ==> st.fillPos[k] == fp0[k] || st.fillPos[k] == -1)
  }

  /** The state invariant of the matching before column `x`, `used` being the fill positions already taken. */
  ghost predicate MatchInv(fp0: seq<int>, st: MatchState, x: int, used: set<int>)
  {
    && FillShape(fp0, st)
    && (forall k :: st.sp <= k < |fp0| && st.fillPos[k] != -1 ==> st.fillPos[k] !in used)
    && Increasing(st.left)
    && (forall i :: 0 <= i < |st.left| ==> st.left[i] < x && st.left[i] !in used && st.left[i] in fp0)
    && st.avail >= 1
  }

  /** What column `x` promises: the invariant again and, for a swap, a fresh fill position. */
  ghost predicate ColumnFits(mv: seq<bool>, fp0: seq<int>, x: int, st: MatchState, used: set<int>,
                             res: (Option<(int, int)>, MatchState))
    requires 0 <= x < |mv|
  {
    && (res.0.None? ==> MatchInv(fp0, res.1, x + 1, used))
    && (res.0.Some? ==> && res.0.value.0 == x && mv[x] && res.0.value.1 in fp0 && res.0.value.1 !in used
                        && res.1.avail == st.avail - 1
                        && (res.1.avail != 0 ==> MatchInv(fp0, res.1, x + 1, used + {res.0.value.1})))
  }

  /** Column `x` keeps the invariant and, when it swaps, takes a fresh fill position. */
  lemma ColumnKeeps(mv: seq<bool>, fp0: seq<int>, x: int, st: MatchState, used: set<int>)
    requires 0 <= x < |mv| && MatchInv(fp0, st, x, used)
    ensures ColumnFits(mv, fp0, x, st, used, Column(mv, x, st, true))
  {
    var st1 := Arrive(st, x);
    if !mv[x] || (!TakesLeft(st1, x) && st1.sp == |st1.fillPos|) {
      ColumnStays(mv, fp0, x, st, used);
    } else if TakesLeft(st1, x) {
      ColumnGoesLeft(mv, fp0, x, st, used);
    } else {
      ColumnGoesRight(mv, fp0, x, st, used);
    }
  }

  /** The column does not swap. */
  lemma ColumnStays(mv: seq<bool>, fp0: seq<int>, x: int, st: MatchState, used: set<int>)
    requires 0 <= x < |mv| && MatchInv(fp0, st, x, used)
    requires !mv[x] || (!TakesLeft(Arrive(st, x), x) && Arrive(st, x).sp == |st.fillPos|)
    ensures ColumnFits(mv, fp0, x, st, used, Column(mv, x, st, true))
  {
    var st1 := Arrive(st, x);
    AdvanceAbove(fp0, st, x, st1.sp);
    ColumnLeft(fp0, st, x, st1.sp, st1.left, used);
    ColumnNoSwap(mv, fp0, x, st, used);
  }

  /** The column swaps with the nearest fill position on its left. */
  lemma ColumnGoesLeft(mv: seq<bool>, fp0: seq<int>, x: int, st: MatchState, used: set<int>)
    requires 0 <= x < |mv| && MatchInv(fp0, st, x, used)
    requires mv[x] && TakesLeft(Arrive(st, x), x)
    ensures ColumnFits(mv, fp0, x, st, used, Column(mv, x, st, true))
  {
    LeftFresh(fp0, x, st, used);
    ColumnLeftFits(mv, fp0, x, st, used);
  }

  /** Taking the nearest fill position on the left takes a fresh one and keeps the invariant. */
  lemma LeftFresh(fp0: seq<int>, x: int, st: MatchState, used: set<int>)
    requires MatchInv(fp0, st, x, used) && TakesLeft(Arrive(st, x), x)
    ensures LeftTaken(fp0, x, st, used)
  {
    var st1 := Arrive(st, x);
    AdvanceAbove(fp0, st, x, st1.sp);
    ColumnLeft(fp0, st, x, st1.sp, st1.left, used);
    ColumnFromLeft(fp0, st, x, st1.sp, st1.left, used);
  }

  /** The fill position taken from the left is fresh, and the state after it keeps the invariant. */
  ghost predicate LeftTaken(fp0: seq<int>, x: int, st: MatchState, used: set<int>)
    requires st.sp <= |st.fillPos|
  {
    var st1 := Arrive(st, x);
    var left := st1.left;
    && TakesLeft(st1, x)
    && var lp := left[|left| - 1];
    && lp in fp0 && lp !in used
    && (st.avail - 1 != 0 ==> MatchInv(fp0, st.(sp := st1.sp, left := left[..|left| - 1], avail := st.avail - 1), x + 1, used + {lp}))
  }

  /** The column swaps with the fill position at the scan index `sp`. */
  lemma ColumnGoesRight(mv: seq<bool>, fp0: seq<int>, x: int, st: MatchState, used: set<int>)
    requires 0 <= x < |mv| && MatchInv(fp0, st, x, used)
    requires mv[x] && !TakesLeft(Arrive(st, x), x) && Arrive(st, x).sp < |st.fillPos|
    ensures ColumnFits(mv, fp0, x, st, used, Column(mv, x, st, true))
  {
    var st1 := Arrive(st, x);
    AdvanceAbove(fp0, st, x, st1.sp);
    ColumnLeft(fp0, st, x, st1.sp, st1.left, used);
    ColumnFromRight(fp0, st, x, st1.sp, st1.left, used);
    ColumnRightFits(mv, fp0, x, st, used);
  }

  /** A column that swaps nothing moves to the next column with the arrival state. */
  lemma ColumnNoSwap(mv: seq<bool>, fp0: seq<int>, x: int, st: MatchState, used: set<int>)
    requires 0 <= x < |mv| && MatchInv(fp0, st, x, used)
    requires var st1 := Arrive(st, x);
             && (!mv[x] || (!TakesLeft(st1, x) && st1.sp == |st1.fillPos|))
             && Increasing(st1.left)
             && (forall i :: 0 <= i < |st1.left| ==> st1.left[i] <= x && st1.left[i] !in used && st1.left[i] in fp0)
    ensures ColumnFits(mv, fp0, x, st, used, Column(mv, x, st, true))
  {
    assert Column(mv, x, st, true) == (None, Arrive(st, x));
  }

  /** The swap from the left in the terms of `Column`. */
  lemma ColumnLeftFits(mv: seq<bool>, fp0: seq<int>, x: int, st: MatchState, used: set<int>)
    requires 0 <= x < |mv| && st.sp <= |st.fillPos| && mv[x]
    requires LeftTaken(fp0, x, st, used)
    ensures ColumnFits(mv, fp0, x, st, used, Column(mv, x, st, true))
  {
  }

  /** The swap from the right in the terms of `Column`. */
  lemma ColumnRightFits(mv: seq<bool>, fp0: seq<int>, x: int, st: MatchState, used: set<int>)
    requires 0 <= x < |mv| && st.sp <= |st.fillPos| && mv[x]
    requires var st1 := Arrive(st, x);
             var left := st1.left;
             && !TakesLeft(st1, x) && st1.sp < |st1.fillPos|
             && var rp := st1.fillPos[st1.sp];
             && (rp == x ==> left != [])
             && var left' := if rp == x then left[..|left| - 1] else left;
             && rp in fp0 && rp !in used
             && (st.avail - 1 != 0 ==> MatchInv(fp0, st.(sp := st1.sp, fillPos := st1.fillPos[st1.sp := -1], left := left', avail := st.avail - 1), x + 1, used + {rp}))
    ensures ColumnFits(mv, fp0, x, st, used, Column(mv, x, st, true))
  {
  }

  /** Fill positions after the scan index `sp` lie right of the one it points at. */
  lemma AdvanceAbove(fp0: seq<int>, st: MatchState, x: int, sp: nat)
    requires FillShape(fp0, st)
    requires sp == Advance(st.fillPos, st.sp, x)
    ensures forall k :: sp <= k < |fp0| && st.fillPos[k] != -1 ==> st.fillPos[k] >= x
  {
    forall k | sp <= k < |fp0| && st.fillPos[k] != -1 ensures st.fillPos[k] >= x {
      if k > sp { assert fp0[sp] < fp0[k]; }
    }
  }

  /** `left_pos` after the push of column `x`. */
  lemma ColumnLeft(fp0: seq<int>, st: MatchState, x: int, sp: nat, left: seq<int>, used: set<int>)
    requires MatchInv(fp0, st, x, used) && sp == Advance(st.fillPos, st.sp, x)
    requires left == if sp < |st.fillPos| && st.fillPos[sp] == x then st.left + [x] else st.left
    ensures Increasing(left)
    ensures forall i :: 0 <= i < |left| ==> left[i] <= x && left[i] !in used && left[i] in fp0
    ensures forall i :: 0 <= i < |left| - 1 ==> left[i] < x
    ensures left != [] && left[|left| - 1] == x <==> sp < |st.fillPos| && st.fillPos[sp] == x
  {
    if sp < |st.fillPos| && st.fillPos[sp] == x {
      assert fp0[sp] == x;
    }
  }

  /** A swap with the nearest fill position on the left. */
  lemma ColumnFromLeft(fp0: seq<int>, st: MatchState, x: int, sp: nat, left: seq<int>, used: set<int>)
    requires MatchInv(fp0, st, x, used) && sp == Advance(st.fillPos, st.sp, x)
    requires Increasing(left) && (forall i :: 0 <= i < |left| ==> left[i] <= x && left[i] !in used && left[i] in fp0)
    requires left != [] && left[|left| - 1] == x ==> sp < |st.fillPos| && st.fillPos[sp] == x
    requires forall k :: sp <= k < |fp0| && st.fillPos[k] != -1 ==> st.fillPos[k] >= x
    requires left != [] && (sp == |st.fillPos| || x - left[|left| - 1] < st.fillPos[sp] - x)
    ensures var lp := left[|left| - 1];
            && lp < x && lp in fp0 && lp !in used
            && (st.avail - 1 != 0 ==> MatchInv(fp0, st.(sp := sp, left := left[..|left| - 1], avail := st.avail - 1), x + 1, used + {lp}))
  {
    var lp := left[|left| - 1];
    assert lp < x;
    var left' := left[..|left| - 1];
    forall i | 0 <= i < |left'| ensures left'[i] < x + 1 && left'[i] !in used + {lp} && left'[i] in fp0 {
      assert left'[i] == left[i] < lp;
    }
  }

  /** A swap with the fill position at the scan index `sp`. */
  lemma ColumnFromRight(fp0: seq<int>, st: MatchState, x: int, sp: nat, left: seq<int>, used: set<int>)
    requires MatchInv(fp0, st, x, used) && sp == Advance(st.fillPos, st.sp, x) && sp < |st.fillPos|
    requires Increasing(left) && (forall i :: 0 <= i < |left| ==> left[i] <= x && left[i] !in used && left[i] in fp0)
    requires forall i :: 0 <= i < |left| - 1 ==> left[i] < x
    requires st.fillPos[sp] == x ==> left != [] && left[|left| - 1] == x
    requires forall k :: sp <= k < |fp0| && st.fillPos[k] != -1 ==> st.fillPos[k] >= x
    ensures var rp := st.fillPos[sp];
            var left' := if rp == x then left[..|left| - 1] else left;
            && rp in fp0 && rp !in used
            && (st.avail - 1 != 0 ==> MatchInv(fp0, st.(sp := sp, fillPos := st.fillPos[sp := -1], left := left', avail := st.avail - 1), x + 1, used + {rp}))
  {
    var rp := st.fillPos[sp];
    assert rp == fp0[sp];
    var left' := if rp == x then left[..|left| - 1] else left;
    var fp' := st.fillPos[sp := -1];
    forall k | sp <= k < |fp0| && fp'[k] != -1 ensures fp'[k] !in used + {rp} {
      assert fp0[sp] < fp0[k];
    }
    forall i | 0 <= i < |left'| ensures left'[i] < x + 1 && left'[i] !in used + {rp} && left'[i] in fp0 {
      assert left'[i] == left[i];
      if rp != x { assert left[i] <= x < rp; } else { assert i < |left| - 1; }
    }
  }

  /** What the swaps from column `x` on satisfy, given the fill positions already `used`. */
  ghost predicate SwapsFit(mv: seq<bool>, fp0: seq<int>, x: int, r: int, used: set<int>, s: seq<(int, int)>)
  {
    && (forall k :: 0 <= k < |s| ==> x <= s[k].0 <= r && 0 <= s[k].0 < |mv| && mv[s[k].0])
    && (forall k, k' :: 0 <= k < k' < |s| ==> s[k].0 < s[k'].0)
    && (forall k :: 0 <= k < |s| ==> s[k].1 in fp0 && s[k].1 !in used)
    && (forall k, k' :: 0 <= k < k' < |s| ==> s[k].1 != s[k'].1)
  }

  /** One swap at column `x` in front of the swaps after it. */
  lemma SwapsCons(mv: seq<bool>, fp0: seq<int>, x: int, r: int, used: set<int>, q: int, s: seq<(int, int)>)
    requires 0 <= x <= r && r < |mv| && mv[x] && q in fp0 && q !in used
    requires SwapsFit(mv, fp0, x + 1, r, used + {q}, s)
    ensures SwapsFit(mv, fp0, x, r, used, [(x, q)] + s)
  {
    var all := [(x, q)] + s;
    forall k | 0 < k < |all| ensures all[k] == s[k - 1] { }
  }

  lemma {:induction false} MatchFromMeaning(mv: seq<bool>, fp0: seq<int>, x: int, r: int, st: MatchState, used: set<int>)
    requires 0 <= x <= r + 1 && r < |mv| && MatchInv(fp0, st, x, used)
    ensures SwapsFit(mv, fp0, x, r, used, MatchFrom(mv, x, r, st, true))
    ensures |MatchFrom(mv, x, r, st, true)| <= st.avail
    decreases r + 1 - x, 1
  {
    if x <= r {
      ColumnKeeps(mv, fp0, x, st, used);
      var res := Column(mv, x, st, true);
      if res.0.None? {
        MatchSkip(mv, fp0, x, r, st, used);
      } else if res.1.avail == 0 {
        MatchLast(mv, fp0, x, r, st, used);
      } else {
        MatchSwap(mv, fp0, x, r, st, used);
      }
    }
  }

  /** A column without a swap adds nothing to the swaps after it. */
  lemma {:induction false} MatchSkip(mv: seq<bool>, fp0: seq<int>, x: int, r: int, st: MatchState, used: set<int>)
    requires 0 <= x <= r && r < |mv| && st.sp <= |st.fillPos|
    requires ColumnFits(mv, fp0, x, st, used, Column(mv, x, st, true))
    requires Column(mv, x, st, true).0.None? && Column(mv, x, st, true).1.avail == st.avail
    ensures SwapsFit(mv, fp0, x, r, used, MatchFrom(mv, x, r, st, true))
    ensures |MatchFrom(mv, x, r, st, true)| <= st.avail
    decreases r + 1 - x, 0
  {
    MatchFromMeaning(mv, fp0, x + 1, r, Column(mv, x, st, true).1, used);
  }

  /** A column whose swap uses the last available fill position ends the matching. */
  lemma MatchLast(mv: seq<bool>, fp0: seq<int>, x: int, r: int, st: MatchState, used: set<int>)
    requires 0 <= x <= r && r < |mv| && st.sp <= |st.fillPos| && st.avail >= 1
    requires ColumnFits(mv, fp0, x, st, used, Column(mv, x, st, true))
    requires Column(mv, x, st, true).0.Some? && Column(mv, x, st, true).1.avail == 0
    ensures SwapsFit(mv, fp0, x, r, used, MatchFrom(mv, x, r, st, true))
    ensures |MatchFrom(mv, x, r, st, true)| <= st.avail
  {
    var res := Column(mv, x, st, true);
    SwapsCons(mv, fp0, x, r, used, res.0.value.1, []);
  }

  /** A column with a swap, followed by the swaps after it. */
  lemma {:induction false} MatchSwap(mv: seq<bool>, fp0: seq<int>, x: int, r: int, st: MatchState, used: set<int>)
    requires 0 <= x <= r && r < |mv| && st.sp <= |st.fillPos|
    requires ColumnFits(mv, fp0, x, st, used, Column(mv, x, st, true))
    requires Column(mv, x, st, true).0.Some? && Column(mv, x, st, true).1.avail != 0
    ensures SwapsFit(mv, fp0, x, r, used, MatchFrom(mv, x, r, st, true))
    ensures |MatchFrom(mv, x, r, st, true)| <= st.avail
    decreases r + 1 - x, 0
  {
    var res := Column(mv, x, st, true);
    var q := res.0.value.1;
    MatchFromMeaning(mv, fp0, x + 1, r, res.1, used + {q});
    SwapsCons(mv, fp0, x, r, used, q, MatchFrom(mv, x + 1, r, res.1, true));
  }

  /**
    The swaps of a range with a non-empty, increasing list of fill
    positions: their row-y columns lie in the range, increase and are not
    of the fill type; their row-(y + 1) partners are fill positions, each
    taken at most once; and there are no more swaps than fill positions.
   */
  lemma MatchMeaning(mv: seq<bool>, fp: seq<int>, l: int, r: int)
    requires 0 <= l <= r < |mv| && fp != [] && Increasing(fp)
    ensures var s := MatchSwaps(mv, fp, l, r, true);
            && (forall k :: 0 <= k < |s| ==> l <= s[k].0 <= r && mv[s[k].0])
            && (forall k, k' :: 0 <= k < k' < |s| ==> s[k].0 < s[k'].0)
            && (forall k :: 0 <= k < |s| ==> s[k].1 in fp)
            && (forall k, k' :: 0 <= k < k' < |s| ==> s[k].1 != s[k'].1)
            && |s| <= |fp|
  {
    MatchFromMeaning(mv, fp, l, r, MatchState(fp, 0, [], |fp|), {});
  }

  /**
    Row y of four movers over row y + 1 with fill positions 0 and 3: as
    written the fill cell at column 0 is used twice, the second time after
    it has already risen, and the one at column 3 stays below.
   */
  lemma MatchAsWrittenReusesFillPosition()
    ensures MatchSwaps([true, true, true, true], [0, 3], 0, 3, false) == [(0, 0), (1, 0)]
    ensures MatchSwaps([true, true, true, true], [0, 3], 0, 3, true) == [(0, 0), (1, 3)]
  {
    var mv := [true, true, true, true];
    var st0 := MatchState([0, 3], 0, [], 2);
    assert Arrive(st0, 0) == MatchState([0, 3], 0, [0], 2);
    assert [0, 3][0 := -1] == [-1, 3];
    var a1 := MatchState([-1, 3], 0, [0], 1);
    var c1 := MatchState([-1, 3], 0, [], 1);
    assert Column(mv, 0, st0, false) == (Some((0, 0)), a1);
    assert Column(mv, 0, st0, true) == (Some((0, 0)), c1);
    assert Advance([-1, 3], 1, 1) == 1;
    assert Arrive(a1, 1) == MatchState([-1, 3], 1, [0], 1);
    assert Arrive(c1, 1) == MatchState([-1, 3], 1, [], 1);
    assert [-1, 3][1 := -1] == [-1, -1];
    assert Column(mv, 1, a1, false) == (Some((1, 0)), MatchState([-1, 3], 1, [], 0));
    assert Column(mv, 1, c1, true) == (Some((1, 3)), MatchState([-1, -1], 1, [], 0));
    assert MatchFrom(mv, 1, 3, a1, false) == [(1, 0)];
    assert MatchFrom(mv, 1, 3, c1, true) == [(1, 3)];
  }

  /** The scan state holds only fill positions of `fp0`, apart from the used mark `-1`. */
  ghost predicate Within(fp0: seq<int>, st: MatchState)
  {
    && |st.fillPos| == |fp0| && st.sp <= |fp0|
    && (forall k :: 0 <= k < |fp0| ==> st.fillPos[k] == fp0[k] || st.fillPos[k] == -1)
    && (forall i :: 0 <= i < |st.left| ==> st.left[i] in fp0)
  }

  /** Whichever way `left_pos` is kept, a column swaps with a fill position and keeps the state within `fp0`. */
  lemma ColumnWithin(mv: seq<bool>, fp0: seq<int>, x: int, st: MatchState, popStale: bool)
    requires 0 <= x < |mv| && Within(fp0, st)
    ensures Within(fp0, Column(mv, x, st, popStale).1)
    ensures Column(mv, x, st, popStale).0.Some? ==> Column(mv, x, st, popStale).0.value.1 in fp0
  {
    var st1 := Arrive(st, x);
    if st1.sp < |st1.fillPos| {
      assert st1.fillPos[st1.sp] == fp0[st1.sp];
    }
    assert Within(fp0, st1);
  }

  /** Whichever way `left_pos` is kept, the matching from `x` swaps columns of `[x, r]` with fill positions. */
  lemma {:induction false} MatchFromWithin(mv: seq<bool>, fp0: seq<int>, x: int, r: int, st: MatchState, popStale: bool)
    requires 0 <= x <= r + 1 && r < |mv| && Within(fp0, st)
    ensures SwapsWithin(MatchFrom(mv, x, r, st, popStale), x, r, fp0)
    decreases r + 1 - x
  {
    if x <= r {
      var c := Column(mv, x, st, popStale);
      ColumnWithin(mv, fp0, x, st, popStale);
      MatchFromWithin(mv, fp0, x + 1, r, c.1, popStale);
      var rest := MatchFrom(mv, x + 1, r, c.1, popStale);
      MatchFromStep(mv, x, r, st, popStale);
      if c.0.Some? {
        assert c.0.value.0 == x;
        if c.1.avail != 0 {
          SwapsConsWithin(c.0.value, rest, x, r, fp0);
        }
      }
    }
  }

  /**
    Whichever way `left_pos` is kept, the matching from `x` swaps only
    moving columns of `[x, r]`, from left to right, and, with `avail_count`
    positive to begin with, no more often than it allows.
   */
  lemma {:induction false} MatchFromMovers(mv: seq<bool>, x: int, r: int, st: MatchState, popStale: bool)
    requires 0 <= x <= r + 1 && r < |mv| && st.sp <= |st.fillPos| && st.avail >= 1
    ensures MoversInOrder(MatchFrom(mv, x, r, st, popStale), mv, x, r)
    ensures |MatchFrom(mv, x, r, st, popStale)| <= st.avail
    decreases r + 1 - x
  {
    if x <= r {
      var c := Column(mv, x, st, popStale);
      var rest := MatchFrom(mv, x + 1, r, c.1, popStale);
      MatchFromStep(mv, x, r, st, popStale);
      if c.0.None? {
        MatchFromMovers(mv, x + 1, r, c.1, popStale);
      } else if c.1.avail != 0 {
        MatchFromMovers(mv, x + 1, r, c.1, popStale);
        ConsMovers(c.0.value, rest, mv, x, r);
      } else {
        ConsMovers(c.0.value, [], mv, x, r);
      }
    }
  }

  /** The swaps of `s` take moving columns of `[x, r]`, from left to right. */
  ghost predicate MoversInOrder(s: seq<(int, int)>, mv: seq<bool>, x: int, r: int)
  {
    && (forall k :: 0 <= k < |s| ==> x <= s[k].0 <= r && 0 <= s[k].0 < |mv| && mv[s[k].0])
    && (forall k, k' :: 0 <= k < k' < |s| ==> s[k].0 < s[k'].0)
  }

  lemma ConsMovers(hd: (int, int), rest: seq<(int, int)>, mv: seq<bool>, x: int, r: int)
    requires 0 <= x == hd.0 <= r < |mv| && mv[x] && MoversInOrder(rest, mv, x + 1, r)
    ensures MoversInOrder([hd] + rest, mv, x, r)
  {
    var s := [hd] + rest;
    forall k | 0 < k < |s| ensures s[k] == rest[k - 1] { }
  }

  /** Every swap of `s` takes a column of `[x, r]` and a fill position of `fp0`. */
  ghost predicate SwapsWithin(s: seq<(int, int)>, x: int, r: int, fp0: seq<int>)
  {
    forall k :: 0 <= k < |s| ==> x <= s[k].0 <= r && s[k].1 in fp0
  }

  lemma SwapsConsWithin(hd: (int, int), rest: seq<(int, int)>, x: int, r: int, fp0: seq<int>)
    requires x <= hd.0 <= r && hd.1 in fp0 && SwapsWithin(rest, x + 1, r, fp0)
    ensures SwapsWithin([hd] + rest, x, r, fp0)
  {
    var s := [hd] + rest;
    forall k | 0 <= k < |s|
      ensures x <= s[k].0 <= r && s[k].1 in fp0
    {
      if k > 0 {
        assert s[k] == rest[k - 1];
      }
    }
  }

  /**
    Which cells of row y take part in the density pass of a range with fill
    type `ft`: `ByType` is fluid.cpp's pass (fluid.cpp:98-100), where every
    cell that is not of the fill type moves and a range below with one fluid
    type is skipped; `ByDensity` is fluidflow.cpp's pass (fluidflow.cpp:182-184),
    where only a cell strictly denser than the fill type moves.
   */
  datatype DensityRule = ByType | ByDensity

  /** The cell of type `t` moves down over fill type `ft` under `rule`. */
  predicate Moves(rule: DensityRule, t: PixelType, ft: PixelType)
  {
    match rule
    case ByType => t != ft
    case ByDensity => IsDenser(t, ft)
  }

  /** The movers of row y under `rule`. */
  function Movers(ts: seq<PixelType>, ft: PixelType, rule: DensityRule): (mv: seq<bool>)
    ensures |mv| == |ts| && forall x :: 0 <= x < |ts| ==> (mv[x] <==> Moves(rule, ts[x], ft))
  {
    seq(|ts|, x requires 0 <= x < |ts| => Moves(rule, ts[x], ft))
  }

  /**
    The swaps one range `[l, r]` of row y asks for (fluid.cpp:54-135,
    fluidflow.cpp:141-218): none for a single cell or when the row below
    holds no fill position, and under `ByType` none when it holds only one
    fluid type; otherwise the matching of the movers of row y `ts` against
    the plan of the row below (`ks`, `cs`).
   */
  function RowSwaps(ts: seq<PixelType>, ks: seq<PixelType>, cs: seq<PixelClass>, l: int, r: int,
                    rule: DensityRule, popStale: bool): seq<(int, int)>
    requires 0 <= l <= r < |ts| == |ks| == |cs|
  {
    if l == r then []
    else
      var p := Plan(ks, cs, l, r);
      if |p.fillPos| == 0 || (rule == ByType && !p.dual) then []
      else MatchSwaps(Movers(ts, p.fillType, rule), p.fillPos, l, r, popStale)
  }

  /**
    Each swap of a range trades a cell of row y that moves over the fill
    type for a fluid cell below the range whose type is the fill type, the
    lightest fluid type there; no cell of either row takes part twice.
   */
  lemma RowSwapsMeaning(ts: seq<PixelType>, ks: seq<PixelType>, cs: seq<PixelClass>, l: int, r: int,
                        rule: DensityRule)
    requires 0 <= l <= r < |ts| == |ks| == |cs| && NoAirFluid(ks, cs, l, r + 1)
    ensures var s := RowSwaps(ts, ks, cs, l, r, rule, true);
            var ft := Plan(ks, cs, l, r).fillType;
            && (forall k :: 0 <= k < |s| ==>
                  && l <= s[k].0 <= r && Moves(rule, ts[s[k].0], ft)
                  && l <= s[k].1 <= r && cs[s[k].1] == Fluid && ks[s[k].1] == ft)
            && (forall k, k' :: 0 <= k < k' < |s| ==> s[k].0 < s[k'].0 && s[k].1 != s[k'].1)
            && (s != [] ==> forall z :: FluidIn(cs, l, r + 1, z) ==> Rank(ft) <= Rank(ks[z]))
  {
    var s := RowSwaps(ts, ks, cs, l, r, rule, true);
    if s != [] {
      var p := Plan(ks, cs, l, r);
      PlanMeaning(ks, cs, l, r);
      MatchMeaning(Movers(ts, p.fillType, rule), p.fillPos, l, r);
      forall k | 0 <= k < |s|
        ensures l <= s[k].1 <= r && cs[s[k].1] == Fluid && ks[s[k].1] == p.fillType
      {
        var i :| 0 <= i < |p.fillPos| && p.fillPos[i] == s[k].1;
        assert FluidIn(cs, l, r + 1, p.fillPos[i]);
      }
    }
  }

  /**
    Whichever rule and way of keeping `left_pos`, each swap of a range
    trades a cell of the range in row y that moves over the fill type for a
    fluid cell of the fill type in the range of the row below; the row-y
    columns increase, and there are no more swaps than fill positions.
   */
  lemma RowSwapsWithin(ts: seq<PixelType>, ks: seq<PixelType>, cs: seq<PixelClass>, l: int, r: int,
                       rule: DensityRule, popStale: bool)
    requires 0 <= l <= r < |ts| == |ks| == |cs|
    ensures var s := RowSwaps(ts, ks, cs, l, r, rule, popStale);
            var p := Plan(ks, cs, l, r);
            && (forall k :: 0 <= k < |s| ==>
                  && l <= s[k].0 <= r && Moves(rule, ts[s[k].0], p.fillType)
                  && FluidIn(cs, l, r + 1, s[k].1) && ks[s[k].1] == p.fillType)
            && (forall k, k' :: 0 <= k < k' < |s| ==> s[k].0 < s[k'].0)
            && |s| <= |p.fillPos|
  {
    var s := RowSwaps(ts, ks, cs, l, r, rule, popStale);
    if s != [] {
      var p := Plan(ks, cs, l, r);
      PlanIn(ks, cs, l, r);
      var mv := Movers(ts, p.fillType, rule);
      var st0 := MatchState(p.fillPos, 0, [], |p.fillPos|);
      var m := MatchFrom(mv, l, r, st0, popStale);
      assert s == m;
      assert Within(p.fillPos, st0);
      MatchFromWithin(mv, p.fillPos, l, r, st0, popStale);
      assert SwapsWithin(m, l, r, p.fillPos);
      MatchFromMovers(mv, l, r, st0, popStale);
      FillPosKind(ks, cs, l, r);
      forall k | 0 <= k < |s|
        ensures Moves(rule, ts[s[k].0], p.fillType)
        ensures FluidIn(cs, l, r + 1, s[k].1) && ks[s[k].1] == p.fillType
      {
        assert mv[m[k].0];
        assert m[k].1 in p.fillPos;
        var i :| 0 <= i < |p.fillPos| && p.fillPos[i] == s[k].1;
        assert FluidIn(cs, l, r + 1, p.fillPos[i]);
      }
    }
  }
}
