// src/structures/tap.cpp: the water tap and the oil tap. While powered, a tap
// fills each of its POIs that holds a Gas-class pixel with a fresh Water or
// Oil pixel; other POIs are left alone.
module Taps {
  import opened Base
  import opened Pixels
  import opened Shapes
  import opened Grids
  import opened World
  import opened Structures
  import opened ShapeWorld
  import opened Electric
  import opened Rewrites
  import opened Raster2D

  /** A tap: a structure of kind WaterTap or OilTap. */
  predicate IsTap(k: Kind)
  {
    k.WaterTap? || k.OilTap?
  }

  /** The binomial draws a step's `Oil::create` calls would take, one per POI. */
  predicate DrawsOk(s: Structure, draws: seq<nat>)
  {
    |draws| == |s.base.poi| && forall k :: 0 <= k < |draws| ==> draws[k] <= 24
  }

  /** What a tap puts at POI `k`: a Water pixel, or an Oil pixel built from draw `k`. */
  function TapElement(s: Structure, draws: seq<nat>, k: int): (e: Element)
    requires IsTap(s.kind) && DrawsOk(s, draws) && 0 <= k < |draws|
    ensures s.kind.WaterTap? ==> e == WaterElement
    ensures s.kind.OilTap? ==> e.OilElement? && 36 <= e.burnTimeLeft <= 60
  {
    if s.kind.WaterTap? then WaterElement else NewOil(draws[k])
  }

  /** The fill pass over the POIs. */
  function TapJobs(s: Structure, draws: seq<nat>): (js: seq<Job>)
    requires IsTap(s.kind) && DrawsOk(s, draws)
    ensures |js| == |s.base.poi|
    ensures forall k :: 0 <= k < |js| ==> js[k] == Job(WorldPOI(s.base, k), TapElement(s, draws, k))
  {
    seq(|s.base.poi|, k requires 0 <= k < |s.base.poi| => Job(WorldPOI(s.base, k), TapElement(s, draws, k)))
  }

  /**
    `WaterTap::step` and `OilTap::step`: a broken shape removes the tap;
    otherwise the capacitor is updated and, when powered, the Gas POIs fill.
   */
  function TapStep(g: Grid, s: Structure, cfg: Config, draws: seq<nat>): (r: StepResult)
    requires g.Valid() && s.Valid() && IsTap(s.kind) && FitsIn(s.base, g.width, g.height) && DrawsOk(s, draws)
    ensures r.grid.Valid() && r.grid.width == g.width && r.grid.height == g.height && r.grid.statics == g.statics
    ensures r.alive <==> Intact(g, s.base)
    ensures !r.alive ==> r.grid == g && r.structure == s
    ensures r.alive ==> r.structure == s.(powerCap := InputCap(g, s.base, s.powerCap))
    ensures r.alive && !r.structure.IsPowered() ==> r.grid == g
  {
    if !Intact(g, s.base) then StepResult(false, g, s)
    else
      var cap := InputCap(g, s.base, s.powerCap);
      var g' := if cap > 0 then RewriteEach(g, TapJobs(s, draws), IfGas, cfg) else g;
      StepResult(true, g', s.(powerCap := cap))
  }

  /** Distinct POIs make distinct fill jobs. */
  lemma TapJobsDistinct(s: Structure, draws: seq<nat>)
    requires IsTap(s.kind) && DrawsOk(s, draws) && Distinct(s.base.poi)
    ensures Distinct(Targets(TapJobs(s, draws)))
  {
    var js := TapJobs(s, draws);
    forall i, j | 0 <= i < j < |js| ensures Targets(js)[i] != Targets(js)[j] {
      assert s.base.poi[i] != s.base.poi[j];
    }
  }

  /** A powered tap's step turns POI `k`, if it is Gas, into a fresh pixel of its liquid, and otherwise leaves it. */
  lemma TapFillsPOI(g: Grid, s: Structure, cfg: Config, draws: seq<nat>, k: int)
    requires g.Valid() && s.Valid() && IsTap(s.kind) && FitsIn(s.base, g.width, g.height) && DrawsOk(s, draws)
    requires Distinct(s.base.poi) && Intact(g, s.base) && InputCap(g, s.base, s.powerCap) > 0 && 0 <= k < |s.base.poi|
    ensures var q := WorldPOI(s.base, k);
            var e := TapElement(s, draws, k);
            CellOf(TapStep(g, s, cfg, draws).grid, q.x, q.y)
            == if g.TagAt(q.x, q.y).pclass == Gas then Cell(NewTag(e, cfg, 0), e) else CellOf(g, q.x, q.y)
  {
    var js := TapJobs(s, draws);
    TapJobsDistinct(s, draws);
    POIInBounds(g, s.base, k);
    RewriteEachCells(g, js, IfGas, cfg);
    assert js[k] == Job(WorldPOI(s.base, k), TapElement(s, draws, k));
  }

  /** A tap's step changes no cell other than its POIs. */
  lemma TapKeepsRest(g: Grid, s: Structure, cfg: Config, draws: seq<nat>, a: int, c: int)
    requires g.Valid() && s.Valid() && IsTap(s.kind) && FitsIn(s.base, g.width, g.height) && DrawsOk(s, draws)
    requires g.InBounds(a, c) && forall k :: 0 <= k < |s.base.poi| ==> WorldPOI(s.base, k) != Point(a, c)
    ensures CellOf(TapStep(g, s, cfg, draws).grid, a, c) == CellOf(g, a, c)
  {
    RewriteEachOutside(g, TapJobs(s, draws), IfGas, cfg, a, c);
  }

  /** Taps only ever add liquid: no POI that was not Gas changes, and every changed one now holds the tap's liquid. */
  lemma TapOnlyFills(g: Grid, s: Structure, cfg: Config, draws: seq<nat>, k: int)
    requires g.Valid() && s.Valid() && IsTap(s.kind) && FitsIn(s.base, g.width, g.height) && DrawsOk(s, draws)
    requires Distinct(s.base.poi) && 0 <= k < |s.base.poi|
    ensures var r := TapStep(g, s, cfg, draws).grid;
            var q := WorldPOI(s.base, k);
            CellOf(r, q.x, q.y) != CellOf(g, q.x, q.y) ==>
              && g.TagAt(q.x, q.y).pclass == Gas
              && (s.kind.WaterTap? ==> r.ElemAt(q.x, q.y) == WaterElement)
              && (s.kind.OilTap? ==> r.ElemAt(q.x, q.y).OilElement?)
  {
    if Intact(g, s.base) && InputCap(g, s.base, s.powerCap) > 0 {
      TapFillsPOI(g, s, cfg, draws, k);
    }
  }

  /** `WaterTap::step` and `OilTap::step` on the world. */
  method TapStepAt(w: PixelWorld, s: Structure, draws: seq<nat>) returns (alive: bool, s': Structure)
    requires w.Valid() && s.Valid() && IsTap(s.kind) && FitsIn(s.base, w.width, w.height) && DrawsOk(s, draws)
    modifies w.tags, w.elems
    ensures StepResult(alive, w.Cells(), s') == TapStep(old(w.Cells()), s, w.cfg, draws)
  {
    var intact := IntactAt(w, s.base);
    if !intact {
      return false, s;
    }
    var cap := InputStepAt(w, s.base, s.powerCap);
    if cap > 0 {
      RewriteEachAt(w, TapJobs(s, draws), IfGas);
    }
    return true, s.(powerCap := cap);
  }
}
