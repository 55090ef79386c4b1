// src/structures/heater.cpp: the heater, an input structure that, while
// powered, raises the heat of each POI by `heat_production`, capped at
// `heat_max`.
module Heaters {
  import opened Base
  import opened Pixels
  import opened Shapes
  import opened Grids
  import opened World
  import opened Structures
  import opened ShapeWorld
  import opened Electric
  import opened Rewrites
  import opened Raster2D

  /** `heat_production`: the heat a powered heater adds to each POI per tick. */
  const HeatProduction: int := 15

  /** The heat pass over the POIs (a `Warm` job writes no element, so Air stands in). */
  function HeaterJobs(b: ShapeBase): seq<Job>
  {
    POIJobs(b, AirElement)
  }

  /**
    `Heater::step`: a broken shape removes the heater; otherwise the capacitor
    is updated and, when powered, every POI is warmed.
   */
  function HeaterStep(g: Grid, s: Structure, cfg: Config): (r: StepResult)
    requires g.Valid() && s.Valid() && s.kind.Heater? && FitsIn(s.base, g.width, g.height)
    ensures r.grid.Valid() && r.grid.width == g.width && r.grid.height == g.height
    ensures r.grid.elems == g.elems && r.grid.statics == g.statics
    ensures r.alive <==> Intact(g, s.base)
    ensures !r.alive ==> r.grid == g && r.structure == s
    ensures r.alive ==> r.structure == s.(powerCap := InputCap(g, s.base, s.powerCap))
    ensures r.alive && !r.structure.IsPowered() ==> r.grid == g
  {
    if !Intact(g, s.base) then StepResult(false, g, s)
    else
      var cap := InputCap(g, s.base, s.powerCap);
      var g' := if cap > 0 then RewriteEach(g, HeaterJobs(s.base), Warm(HeatProduction), cfg) else g;
      assert g'.elems == g.elems by {
        if cap > 0 {
          WarmKeepsElems(g, HeaterJobs(s.base), HeatProduction, cfg);
        }
      }
      StepResult(true, g', s.(powerCap := cap))
  }

  /** A heat pass writes tags only. */
  lemma {:induction false} WarmKeepsElems(g: Grid, jobs: seq<Job>, n: int, cfg: Config)
    requires g.Valid()
    ensures RewriteEach(g, jobs, Warm(n), cfg).elems == g.elems
    decreases |jobs|
  {
    if |jobs| > 0 {
      WarmKeepsElems(g, jobs[..|jobs| - 1], n, cfg);
    }
  }

  /** A powered heater's step sets the heat of each POI to `min(heat + 15, heat_max)`, keeping the rest of its tag. */
  lemma HeaterWarmsPOI(g: Grid, s: Structure, cfg: Config, k: int)
    requires g.Valid() && s.Valid() && s.kind.Heater? && FitsIn(s.base, g.width, g.height) && Distinct(s.base.poi)
    requires Intact(g, s.base) && InputCap(g, s.base, s.powerCap) > 0 && 0 <= k < |s.base.poi|
    ensures var q := WorldPOI(s.base, k);
            var t := g.TagAt(q.x, q.y);
            HeaterStep(g, s, cfg).grid.TagAt(q.x, q.y) == t.(heat := Min(t.heat + HeatProduction, cfg.heatMax))
  {
    var js := HeaterJobs(s.base);
    POIJobsDistinct(s.base, AirElement);
    POIInBounds(g, s.base, k);
    RewriteEachCells(g, js, Warm(HeatProduction), cfg);
    assert js[k].at == WorldPOI(s.base, k);
  }

  /** A heater's step changes the tag of no cell other than its POIs. */
  lemma HeaterKeepsRest(g: Grid, s: Structure, cfg: Config, a: int, c: int)
    requires g.Valid() && s.Valid() && s.kind.Heater? && FitsIn(s.base, g.width, g.height)
    requires g.InBounds(a, c) && forall k :: 0 <= k < |s.base.poi| ==> WorldPOI(s.base, k) != Point(a, c)
    ensures HeaterStep(g, s, cfg).grid.TagAt(a, c) == g.TagAt(a, c)
  {
    NotPOINotTarget(s.base, AirElement, Point(a, c));
    RewriteEachOutside(g, HeaterJobs(s.base), Warm(HeatProduction), cfg, a, c);
  }

  /**
    The heater never cools a cell and never heats one past `heat_max`: a POI
    at or below the cap stays at or below it, and one above it drops to it.
   */
  lemma HeaterBounds(g: Grid, s: Structure, cfg: Config, k: int)
    requires g.Valid() && s.Valid() && s.kind.Heater? && FitsIn(s.base, g.width, g.height) && Distinct(s.base.poi)
    requires Intact(g, s.base) && InputCap(g, s.base, s.powerCap) > 0 && 0 <= k < |s.base.poi|
    ensures var q := WorldPOI(s.base, k);
            var before := g.TagAt(q.x, q.y).heat;
            var after := HeaterStep(g, s, cfg).grid.TagAt(q.x, q.y).heat;
            && after <= cfg.heatMax
            && (before <= cfg.heatMax ==> before <= after)
            && (before + HeatProduction <= cfg.heatMax ==> after == before + HeatProduction)
  {
    HeaterWarmsPOI(g, s, cfg, k);
  }

  /** `Heater::step` on the world. */
  method HeaterStepAt(w: PixelWorld, s: Structure) returns (alive: bool, s': Structure)
    requires w.Valid() && s.Valid() && s.kind.Heater? && FitsIn(s.base, w.width, w.height)
    modifies w.tags, w.elems
    ensures StepResult(alive, w.Cells(), s') == HeaterStep(old(w.Cells()), s, w.cfg)
  {
    var intact := IntactAt(w, s.base);
    if !intact {
      return false, s;
    }
    var cap := InputStepAt(w, s.base, s.powerCap);
    if cap > 0 {
      RewriteEachAt(w, HeaterJobs(s.base), Warm(HeatProduction));
    }
    return true, s.(powerCap := cap);
  }
}
