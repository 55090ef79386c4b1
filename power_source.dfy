// src/structures/power_source.cpp: the power source, an output structure that
// charges its footprint on every tick while its shape is intact.
module PowerSources {
  import opened Base
  import opened Pixels
  import opened Shapes
  import opened Grids
  import opened World
  import opened Structures
  import opened ShapeWorld
  import opened Electric
  import opened Rewrites

  /** `PowerSource::step`: a broken shape removes the source; otherwise it charges its footprint. */
  function PowerSourceStep(g: Grid, s: Structure, cfg: Config): (r: StepResult)
    requires g.Valid() && s.Valid() && s.kind.PowerSource? && FitsIn(s.base, g.width, g.height)
    ensures r.grid.Valid() && r.grid.width == g.width && r.grid.height == g.height
    ensures r.grid.elems == g.elems && r.grid.statics == g.statics && r.structure == s
    ensures r.alive <==> Intact(g, s.base)
    ensures !r.alive ==> r.grid == g
  {
    if !Intact(g, s.base) then StepResult(false, g, s)
    else StepResult(true, OutputStep(g, s.base, cfg.powerMax), s)
  }

  /**
    An intact source's step charges exactly the uncharged copper under its
    non-Air cells to `power_max`; after it, every such copper cell is charged.
   */
  lemma PowerSourceCharges(g: Grid, s: Structure, cfg: Config)
    requires g.Valid() && s.Valid() && s.kind.PowerSource? && FitsIn(s.base, g.width, g.height) && cfg.Valid()
    requires Intact(g, s.base)
    ensures var r := PowerSourceStep(g, s, cfg).grid;
            var b := s.base;
            forall a, c :: g.InBounds(a, c) && b.shape.Contains(a - b.x, c - b.y) && b.TypeAt(a - b.x, c - b.y).kind != Air
                           && g.ElemAt(a, c).CopperElement? ==>
              r.TagAt(a, c).electricPower != 0
              && (g.TagAt(a, c).electricPower == 0 ==> r.TagAt(a, c) == g.TagAt(a, c).(electricPower := cfg.powerMax))
  {
    OutputStepSpec(g, s.base, cfg.powerMax);
  }

  /** `PowerSource::step` on the world. */
  method PowerSourceStepAt(w: PixelWorld, s: Structure) returns (alive: bool, s': Structure)
    requires w.Valid() && s.Valid() && s.kind.PowerSource? && FitsIn(s.base, w.width, w.height)
    modifies w.tags
    ensures StepResult(alive, w.Cells(), s') == PowerSourceStep(old(w.Cells()), s, w.cfg)
  {
    var intact := IntactAt(w, s.base);
    if !intact {
      return false, s;
    }
    OutputStepAt(w, s.base);
    return true, s;
  }
}
