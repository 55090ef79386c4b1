// src/structures/pressure_plate.cpp: the pressure plate and the heavy
// pressure plate. Both are output structures that charge their footprint in
// a tick where something presses one of their POIs: for the plate, a Solid
// or Fluid pixel or an external entity (the duck); for the heavy plate, only
// an external entity.
module PressurePlates {
  import opened Base
  import opened Pixels
  import opened Shapes
  import opened Grids
  import opened World
  import opened Structures
  import opened ShapeWorld
  import opened Electric
  import opened Rewrites

  /** A plate: a structure of kind Plate or HeavyPlate. */
  predicate IsPlate(k: Kind)
  {
    k.Plate? || k.HeavyPlate?
  }

  /** Whether world cell `q` presses a plate of kind `k`. */
  predicate PressesAt(g: Grid, k: Kind, q: Point)
    requires g.Valid()
  {
    && g.InBounds(q.x, q.y)
    && (|| g.StaticAt(q.x, q.y).externalEntityPresent
        || (k.Plate? && g.TagAt(q.x, q.y).pclass in {Solid, Fluid}))
  }

  /** The scan of `step`: some POI presses the plate. */
  predicate Pressed(g: Grid, s: Structure)
    requires g.Valid()
  {
    exists k :: 0 <= k < |s.base.poi| && PressesAt(g, s.kind, WorldPOI(s.base, k))
  }

  /**
    `PressurePlate::step` and `HeavyPressurePlate::step`: a broken shape
    removes the plate; otherwise a pressed plate charges its footprint and an
    unpressed one changes nothing.
   */
  function PlateStep(g: Grid, s: Structure, cfg: Config): (r: StepResult)
    requires g.Valid() && s.Valid() && IsPlate(s.kind) && FitsIn(s.base, g.width, g.height)
    ensures r.grid.Valid() && r.grid.width == g.width && r.grid.height == g.height
    ensures r.grid.elems == g.elems && r.grid.statics == g.statics && r.structure == s
    ensures r.alive <==> Intact(g, s.base)
    ensures !(r.alive && Pressed(g, s)) ==> r.grid == g
  {
    if !Intact(g, s.base) then StepResult(false, g, s)
    else if Pressed(g, s) then StepResult(true, OutputStep(g, s.base, cfg.powerMax), s)
    else StepResult(true, g, s)
  }

  /**
    A step of a pressed, intact plate charges exactly the uncharged copper
    under its non-Air cells to `power_max`, and changes nothing else.
   */
  lemma PlateCharges(g: Grid, s: Structure, cfg: Config)
    requires g.Valid() && s.Valid() && IsPlate(s.kind) && FitsIn(s.base, g.width, g.height) && cfg.Valid()
    requires Intact(g, s.base) && Pressed(g, s)
    ensures var r := PlateStep(g, s, cfg).grid;
            var b := s.base;
            forall a, c :: g.InBounds(a, c) ==>
              r.TagAt(a, c)
              == if && b.shape.Contains(a - b.x, c - b.y) && b.TypeAt(a - b.x, c - b.y).kind != Air
                    && g.ElemAt(a, c).CopperElement? && g.TagAt(a, c).electricPower == 0
                 then g.TagAt(a, c).(electricPower := cfg.powerMax) else g.TagAt(a, c)
  {
    OutputStepSpec(g, s.base, cfg.powerMax);
  }

  /**
    The heavy plate answers to the entity alone: whatever presses a heavy
    plate also presses a plate over the same POIs, and pixels never press a
    heavy plate.
   */
  lemma HeavyNeedsEntity(g: Grid, s: Structure)
    requires g.Valid() && s.kind.HeavyPlate?
    ensures Pressed(g, s) ==> Pressed(g, s.(kind := Plate))
    ensures Pressed(g, s) <==> exists k :: 0 <= k < |s.base.poi| && g.InBounds(WorldPOI(s.base, k).x, WorldPOI(s.base, k).y)
                                           && g.StaticAt(WorldPOI(s.base, k).x, WorldPOI(s.base, k).y).externalEntityPresent
  {
    if Pressed(g, s) {
      var k :| 0 <= k < |s.base.poi| && PressesAt(g, s.kind, WorldPOI(s.base, k));
      assert PressesAt(g, Plate, WorldPOI(s.base, k));
    }
  }

  /** The scan on the world: the loop over `poi`, stopping at the first POI that presses. */
  method PressedAt(w: PixelWorld, s: Structure) returns (powered: bool)
    requires w.Valid()
    ensures powered == Pressed(w.Cells(), s)
  {
    var k := 0;
    while k < |s.base.poi|
      invariant 0 <= k <= |s.base.poi|
      invariant forall k' :: 0 <= k' < k ==> !PressesAt(w.Cells(), s.kind, WorldPOI(s.base, k'))
    {
      var q := WorldPOI(s.base, k);
      if w.InBounds(q.x, q.y) {
        var tag := w.TagOf(q.x, q.y);
        if s.kind.Plate? && (tag.pclass == Solid || tag.pclass == Fluid) {
          return true;
        }
        var stag := w.StaticTagOf(q.x, q.y);
        if stag.externalEntityPresent {
          return true;
        }
      }
      k := k + 1;
    }
    return false;
  }

  /** `PressurePlate::step` and `HeavyPressurePlate::step` on the world. */
  method PlateStepAt(w: PixelWorld, s: Structure) returns (alive: bool, s': Structure)
    requires w.Valid() && s.Valid() && IsPlate(s.kind) && FitsIn(s.base, w.width, w.height)
    modifies w.tags
    ensures StepResult(alive, w.Cells(), s') == PlateStep(old(w.Cells()), s, w.cfg)
  {
    var intact := IntactAt(w, s.base);
    if !intact {
      return false, s;
    }
    var powered := PressedAt(w, s);
    if powered {
      OutputStepAt(w, s.base);
    }
    return true, s;
  }
}
