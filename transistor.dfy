// src/structures/transistor.cpp: the NPN and PNP transistors. Each is an
// input structure with one switch flag (`_conducting` for NPN, `_insulating`
// for PNP) that follows the power; when the flag flips, every POI is
// rewritten to Copper (a conductor) or Air, keeping its heat.
module Transistors {
  import opened Base
  import opened Pixels
  import opened Shapes
  import opened Grids
  import opened World
  import opened Structures
  import opened ShapeWorld
  import opened Electric
  import opened Rewrites
  import opened Raster2D

  /** A transistor: a structure of kind NPN or PNP. */
  predicate IsTransistor(k: Kind)
  {
    k.NPN? || k.PNP?
  }

  /** The switch flag: `_conducting` of an NPN, `_insulating` of a PNP. */
  function Flag(k: Kind): bool
    requires IsTransistor(k)
  {
    if k.NPN? then k.conducting else k.insulating
  }

  /** The same transistor with its switch flag set to `f`. */
  function WithFlag(k: Kind, f: bool): (k': Kind)
    requires IsTransistor(k)
    ensures IsTransistor(k') && Flag(k') == f && k'.NPN? == k.NPN?
    ensures k.NPN? ==> k'.npnDir == k.npnDir
    ensures k.PNP? ==> k'.pnpDir == k.pnpDir
  {
    if k.NPN? then NPN(k.npnDir, f) else PNP(k.pnpDir, f)
  }

  /** What a transistor keeps at its POIs: Copper when it conducts, Air when it does not. */
  function SwitchElement(k: Kind): Element
    requires IsTransistor(k)
  {
    if k.NPN? then (if k.conducting then CopperElement else AirElement)
    else if k.insulating then AirElement else CopperElement
  }

  /**
    An NPN conducts exactly when its flag is set, a PNP exactly when its flag
    is clear; so for the same power, NPN and PNP put opposite elements at
    their POIs.
   */
  lemma SwitchComplement(d: FacingDirection, d': FacingDirection, powered: bool)
    ensures SwitchElement(NPN(d, powered)) == CopperElement <==> powered
    ensures SwitchElement(PNP(d', powered)) == CopperElement <==> !powered
    ensures SwitchElement(NPN(d, powered)) != SwitchElement(PNP(d', powered))
  {
  }

  /**
    `TransistorNPN::step` and `TransistorPNP::step`: a broken shape removes the
    transistor; otherwise the capacitor is updated and the flag is set to
    whether the transistor is powered, and only when that flips it are the
    POIs rewritten.
   */
  function TransistorStep(g: Grid, s: Structure, cfg: Config): (r: StepResult)
    requires g.Valid() && s.Valid() && IsTransistor(s.kind) && FitsIn(s.base, g.width, g.height)
    ensures r.grid.Valid() && r.grid.width == g.width && r.grid.height == g.height && r.grid.statics == g.statics
    ensures !r.alive <==> !Intact(g, s.base)
    ensures !r.alive ==> r.grid == g && r.structure == s
    ensures r.alive ==> && r.structure.base == s.base
                        && r.structure.powerCap == InputCap(g, s.base, s.powerCap)
                        && IsTransistor(r.structure.kind)
                        && r.structure.kind.NPN? == s.kind.NPN?
                        && Flag(r.structure.kind) == r.structure.IsPowered()
    ensures r.alive && Flag(s.kind) == Flag(r.structure.kind) ==> r.grid == g
  {
    if !Intact(g, s.base) then StepResult(false, g, s)
    else
      var cap := InputCap(g, s.base, s.powerCap);
      var k' := WithFlag(s.kind, cap > 0);
      var g' := if Flag(s.kind) != (cap > 0) then RewriteEach(g, POIJobs(s.base, SwitchElement(k')), KeepHeat, cfg) else g;
      StepResult(true, g', Structure(s.base, cap, k'))
  }

  /**
    What a step does to the cells: when the flag flips, each POI holds the
    element of the new state with its old heat kept; nothing else changes.
   */
  lemma TransistorStepCells(g: Grid, s: Structure, cfg: Config)
    requires g.Valid() && s.Valid() && IsTransistor(s.kind) && FitsIn(s.base, g.width, g.height)
    requires Distinct(s.base.poi) && Intact(g, s.base)
    ensures var r := TransistorStep(g, s, cfg);
            var e := SwitchElement(r.structure.kind);
            && (forall k :: 0 <= k < |s.base.poi| ==>
                  var q := WorldPOI(s.base, k);
                  CellOf(r.grid, q.x, q.y)
                  == if Flag(s.kind) == Flag(r.structure.kind) then CellOf(g, q.x, q.y)
                     else Cell(NewTag(e, cfg, 0).(heat := g.TagAt(q.x, q.y).heat), e))
            && (forall a, c :: g.InBounds(a, c) && (forall k :: 0 <= k < |s.base.poi| ==> WorldPOI(s.base, k) != Point(a, c))
                  ==> CellOf(r.grid, a, c) == CellOf(g, a, c))
  {
    var r := TransistorStep(g, s, cfg);
    var e := SwitchElement(r.structure.kind);
    if Flag(s.kind) != Flag(r.structure.kind) {
      POIPassCells(g, s.base, e, KeepHeat, cfg);
      forall a, c | g.InBounds(a, c) && (forall k :: 0 <= k < |s.base.poi| ==> WorldPOI(s.base, k) != Point(a, c))
        ensures CellOf(r.grid, a, c) == CellOf(g, a, c)
      {
        NotPOINotTarget(s.base, e, Point(a, c));
      }
    }
  }

  /** Every POI holds the element of the transistor's current state. */
  predicate Settled(g: Grid, s: Structure)
    requires g.Valid() && s.Valid() && IsTransistor(s.kind) && FitsIn(s.base, g.width, g.height)
  {
    forall k :: 0 <= k < |s.base.poi| ==> g.ElemAt(WorldPOI(s.base, k).x, WorldPOI(s.base, k).y) == SwitchElement(s.kind)
  }

  /**
    The POIs agree with the switch after every step that flips it, and stay in
    agreement over a step that does not, as long as nothing else wrote them.
   */
  lemma TransistorSettles(g: Grid, s: Structure, cfg: Config)
    requires g.Valid() && s.Valid() && IsTransistor(s.kind) && FitsIn(s.base, g.width, g.height)
    requires Distinct(s.base.poi)
    ensures var r := TransistorStep(g, s, cfg);
            r.alive && (Settled(g, s) || Flag(s.kind) != Flag(r.structure.kind)) ==> Settled(r.grid, r.structure)
  {
    var r := TransistorStep(g, s, cfg);
    if r.alive {
      TransistorStepCells(g, s, cfg);
      forall k | 0 <= k < |s.base.poi|
        ensures Flag(s.kind) != Flag(r.structure.kind) ==>
                  r.grid.ElemAt(WorldPOI(s.base, k).x, WorldPOI(s.base, k).y) == SwitchElement(r.structure.kind)
      {
        POIInBounds(g, s.base, k);
      }
      if Flag(s.kind) == Flag(r.structure.kind) {
        assert SwitchElement(r.structure.kind) == SwitchElement(s.kind);
      }
    }
  }

  /** `TransistorNPN::step` and `TransistorPNP::step` on the world. */
  method TransistorStepAt(w: PixelWorld, s: Structure) returns (alive: bool, s': Structure)
    requires w.Valid() && s.Valid() && IsTransistor(s.kind) && FitsIn(s.base, w.width, w.height)
    modifies w.tags, w.elems
    ensures StepResult(alive, w.Cells(), s') == TransistorStep(old(w.Cells()), s, w.cfg)
  {
    var intact := IntactAt(w, s.base);
    if !intact {
      return false, s;
    }
    var cap := InputStepAt(w, s.base, s.powerCap);
    var k' := WithFlag(s.kind, cap > 0);
    if Flag(s.kind) != (cap > 0) {
      RewriteEachAt(w, POIJobs(s.base, SwitchElement(k')), KeepHeat);
    }
    return true, Structure(s.base, cap, k');
  }
}
