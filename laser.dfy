// src/structures/laser.cpp: the laser emitter, whose beam marches from its
// POI one cell at a time until it leaves the world or meets a blocker, and
// the laser receiver, which charges its footprint while the beam reaches its
// POI. The beam is the tail-recursive `Beam`; `BeamCells` says which cells it
// lights and which single cell it heats.
module Lasers {
  import opened Base
  import opened Pixels
  import opened Shapes
  import opened Grids
  import opened World
  import opened Structures
  import opened ShapeWorld
  import opened Electric
  import opened Rewrites

  /** `laser_heat_amount`: the heat a Solid blocker takes from the beam each tick. */
  const LaserHeatAmount: int := 5

  /** How many unit steps from `p` in direction `d` stay inside a `width` x `height` world, for `p` inside it. */
  function Reach(width: int, height: int, p: Point, d: FacingDirection): int
  {
    match d
    case North => p.y + 1
    case East => width - p.x
    case South => height - p.y
    case West => p.x + 1
  }

  /** The beam stops at a Solid cell (which it heats) and at a Smoke cell. */
  predicate Blocks(g: Grid, p: Point)
    requires g.Valid() && g.InBounds(p.x, p.y)
  {
    g.TagAt(p.x, p.y).pclass == Solid || g.TagAt(p.x, p.y).kind == Smoke
  }

  /**
    The beam loop of `LaserEmitter::step` from cell `p` on: leave the world,
    or heat a Solid cell and stop, or stop at Smoke, or light the cell and
    move one step on.
   */
  function Beam(g: Grid, p: Point, d: FacingDirection): (r: Grid)
    requires g.Valid()
    ensures r.Valid() && r.width == g.width && r.height == g.height && r.elems == g.elems
    decreases Reach(g.width, g.height, p, d)
  {
    if !g.InBounds(p.x, p.y) then g
    else
      var t := g.TagAt(p.x, p.y);
      if t.pclass == Solid then g.WithTag(p.x, p.y, t.(heat := t.heat + LaserHeatAmount))
      else if t.kind == Smoke then g
      else Beam(g.WithStatic(p.x, p.y, g.StaticAt(p.x, p.y).(laserActive := true)), Along(p, d, 1), d)
  }

  /** The number of cells the beam lights: the in-bounds, unblocked cells before the first that is not. */
  function BeamLength(g: Grid, p: Point, d: FacingDirection): nat
    requires g.Valid()
    decreases Reach(g.width, g.height, p, d)
  {
    if !g.InBounds(p.x, p.y) || Blocks(g, p) then 0 else 1 + BeamLength(g, Along(p, d, 1), d)
  }

  /** Where the beam ends: the first cell from `p` that is off the world or blocks. */
  lemma {:induction false} BeamLengthSpec(g: Grid, p: Point, d: FacingDirection)
    requires g.Valid()
    ensures var n := BeamLength(g, p, d);
            && (forall i :: 0 <= i < n ==> g.InBounds(Along(p, d, i).x, Along(p, d, i).y) && !Blocks(g, Along(p, d, i)))
            && (g.InBounds(Along(p, d, n).x, Along(p, d, n).y) ==> Blocks(g, Along(p, d, n)))
    decreases Reach(g.width, g.height, p, d)
  {
    if g.InBounds(p.x, p.y) && !Blocks(g, p) {
      var p1 := Along(p, d, 1);
      BeamLengthSpec(g, p1, d);
      forall i | 0 <= i <= BeamLength(g, p1, d) ensures Along(p1, d, i) == Along(p, d, i + 1) {
      }
      forall i | 0 <= i < BeamLength(g, p, d)
        ensures g.InBounds(Along(p, d, i).x, Along(p, d, i).y) && !Blocks(g, Along(p, d, i))
      {
        if i > 0 {
          assert Along(p, d, i) == Along(p1, d, i - 1);
        }
      }
    }
  }

  /** The beam's extent depends on the tags alone, so lighting cells does not change it. */
  lemma {:induction false} BeamLengthTags(g: Grid, h: Grid, p: Point, d: FacingDirection)
    requires g.Valid() && h.Valid() && g.width == h.width && g.height == h.height && g.tags == h.tags
    ensures BeamLength(g, p, d) == BeamLength(h, p, d)
    decreases Reach(g.width, g.height, p, d)
  {
    if g.InBounds(p.x, p.y) && !Blocks(g, p) {
      BeamLengthTags(g, h, Along(p, d, 1), d);
    }
  }

  /** A lit cell `i` steps along the ray: one of the first `n`. */
  ghost predicate OnBeam(p: Point, d: FacingDirection, n: int, q: Point)
  {
    exists i :: 0 <= i < n && Along(p, d, i) == q
  }

  /** The points of a ray are distinct. */
  lemma AlongDistinct(p: Point, d: FacingDirection, i: int, j: int)
    ensures Along(p, d, i) == Along(p, d, j) <==> i == j
  {
  }

  /** The ray cells lit from `p` are `p` itself and the cells lit from the next cell on. */
  lemma OnBeamStep(p: Point, d: FacingDirection, m: nat, q: Point)
    ensures OnBeam(p, d, m + 1, q) <==> q == p || OnBeam(Along(p, d, 1), d, m, q)
  {
    var p1 := Along(p, d, 1);
    if q == p {
      assert Along(p, d, 0) == q;
    }
    if OnBeam(p, d, m + 1, q) && q != p {
      var i :| 0 <= i < m + 1 && Along(p, d, i) == q;
      assert Along(p1, d, i - 1) == q;
    }
    if OnBeam(p1, d, m, q) {
      var i :| 0 <= i < m && Along(p1, d, i) == q;
      assert Along(p, d, i + 1) == q;
    }
  }

  /** The beam sets `laser_active` on exactly the lit cells and leaves every other static tag. */
  lemma {:induction false} BeamStaticAt(g: Grid, p: Point, d: FacingDirection, a: int, c: int)
    requires g.Valid() && g.InBounds(a, c)
    ensures Beam(g, p, d).StaticAt(a, c)
            == if OnBeam(p, d, BeamLength(g, p, d), Point(a, c)) then g.StaticAt(a, c).(laserActive := true) else g.StaticAt(a, c)
    decreases Reach(g.width, g.height, p, d)
  {
    if g.InBounds(p.x, p.y) && !Blocks(g, p) {
      var st := g.StaticAt(p.x, p.y).(laserActive := true);
      var h := g.WithStatic(p.x, p.y, st);
      var p1 := Along(p, d, 1);
      WithStaticCells(g, p.x, p.y, st);
      BeamLengthTags(g, h, p1, d);
      BeamStaticAt(h, p1, d, a, c);
      OnBeamStep(p, d, BeamLength(g, p1, d), Point(a, c));
      if Point(a, c) == p {
        BeamStaticAt(h, p1, d, p.x, p.y);
        assert !OnBeam(p1, d, BeamLength(g, p1, d), p) by {
          forall i | 0 <= i < BeamLength(g, p1, d) ensures Along(p1, d, i) != p {
            AlongDistinct(p, d, 0, i + 1);
          }
        }
      }
    } else if g.InBounds(p.x, p.y) && g.TagAt(p.x, p.y).pclass == Solid {
      WithTagCells(g, p.x, p.y, g.TagAt(p.x, p.y).(heat := g.TagAt(p.x, p.y).heat + LaserHeatAmount));
    }
  }

  /** The beam heats the Solid cell it stops at, if any, and leaves every other tag. */
  lemma {:induction false} BeamTagAt(g: Grid, p: Point, d: FacingDirection, a: int, c: int)
    requires g.Valid() && g.InBounds(a, c)
    ensures var t := g.TagAt(a, c);
            Beam(g, p, d).TagAt(a, c)
            == if Point(a, c) == Along(p, d, BeamLength(g, p, d)) && t.pclass == Solid
               then t.(heat := t.heat + LaserHeatAmount) else t
    decreases Reach(g.width, g.height, p, d)
  {
    if g.InBounds(p.x, p.y) && !Blocks(g, p) {
      var h := g.WithStatic(p.x, p.y, g.StaticAt(p.x, p.y).(laserActive := true));
      var p1 := Along(p, d, 1);
      BeamLengthTags(g, h, p1, d);
      BeamTagAt(h, p1, d, a, c);
      assert Along(p1, d, BeamLength(g, p1, d)) == Along(p, d, BeamLength(g, p, d));
    } else if g.InBounds(p.x, p.y) && g.TagAt(p.x, p.y).pclass == Solid {
      WithTagCells(g, p.x, p.y, g.TagAt(p.x, p.y).(heat := g.TagAt(p.x, p.y).heat + LaserHeatAmount));
    }
  }

  /**
    What the beam does to the cells: the first `BeamLength` cells of the ray
    get `laser_active` set and nothing else; the cell where it stops, if it is
    Solid, gains `laser_heat_amount` heat; every other cell is unchanged.
   */
  lemma BeamCells(g: Grid, p: Point, d: FacingDirection)
    requires g.Valid()
    ensures var r := Beam(g, p, d);
            var n := BeamLength(g, p, d);
            forall a, c :: g.InBounds(a, c) ==>
              && r.StaticAt(a, c)
                 == (if OnBeam(p, d, n, Point(a, c)) then g.StaticAt(a, c).(laserActive := true) else g.StaticAt(a, c))
              && r.TagAt(a, c)
                 == (if Point(a, c) == Along(p, d, n) && g.TagAt(a, c).pclass == Solid
                     then g.TagAt(a, c).(heat := g.TagAt(a, c).heat + LaserHeatAmount) else g.TagAt(a, c))
  {
    forall a, c | g.InBounds(a, c)
      ensures var r := Beam(g, p, d);
              var n := BeamLength(g, p, d);
              && r.StaticAt(a, c)
                 == (if OnBeam(p, d, n, Point(a, c)) then g.StaticAt(a, c).(laserActive := true) else g.StaticAt(a, c))
              && r.TagAt(a, c)
                 == (if Point(a, c) == Along(p, d, n) && g.TagAt(a, c).pclass == Solid
                     then g.TagAt(a, c).(heat := g.TagAt(a, c).heat + LaserHeatAmount) else g.TagAt(a, c))
    {
      BeamStaticAt(g, p, d, a, c);
      BeamTagAt(g, p, d, a, c);
    }
  }

  // ----- the emitter -----

  /**
    `LaserEmitter::step`: a broken shape removes the emitter; otherwise the
    capacitor is updated and, when powered, the beam runs from POI 0 in the
    emitter's direction.
   */
  function EmitterStep(g: Grid, s: Structure): (r: StepResult)
    requires g.Valid() && s.Valid() && s.kind.Emitter? && FitsIn(s.base, g.width, g.height) && |s.base.poi| > 0
    ensures r.grid.Valid() && r.grid.width == g.width && r.grid.height == g.height && r.grid.elems == g.elems
    ensures !r.alive <==> !Intact(g, s.base)
    ensures !r.alive ==> r.grid == g && r.structure == s
    ensures r.alive ==> r.structure == s.(powerCap := InputCap(g, s.base, s.powerCap))
    ensures r.alive && !r.structure.IsPowered() ==> r.grid == g
  {
    if !Intact(g, s.base) then StepResult(false, g, s)
    else
      var cap := InputCap(g, s.base, s.powerCap);
      var s' := s.(powerCap := cap);
      if cap <= 0 then StepResult(true, g, s')
      else StepResult(true, Beam(g, WorldPOI(s.base, 0), s.kind.emitterDir), s')
  }

  // ----- the receiver -----

  /**
    `LaserReceiver::step`: a broken shape removes the receiver; otherwise it
    charges its footprint exactly when its POI cell is `laser_active`.
   */
  function ReceiverStep(g: Grid, s: Structure, cfg: Config): (r: StepResult)
    requires g.Valid() && s.Valid() && s.kind.Receiver? && FitsIn(s.base, g.width, g.height) && |s.base.poi| > 0
    ensures r.grid.Valid() && r.grid.width == g.width && r.grid.height == g.height
    ensures r.grid.elems == g.elems && r.grid.statics == g.statics && r.structure == s
    ensures !r.alive <==> !Intact(g, s.base)
    ensures !r.alive ==> r.grid == g
    ensures r.alive && !g.StaticAt(WorldPOI(s.base, 0).x, WorldPOI(s.base, 0).y).laserActive ==> r.grid == g
  {
    if !Intact(g, s.base) then StepResult(false, g, s)
    else
      var q := WorldPOI(s.base, 0);
      POIInBounds(g, s.base, 0);
      if g.StaticAt(q.x, q.y).laserActive then StepResult(true, OutputStep(g, s.base, cfg.powerMax), s)
      else StepResult(true, g, s)
  }

  /**
    Why the receiver runs after the emitter: a receiver whose POI lies on the
    lit part of a powered emitter's beam charges its footprint in the same
    world step, provided it is still intact.
   */
  lemma LitReceiverCharges(g: Grid, e: Structure, rcv: Structure, cfg: Config, i: int)
    requires g.Valid() && e.Valid() && e.kind.Emitter? && FitsIn(e.base, g.width, g.height) && |e.base.poi| > 0
    requires rcv.Valid() && rcv.kind.Receiver? && FitsIn(rcv.base, g.width, g.height) && |rcv.base.poi| > 0
    requires EmitterStep(g, e).alive && EmitterStep(g, e).structure.IsPowered()
    requires 0 <= i < BeamLength(g, WorldPOI(e.base, 0), e.kind.emitterDir)
    requires Along(WorldPOI(e.base, 0), e.kind.emitterDir, i) == WorldPOI(rcv.base, 0)
    ensures var h := EmitterStep(g, e).grid;
            Intact(h, rcv.base) ==> ReceiverStep(h, rcv, cfg).grid == OutputStep(h, rcv.base, cfg.powerMax)
  {
    var p, d := WorldPOI(e.base, 0), e.kind.emitterDir;
    var q := WorldPOI(rcv.base, 0);
    POIInBounds(g, rcv.base, 0);
    BeamStaticAt(g, p, d, q.x, q.y);
    assert OnBeam(p, d, BeamLength(g, p, d), q);
  }

  // ----- on the world -----

  /** The beam loop on the world. */
  method BeamAt(w: PixelWorld, p: Point, d: FacingDirection)
    requires w.Valid()
    modifies w.tags, w.statics
    ensures w.Cells() == Beam(old(w.Cells()), p, d)
  {
    ghost var g := w.Cells();
    var cur := p;
    while 0 <= cur.x < w.width && 0 <= cur.y < w.height
      invariant w.Valid() && w.Cells().Valid()
      invariant Beam(g, p, d) == Beam(w.Cells(), cur, d)
      decreases Reach(w.width, w.height, cur, d)
    {
      var t := w.TagOf(cur.x, cur.y);
      if t.pclass == Solid {
        w.SetTag(cur.x, cur.y, t.(heat := t.heat + LaserHeatAmount));
        return;
      }
      if t.kind == Smoke {
        return;
      }
      w.ActivateLaserAt(cur.x, cur.y);
      cur := Point(cur.x + XDeltaOf(d), cur.y + YDeltaOf(d));
    }
  }

  /** `LaserEmitter::step` on the world. */
  method EmitterStepAt(w: PixelWorld, s: Structure) returns (alive: bool, s': Structure)
    requires w.Valid() && s.Valid() && s.kind.Emitter? && FitsIn(s.base, w.width, w.height) && |s.base.poi| > 0
    modifies w.tags, w.statics
    ensures StepResult(alive, w.Cells(), s') == EmitterStep(old(w.Cells()), s)
  {
    var intact := IntactAt(w, s.base);
    if !intact {
      return false, s;
    }
    var cap := InputStepAt(w, s.base, s.powerCap);
    s' := s.(powerCap := cap);
    alive := true;
    if cap > 0 {
      BeamAt(w, WorldPOI(s.base, 0), s.kind.emitterDir);
    }
  }

  /** `LaserReceiver::step` on the world. */
  method ReceiverStepAt(w: PixelWorld, s: Structure) returns (alive: bool, s': Structure)
    requires w.Valid() && s.Valid() && s.kind.Receiver? && FitsIn(s.base, w.width, w.height) && |s.base.poi| > 0
    modifies w.tags
    ensures StepResult(alive, w.Cells(), s') == ReceiverStep(old(w.Cells()), s, w.cfg)
  {
    var intact := IntactAt(w, s.base);
    if !intact {
      return false, s;
    }
    var q := WorldPOI(s.base, 0);
    POIInBounds(w.Cells(), s.base, 0);
    var st := w.StaticTagOf(q.x, q.y);
    if st.laserActive {
      OutputStepAt(w, s.base);
    }
    return true, s;
  }
}
