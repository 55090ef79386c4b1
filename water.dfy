// `Water::step` of src/fallsand/water.cpp: fall through gas (turning into a
// particle when already falling), otherwise spread sideways in the current
// `fluid_dir` and then the opposite one. `WaterStep` is the rule on a grid
// value; `WaterStepAt` performs it on a `PixelWorld`. `roll` is the draw the
// source takes from `world.rand()` when `fluid_dir` is 0.
module Water {
  import opened Base
  import opened Pixels
  import opened Grids
  import opened World

  /** The direction a water cell with no direction picks: an even roll goes right. */
  function PickDir(roll: nat): (d: int)
    ensures d == 1 || d == -1
  {
    if roll % 2 == 0 then 1 else -1
  }

  /** What one pass of the sideways loop does. */
  datatype SideOutcome = Continue | Moved(moved: Grid) | Stopped(stopped: Grid)

  /**
    One pass of the sideways loop in direction `d` for the water at `(x, y)`:
    off the edge the cell is removed and the step ends; into gas diagonally
    below or beside it the water swaps with direction `d` (diagonally also
    free-falling) and the loop ends; on solid ground (`tiny`) next to fluid
    with a direction it adopts that direction and the step ends; otherwise the
    loop goes on.
   */
  function TrySide(g: Grid, cfg: Config, x: int, y: int, d: int, tiny: bool): (o: SideOutcome)
    requires g.Valid() && g.InBounds(x, y) && y + 1 < g.height
    ensures o.Moved? ==> o.moved.Valid() && o.moved.width == g.width && o.moved.height == g.height
    ensures o.Stopped? ==> o.stopped.Valid() && o.stopped.width == g.width && o.stopped.height == g.height
  {
    var nx := x + d;
    if nx < 0 || nx >= g.width then Stopped(g.ReplaceNew(x, y, AirElement, cfg, 0))
    else if g.TagAt(nx, y + 1).pclass == Gas then
      Moved(g.WithTag(x, y, g.TagAt(x, y).(fluidDir := d, isFreeFalling := true)).Swap(x, y, nx, y + 1))
    else if g.TagAt(nx, y).pclass == Gas then
      Moved(g.WithTag(x, y, g.TagAt(x, y).(fluidDir := d)).Swap(x, y, nx, y))
    else if tiny && g.TagAt(nx, y).pclass == Fluid && g.TagAt(nx, y).fluidDir != 0 then
      Stopped(g.WithTag(x, y, g.TagAt(x, y).(fluidDir := g.TagAt(nx, y).fluidDir)))
    else Continue
  }

  /**
    The `fluid_dir = 0` after the loop. It is written to slot `(x, y)`, which
    after a swap holds the displaced cell.
   */
  function ResetDir(g: Grid, x: int, y: int): (r: Grid)
    requires g.Valid() && g.InBounds(x, y)
    ensures r.Valid() && r.width == g.width && r.height == g.height
  {
    g.WithTag(x, y, g.TagAt(x, y).(fluidDir := 0))
  }

  /** The sideways loop: direction `d` first, then `-d` if the first pass went on. */
  function SideLoop(g: Grid, cfg: Config, x: int, y: int, d: int, tiny: bool): (o: SideOutcome)
    requires g.Valid() && g.InBounds(x, y) && y + 1 < g.height
    ensures o.Moved? ==> o.moved.Valid() && o.moved.width == g.width && o.moved.height == g.height
    ensures o.Stopped? ==> o.stopped.Valid() && o.stopped.width == g.width && o.stopped.height == g.height
  {
    var o := TrySide(g, cfg, x, y, d, tiny);
    if o.Continue? then TrySide(g, cfg, x, y, -d, tiny) else o
  }

  /**
    After the loop: a stopped step is final; otherwise (moved or not) the
    `fluid_dir` of slot `(x, y)` is reset.
   */
  function Settle(o: SideOutcome, g: Grid, x: int, y: int): (r: Grid)
    requires g.Valid() && g.InBounds(x, y)
    requires o.Moved? ==> o.moved.Valid() && o.moved.width == g.width && o.moved.height == g.height
    requires o.Stopped? ==> o.stopped.Valid() && o.stopped.width == g.width && o.stopped.height == g.height
    ensures r.Valid() && r.width == g.width && r.height == g.height
  {
    match o
    case Continue => ResetDir(g, x, y)
    case Moved(h) => ResetDir(h, x, y)
    case Stopped(h) => h
  }

  /** The tag the water has once it is on ground: not falling, with a non-zero direction. */
  function Grounded(t: Tag, roll: nat): (r: Tag)
    ensures r == t.(isFreeFalling := false, fluidDir := r.fluidDir)
    ensures r.fluidDir != 0
    ensures t.fluidDir != 0 ==> r.fluidDir == t.fluidDir
  {
    t.(isFreeFalling := false, fluidDir := if t.fluidDir == 0 then PickDir(roll) else t.fluidDir)
  }

  /** `Water::step` on a grid value. */
  function WaterStep(g: Grid, cfg: Config, x: int, y: int, roll: nat): (r: Grid)
    requires g.Valid() && g.InBounds(x, y)
    ensures r.Valid() && r.width == g.width && r.height == g.height
  {
    if y + 1 >= g.height then g.ReplaceNew(x, y, AirElement, cfg, 0)
    else
      var me := g.TagAt(x, y);
      var below := g.TagAt(x, y + 1);
      if below.pclass == Gas then
        var g1 := if me.isFreeFalling then g.ReplaceNew(x, y, WaterParticleElement, cfg, 0)
                  else g.WithTag(x, y, me.(isFreeFalling := true));
        g1.Swap(x, y, x, y + 1)
      else
        var t := Grounded(me, roll);
        var g1 := g.WithTag(x, y, t);
        Settle(SideLoop(g1, cfg, x, y, t.fluidDir, below.pclass == Solid), g1, x, y)
  }

  /** Water on the ground: the step is the sideways loop over the chosen direction and its opposite. */
  lemma GroundedStep(g: Grid, cfg: Config, x: int, y: int, roll: nat)
    requires g.Valid() && g.InBounds(x, y) && y + 1 < g.height
    requires g.TagAt(x, y + 1).pclass != Gas
    ensures var t := Grounded(g.TagAt(x, y), roll);
            var g1 := g.WithTag(x, y, t);
            WaterStep(g, cfg, x, y, roll) == Settle(SideLoop(g1, cfg, x, y, t.fluidDir, g.TagAt(x, y + 1).pclass == Solid), g1, x, y)
  {
  }

  /** Water on the bottom row is removed. */
  lemma BottomRowRemoved(g: Grid, cfg: Config, x: int, roll: nat)
    requires g.Valid() && g.height > 0 && 0 <= x < g.width
    ensures var r := WaterStep(g, cfg, x, g.height - 1, roll);
            && r.ElemAt(x, g.height - 1) == AirElement && r.TagAt(x, g.height - 1) == AirTag(cfg)
            && forall a, b :: g.InBounds(a, b) && !(a == x && b == g.height - 1) ==>
                 r.TagAt(a, b) == g.TagAt(a, b) && r.ElemAt(a, b) == g.ElemAt(a, b)
  {
    assert WaterStep(g, cfg, x, g.height - 1, roll) == g.Replace(x, g.height - 1, AirElement, AirTag(cfg));
    ReplaceCells(g, x, g.height - 1, AirElement, AirTag(cfg));
  }

  /**
    With gas below, the water and the gas swap. Water that was already falling
    arrives as a fresh water particle; otherwise it keeps its element and
    arrives marked free-falling.
   */
  lemma FallsThroughGas(g: Grid, cfg: Config, x: int, y: int, roll: nat)
    requires g.Valid() && g.InBounds(x, y) && y + 1 < g.height
    requires g.TagAt(x, y + 1).pclass == Gas
    ensures var r := WaterStep(g, cfg, x, y, roll);
            && r.TagAt(x, y) == g.TagAt(x, y + 1) && r.ElemAt(x, y) == g.ElemAt(x, y + 1)
            && (g.TagAt(x, y).isFreeFalling ==>
                  r.ElemAt(x, y + 1) == WaterParticleElement && r.TagAt(x, y + 1) == NewTag(WaterParticleElement, cfg, 0))
            && (!g.TagAt(x, y).isFreeFalling ==>
                  r.ElemAt(x, y + 1) == g.ElemAt(x, y) && r.TagAt(x, y + 1) == g.TagAt(x, y).(isFreeFalling := true))
            && forall a, b :: g.InBounds(a, b) && !(a == x && b == y) && !(a == x && b == y + 1) ==>
                 r.TagAt(a, b) == g.TagAt(a, b) && r.ElemAt(a, b) == g.ElemAt(a, b)
  {
    var me := g.TagAt(x, y);
    var g1 := if me.isFreeFalling then g.ReplaceNew(x, y, WaterParticleElement, cfg, 0)
              else g.WithTag(x, y, me.(isFreeFalling := true));
    assert WaterStep(g, cfg, x, y, roll) == g1.Swap(x, y, x, y + 1);
    if me.isFreeFalling {
      ReplaceCells(g, x, y, WaterParticleElement, NewTag(WaterParticleElement, cfg, 0));
    } else {
      WithTagCells(g, x, y, me.(isFreeFalling := true));
    }
    SwapCells(g1, x, y, x, y + 1);
  }

  /** The cells one water step may change: itself, the cell below, and the four side and diagonal cells. */
  predicate NearWater(x: int, y: int, a: int, b: int)
  {
    (a == x && (b == y || b == y + 1)) || ((a == x - 1 || a == x + 1) && (b == y || b == y + 1))
  }

  /** `r` agrees with `g` on every cell a water step at `(x, y)` may not change. */
  ghost predicate SameOutside(g: Grid, r: Grid, x: int, y: int)
    requires g.Valid() && r.Valid() && r.width == g.width && r.height == g.height
  {
    forall a, b :: g.InBounds(a, b) && !NearWater(x, y, a, b) ==>
      r.TagAt(a, b) == g.TagAt(a, b) && r.ElemAt(a, b) == g.ElemAt(a, b)
  }

  /** Marking the water and swapping it with a neighbouring cell changes only cells next to it. */
  lemma MoveLocal(g: Grid, x: int, y: int, t: Tag, nx: int, ny: int)
    requires g.Valid() && g.InBounds(x, y) && g.InBounds(nx, ny) && NearWater(x, y, nx, ny)
    ensures SameOutside(g, g.WithTag(x, y, t).Swap(x, y, nx, ny), x, y)
  {
    WithTagCells(g, x, y, t);
    SwapCells(g.WithTag(x, y, t), x, y, nx, ny);
  }

  /** One pass of the sideways loop changes only cells next to the water. */
  lemma TrySideLocal(g: Grid, cfg: Config, x: int, y: int, d: int, tiny: bool)
    requires g.Valid() && g.InBounds(x, y) && y + 1 < g.height && (d == 1 || d == -1)
    ensures var o := TrySide(g, cfg, x, y, d, tiny);
            && (o.Moved? ==> SameOutside(g, o.moved, x, y))
            && (o.Stopped? ==> SameOutside(g, o.stopped, x, y))
  {
    var nx := x + d;
    if nx < 0 || nx >= g.width {
      ReplaceCells(g, x, y, AirElement, NewTag(AirElement, cfg, 0));
    } else if g.TagAt(nx, y + 1).pclass == Gas {
      MoveLocal(g, x, y, g.TagAt(x, y).(fluidDir := d, isFreeFalling := true), nx, y + 1);
    } else if g.TagAt(nx, y).pclass == Gas {
      MoveLocal(g, x, y, g.TagAt(x, y).(fluidDir := d), nx, y);
    } else if tiny && g.TagAt(nx, y).pclass == Fluid && g.TagAt(nx, y).fluidDir != 0 {
      WithTagCells(g, x, y, g.TagAt(x, y).(fluidDir := g.TagAt(nx, y).fluidDir));
    }
  }

  /** The sideways loop and what follows it change at most the water cell and one side or diagonal cell. */
  lemma SettleLocal(g: Grid, cfg: Config, x: int, y: int, d: int, tiny: bool)
    requires g.Valid() && g.InBounds(x, y) && y + 1 < g.height && (d == 1 || d == -1)
    ensures SameOutside(g, Settle(SideLoop(g, cfg, x, y, d, tiny), g, x, y), x, y)
  {
    TrySideLocal(g, cfg, x, y, d, tiny);
    TrySideLocal(g, cfg, x, y, -d, tiny);
    match SideLoop(g, cfg, x, y, d, tiny)
    case Continue =>
      WithTagCells(g, x, y, g.TagAt(x, y).(fluidDir := 0));
    case Moved(h) =>
      WithTagCells(h, x, y, h.TagAt(x, y).(fluidDir := 0));
    case Stopped(h) =>
  }

  /** A water step only changes cells next to the water: at most one swap per call. */
  lemma WaterStepLocal(g: Grid, cfg: Config, x: int, y: int, roll: nat)
    requires g.Valid() && g.InBounds(x, y) && -1 <= g.TagAt(x, y).fluidDir <= 1
    ensures SameOutside(g, WaterStep(g, cfg, x, y, roll), x, y)
  {
    if y + 1 >= g.height {
      BottomRowRemoved(g, cfg, x, roll);
    } else if g.TagAt(x, y + 1).pclass == Gas {
      FallsThroughGas(g, cfg, x, y, roll);
    } else {
      var t := Grounded(g.TagAt(x, y), roll);
      var g1 := g.WithTag(x, y, t);
      var tiny := g.TagAt(x, y + 1).pclass == Solid;
      GroundedStep(g, cfg, x, y, roll);
      WithTagCells(g, x, y, t);
      SettleLocal(g1, cfg, x, y, t.fluidDir, tiny);
    }
  }

  /** The side cell in direction `a` offers the water nowhere to go and no flow to adopt. */
  predicate Blocked(g: Grid, a: int, y: int, tiny: bool)
    requires g.Valid() && g.InBounds(a, y) && y + 1 < g.height
  {
    && g.TagAt(a, y).pclass != Gas && g.TagAt(a, y + 1).pclass != Gas
    && (tiny ==> g.TagAt(a, y).pclass != Fluid || g.TagAt(a, y).fluidDir == 0)
  }

  /**
    Water on the ground with no gas beside it, below it or diagonally below it,
    away from the edges, and with no neighbouring flow to adopt, stays put:
    its direction is reset to 0 and it is no longer falling. Nothing else
    changes.
   */
  lemma StaysPut(g: Grid, cfg: Config, x: int, y: int, roll: nat)
    requires g.Valid() && 0 < x < g.width - 1 && 0 <= y < g.height - 1
    requires -1 <= g.TagAt(x, y).fluidDir <= 1 && g.TagAt(x, y + 1).pclass != Gas
    requires Blocked(g, x - 1, y, g.TagAt(x, y + 1).pclass == Solid)
    requires Blocked(g, x + 1, y, g.TagAt(x, y + 1).pclass == Solid)
    ensures WaterStep(g, cfg, x, y, roll) == g.WithTag(x, y, g.TagAt(x, y).(isFreeFalling := false, fluidDir := 0))
  {
    var t := Grounded(g.TagAt(x, y), roll);
    var g1 := g.WithTag(x, y, t);
    var tiny := g.TagAt(x, y + 1).pclass == Solid;
    WithTagCells(g, x, y, t);
    if t.fluidDir == 1 {
      assert Blocked(g1, x + 1, y, tiny) && Blocked(g1, x - 1, y, tiny);
    } else {
      assert Blocked(g1, x - 1, y, tiny) && Blocked(g1, x + 1, y, tiny);
    }
    assert TrySide(g1, cfg, x, y, t.fluidDir, tiny) == Continue;
    assert TrySide(g1, cfg, x, y, -t.fluidDir, tiny) == Continue;
    GroundedStep(g, cfg, x, y, roll);
    WithTagTwice(g, x, y, t, t.(fluidDir := 0));
  }

  /**
    On solid ground, water whose first side cell is fluid with a non-zero
    direction (and neither that cell nor the one below it is gas) takes that
    direction and stops; nothing else changes.
   */
  lemma AdoptsFlow(g: Grid, cfg: Config, x: int, y: int, roll: nat)
    requires g.Valid() && g.InBounds(x, y) && y + 1 < g.height
    requires g.TagAt(x, y + 1).pclass == Solid
    requires var nx := x + Grounded(g.TagAt(x, y), roll).fluidDir;
             && 0 <= nx < g.width && g.TagAt(nx, y + 1).pclass != Gas
             && g.TagAt(nx, y).pclass == Fluid && g.TagAt(nx, y).fluidDir != 0
    ensures var nx := x + Grounded(g.TagAt(x, y), roll).fluidDir;
            WaterStep(g, cfg, x, y, roll)
            == g.WithTag(x, y, g.TagAt(x, y).(isFreeFalling := false, fluidDir := g.TagAt(nx, y).fluidDir))
  {
    var t := Grounded(g.TagAt(x, y), roll);
    var nx := x + t.fluidDir;
    var g1 := g.WithTag(x, y, t);
    var u := t.(fluidDir := g.TagAt(nx, y).fluidDir);
    WithTagCells(g, x, y, t);
    assert TrySide(g1, cfg, x, y, t.fluidDir, true) == Stopped(g1.WithTag(x, y, u));
    assert WaterStep(g, cfg, x, y, roll) == g1.WithTag(x, y, u);
    WithTagTwice(g, x, y, t, u);
  }

  /**
    A sideways move into gas: the water arrives at the side cell carrying the
    direction it moved in, and the displaced gas, now at `(x, y)`, is the one
    whose `fluid_dir` is reset to 0. No other cell changes.
   */
  lemma SideMoveResetsDisplaced(g: Grid, cfg: Config, x: int, y: int, roll: nat)
    requires g.Valid() && g.InBounds(x, y) && y + 1 < g.height
    requires g.TagAt(x, y + 1).pclass != Gas
    requires var nx := x + Grounded(g.TagAt(x, y), roll).fluidDir;
             0 <= nx < g.width && g.TagAt(nx, y + 1).pclass != Gas && g.TagAt(nx, y).pclass == Gas
    ensures var r := WaterStep(g, cfg, x, y, roll);
            var d := Grounded(g.TagAt(x, y), roll).fluidDir;
            && r.TagAt(x + d, y) == Grounded(g.TagAt(x, y), roll) && r.ElemAt(x + d, y) == g.ElemAt(x, y)
            && r.TagAt(x, y) == g.TagAt(x + d, y).(fluidDir := 0) && r.ElemAt(x, y) == g.ElemAt(x + d, y)
            && forall a, b :: g.InBounds(a, b) && !(a == x && b == y) && !(a == x + d && b == y) ==>
                 r.TagAt(a, b) == g.TagAt(a, b) && r.ElemAt(a, b) == g.ElemAt(a, b)
  {
    var t := Grounded(g.TagAt(x, y), roll);
    SideMoveStep(g, cfg, x, y, roll);
    WithTagCells(g, x, y, t);
    SwapResetCells(g.WithTag(x, y, t), x, y, x + t.fluidDir, y);
  }

  /** Swapping two cells and then resetting the first slot's direction. */
  lemma SwapResetCells(g: Grid, x: int, y: int, nx: int, ny: int)
    requires g.Valid() && g.InBounds(x, y) && g.InBounds(nx, ny) && !(nx == x && ny == y)
    ensures var r := ResetDir(g.Swap(x, y, nx, ny), x, y);
            && r.TagAt(nx, ny) == g.TagAt(x, y) && r.ElemAt(nx, ny) == g.ElemAt(x, y)
            && r.TagAt(x, y) == g.TagAt(nx, ny).(fluidDir := 0) && r.ElemAt(x, y) == g.ElemAt(nx, ny)
            && forall a, b :: g.InBounds(a, b) && !(a == x && b == y) && !(a == nx && b == ny) ==>
                 r.TagAt(a, b) == g.TagAt(a, b) && r.ElemAt(a, b) == g.ElemAt(a, b)
  {
    var h := g.Swap(x, y, nx, ny);
    SwapCells(g, x, y, nx, ny);
    WithTagCells(h, x, y, h.TagAt(x, y).(fluidDir := 0));
  }

  /** The sideways move as grid operations: mark the direction, swap, reset slot `(x, y)`. */
  lemma SideMoveStep(g: Grid, cfg: Config, x: int, y: int, roll: nat)
    requires g.Valid() && g.InBounds(x, y) && y + 1 < g.height
    requires g.TagAt(x, y + 1).pclass != Gas
    requires var nx := x + Grounded(g.TagAt(x, y), roll).fluidDir;
             0 <= nx < g.width && g.TagAt(nx, y + 1).pclass != Gas && g.TagAt(nx, y).pclass == Gas
    ensures var t := Grounded(g.TagAt(x, y), roll);
            WaterStep(g, cfg, x, y, roll) == ResetDir(g.WithTag(x, y, t).Swap(x, y, x + t.fluidDir, y), x, y)
  {
    var t := Grounded(g.TagAt(x, y), roll);
    var d := t.fluidDir;
    var g1 := g.WithTag(x, y, t);
    WithTagCells(g, x, y, t);
    WithTagTwice(g1, x, y, t, t);
    assert g1.TagAt(x, y).(fluidDir := d) == t;
    GroundedStep(g, cfg, x, y, roll);
    assert TrySide(g1, cfg, x, y, d, g.TagAt(x, y + 1).pclass == Solid) == Moved(g1.Swap(x, y, x + d, y));
    WithTagTwice(g, x, y, t, t);
  }

  /** One pass of the sideways loop on the world; `outcome` says how the loop goes on. */
  method TrySideAt(w: PixelWorld, x: int, y: int, d: int, tiny: bool) returns (outcome: SideOutcome)
    requires w.Valid() && w.InBounds(x, y) && y + 1 < w.height
    modifies w.tags, w.elems
    ensures outcome == TrySide(old(w.Cells()), w.cfg, x, y, d, tiny)
    ensures outcome.Continue? ==> w.Cells() == old(w.Cells())
    ensures outcome.Moved? ==> w.Cells() == outcome.moved
    ensures outcome.Stopped? ==> w.Cells() == outcome.stopped
  {
    var nx := x + d;
    if nx < 0 || nx >= w.width {
      w.ReplacePixelWithAir(x, y);
      return Stopped(w.Cells());
    }
    var diag := w.TagOf(nx, y + 1);
    if diag.pclass == Gas {
      w.SetTag(x, y, w.TagOf(x, y).(fluidDir := d, isFreeFalling := true));
      w.SwapPixels(x, y, nx, y + 1);
      return Moved(w.Cells());
    }
    var side := w.TagOf(nx, y);
    if side.pclass == Gas {
      w.SetTag(x, y, w.TagOf(x, y).(fluidDir := d));
      w.SwapPixels(x, y, nx, y);
      return Moved(w.Cells());
    }
    if tiny && side.pclass == Fluid && side.fluidDir != 0 {
      w.SetTag(x, y, w.TagOf(x, y).(fluidDir := side.fluidDir));
      return Stopped(w.Cells());
    }
    return Continue;
  }

  /** The sideways loop on the world, over `d` and then `-d`, and what follows it. */
  method SpreadAt(w: PixelWorld, x: int, y: int, d: int, tiny: bool)
    requires w.Valid() && w.InBounds(x, y) && y + 1 < w.height
    modifies w.tags, w.elems
    ensures w.Cells() == Settle(SideLoop(old(w.Cells()), w.cfg, x, y, d, tiny), old(w.Cells()), x, y)
  {
    ghost var g := w.Cells();
    var ds := [d, -d];
    var i := 0;
    while i < 2
      invariant 0 <= i <= 2 && w.Cells() == g
      invariant i >= 1 ==> TrySide(g, w.cfg, x, y, d, tiny).Continue?
      invariant i == 2 ==> SideLoop(g, w.cfg, x, y, d, tiny).Continue?
    {
      var outcome := TrySideAt(w, x, y, ds[i], tiny);
      if outcome.Moved? {
        assert SideLoop(g, w.cfg, x, y, d, tiny) == outcome;
        break;
      } else if outcome.Stopped? {
        assert SideLoop(g, w.cfg, x, y, d, tiny) == outcome;
        return;
      }
      i := i + 1;
    }
    w.SetTag(x, y, w.TagOf(x, y).(fluidDir := 0));
  }

  /** `Water::step` on the world. */
  method WaterStepAt(w: PixelWorld, x: int, y: int, roll: nat)
    requires w.Valid() && w.InBounds(x, y)
    modifies w.tags, w.elems
    ensures w.Cells() == WaterStep(old(w.Cells()), w.cfg, x, y, roll)
  {
    if y + 1 >= w.height {
      w.ReplacePixelWithAir(x, y);
      return;
    }
    var me := w.TagOf(x, y);
    var below := w.TagOf(x, y + 1);
    if below.pclass == Gas {
      if me.isFreeFalling {
        w.ReplacePixel(x, y, WaterParticleElement, 0);
      } else {
        w.SetTag(x, y, me.(isFreeFalling := true));
      }
      w.SwapPixels(x, y, x, y + 1);
      return;
    }
    var t := Grounded(me, roll);
    w.SetTag(x, y, t);
    SpreadAt(w, x, y, t.fluidDir, below.pclass == Solid);
  }
}
