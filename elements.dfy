// The element rules of src/elements/: Copper passing a charge to its eight
// neighbours, and the burning of Oil and Wood. Each rule is a function on a
// grid value (`CopperStep`, `OilStep`, `WoodStep`) and a method performing
// it on a `PixelWorld` (`...StepAt`). The generator draws a step may take
// are the fields of `Draws`.
module Elements {
  import opened Base
  import opened Pixels
  import opened Grids
  import opened World
  import opened Raster2D

  /** Every point of `ps` is a cell of `g`. */
  predicate AllIn(g: Grid, ps: seq<Point>)
  {
    forall k :: 0 <= k < |ps| ==> g.InBounds(ps[k].x, ps[k].y)
  }

  lemma PointsIn(g: Grid, ps: seq<Point>)
    requires forall q :: q in ps ==> Raster2D.InBounds(q, g.width, g.height)
    ensures AllIn(g, ps)
  {
    forall k | 0 <= k < |ps| ensures g.InBounds(ps[k].x, ps[k].y) {
      assert ps[k] in ps;
    }
  }

  /**
    The generator outputs a step may consume: the ignition chance (Wood), the
    burn-out chance and the colour roll of the Smoke it leaves, and the chance
    and colour roll of the Smoke spawned above a burning cell.
   */
  datatype Draws = Draws(ignite: nat, die: nat, dieColor: nat, smoke: nat, smokeColor: nat)

  /** `die_smoke_chance`, in percent: a burnt-out cell leaves Smoke, else Air. */
  const DieSmokeChance: int := 25

  // ----- Copper -----

  /** `chargeElement` on each point of `ps`, first to last. */
  function ChargeEach(g: Grid, ps: seq<Point>, powerMax: int): (r: Grid)
    requires g.Valid() && AllIn(g, ps)
    ensures r.Valid() && r.width == g.width && r.height == g.height && r.elems == g.elems && r.statics == g.statics
    decreases |ps|
  {
    if |ps| == 0 then g
    else
      var p := ps[|ps| - 1];
      ChargeEach(g, ps[..|ps| - 1], powerMax).Charge(p.x, p.y, powerMax)
  }

  /**
    Charging a list of cells charges exactly the uncharged copper cells in
    it, whatever the order and however often a cell occurs.
   */
  lemma {:induction false} ChargeEachCells(g: Grid, ps: seq<Point>, powerMax: int)
    requires g.Valid() && AllIn(g, ps) && powerMax != 0
    ensures forall a, b :: g.InBounds(a, b) ==>
              ChargeEach(g, ps, powerMax).TagAt(a, b)
              == if Point(a, b) in ps && g.ElemAt(a, b).CopperElement? && g.TagAt(a, b).electricPower == 0
                 then g.TagAt(a, b).(electricPower := powerMax) else g.TagAt(a, b)
    decreases |ps|
  {
    if |ps| > 0 {
      var q, p := ps[..|ps| - 1], ps[|ps| - 1];
      assert ps == q + [p];
      ChargeEachCells(g, q, powerMax);
      ChargeMeaning(ChargeEach(g, q, powerMax), p.x, p.y, powerMax);
    }
  }

  /** `Copper::step`: at one below full power, copper charges every in-bounds cell around it. */
  function CopperStep(g: Grid, cfg: Config, x: int, y: int): (r: Grid)
    requires g.Valid() && g.InBounds(x, y)
    ensures r.Valid() && r.width == g.width && r.height == g.height
  {
    if g.TagAt(x, y).electricPower == cfg.powerMax - 1 then
      Neighbors8Spec(Point(x, y), g.width, g.height);
      PointsIn(g, Neighbors8(Point(x, y), g.width, g.height));
      ChargeEach(g, Neighbors8(Point(x, y), g.width, g.height), cfg.powerMax)
    else g
  }

  /**
    A copper step at power `powerMax - 1` charges exactly the uncharged
    copper cells among the eight around it; at any other power it changes
    nothing. Its own tag, every element and every static tag stay as they were.
   */
  lemma CopperStepSpec(g: Grid, cfg: Config, x: int, y: int)
    requires g.Valid() && g.InBounds(x, y) && cfg.Valid()
    ensures var r := CopperStep(g, cfg, x, y);
            && r.elems == g.elems && r.statics == g.statics
            && r.TagAt(x, y) == g.TagAt(x, y)
            && (g.TagAt(x, y).electricPower != cfg.powerMax - 1 ==> r == g)
            && forall a, b :: g.InBounds(a, b) ==>
                 r.TagAt(a, b)
                 == if && g.TagAt(x, y).electricPower == cfg.powerMax - 1
                       && Abs(a - x) <= 1 && Abs(b - y) <= 1 && !(a == x && b == y)
                       && g.ElemAt(a, b).CopperElement? && g.TagAt(a, b).electricPower == 0
                    then g.TagAt(a, b).(electricPower := cfg.powerMax) else g.TagAt(a, b)
  {
    if g.TagAt(x, y).electricPower == cfg.powerMax - 1 {
      var r := CopperStep(g, cfg, x, y);
      var ns := Neighbors8(Point(x, y), g.width, g.height);
      Neighbors8Spec(Point(x, y), g.width, g.height);
      PointsIn(g, ns);
      assert r == ChargeEach(g, ns, cfg.powerMax);
      ChargeEachCells(g, ns, cfg.powerMax);
      forall a, b | g.InBounds(a, b)
        ensures r.TagAt(a, b)
                == if Abs(a - x) <= 1 && Abs(b - y) <= 1 && !(a == x && b == y)
                      && g.ElemAt(a, b).CopperElement? && g.TagAt(a, b).electricPower == 0
                   then g.TagAt(a, b).(electricPower := cfg.powerMax) else g.TagAt(a, b)
      {
        AroundIn(Point(x, y), g.width, g.height, a, b);
      }
    }
  }

  /** `Neighbors8Spec` for one cell of the grid. */
  lemma AroundIn(c: Point, width: int, height: int, a: int, b: int)
    requires 0 <= a < width && 0 <= b < height
    ensures Point(a, b) in Neighbors8(c, width, height) <==> Abs(a - c.x) <= 1 && Abs(b - c.y) <= 1 && Point(a, b) != c
  {
    Neighbors8Spec(c, width, height);
    assert Raster2D.InBounds(Point(a, b), width, height);
  }

  /** The 4-neighbourhood's membership for one cell of the grid. */
  lemma NextTo(c: Point, width: int, height: int, a: int, b: int)
    requires 0 <= a < width && 0 <= b < height
    ensures Point(a, b) in NeighborsOf(c, width, height) <==> Abs(a - c.x) + Abs(b - c.y) == 1
  {
    assert Raster2D.InBounds(Point(a, b), width, height);
  }

  /** `chargeElement` on each point of `ps` in the world. */
  method ChargeAllAt(w: PixelWorld, ps: seq<Point>)
    requires w.Valid() && AllIn(w.Cells(), ps)
    modifies w.tags
    ensures w.Cells() == ChargeEach(old(w.Cells()), ps, w.cfg.powerMax)
  {
    ghost var g := w.Cells();
    var i := 0;
    while i < |ps|
      invariant 0 <= i <= |ps|
      invariant w.Cells() == ChargeEach(g, ps[..i], w.cfg.powerMax)
    {
      assert ps[..i + 1][..i] == ps[..i];
      w.ChargeElement(ps[i].x, ps[i].y);
      i := i + 1;
    }
    assert ps[..|ps|] == ps;
  }

  /** `Copper::step` on the world: the loop over `neighbors8`. */
  method CopperStepAt(w: PixelWorld, x: int, y: int)
    requires w.Valid() && w.InBounds(x, y)
    modifies w.tags
    ensures w.Cells() == CopperStep(old(w.Cells()), w.cfg, x, y)
  {
    var me := w.TagOf(x, y);
    if me.electricPower == w.cfg.powerMax - 1 {
      var ns := Neighbors8(Point(x, y), w.width, w.height);
      Neighbors8Spec(Point(x, y), w.width, w.height);
      PointsIn(w.Cells(), ns);
      ChargeAllAt(w, ns);
    }
  }

  // ----- Burning: shared by Oil and Wood -----

  /**
    Burn-out: the cell becomes Smoke when the draw falls under
    `die_smoke_chance`, else Air (`replacePixelWithAir`).
   */
  function BurnOut(g: Grid, cfg: Config, x: int, y: int, d: Draws): (r: Grid)
    requires g.Valid() && g.InBounds(x, y)
    ensures r.Valid() && r.width == g.width && r.height == g.height && r.statics == g.statics
  {
    if d.die % 100 < DieSmokeChance then g.ReplaceNew(x, y, SmokeElement, cfg, d.dieColor)
    else g.ReplaceNew(x, y, AirElement, cfg, 0)
  }

  /**
    A burning cell below the top row, under an Air cell, turns that cell into
    Smoke of the given heat when the draw falls under `chance`.
   */
  function SpawnSmoke(g: Grid, cfg: Config, x: int, y: int, d: Draws, chance: int, heat: int): (r: Grid)
    requires g.Valid() && g.InBounds(x, y)
    ensures r.Valid() && r.width == g.width && r.height == g.height && r.statics == g.statics
  {
    if y > 0 && g.TagAt(x, y - 1).kind == Air && d.smoke % 100 < chance then
      var h := g.ReplaceNew(x, y - 1, SmokeElement, cfg, d.smokeColor);
      h.WithTag(x, y - 1, h.TagAt(x, y - 1).(heat := heat))
    else g
  }

  /** Whether `SpawnSmoke` fires. */
  predicate Spawns(g: Grid, x: int, y: int, d: Draws, chance: int)
    requires g.Valid() && g.InBounds(x, y)
  {
    y > 0 && g.TagAt(x, y - 1).kind == Air && d.smoke % 100 < chance
  }

  /** Burn-out changes only the burning cell, into a fresh Smoke or Air cell. */
  lemma BurnOutCells(g: Grid, cfg: Config, x: int, y: int, d: Draws)
    requires g.Valid() && g.InBounds(x, y)
    ensures var r := BurnOut(g, cfg, x, y, d);
            var e := if d.die % 100 < DieSmokeChance then SmokeElement else AirElement;
            && r.ElemAt(x, y) == e
            && r.TagAt(x, y) == NewTag(e, cfg, if e.SmokeElement? then d.dieColor else 0)
            && forall a, b :: g.InBounds(a, b) && !(a == x && b == y) ==>
                 r.TagAt(a, b) == g.TagAt(a, b) && r.ElemAt(a, b) == g.ElemAt(a, b)
  {
    if d.die % 100 < DieSmokeChance {
      ReplaceCells(g, x, y, SmokeElement, NewTag(SmokeElement, cfg, d.dieColor));
    } else {
      ReplaceCells(g, x, y, AirElement, NewTag(AirElement, cfg, 0));
    }
  }

  /** Spawning puts a Smoke cell of the given heat above and changes nothing else. */
  lemma SpawnSmokeCells(g: Grid, cfg: Config, x: int, y: int, d: Draws, chance: int, heat: int)
    requires g.Valid() && g.InBounds(x, y)
    ensures var r := SpawnSmoke(g, cfg, x, y, d, chance, heat);
            && (Spawns(g, x, y, d, chance) ==>
                  r.ElemAt(x, y - 1) == SmokeElement && r.TagAt(x, y - 1) == NewTag(SmokeElement, cfg, d.smokeColor).(heat := heat))
            && (!Spawns(g, x, y, d, chance) ==> r == g)
            && forall a, b :: g.InBounds(a, b) && !(a == x && b == y - 1) ==>
                 r.TagAt(a, b) == g.TagAt(a, b) && r.ElemAt(a, b) == g.ElemAt(a, b)
  {
    if Spawns(g, x, y, d, chance) {
      var t := NewTag(SmokeElement, cfg, d.smokeColor);
      ReplaceCells(g, x, y - 1, SmokeElement, t);
      var h := g.ReplaceNew(x, y - 1, SmokeElement, cfg, d.smokeColor);
      WithTagCells(h, x, y - 1, h.TagAt(x, y - 1).(heat := heat));
    }
  }

  /** `SpawnSmoke` performed on the world. */
  method SpawnSmokeAt(w: PixelWorld, x: int, y: int, d: Draws, chance: int, heat: int)
    requires w.Valid() && w.InBounds(x, y)
    modifies w.tags, w.elems
    ensures w.Cells() == SpawnSmoke(old(w.Cells()), w.cfg, x, y, d, chance, heat)
  {
    if y > 0 {
      var above := w.TagOf(x, y - 1);
      if above.kind == Air && d.smoke % 100 < chance {
        w.ReplacePixel(x, y - 1, SmokeElement, d.smokeColor);
        var t := w.TagOf(x, y - 1);
        w.SetTag(x, y - 1, t.(heat := heat));
      }
    }
  }

  /** `BurnOut` performed on the world. */
  method BurnOutAt(w: PixelWorld, x: int, y: int, d: Draws)
    requires w.Valid() && w.InBounds(x, y)
    modifies w.tags, w.elems
    ensures w.Cells() == BurnOut(old(w.Cells()), w.cfg, x, y, d)
  {
    if d.die % 100 < DieSmokeChance {
      w.ReplacePixel(x, y, SmokeElement, d.dieColor);
    } else {
      w.ReplacePixelWithAir(x, y);
    }
  }

  // ----- Oil -----

  /** `ignite_heat_threshold` of Oil. */
  const OilIgniteHeat: int := 40

  /** `produced_fire_heat` of Oil: what burning adds to its own heat. */
  const OilFireHeat: int := 50

  /** `smoke_heat` of Oil: the heat of the Smoke it spawns above itself. */
  const OilSmokeHeat: int := 50

  /** `random_smoke_chance` of Oil, in percent. */
  const OilSmokeChance: int := 3

  /** The grid after `Oil::step`'s own rules, and whether it goes on to the fluid step. */
  datatype OilOutcome = OilOutcome(after: Grid, flows: bool)

  /**
    `Oil::step` before its closing fluid step. Oil is ignited exactly when its
    heat is at least 40. Burning takes one from the burn time and raises the
    heat by 50 up to `heat_max`; once the burn time reaches 0 the cell burns
    out, the new cell keeps the raised heat and the fluid step is skipped.
    Otherwise burning oil may spawn Smoke of heat 50 above itself.
   */
  function OilStep(g: Grid, cfg: Config, x: int, y: int, d: Draws): (r: OilOutcome)
    requires g.Valid() && g.InBounds(x, y) && g.ElemAt(x, y).OilElement?
    ensures r.after.Valid() && r.after.width == g.width && r.after.height == g.height && r.after.statics == g.statics
  {
    var t := g.TagAt(x, y);
    var lit := t.heat >= OilIgniteHeat;
    if !lit then OilOutcome(g.WithTag(x, y, t.(ignited := false)), true)
    else
      var burn := g.ElemAt(x, y).burnTimeLeft - 1;
      var next := Min(cfg.heatMax, t.heat + OilFireHeat);
      if burn <= 0 then OilOutcome(BurnOutHot(g, cfg, x, y, d, next), false)
      else
        var h := g.WithTag(x, y, t.(ignited := true, heat := next)).WithElem(x, y, OilElement(burn));
        OilOutcome(SpawnSmoke(h, cfg, x, y, d, OilSmokeChance, OilSmokeHeat), true)
  }

  /** Oil's burn-out: the new cell is given the raised heat through the tag reference still held. */
  function BurnOutHot(g: Grid, cfg: Config, x: int, y: int, d: Draws, heat: int): (r: Grid)
    requires g.Valid() && g.InBounds(x, y)
    ensures r.Valid() && r.width == g.width && r.height == g.height && r.statics == g.statics
  {
    var h := BurnOut(g, cfg, x, y, d);
    h.WithTag(x, y, h.TagAt(x, y).(heat := heat))
  }

  /** `BurnOutHot` performed on the world. */
  method BurnOutHotAt(w: PixelWorld, x: int, y: int, d: Draws, heat: int)
    requires w.Valid() && w.InBounds(x, y)
    modifies w.tags, w.elems
    ensures w.Cells() == BurnOutHot(old(w.Cells()), w.cfg, x, y, d, heat)
  {
    BurnOutAt(w, x, y, d);
    var u := w.TagOf(x, y);
    w.SetTag(x, y, u.(heat := heat));
  }

  /** Cold oil only has its `ignited` flag cleared and goes on to the fluid step. */
  lemma OilCold(g: Grid, cfg: Config, x: int, y: int, d: Draws)
    requires g.Valid() && g.InBounds(x, y) && g.ElemAt(x, y).OilElement?
    requires g.TagAt(x, y).heat < OilIgniteHeat
    ensures var r := OilStep(g, cfg, x, y, d);
            && r.flows && r.after.TagAt(x, y) == g.TagAt(x, y).(ignited := false)
            && (!g.TagAt(x, y).ignited ==> r.after == g)
            && r.after.elems == g.elems
            && forall a, b :: g.InBounds(a, b) && !(a == x && b == y) ==> r.after.TagAt(a, b) == g.TagAt(a, b)
  {
    WithTagCells(g, x, y, g.TagAt(x, y).(ignited := false));
    WithTagTwice(g, x, y, g.TagAt(x, y), g.TagAt(x, y));
  }

  /**
    Hot oil with burn time left burns: it is ignited, its burn time drops by
    one, its heat rises by 50 up to `heat_max`, it may spawn Smoke of heat 50
    above itself, no other cell changes, and it goes on to the fluid step.
   */
  lemma OilBurns(g: Grid, cfg: Config, x: int, y: int, d: Draws)
    requires g.Valid() && g.InBounds(x, y) && g.ElemAt(x, y).OilElement?
    requires g.TagAt(x, y).heat >= OilIgniteHeat && g.ElemAt(x, y).burnTimeLeft > 1
    ensures var r := OilStep(g, cfg, x, y, d);
            var t := g.TagAt(x, y);
            && r.flows
            && r.after.TagAt(x, y) == t.(ignited := true, heat := Min(cfg.heatMax, t.heat + OilFireHeat))
            && r.after.ElemAt(x, y) == OilElement(g.ElemAt(x, y).burnTimeLeft - 1)
            && (Spawns(g, x, y, d, OilSmokeChance) ==>
                  r.after.ElemAt(x, y - 1) == SmokeElement
                  && r.after.TagAt(x, y - 1) == NewTag(SmokeElement, cfg, d.smokeColor).(heat := OilSmokeHeat))
            && forall a, b :: g.InBounds(a, b) && !(a == x && b == y) && !(Spawns(g, x, y, d, OilSmokeChance) && a == x && b == y - 1) ==>
                 r.after.TagAt(a, b) == g.TagAt(a, b) && r.after.ElemAt(a, b) == g.ElemAt(a, b)
  {
    var t := g.TagAt(x, y);
    var h0 := g.WithTag(x, y, t.(ignited := true, heat := Min(cfg.heatMax, t.heat + OilFireHeat)));
    var h := h0.WithElem(x, y, OilElement(g.ElemAt(x, y).burnTimeLeft - 1));
    WithTagCells(g, x, y, t.(ignited := true, heat := Min(cfg.heatMax, t.heat + OilFireHeat)));
    WithElemCells(h0, x, y, OilElement(g.ElemAt(x, y).burnTimeLeft - 1));
    assert Spawns(h, x, y, d, OilSmokeChance) == Spawns(g, x, y, d, OilSmokeChance);
    SpawnSmokeCells(h, cfg, x, y, d, OilSmokeChance, OilSmokeHeat);
  }

  /**
    Hot oil on its last unit of burn time burns out into Smoke (draw under 25)
    or Air; the new cell carries the raised heat, nothing else changes, and
    the fluid step is skipped.
   */
  lemma OilBurnsOut(g: Grid, cfg: Config, x: int, y: int, d: Draws)
    requires g.Valid() && g.InBounds(x, y) && g.ElemAt(x, y).OilElement?
    requires g.TagAt(x, y).heat >= OilIgniteHeat && g.ElemAt(x, y).burnTimeLeft <= 1
    ensures var r := OilStep(g, cfg, x, y, d);
            var e := if d.die % 100 < DieSmokeChance then SmokeElement else AirElement;
            && !r.flows
            && r.after.ElemAt(x, y) == e
            && r.after.TagAt(x, y)
               == NewTag(e, cfg, if e.SmokeElement? then d.dieColor else 0).(heat := Min(cfg.heatMax, g.TagAt(x, y).heat + OilFireHeat))
            && forall a, b :: g.InBounds(a, b) && !(a == x && b == y) ==>
                 r.after.TagAt(a, b) == g.TagAt(a, b) && r.after.ElemAt(a, b) == g.ElemAt(a, b)
  {
    var h := BurnOut(g, cfg, x, y, d);
    BurnOutCells(g, cfg, x, y, d);
    WithTagCells(h, x, y, h.TagAt(x, y).(heat := Min(cfg.heatMax, g.TagAt(x, y).heat + OilFireHeat)));
  }

  /** After its own rules, oil is ignited exactly when it was hot, and skips the fluid step exactly when it burnt out. */
  lemma OilIgnition(g: Grid, cfg: Config, x: int, y: int, d: Draws)
    requires g.Valid() && g.InBounds(x, y) && g.ElemAt(x, y).OilElement?
    ensures var r := OilStep(g, cfg, x, y, d);
            && (!r.flows <==> g.TagAt(x, y).heat >= OilIgniteHeat && g.ElemAt(x, y).burnTimeLeft <= 1)
            && (r.flows ==> r.after.TagAt(x, y).ignited == (g.TagAt(x, y).heat >= OilIgniteHeat))
  {
    if g.TagAt(x, y).heat < OilIgniteHeat {
      OilCold(g, cfg, x, y, d);
    } else if g.ElemAt(x, y).burnTimeLeft > 1 {
      OilBurns(g, cfg, x, y, d);
    }
  }

  /**
    `Oil::step` on the world, up to its closing fluid step; `flows` says
    whether that step runs.
   */
  method OilStepAt(w: PixelWorld, x: int, y: int, d: Draws) returns (flows: bool)
    requires w.Valid() && w.InBounds(x, y) && w.Cells().ElemAt(x, y).OilElement?
    modifies w.tags, w.elems
    ensures OilOutcome(w.Cells(), flows) == OilStep(old(w.Cells()), w.cfg, x, y, d)
  {
    var t := w.TagOf(x, y);
    var e := w.ElementOf(x, y);
    if t.heat < OilIgniteHeat {
      w.SetTag(x, y, t.(ignited := false));
      return true;
    }
    var burn := e.burnTimeLeft - 1;
    var next := Min(w.cfg.heatMax, t.heat + OilFireHeat);
    if burn <= 0 {
      BurnOutHotAt(w, x, y, d, next);
      return false;
    }
    w.SetTag(x, y, t.(ignited := true, heat := next));
    w.SetElement(x, y, OilElement(burn));
    SpawnSmokeAt(w, x, y, d, OilSmokeChance, OilSmokeHeat);
    return true;
  }

  // ----- Wood -----

  /** `ignition_heat_threshold` of Wood. */
  const WoodIgniteHeat: int := 60

  /** `ignition_chance` of Wood, in percent. */
  const WoodIgniteChance: int := 10

  /** `produced_fire_heat` of Wood. */
  const WoodFireHeat: int := 40

  /** `produced_fire_heat_to_neighbors` of Wood. */
  const WoodNeighborHeat: int := 2

  /** `smoke_heat` of Wood. */
  const WoodSmokeHeat: int := 40

  /** `random_smoke_chance` of Wood, in percent. */
  const WoodSmokeChance: int := 2

  /** A tag's heat raised by `amount`, capped at `heatMax`. */
  function Warmed(t: Tag, heatMax: int, amount: int): Tag
  {
    t.(heat := Min(heatMax, t.heat + amount))
  }

  /** Each point of `ps`, first to last, warmed by `amount`. */
  function WarmEach(g: Grid, ps: seq<Point>, heatMax: int, amount: int): (r: Grid)
    requires g.Valid() && AllIn(g, ps)
    ensures r.Valid() && r.width == g.width && r.height == g.height && r.elems == g.elems && r.statics == g.statics
    decreases |ps|
  {
    if |ps| == 0 then g
    else
      var p := ps[|ps| - 1];
      var h := WarmEach(g, ps[..|ps| - 1], heatMax, amount);
      h.WithTag(p.x, p.y, Warmed(h.TagAt(p.x, p.y), heatMax, amount))
  }

  /** Warming a list of distinct cells warms each of them once and nothing else. */
  lemma {:induction false} WarmEachCells(g: Grid, ps: seq<Point>, heatMax: int, amount: int)
    requires g.Valid() && AllIn(g, ps) && Distinct(ps)
    ensures forall a, b :: g.InBounds(a, b) ==>
              WarmEach(g, ps, heatMax, amount).TagAt(a, b)
              == if Point(a, b) in ps then Warmed(g.TagAt(a, b), heatMax, amount) else g.TagAt(a, b)
    decreases |ps|
  {
    if |ps| > 0 {
      var q, p := ps[..|ps| - 1], ps[|ps| - 1];
      assert ps == q + [p];
      assert p !in q;
      WarmEachCells(g, q, heatMax, amount);
      var h := WarmEach(g, q, heatMax, amount);
      WithTagCells(h, p.x, p.y, Warmed(h.TagAt(p.x, p.y), heatMax, amount));
    }
  }

  /** Whether wood at `t` burns this step: it already burns, or it is hot and the draw lights it. */
  predicate WoodLit(t: Tag, d: Draws)
  {
    t.ignited || (t.heat >= WoodIgniteHeat && d.ignite % 100 < WoodIgniteChance)
  }

  /**
    `Wood::step`. Wood not yet burning catches fire when its heat is at least
    60 and the draw falls under 10. Burning takes one from the burn time,
    raises its own heat by 40 and each 4-neighbour's by 2, up to `heat_max`;
    at the end of the burn time the cell burns out into Smoke or Air (a fresh
    tag: the heat is not carried over), and otherwise it may spawn Smoke of
    heat 40 above itself.
   */
  function WoodStep(g: Grid, cfg: Config, x: int, y: int, d: Draws): (r: Grid)
    requires g.Valid() && g.InBounds(x, y) && g.ElemAt(x, y).WoodElement?
    ensures r.Valid() && r.width == g.width && r.height == g.height && r.statics == g.statics
  {
    var t := g.TagAt(x, y);
    if !WoodLit(t, d) then g
    else
      var burn := g.ElemAt(x, y).burnTimeLeft - 1;
      var h2 := WoodWarm(g, cfg, x, y);
      if burn <= 0 then BurnOut(h2, cfg, x, y, d)
      else SpawnSmoke(h2.WithElem(x, y, WoodElement(burn)), cfg, x, y, d, WoodSmokeChance, WoodSmokeHeat)
  }

  /** The heat burning wood gives off: its own tag (now ignited) and then each 4-neighbour in turn. */
  function WoodWarm(g: Grid, cfg: Config, x: int, y: int): (r: Grid)
    requires g.Valid() && g.InBounds(x, y)
    ensures r.Valid() && r.width == g.width && r.height == g.height && r.elems == g.elems && r.statics == g.statics
  {
    var h := g.WithTag(x, y, Warmed(g.TagAt(x, y).(ignited := true), cfg.heatMax, WoodFireHeat));
    var ns := NeighborsOf(Point(x, y), g.width, g.height);
    PointsIn(h, ns);
    WarmEach(h, ns, cfg.heatMax, WoodNeighborHeat)
  }

  /** Burning wood heats itself by 40 and each cell at distance 1 by 2, up to `heat_max`, and no other cell. */
  lemma WoodHeats(g: Grid, cfg: Config, x: int, y: int)
    requires g.Valid() && g.InBounds(x, y)
    ensures var r := WoodWarm(g, cfg, x, y);
            forall a, b :: g.InBounds(a, b) ==>
              r.TagAt(a, b)
              == if a == x && b == y then Warmed(g.TagAt(x, y).(ignited := true), cfg.heatMax, WoodFireHeat)
                 else if Abs(a - x) + Abs(b - y) == 1 then Warmed(g.TagAt(a, b), cfg.heatMax, WoodNeighborHeat)
                 else g.TagAt(a, b)
  {
    var own := Warmed(g.TagAt(x, y).(ignited := true), cfg.heatMax, WoodFireHeat);
    var h := g.WithTag(x, y, own);
    var ns := NeighborsOf(Point(x, y), g.width, g.height);
    PointsIn(h, ns);
    NeighborsDistinct(Point(x, y), g.width, g.height);
    WithTagCells(g, x, y, own);
    WarmEachCells(h, ns, cfg.heatMax, WoodNeighborHeat);
    forall a, b | g.InBounds(a, b) ensures Point(a, b) in ns <==> Abs(a - x) + Abs(b - y) == 1 {
      NextTo(Point(x, y), g.width, g.height, a, b);
    }
  }

  /** Wood that does not burn this step changes nothing; burning wood stays ignited until it burns out. */
  lemma WoodIgnition(g: Grid, cfg: Config, x: int, y: int, d: Draws)
    requires g.Valid() && g.InBounds(x, y) && g.ElemAt(x, y).WoodElement?
    ensures !WoodLit(g.TagAt(x, y), d) ==> WoodStep(g, cfg, x, y, d) == g
    ensures WoodLit(g.TagAt(x, y), d) && g.ElemAt(x, y).burnTimeLeft > 1 ==>
              var r := WoodStep(g, cfg, x, y, d);
              r.TagAt(x, y).ignited && r.ElemAt(x, y) == WoodElement(g.ElemAt(x, y).burnTimeLeft - 1)
    ensures g.TagAt(x, y).ignited ==> WoodLit(g.TagAt(x, y), d)
  {
    if WoodLit(g.TagAt(x, y), d) && g.ElemAt(x, y).burnTimeLeft > 1 {
      WoodBurnsCells(g, cfg, x, y, d);
    }
  }

  /**
    Burning wood with burn time left: its own heat rises by 40 and every
    4-neighbour's by 2 (up to `heat_max`), its burn time drops by one, and
    the cell above may become Smoke of heat 40 instead; nothing else changes.
   */
  lemma WoodBurnsCells(g: Grid, cfg: Config, x: int, y: int, d: Draws)
    requires g.Valid() && g.InBounds(x, y) && g.ElemAt(x, y).WoodElement?
    requires WoodLit(g.TagAt(x, y), d) && g.ElemAt(x, y).burnTimeLeft > 1
    ensures var r := WoodStep(g, cfg, x, y, d);
            var t := g.TagAt(x, y);
            && r.TagAt(x, y) == Warmed(t.(ignited := true), cfg.heatMax, WoodFireHeat)
            && r.ElemAt(x, y) == WoodElement(g.ElemAt(x, y).burnTimeLeft - 1)
            && (Spawns(g, x, y, d, WoodSmokeChance) ==>
                  r.ElemAt(x, y - 1) == SmokeElement
                  && r.TagAt(x, y - 1) == NewTag(SmokeElement, cfg, d.smokeColor).(heat := WoodSmokeHeat))
            && forall a, b :: g.InBounds(a, b) && !(a == x && b == y) && !(Spawns(g, x, y, d, WoodSmokeChance) && a == x && b == y - 1) ==>
                 r.ElemAt(a, b) == g.ElemAt(a, b)
                 && r.TagAt(a, b) == if Abs(a - x) + Abs(b - y) == 1 then Warmed(g.TagAt(a, b), cfg.heatMax, WoodNeighborHeat) else g.TagAt(a, b)
  {
    WoodHeats(g, cfg, x, y);
    var h2 := WoodWarm(g, cfg, x, y);
    var h3 := h2.WithElem(x, y, WoodElement(g.ElemAt(x, y).burnTimeLeft - 1));
    WithElemCells(h2, x, y, WoodElement(g.ElemAt(x, y).burnTimeLeft - 1));
    assert h3.tags == h2.tags;
    assert Spawns(h3, x, y, d, WoodSmokeChance) == Spawns(g, x, y, d, WoodSmokeChance);
    SpawnSmokeCells(h3, cfg, x, y, d, WoodSmokeChance, WoodSmokeHeat);
  }

  /**
    Burning wood at the end of its burn time becomes a fresh Smoke (draw
    under 25) or Air cell; its 4-neighbours still got their 2 degrees, and
    nothing else changes.
   */
  lemma WoodBurnsOut(g: Grid, cfg: Config, x: int, y: int, d: Draws)
    requires g.Valid() && g.InBounds(x, y) && g.ElemAt(x, y).WoodElement?
    requires WoodLit(g.TagAt(x, y), d) && g.ElemAt(x, y).burnTimeLeft <= 1
    ensures var r := WoodStep(g, cfg, x, y, d);
            var e := if d.die % 100 < DieSmokeChance then SmokeElement else AirElement;
            && r.ElemAt(x, y) == e
            && r.TagAt(x, y) == NewTag(e, cfg, if e.SmokeElement? then d.dieColor else 0)
            && forall a, b :: g.InBounds(a, b) && !(a == x && b == y) ==>
                 r.ElemAt(a, b) == g.ElemAt(a, b)
                 && r.TagAt(a, b) == if Abs(a - x) + Abs(b - y) == 1 then Warmed(g.TagAt(a, b), cfg.heatMax, WoodNeighborHeat) else g.TagAt(a, b)
  {
    WoodHeats(g, cfg, x, y);
    BurnOutCells(WoodWarm(g, cfg, x, y), cfg, x, y, d);
  }

  /** The neighbour loop of `Wood::step` on the world. */
  method WarmAt(w: PixelWorld, ps: seq<Point>, amount: int)
    requires w.Valid() && AllIn(w.Cells(), ps)
    modifies w.tags
    ensures w.Cells() == WarmEach(old(w.Cells()), ps, w.cfg.heatMax, amount)
  {
    ghost var g := w.Cells();
    var i := 0;
    while i < |ps|
      invariant 0 <= i <= |ps|
      invariant w.Cells() == WarmEach(g, ps[..i], w.cfg.heatMax, amount)
    {
      assert ps[..i + 1][..i] == ps[..i];
      var t := w.TagOf(ps[i].x, ps[i].y);
      w.SetTag(ps[i].x, ps[i].y, Warmed(t, w.cfg.heatMax, amount));
      i := i + 1;
    }
    assert ps[..|ps|] == ps;
  }

  /** `WoodWarm` performed on the world. */
  method WoodWarmAt(w: PixelWorld, x: int, y: int)
    requires w.Valid() && w.InBounds(x, y)
    modifies w.tags
    ensures w.Cells() == WoodWarm(old(w.Cells()), w.cfg, x, y)
  {
    var t := w.TagOf(x, y);
    w.SetTag(x, y, Warmed(t.(ignited := true), w.cfg.heatMax, WoodFireHeat));
    var ns := NeighborsOf(Point(x, y), w.width, w.height);
    PointsIn(w.Cells(), ns);
    WarmAt(w, ns, WoodNeighborHeat);
  }

  /** `Wood::step` on the world. */
  method WoodStepAt(w: PixelWorld, x: int, y: int, d: Draws)
    requires w.Valid() && w.InBounds(x, y) && w.Cells().ElemAt(x, y).WoodElement?
    modifies w.tags, w.elems
    ensures w.Cells() == WoodStep(old(w.Cells()), w.cfg, x, y, d)
  {
    var t := w.TagOf(x, y);
    var e := w.ElementOf(x, y);
    if !WoodLit(t, d) {
      return;
    }
    var burn := e.burnTimeLeft - 1;
    WoodWarmAt(w, x, y);
    if burn <= 0 {
      BurnOutAt(w, x, y, d);
      return;
    }
    w.SetElement(x, y, WoodElement(burn));
    SpawnSmokeAt(w, x, y, d, WoodSmokeChance, WoodSmokeHeat);
  }
}
