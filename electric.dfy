// src/structures/electric.cpp: the 12-tick power capacitor of an input
// structure (`InputElectricalStructure::step`, `isPowered`) and the
// footprint charge of an output structure (`OutputElectricalStructure::step`).
module Electric {
  import opened Base
  import opened Pixels
  import opened Shapes
  import opened Grids
  import opened World
  import opened Structures
  import opened ShapeWorld
  import opened Elements

  // ----- the input capacitor -----

  /** The power level of the world cell under shape cell `(sx, sy)`. */
  function PowerUnder(g: Grid, b: ShapeBase, sx: int, sy: int): int
    requires g.Valid() && FitsIn(b, g.width, g.height) && 0 <= sx < b.Width() && 0 <= sy < b.Height()
  {
    g.TagAt(b.x + sx, b.y + sy).electricPower
  }

  /** Some cell of the bounding box of the footprint carries power: the input step's scan. */
  predicate Charged(g: Grid, b: ShapeBase)
    requires g.Valid() && FitsIn(b, g.width, g.height)
  {
    exists sx, sy :: 0 <= sx < b.Width() && 0 <= sy < b.Height() && PowerUnder(g, b, sx, sy) > 0
  }

  /** The capacitor after one input step: down by one if positive, back to full when the structure is charged. */
  function StepCap(cap: int, charged: bool): int
  {
    if charged then PowerCapacity else if cap > 0 then cap - 1 else cap
  }

  /** `InputElectricalStructure::step` on the capacitor. */
  function InputCap(g: Grid, b: ShapeBase, cap: int): int
    requires g.Valid() && FitsIn(b, g.width, g.height)
  {
    StepCap(cap, Charged(g, b))
  }

  /** A step keeps the capacitor in [0, 12]; it is full after a charge and one lower (never below 0) otherwise. */
  lemma StepCapBounds(cap: int, charged: bool)
    requires 0 <= cap <= PowerCapacity
    ensures 0 <= StepCap(cap, charged) <= PowerCapacity
    ensures charged ==> StepCap(cap, charged) == PowerCapacity
    ensures !charged ==> StepCap(cap, charged) == Max(0, cap - 1)
  {
  }

  /** The capacitor after a run of steps, each charged or not. */
  function CapAfter(cap: int, charges: seq<bool>): int
    decreases |charges|
  {
    if |charges| == 0 then cap else StepCap(CapAfter(cap, charges[..|charges| - 1]), charges[|charges| - 1])
  }

  /** After `k` unpowered steps from cap `c`, the cap is `max(0, c - k)`. */
  lemma {:induction false} UnchargedDecay(cap: int, charges: seq<bool>)
    requires 0 <= cap
    requires forall i :: 0 <= i < |charges| ==> !charges[i]
    ensures CapAfter(cap, charges) == Max(0, cap - |charges|)
    decreases |charges|
  {
    if |charges| > 0 {
      UnchargedDecay(cap, charges[..|charges| - 1]);
    }
  }

  /** The exact value of the capacitor: 12 minus the steps since the last charge within reach, else 0. */
  lemma {:induction false} CapWindow(charges: seq<bool>)
    ensures var c := CapAfter(0, charges);
            && 0 <= c <= PowerCapacity
            && (c > 0 ==> var j := |charges| - 1 - (PowerCapacity - c);
                          0 <= j && charges[j] && forall i :: j < i < |charges| ==> !charges[i])
            && (c == 0 ==> forall i :: |charges| - PowerCapacity <= i < |charges| && 0 <= i ==> !charges[i])
    decreases |charges|
  {
    if |charges| > 0 {
      var n := |charges|;
      var front := charges[..n - 1];
      CapWindow(front);
      forall i | 0 <= i < n - 1 ensures charges[i] == front[i] {
      }
    }
  }

  /**
    The capacitor's meaning: starting empty, a structure is powered after a
    run of steps exactly when one of the last 12 steps found it charged.
   */
  lemma PoweredIffRecentCharge(charges: seq<bool>)
    ensures 0 <= CapAfter(0, charges) <= PowerCapacity
    ensures CapAfter(0, charges) > 0 <==> exists i :: |charges| - PowerCapacity <= i < |charges| && 0 <= i && charges[i]
  {
    CapWindow(charges);
  }

  /** The scan of one row of the bounding box. */
  method ChargedRowAt(w: PixelWorld, b: ShapeBase, sy: nat) returns (found: bool)
    requires w.Valid() && FitsIn(b, w.width, w.height) && sy < b.Height()
    ensures found <==> exists sx :: 0 <= sx < b.Width() && PowerUnder(w.Cells(), b, sx, sy) > 0
  {
    var sx := 0;
    while sx < b.Width()
      invariant 0 <= sx <= b.Width()
      invariant forall i :: 0 <= i < sx ==> PowerUnder(w.Cells(), b, i, sy) <= 0
    {
      if w.TagOf(b.x + sx, b.y + sy).electricPower > 0 {
        assert PowerUnder(w.Cells(), b, sx, sy) > 0;
        return true;
      }
      sx := sx + 1;
    }
    return false;
  }

  /** The scan of `InputElectricalStructure::step`, which stops at the first powered cell. */
  method ChargedAt(w: PixelWorld, b: ShapeBase) returns (found: bool)
    requires w.Valid() && FitsIn(b, w.width, w.height)
    ensures found == Charged(w.Cells(), b)
  {
    var sy := 0;
    while sy < b.Height()
      invariant 0 <= sy <= b.Height()
      invariant forall j, i :: 0 <= j < sy && 0 <= i < b.Width() ==> PowerUnder(w.Cells(), b, i, j) <= 0
    {
      found := ChargedRowAt(w, b, sy);
      if found {
        return;
      }
      sy := sy + 1;
    }
    return false;
  }

  /** `InputElectricalStructure::step`: returns the new capacitor; the step itself always succeeds. */
  method InputStepAt(w: PixelWorld, b: ShapeBase, cap: int) returns (cap': int)
    requires w.Valid() && FitsIn(b, w.width, w.height)
    ensures cap' == InputCap(w.Cells(), b, cap)
    ensures 0 <= cap <= PowerCapacity ==> 0 <= cap' <= PowerCapacity
  {
    cap' := cap;
    if cap' > 0 {
      cap' := cap' - 1;
    }
    var charged := ChargedAt(w, b);
    if charged {
      cap' := PowerCapacity;
    }
  }

  // ----- the output charge -----

  /** The world cells under the non-Air shape cells among the first `n`, in row-major order. */
  function FootprintBefore(b: ShapeBase, n: nat): (ps: seq<Point>)
    requires b.Valid() && n <= b.Width() * b.Height()
    ensures forall k :: 0 <= k < |ps| ==> b.shape.Contains(ps[k].x - b.x, ps[k].y - b.y)
    decreases n
  {
    if n == 0 then []
    else
      var p := CellAt(n - 1, b.Width(), b.Height());
      FootprintBefore(b, n - 1) + (if b.TypeAt(p.x, p.y).kind != Air then [Point(b.x + p.x, b.y + p.y)] else [])
  }

  /** The world cells under the non-Air shape cells, in row-major order. */
  function Footprint(b: ShapeBase): seq<Point>
    requires b.Valid()
  {
    FootprintBefore(b, b.Width() * b.Height())
  }

  /** The footprint lists a world cell exactly when a non-Air shape cell lies over it. */
  lemma {:induction false} FootprintBeforeSpec(b: ShapeBase, n: nat)
    requires b.Valid() && n <= b.Width() * b.Height()
    ensures forall a, c :: Point(a, c) in FootprintBefore(b, n) <==> Under(b, a, c, n) && b.TypeAt(a - b.x, c - b.y).kind != Air
    decreases n
  {
    if n > 0 {
      FootprintBeforeSpec(b, n - 1);
      forall a, c ensures Point(a, c) in FootprintBefore(b, n) <==> Under(b, a, c, n) && b.TypeAt(a - b.x, c - b.y).kind != Air {
        FootprintStepAt(b, n, a, c);
      }
    }
  }

  /** Shape cell `n - 1` adds its world cell to the footprint exactly when it is not Air, and no other cell. */
  lemma FootprintStepAt(b: ShapeBase, n: nat, a: int, c: int)
    requires b.Valid() && 0 < n <= b.Width() * b.Height()
    requires Point(a, c) in FootprintBefore(b, n - 1) <==> Under(b, a, c, n - 1) && b.TypeAt(a - b.x, c - b.y).kind != Air
    ensures Point(a, c) in FootprintBefore(b, n) <==> Under(b, a, c, n) && b.TypeAt(a - b.x, c - b.y).kind != Air
  {
    var prev := FootprintBefore(b, n - 1);
    var p := CellAt(n - 1, b.Width(), b.Height());
    var last := if b.TypeAt(p.x, p.y).kind != Air then [Point(b.x + p.x, b.y + p.y)] else [];
    assert FootprintBefore(b, n) == prev + last;
    UnderCell(b, n - 1, a, c);
    assert Point(a, c) in prev + last <==> Point(a, c) in prev || Point(a, c) in last;
  }

  lemma FootprintIn(g: Grid, b: ShapeBase, n: nat)
    requires g.Valid() && b.Valid() && FitsIn(b, g.width, g.height) && n <= b.Width() * b.Height()
    ensures AllIn(g, FootprintBefore(b, n))
  {
  }

  /** `chargeElement` on the footprint cells of the first `n` shape cells. */
  function ChargeFootprint(g: Grid, b: ShapeBase, powerMax: int, n: nat): (r: Grid)
    requires g.Valid() && b.Valid() && FitsIn(b, g.width, g.height) && n <= b.Width() * b.Height()
    ensures r.Valid() && r.width == g.width && r.height == g.height && r.elems == g.elems && r.statics == g.statics
  {
    FootprintIn(g, b, n);
    ChargeEach(g, FootprintBefore(b, n), powerMax)
  }

  /** `OutputElectricalStructure::step` on the cells: `chargeElement` on every non-Air footprint cell. */
  function OutputStep(g: Grid, b: ShapeBase, powerMax: int): (r: Grid)
    requires g.Valid() && b.Valid() && FitsIn(b, g.width, g.height)
    ensures r.Valid() && r.width == g.width && r.height == g.height && r.elems == g.elems && r.statics == g.statics
  {
    ChargeFootprint(g, b, powerMax, b.Width() * b.Height())
  }

  /**
    An output step charges exactly the uncharged copper cells under the
    non-Air cells of the shape; it changes nothing else.
   */
  lemma OutputStepSpec(g: Grid, b: ShapeBase, powerMax: int)
    requires g.Valid() && b.Valid() && FitsIn(b, g.width, g.height) && powerMax != 0
    ensures var r := OutputStep(g, b, powerMax);
            && r.elems == g.elems && r.statics == g.statics
            && forall a, c :: g.InBounds(a, c) ==>
                 r.TagAt(a, c)
                 == if && b.shape.Contains(a - b.x, c - b.y) && b.TypeAt(a - b.x, c - b.y).kind != Air
                       && g.ElemAt(a, c).CopperElement? && g.TagAt(a, c).electricPower == 0
                    then g.TagAt(a, c).(electricPower := powerMax) else g.TagAt(a, c)
  {
    FootprintIn(g, b, b.Width() * b.Height());
    FootprintBeforeSpec(b, b.Width() * b.Height());
    ChargeEachCells(g, Footprint(b), powerMax);
  }

  /** Visiting shape cell `(sx, sy)` charges the cell under it when it is not Air. */
  lemma ChargeFootprintStep(g: Grid, b: ShapeBase, powerMax: int, sx: int, sy: int)
    requires g.Valid() && b.Valid() && FitsIn(b, g.width, g.height) && b.shape.Contains(sx, sy)
    ensures var k := CellIndex(sx, sy, b.Width(), b.Height());
            ChargeFootprint(g, b, powerMax, k + 1)
            == if b.TypeAt(sx, sy).kind != Air
               then ChargeFootprint(g, b, powerMax, k).Charge(b.x + sx, b.y + sy, powerMax)
               else ChargeFootprint(g, b, powerMax, k)
  {
    var k := CellIndex(sx, sy, b.Width(), b.Height());
    CellAtIndex(sx, sy, b.Width(), b.Height());
    var ps := FootprintBefore(b, k);
    FootprintIn(g, b, k + 1);
    if b.TypeAt(sx, sy).kind != Air {
      assert FootprintBefore(b, k + 1) == ps + [Point(b.x + sx, b.y + sy)];
      assert (ps + [Point(b.x + sx, b.y + sy)])[..|ps|] == ps;
    } else {
      assert FootprintBefore(b, k + 1) == ps;
    }
  }

  /** The output step at one shape cell, on the world. */
  method OutputCellAt(w: PixelWorld, b: ShapeBase, sx: nat, sy: nat, ghost g: Grid)
    requires w.Valid() && b.Valid() && FitsIn(b, w.width, w.height) && b.shape.Contains(sx, sy)
    requires g.Valid() && g.width == w.width && g.height == w.height
    requires w.Cells() == ChargeFootprint(g, b, w.cfg.powerMax, CellIndex(sx, sy, b.Width(), b.Height()))
    modifies w.tags
    ensures w.Cells() == ChargeFootprint(g, b, w.cfg.powerMax, CellIndex(sx, sy, b.Width(), b.Height()) + 1)
  {
    ChargeFootprintStep(g, b, w.cfg.powerMax, sx, sy);
    if b.TypeAt(sx, sy).kind != Air {
      w.ChargeElement(b.x + sx, b.y + sy);
    }
  }

  /** One row of the output step. */
  method OutputRowAt(w: PixelWorld, b: ShapeBase, sy: nat, start: nat, ghost g: Grid)
    requires w.Valid() && b.Valid() && FitsIn(b, w.width, w.height)
    requires g.Valid() && g.width == w.width && g.height == w.height
    requires sy < b.Height() && start == sy * b.Width() && start + b.Width() <= b.Width() * b.Height()
    requires w.Cells() == ChargeFootprint(g, b, w.cfg.powerMax, start)
    modifies w.tags
    ensures w.Cells() == ChargeFootprint(g, b, w.cfg.powerMax, start + b.Width())
  {
    var sx := 0;
    while sx < b.Width()
      invariant 0 <= sx <= b.Width()
      invariant w.Cells() == ChargeFootprint(g, b, w.cfg.powerMax, start + sx)
    {
      OutputCellAt(w, b, sx, sy, g);
      sx := sx + 1;
    }
  }

  /** `OutputElectricalStructure::step` on the world. */
  method OutputStepAt(w: PixelWorld, b: ShapeBase)
    requires w.Valid() && b.Valid() && FitsIn(b, w.width, w.height)
    modifies w.tags
    ensures w.Cells() == OutputStep(old(w.Cells()), b, w.cfg.powerMax)
  {
    ghost var g := w.Cells();
    var wd, ht := b.Width(), b.Height();
    var sy, start := 0, 0;
    while sy < ht
      invariant 0 <= sy <= ht && start == wd * sy
      invariant w.Cells() == ChargeFootprint(g, b, w.cfg.powerMax, start)
    {
      RowStart(wd, ht, sy);
      OutputRowAt(w, b, sy, start, g);
      sy, start := sy + 1, start + wd;
    }
  }
}
