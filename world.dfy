// `PixelWorld` of src/fallsand/world.cpp: the three cell arrays, the
// structure list, and the cell operations. Every method is specified by the
// `Grid` operation of grid.dfy it performs on `Cells()`.
module World {
  import opened Base
  import opened Pixels
  import opened Grids
  import opened Structures

  /** The constructor's loop: `n` cells holding `air` and the Air element. */
  method AirCells(n: nat, air: Tag) returns (t: array<Tag>, e: array<Element>)
    ensures fresh(t) && fresh(e)
    ensures t[..] == seq(n, _ => air) && e[..] == seq(n, _ => AirElement)
  {
    t := new Tag[n];
    e := new Element[n];
    for i := 0 to n
      invariant forall k :: 0 <= k < i ==> t[k] == air && e[k] == AirElement
    {
      t[i] := air;
      e[i] := AirElement;
    }
  }

  class PixelWorld {
    const width: nat
    const height: nat
    /** The palette and tag maxima the world's elements are built with. */
    const cfg: Config
    const tags: array<Tag>
    const elems: array<Element>
    const statics: array<StaticTag>
    /** `_structures`, in step order. */
    var structures: seq<Structure>

    predicate Valid()
    {
      && cfg.Valid()
      && tags.Length == width * height && elems.Length == width * height && statics.Length == width * height
    }

    /** The cells as a value. */
    function Cells(): (g: Grid)
      reads tags, elems, statics
      ensures g.width == width && g.height == height
      ensures Valid() ==> g.Valid()
    {
      Grid(width, height, tags[..], elems[..], statics[..])
    }

    /** `inBounds`. */
    predicate InBounds(x: int, y: int) { 0 <= x < width && 0 <= y < height }

    /** Every cell is Air and every static flag is clear. */
    constructor(width: nat, height: nat, cfg: Config)
      requires cfg.Valid()
      ensures Valid() && this.width == width && this.height == height && this.cfg == cfg
      ensures Cells() == NewGrid(width, height, cfg) && structures == []
    {
      var n := width * height;
      var t, e := AirCells(n, AirTag(cfg));
      var s := new StaticTag[n](_ => ClearStatic);
      assert s[..] == seq(n, _ => ClearStatic);
      this.width, this.height, this.cfg := width, height, cfg;
      tags, elems, statics := t, e, s;
      structures := [];
    }

    /** `tagOf`: cell `(x, y)` lives at index `y * width + x`. */
    function TagOf(x: int, y: int): (t: Tag)
      requires Valid() && InBounds(x, y)
      reads tags, elems, statics
      ensures t == Cells().TagAt(x, y)
    {
      tags[CellIndex(x, y, width, height)]
    }

    /** `elementOf`. */
    function ElementOf(x: int, y: int): (e: Element)
      requires Valid() && InBounds(x, y)
      reads tags, elems, statics
      ensures e == Cells().ElemAt(x, y)
    {
      elems[CellIndex(x, y, width, height)]
    }

    /** `staticTagOf`. */
    function StaticTagOf(x: int, y: int): (s: StaticTag)
      requires Valid() && InBounds(x, y)
      reads tags, elems, statics
      ensures s == Cells().StaticAt(x, y)
    {
      statics[CellIndex(x, y, width, height)]
    }

    /** `typeOfIs`. */
    function TypeOfIs(x: int, y: int, t: PixelType): (b: bool)
      requires Valid() && InBounds(x, y)
      reads tags, elems, statics
      ensures b <==> Cells().TagAt(x, y).kind == t
    {
      TagOf(x, y).kind == t
    }

    /** `classOfIs`. */
    function ClassOfIs(x: int, y: int, c: PixelClass): (b: bool)
      requires Valid() && InBounds(x, y)
      reads tags, elems, statics
      ensures b <==> Cells().TagAt(x, y).pclass == c
    {
      TagOf(x, y).pclass == c
    }

    /** A write through the reference `tagOf` returns. */
    method SetTag(x: int, y: int, t: Tag)
      requires Valid() && InBounds(x, y)
      modifies tags
      ensures Cells() == old(Cells()).WithTag(x, y, t)
    {
      tags[CellIndex(x, y, width, height)] := t;
    }

    /** A write to the fields of the element object at `(x, y)` (Oil's and Wood's `burn_time_left`). */
    method SetElement(x: int, y: int, e: Element)
      requires Valid() && InBounds(x, y)
      modifies elems
      ensures Cells() == old(Cells()).WithElem(x, y, e)
    {
      elems[CellIndex(x, y, width, height)] := e;
    }

    /** A write through the reference `staticTagOf` returns. */
    method SetStatic(x: int, y: int, s: StaticTag)
      requires Valid() && InBounds(x, y)
      modifies statics
      ensures Cells() == old(Cells()).WithStatic(x, y, s)
    {
      statics[CellIndex(x, y, width, height)] := s;
    }

    /** `activateLaserAt`: sets the cell's `laser_active` flag. */
    method ActivateLaserAt(x: int, y: int)
      requires Valid() && InBounds(x, y)
      modifies statics
      ensures Cells() == old(Cells()).WithStatic(x, y, old(Cells()).StaticAt(x, y).(laserActive := true))
    {
      var i := CellIndex(x, y, width, height);
      statics[i] := statics[i].(laserActive := true);
    }

    /** `swapPixels`. */
    method SwapPixels(x1: int, y1: int, x2: int, y2: int)
      requires Valid() && InBounds(x1, y1) && InBounds(x2, y2)
      modifies tags, elems
      ensures Cells() == old(Cells()).Swap(x1, y1, x2, y2)
    {
      var i, j := CellIndex(x1, y1, width, height), CellIndex(x2, y2, width, height);
      var t1, t2 := tags[i], tags[j];
      tags[i] := t2;
      tags[j] := t1;
      var e1, e2 := elems[i], elems[j];
      elems[i] := e2;
      elems[j] := e1;
    }

    /** `swapFluids`: the directions are exchanged first, so each position keeps its own. */
    method SwapFluids(x1: int, y1: int, x2: int, y2: int)
      requires Valid() && InBounds(x1, y1) && InBounds(x2, y2)
      modifies tags, elems
      ensures Cells() == old(Cells()).SwapFluids(x1, y1, x2, y2)
    {
      var i, j := CellIndex(x1, y1, width, height), CellIndex(x2, y2, width, height);
      var d := tags[i].fluidDir;
      tags[i] := tags[i].(fluidDir := tags[j].fluidDir);
      tags[j] := tags[j].(fluidDir := d);
      var t1, t2 := tags[i], tags[j];
      tags[i] := t2;
      tags[j] := t1;
      var e1, e2 := elems[i], elems[j];
      elems[i] := e2;
      elems[j] := e1;
    }

    /** The three-argument `replacePixel`: the new element's own tag; `roll` is its colour draw. */
    method ReplacePixel(x: int, y: int, e: Element, roll: nat)
      requires Valid() && InBounds(x, y)
      modifies tags, elems
      ensures Cells() == old(Cells()).ReplaceNew(x, y, e, cfg, roll)
    {
      var i := CellIndex(x, y, width, height);
      tags[i] := NewTag(e, cfg, roll);
      elems[i] := e;
    }

    /** The four-argument `replacePixel`. */
    method ReplacePixelWithTag(x: int, y: int, e: Element, t: Tag)
      requires Valid() && InBounds(x, y)
      modifies tags, elems
      ensures Cells() == old(Cells()).Replace(x, y, e, t)
    {
      var i := CellIndex(x, y, width, height);
      tags[i] := t;
      elems[i] := e;
    }

    /** `replacePixelWithAir`. */
    method ReplacePixelWithAir(x: int, y: int)
      requires Valid() && InBounds(x, y)
      modifies tags, elems
      ensures Cells() == old(Cells()).ReplaceNew(x, y, AirElement, cfg, 0)
    {
      ReplacePixel(x, y, AirElement, 0);
    }

    /**
      The recurring "read the heat, replace the cell, write the heat back"
      of the structure sources.
     */
    method ReplaceKeepHeat(x: int, y: int, e: Element, roll: nat)
      requires Valid() && InBounds(x, y)
      modifies tags, elems
      ensures Cells() == old(Cells()).ReplaceKeepHeat(x, y, e, cfg, roll)
    {
      var i := CellIndex(x, y, width, height);
      var oldHeat := tags[i].heat;
      tags[i] := NewTag(e, cfg, roll).(heat := oldHeat);
      elems[i] := e;
    }

    /** `chargeElement`, with Copper's `onCharge` (every other element's is a no-op). */
    method ChargeElement(x: int, y: int)
      requires Valid() && InBounds(x, y)
      modifies tags
      ensures Cells() == old(Cells()).Charge(x, y, cfg.powerMax)
    {
      var i := CellIndex(x, y, width, height);
      if elems[i].CopperElement? && tags[i].electricPower == 0 {
        tags[i] := tags[i].(electricPower := cfg.powerMax);
      }
    }

    /** `resetDirtyFlags`. */
    method ResetDirtyFlags()
      requires Valid()
      modifies tags
      ensures Cells() == ClearDirty(old(Cells()))
    {
      ghost var g := Cells();
      for i := 0 to tags.Length
        invariant forall k :: 0 <= k < i ==> tags[k] == g.tags[k].(dirty := false)
        invariant forall k :: i <= k < tags.Length ==> tags[k] == g.tags[k]
      {
        tags[i] := tags[i].(dirty := false);
      }
    }

    /**
      The first loop of `step`: every laser flag is cleared and every positive
      power level drops by one.
     */
    method DecayPower()
      requires Valid()
      modifies tags, statics
      ensures Cells() == Decayed(old(Cells()))
    {
      ghost var g := Cells();
      for i := 0 to tags.Length
        invariant forall k :: 0 <= k < i ==> tags[k] == DecayTag(g.tags[k]) && statics[k] == g.statics[k].(laserActive := false)
        invariant forall k :: i <= k < tags.Length ==> tags[k] == g.tags[k] && statics[k] == g.statics[k]
      {
        statics[i] := statics[i].(laserActive := false);
        if tags[i].electricPower > 0 {
          tags[i] := tags[i].(electricPower := tags[i].electricPower - 1);
        }
      }
    }
  }
}
