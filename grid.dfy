// The cell store of src/fallsand/world.cpp as a value: the tag, element and
// static tag of each of the width x height cells, row-major, and the cell
// operations the world offers. `PixelWorld` (world.dfy) keeps the same data
// in arrays; its methods are specified by the functions here.
module Grids {
  import opened Base
  import opened Pixels

  /**
    Writing `v` at one cell of a row-major sequence changes that cell and no
    other.
   */
  lemma UpdateCell<T>(s: seq<T>, x: int, y: int, v: T, width: nat, height: nat)
    requires |s| == width * height && 0 <= x < width && 0 <= y < height
    ensures |s[CellIndex(x, y, width, height) := v]| == |s|
    ensures forall a, b :: 0 <= a < width && 0 <= b < height ==>
              s[CellIndex(x, y, width, height) := v][CellIndex(a, b, width, height)]
              == if a == x && b == y then v else s[CellIndex(a, b, width, height)]
  {
    forall a, b | 0 <= a < width && 0 <= b < height
      ensures s[CellIndex(x, y, width, height) := v][CellIndex(a, b, width, height)]
              == if a == x && b == y then v else s[CellIndex(a, b, width, height)]
    {
      CellIndexInjective(a, b, x, y, width, height);
    }
  }

  datatype Grid = Grid(width: nat, height: nat, tags: seq<Tag>, elems: seq<Element>, statics: seq<StaticTag>)
  {
    predicate Valid()
    {
      |tags| == width * height && |elems| == width * height && |statics| == width * height
    }

    /** `inBounds`. */
    predicate InBounds(x: int, y: int) { 0 <= x < width && 0 <= y < height }

    /** `tagOf`: the tag of cell `(x, y)`, kept at index `y * width + x`. */
    function TagAt(x: int, y: int): Tag
      requires Valid() && InBounds(x, y)
    {
      tags[CellIndex(x, y, width, height)]
    }

    /** `elementOf`. */
    function ElemAt(x: int, y: int): Element
      requires Valid() && InBounds(x, y)
    {
      elems[CellIndex(x, y, width, height)]
    }

    /** `staticTagOf`. */
    function StaticAt(x: int, y: int): StaticTag
      requires Valid() && InBounds(x, y)
    {
      statics[CellIndex(x, y, width, height)]
    }

    /** A write through the reference `tagOf` returns. */
    function WithTag(x: int, y: int, t: Tag): (r: Grid)
      requires Valid() && InBounds(x, y)
      ensures r.Valid() && r.width == width && r.height == height && r.elems == elems && r.statics == statics
    {
      this.(tags := tags[CellIndex(x, y, width, height) := t])
    }

    function WithElem(x: int, y: int, e: Element): (r: Grid)
      requires Valid() && InBounds(x, y)
      ensures r.Valid() && r.width == width && r.height == height && r.tags == tags && r.statics == statics
    {
      this.(elems := elems[CellIndex(x, y, width, height) := e])
    }

    function WithStatic(x: int, y: int, s: StaticTag): (r: Grid)
      requires Valid() && InBounds(x, y)
      ensures r.Valid() && r.width == width && r.height == height && r.tags == tags && r.elems == elems
    {
      this.(statics := statics[CellIndex(x, y, width, height) := s])
    }

    /** `swapPixels`: the two cells exchange tag and element (see `SwapCells`). */
    function Swap(x1: int, y1: int, x2: int, y2: int): (r: Grid)
      requires Valid() && InBounds(x1, y1) && InBounds(x2, y2)
      ensures r.Valid() && r.width == width && r.height == height && r.statics == statics
    {
      var t1, t2 := TagAt(x1, y1), TagAt(x2, y2);
      var e1, e2 := ElemAt(x1, y1), ElemAt(x2, y2);
      WithTag(x1, y1, t2).WithTag(x2, y2, t1).WithElem(x1, y1, e2).WithElem(x2, y2, e1)
    }

    /**
      `swapFluids`: like `Swap`, except that each position keeps its own
      `fluidDir` (see `SwapFluidsCells`).
     */
    function SwapFluids(x1: int, y1: int, x2: int, y2: int): (r: Grid)
      requires Valid() && InBounds(x1, y1) && InBounds(x2, y2)
      ensures r.Valid() && r.width == width && r.height == height && r.statics == statics
    {
      var d1, d2 := TagAt(x1, y1).fluidDir, TagAt(x2, y2).fluidDir;
      var g := WithTag(x1, y1, TagAt(x1, y1).(fluidDir := d2));
      var g' := g.WithTag(x2, y2, g.TagAt(x2, y2).(fluidDir := d1));
      g'.Swap(x1, y1, x2, y2)
    }

    /** The four-argument `replacePixel`: the cell gets element `e` and tag `t`. */
    function Replace(x: int, y: int, e: Element, t: Tag): (r: Grid)
      requires Valid() && InBounds(x, y)
      ensures r.Valid() && r.width == width && r.height == height && r.statics == statics
    {
      WithTag(x, y, t).WithElem(x, y, e)
    }

    /** The three-argument `replacePixel`: the cell gets `e` and the tag `e` starts with. */
    function ReplaceNew(x: int, y: int, e: Element, cfg: Config, roll: nat): (r: Grid)
      requires Valid() && InBounds(x, y)
      ensures r.Valid() && r.width == width && r.height == height && r.statics == statics
    {
      Replace(x, y, e, NewTag(e, cfg, roll))
    }

    /** The structure sources' "replace the cell but write its old heat back". */
    function ReplaceKeepHeat(x: int, y: int, e: Element, cfg: Config, roll: nat): (r: Grid)
      requires Valid() && InBounds(x, y)
      ensures r.Valid() && r.width == width && r.height == height && r.statics == statics
    {
      Replace(x, y, e, NewTag(e, cfg, roll).(heat := TagAt(x, y).heat))
    }

    /**
      `chargeElement`: dispatches to the element's `onCharge`. Only Copper
      overrides it: a copper cell with no power gets `powerMax`; anything else
      is left alone.
     */
    function Charge(x: int, y: int, powerMax: int): (r: Grid)
      requires Valid() && InBounds(x, y)
      ensures r.Valid() && r.width == width && r.height == height && r.elems == elems && r.statics == statics
    {
      if ElemAt(x, y).CopperElement? && TagAt(x, y).electricPower == 0 then
        WithTag(x, y, TagAt(x, y).(electricPower := powerMax))
      else this
    }
  }

  /** A tag write changes that cell's tag only. */
  lemma WithTagCells(g: Grid, x: int, y: int, t: Tag)
    requires g.Valid() && g.InBounds(x, y)
    ensures forall a, b :: g.InBounds(a, b) ==>
              g.WithTag(x, y, t).TagAt(a, b) == if a == x && b == y then t else g.TagAt(a, b)
  {
    UpdateCell(g.tags, x, y, t, g.width, g.height);
  }

  /** Two tag writes to one cell: the second wins; writing a cell's own tag back changes nothing. */
  lemma WithTagTwice(g: Grid, x: int, y: int, t: Tag, u: Tag)
    requires g.Valid() && g.InBounds(x, y)
    ensures g.WithTag(x, y, t).WithTag(x, y, u) == g.WithTag(x, y, u)
    ensures g.WithTag(x, y, g.TagAt(x, y)) == g
  {
    var i := CellIndex(x, y, g.width, g.height);
    assert g.tags[i := t][i := u] == g.tags[i := u];
    assert g.tags[i := g.tags[i]] == g.tags;
  }

  lemma WithElemCells(g: Grid, x: int, y: int, e: Element)
    requires g.Valid() && g.InBounds(x, y)
    ensures forall a, b :: g.InBounds(a, b) ==>
              g.WithElem(x, y, e).ElemAt(a, b) == if a == x && b == y then e else g.ElemAt(a, b)
  {
    UpdateCell(g.elems, x, y, e, g.width, g.height);
  }

  lemma WithStaticCells(g: Grid, x: int, y: int, s: StaticTag)
    requires g.Valid() && g.InBounds(x, y)
    ensures forall a, b :: g.InBounds(a, b) ==>
              g.WithStatic(x, y, s).StaticAt(a, b) == if a == x && b == y then s else g.StaticAt(a, b)
  {
    UpdateCell(g.statics, x, y, s, g.width, g.height);
  }

  /** `swapPixels` exchanges tag and element of exactly the two cells; static tags stay. */
  lemma SwapCells(g: Grid, x1: int, y1: int, x2: int, y2: int)
    requires g.Valid() && g.InBounds(x1, y1) && g.InBounds(x2, y2)
    ensures var r := g.Swap(x1, y1, x2, y2);
            && r.TagAt(x1, y1) == g.TagAt(x2, y2) && r.TagAt(x2, y2) == g.TagAt(x1, y1)
            && r.ElemAt(x1, y1) == g.ElemAt(x2, y2) && r.ElemAt(x2, y2) == g.ElemAt(x1, y1)
            && forall a, b :: g.InBounds(a, b) && !(a == x1 && b == y1) && !(a == x2 && b == y2) ==>
                 r.TagAt(a, b) == g.TagAt(a, b) && r.ElemAt(a, b) == g.ElemAt(a, b)
  {
    var t1, t2 := g.TagAt(x1, y1), g.TagAt(x2, y2);
    var e1, e2 := g.ElemAt(x1, y1), g.ElemAt(x2, y2);
    var g1 := g.WithTag(x1, y1, t2);
    var g2 := g1.WithTag(x2, y2, t1);
    var g3 := g2.WithElem(x1, y1, e2);
    WithTagCells(g, x1, y1, t2);
    WithTagCells(g1, x2, y2, t1);
    WithElemCells(g2, x1, y1, e2);
    WithElemCells(g3, x2, y2, e1);
  }

  /** `swapFluids` exchanges everything but `fluidDir`, which stays with the position. */
  lemma SwapFluidsCells(g: Grid, x1: int, y1: int, x2: int, y2: int)
    requires g.Valid() && g.InBounds(x1, y1) && g.InBounds(x2, y2)
    ensures var r := g.SwapFluids(x1, y1, x2, y2);
            && r.TagAt(x1, y1) == g.TagAt(x2, y2).(fluidDir := g.TagAt(x1, y1).fluidDir)
            && r.TagAt(x2, y2) == g.TagAt(x1, y1).(fluidDir := g.TagAt(x2, y2).fluidDir)
            && r.ElemAt(x1, y1) == g.ElemAt(x2, y2) && r.ElemAt(x2, y2) == g.ElemAt(x1, y1)
            && forall a, b :: g.InBounds(a, b) && !(a == x1 && b == y1) && !(a == x2 && b == y2) ==>
                 r.TagAt(a, b) == g.TagAt(a, b) && r.ElemAt(a, b) == g.ElemAt(a, b)
  {
    var d1, d2 := g.TagAt(x1, y1).fluidDir, g.TagAt(x2, y2).fluidDir;
    var h := g.WithTag(x1, y1, g.TagAt(x1, y1).(fluidDir := d2));
    var h' := h.WithTag(x2, y2, h.TagAt(x2, y2).(fluidDir := d1));
    WithTagCells(g, x1, y1, g.TagAt(x1, y1).(fluidDir := d2));
    WithTagCells(h, x2, y2, h.TagAt(x2, y2).(fluidDir := d1));
    SwapCells(h', x1, y1, x2, y2);
  }

  /** A replaced cell gets the given element and tag; no other cell changes. */
  lemma ReplaceCells(g: Grid, x: int, y: int, e: Element, t: Tag)
    requires g.Valid() && g.InBounds(x, y)
    ensures var r := g.Replace(x, y, e, t);
            && r.TagAt(x, y) == t && r.ElemAt(x, y) == e
            && forall a, b :: g.InBounds(a, b) && !(a == x && b == y) ==>
                 r.TagAt(a, b) == g.TagAt(a, b) && r.ElemAt(a, b) == g.ElemAt(a, b)
  {
    WithTagCells(g, x, y, t);
    WithElemCells(g.WithTag(x, y, t), x, y, e);
  }

  /** The tag a new Air element starts with. */
  function AirTag(cfg: Config): Tag
  {
    NewTag(AirElement, cfg, 0)
  }

  /** What the world constructor builds: every cell Air, every static flag clear. */
  function NewGrid(width: nat, height: nat, cfg: Config): (g: Grid)
    ensures g.Valid() && g.width == width && g.height == height
  {
    Grid(width, height, seq(width * height, _ => AirTag(cfg)), seq(width * height, _ => AirElement),
         seq(width * height, _ => ClearStatic))
  }

  lemma NewGridCells(width: nat, height: nat, cfg: Config)
    ensures var g := NewGrid(width, height, cfg);
            forall x, y :: g.InBounds(x, y) ==>
              g.TagAt(x, y) == AirTag(cfg) && g.ElemAt(x, y) == AirElement && g.StaticAt(x, y) == ClearStatic
  {
    var g := NewGrid(width, height, cfg);
    forall x, y | g.InBounds(x, y)
      ensures g.TagAt(x, y) == AirTag(cfg) && g.ElemAt(x, y) == AirElement && g.StaticAt(x, y) == ClearStatic
    {
      var i := CellIndex(x, y, width, height);
    }
  }

  /** `resetDirtyFlags` on a value: every dirty flag cleared, nothing else changed. */
  function ClearDirty(g: Grid): (r: Grid)
    requires g.Valid()
    ensures r.Valid() && r.width == g.width && r.height == g.height && r.elems == g.elems && r.statics == g.statics
    ensures forall x, y :: g.InBounds(x, y) ==> r.TagAt(x, y) == g.TagAt(x, y).(dirty := false)
  {
    g.(tags := seq(|g.tags|, k requires 0 <= k < |g.tags| => g.tags[k].(dirty := false)))
  }

  /** One tick of power decay on a tag: a positive level drops by one; zero and below stay. */
  function DecayTag(t: Tag): (r: Tag)
    ensures r == t.(electricPower := r.electricPower)
    ensures t.electricPower > 0 ==> r.electricPower == t.electricPower - 1
    ensures t.electricPower <= 0 ==> r.electricPower == t.electricPower
  {
    if t.electricPower > 0 then t.(electricPower := t.electricPower - 1) else t
  }

  /** The step prologue on a value: power decays and every laser flag is cleared. */
  function Decayed(g: Grid): (r: Grid)
    requires g.Valid()
    ensures r.Valid() && r.width == g.width && r.height == g.height && r.elems == g.elems
    ensures forall x, y :: g.InBounds(x, y) ==>
              r.TagAt(x, y) == DecayTag(g.TagAt(x, y)) && r.StaticAt(x, y) == g.StaticAt(x, y).(laserActive := false)
  {
    g.(tags := seq(|g.tags|, k requires 0 <= k < |g.tags| => DecayTag(g.tags[k])),
       statics := seq(|g.statics|, k requires 0 <= k < |g.statics| => g.statics[k].(laserActive := false)))
  }

  /** `k` ticks of decay without recharging. */
  function DecayTimes(t: Tag, k: nat): Tag
  {
    if k == 0 then t else DecayTag(DecayTimes(t, k - 1))
  }

  /** A non-negative power level `p` is `max(0, p - k)` after `k` ticks; nothing else in the tag changes. */
  lemma {:induction false} DecayTimesLevel(t: Tag, k: nat)
    requires t.electricPower >= 0
    ensures DecayTimes(t, k) == t.(electricPower := Max(0, t.electricPower - k))
  {
    if k > 0 {
      DecayTimesLevel(t, k - 1);
    }
  }

  /** Every power level lies in `[0, powerMax]`. */
  ghost predicate PowerBounded(g: Grid, powerMax: int)
    requires g.Valid()
  {
    forall x, y :: g.InBounds(x, y) ==> 0 <= g.TagAt(x, y).electricPower <= powerMax
  }

  /** Decay and charging keep every power level in `[0, powerMax]`. */
  lemma PowerStaysBounded(g: Grid, powerMax: int, x: int, y: int)
    requires g.Valid() && PowerBounded(g, powerMax) && g.InBounds(x, y)
    ensures PowerBounded(Decayed(g), powerMax)
    ensures PowerBounded(g.Charge(x, y, powerMax), powerMax)
  {
    if g.ElemAt(x, y).CopperElement? && g.TagAt(x, y).electricPower == 0 {
      WithTagCells(g, x, y, g.TagAt(x, y).(electricPower := powerMax));
    }
  }

  /** Swapping the same two cells twice restores the grid. */
  lemma SwapTwice(g: Grid, x1: int, y1: int, x2: int, y2: int)
    requires g.Valid() && g.InBounds(x1, y1) && g.InBounds(x2, y2)
    ensures g.Swap(x1, y1, x2, y2).Swap(x1, y1, x2, y2) == g
  {
    var r := g.Swap(x1, y1, x2, y2).Swap(x1, y1, x2, y2);
    SwapCells(g, x1, y1, x2, y2);
    SwapCells(g.Swap(x1, y1, x2, y2), x1, y1, x2, y2);
    SameCells(r, g);
  }

  /** The order of the two cells does not matter. */
  lemma SwapSymmetric(g: Grid, x1: int, y1: int, x2: int, y2: int)
    requires g.Valid() && g.InBounds(x1, y1) && g.InBounds(x2, y2)
    ensures g.Swap(x1, y1, x2, y2) == g.Swap(x2, y2, x1, y1)
  {
    SwapCells(g, x1, y1, x2, y2);
    SwapCells(g, x2, y2, x1, y1);
    SameCells(g.Swap(x1, y1, x2, y2), g.Swap(x2, y2, x1, y1));
  }

  /** Swapping a cell with itself changes nothing. */
  lemma SwapSelf(g: Grid, x: int, y: int)
    requires g.Valid() && g.InBounds(x, y)
    ensures g.Swap(x, y, x, y) == g
  {
    SwapCells(g, x, y, x, y);
    SameCells(g.Swap(x, y, x, y), g);
  }

  /** Fluid swaps differ from plain swaps only in where `fluidDir` goes, and twice restore the grid. */
  lemma SwapFluidsTwice(g: Grid, x1: int, y1: int, x2: int, y2: int)
    requires g.Valid() && g.InBounds(x1, y1) && g.InBounds(x2, y2)
    ensures g.SwapFluids(x1, y1, x2, y2).SwapFluids(x1, y1, x2, y2) == g
  {
    SwapFluidsCells(g, x1, y1, x2, y2);
    SwapFluidsCells(g.SwapFluids(x1, y1, x2, y2), x1, y1, x2, y2);
    SameCells(g.SwapFluids(x1, y1, x2, y2).SwapFluids(x1, y1, x2, y2), g);
  }

  /** A replaced cell's second replacement wins outright. */
  lemma ReplaceTwice(g: Grid, x: int, y: int, e1: Element, t1: Tag, e2: Element, t2: Tag)
    requires g.Valid() && g.InBounds(x, y)
    ensures g.Replace(x, y, e1, t1).Replace(x, y, e2, t2) == g.Replace(x, y, e2, t2)
  {
    ReplaceCells(g, x, y, e1, t1);
    ReplaceCells(g.Replace(x, y, e1, t1), x, y, e2, t2);
    ReplaceCells(g, x, y, e2, t2);
    SameCells(g.Replace(x, y, e1, t1).Replace(x, y, e2, t2), g.Replace(x, y, e2, t2));
  }

  /** Charging is idempotent, touches only the copper cell's power, and only when it was 0. */
  lemma ChargeMeaning(g: Grid, x: int, y: int, powerMax: int)
    requires g.Valid() && g.InBounds(x, y) && powerMax != 0
    ensures g.Charge(x, y, powerMax).Charge(x, y, powerMax) == g.Charge(x, y, powerMax)
    ensures var r := g.Charge(x, y, powerMax);
            && (r != g <==> g.ElemAt(x, y).CopperElement? && g.TagAt(x, y).electricPower == 0)
            && (r != g ==> r.TagAt(x, y) == g.TagAt(x, y).(electricPower := powerMax))
            && forall a, b :: g.InBounds(a, b) && !(a == x && b == y) ==> r.TagAt(a, b) == g.TagAt(a, b)
  {
    var r := g.Charge(x, y, powerMax);
    if g.ElemAt(x, y).CopperElement? && g.TagAt(x, y).electricPower == 0 {
      WithTagCells(g, x, y, g.TagAt(x, y).(electricPower := powerMax));
      assert r.TagAt(x, y) != g.TagAt(x, y);
    }
  }

  /** Two grids of one size that agree on every cell are equal. */
  lemma SameCells(g: Grid, h: Grid)
    requires g.Valid() && h.Valid() && g.width == h.width && g.height == h.height
    requires forall a, b :: g.InBounds(a, b) ==>
               g.TagAt(a, b) == h.TagAt(a, b) && g.ElemAt(a, b) == h.ElemAt(a, b) && g.StaticAt(a, b) == h.StaticAt(a, b)
    ensures g == h
  {
    forall k | 0 <= k < g.width * g.height
      ensures g.tags[k] == h.tags[k] && g.elems[k] == h.elems[k] && g.statics[k] == h.statics[k]
    {
      var p := CellAt(k, g.width, g.height);
      assert g.TagAt(p.x, p.y) == h.TagAt(p.x, p.y);
    }
  }
}
