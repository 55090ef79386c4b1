// `GasElement::step` of src/fallsand/gas.cpp and the two gases built on it,
// `Steam` (src/fallsand/steam.cpp) and `Smoke` (src/fallsand/smoke.cpp).
// The rule first decides what to do (`GasDecision`), then does it
// (`ApplyGas`); `GasStepAt` performs it on a `PixelWorld` with the source's
// search loop. `dirRoll` and `diagRoll` are the two generator draws.
module Gas {
  import opened Base
  import opened Pixels
  import opened Grids
  import opened World

  /** `gas_dispersion_rate`: how far sideways the search looks. */
  const DispersionRate: int := 4

  /** `gas_go_diag_chance`, in percent. */
  const DiagChance: int := 50

  /** `canSwapTag`: gas may move into fluid, or into gas strictly denser than itself. */
  predicate CanSwapTag(target: Tag, self: Tag)
  {
    target.pclass == Fluid || (target.pclass == Gas && IsDenser(target.kind, self.kind))
  }

  /**
    Gas never moves into a solid or a particle, and two gases never both may
    move into each other, so a pair of gas cells cannot trade places back and
    forth.
   */
  lemma CanSwapTagMeaning(target: Tag, self: Tag)
    ensures CanSwapTag(target, self) ==> target.pclass == Fluid || target.pclass == Gas
    ensures target.pclass == Gas && self.pclass == Gas ==> !(CanSwapTag(target, self) && CanSwapTag(self, target))
    ensures target.pclass == Gas && target.kind == self.kind ==> !CanSwapTag(target, self)
  {
  }

  /** The sideways direction the first draw picks: `(roll % 2) * 2 - 1`. */
  function GasDir(dirRoll: nat): (d: int)
    ensures d == 1 || d == -1
    ensures d == 1 <==> dirRoll % 2 == 1
  {
    (dirRoll % 2) * 2 - 1
  }

  /** `dir * i` for a unit `dir`: the offset of the `i`-th column the search looks at. */
  function Dx(dir: int, i: int): (dx: int)
    requires dir == 1 || dir == -1
    ensures Abs(dx) == Abs(i)
  {
    if dir == 1 then i else -i
  }

  /** What the sideways search sees in one column: the world's edge, or whether the cells diagonally up and beside are swappable. */
  datatype Column = Edge | Column(diag: bool, side: bool)

  /** The `i`-th column the search looks at, `i` from 1. */
  function ColumnAt(g: Grid, x: int, y: int, dir: int, me: Tag, i: int): Column
    requires g.Valid() && g.InBounds(x, y) && y >= 1 && (dir == 1 || dir == -1)
  {
    var nx := x + Dx(dir, i);
    if nx < 0 || nx >= g.width then Edge
    else Column(CanSwapTag(g.TagAt(nx, y - 1), me), CanSwapTag(g.TagAt(nx, y), me))
  }

  /** The columns at distance 1 to `DispersionRate`. */
  function Columns(g: Grid, x: int, y: int, dir: int, me: Tag): (cs: seq<Column>)
    requires g.Valid() && g.InBounds(x, y) && y >= 1 && (dir == 1 || dir == -1)
    ensures |cs| == DispersionRate
    ensures forall k :: 0 <= k < |cs| ==> cs[k] == ColumnAt(g, x, y, dir, me, k + 1)
  {
    seq(DispersionRate, k requires 0 <= k < DispersionRate => ColumnAt(g, x, y, dir, me, k + 1))
  }

  /** How the sideways search ends: at the edge, at a diagonal, at the last side candidate, or with nothing. */
  datatype Found = OffEdge | Diagonal(at: nat) | Side(at: nat) | Nothing

  /**
    The loop of the search over `cols` from index `i` on, with the current side
    candidate `cand`: the edge ends the search, a swappable diagonal wins at
    once, a swappable side cell becomes the candidate.
   */
  function Scan(cols: seq<Column>, i: nat, cand: Option<nat>): Found
    requires i <= |cols|
    decreases |cols| - i
  {
    if i == |cols| then (if cand.Some? then Side(cand.value) else Nothing)
    else match cols[i]
      case Edge => OffEdge
      case Column(diag, side) =>
        if diag then Diagonal(i)
        else if side then Scan(cols, i + 1, Some(i))
        else Scan(cols, i + 1, cand)
  }

  /** No diagonal among the first `k` columns, and none of them is the edge. */
  ghost predicate ClearBefore(cols: seq<Column>, k: int)
    requires k <= |cols|
  {
    forall j :: 0 <= j < k ==> cols[j].Column? && !cols[j].diag
  }

  /**
    What the search finds, exactly: the first diagonal if it comes before the
    edge; the edge if it comes first; otherwise the farthest swappable side
    column, or nothing when there is none.
   */
  lemma {:induction false} ScanSpec(cols: seq<Column>, i: nat, cand: Option<nat>)
    requires i <= |cols| && ClearBefore(cols, i)
    requires cand.Some? ==> cand.value < i && cols[cand.value].side
    requires cand.Some? ==> forall j :: cand.value < j < i ==> !cols[j].side
    requires cand.None? ==> forall j :: 0 <= j < i ==> !cols[j].side
    ensures match Scan(cols, i, cand)
            case OffEdge => exists k :: i <= k < |cols| && cols[k].Edge? && ClearBefore(cols, k)
            case Diagonal(k) => i <= k < |cols| && cols[k].Column? && cols[k].diag && ClearBefore(cols, k)
            case Side(k) => k < |cols| && ClearBefore(cols, |cols|) && cols[k].side
                            && forall j :: k < j < |cols| ==> !cols[j].side
            case Nothing => ClearBefore(cols, |cols|) && forall j :: 0 <= j < |cols| ==> !cols[j].side
    decreases |cols| - i
  {
    if i < |cols| {
      match cols[i]
      case Edge =>
      case Column(diag, side) =>
        if !diag {
          if side {
            ScanSpec(cols, i + 1, Some(i));
          } else {
            ScanSpec(cols, i + 1, cand);
          }
        }
    }
  }

  /** The facts about a scan's result that locate it in `cols`. */
  lemma {:induction false} ScanFound(cols: seq<Column>, i: nat, cand: Option<nat>)
    requires i <= |cols|
    requires cand.Some? ==> cand.value < |cols| && cols[cand.value].Column? && cols[cand.value].side
    ensures match Scan(cols, i, cand)
            case OffEdge => exists k :: 0 <= k < |cols| && cols[k].Edge?
            case Diagonal(k) => k < |cols| && cols[k].Column? && cols[k].diag
            case Side(k) => k < |cols| && cols[k].Column? && cols[k].side
            case Nothing => true
    decreases |cols| - i
  {
    if i < |cols| && cols[i].Column? && !cols[i].diag {
      if cols[i].side {
        ScanFound(cols, i + 1, Some(i));
      } else {
        ScanFound(cols, i + 1, cand);
      }
    }
  }

  /** What a gas step does: nothing, remove the cell, or swap it with cell `to`. */
  datatype GasMove = Stay | Remove | SwapWith(to: Point)

  /** The sideways search of `GasElement::step` as a move. */
  function Search(g: Grid, x: int, y: int, dir: int, me: Tag): GasMove
    requires g.Valid() && g.InBounds(x, y) && y >= 1 && (dir == 1 || dir == -1)
  {
    match Scan(Columns(g, x, y, dir, me), 0, None)
    case OffEdge => Remove
    case Diagonal(k) => SwapWith(Point(x + Dx(dir, k + 1), y - 1))
    case Side(k) => SwapWith(Point(x + Dx(dir, k + 1), y))
    case Nothing => Stay
  }

  /** The decision of `GasElement::step` for the gas at `(x, y)`. */
  function GasDecision(g: Grid, x: int, y: int, dirRoll: nat, diagRoll: nat): GasMove
    requires g.Valid() && g.InBounds(x, y)
  {
    if y == 0 then Remove
    else
      var me := g.TagAt(x, y);
      var dir := GasDir(dirRoll);
      if 0 <= x + dir < g.width && diagRoll % 100 < DiagChance && CanSwapTag(g.TagAt(x + dir, y - 1), me) then
        SwapWith(Point(x + dir, y - 1))
      else if CanSwapTag(g.TagAt(x, y - 1), me) then SwapWith(Point(x, y - 1))
      else Search(g, x, y, dir, me)
  }

  /** A move the gas at `(x, y)` may make: into a swappable cell one row up or beside it, at most 4 columns away. */
  predicate GoodMove(g: Grid, x: int, y: int, m: GasMove)
    requires g.Valid() && g.InBounds(x, y)
  {
    m.SwapWith? ==>
      && g.InBounds(m.to.x, m.to.y) && m.to != Point(x, y)
      && (m.to.y == y - 1 || m.to.y == y) && Abs(m.to.x - x) <= DispersionRate
      && CanSwapTag(g.TagAt(m.to.x, m.to.y), g.TagAt(x, y))
  }

  /**
    The search proposes only swappable cells within reach, and removes the
    cell only when its last column lies beyond the world's edge.
   */
  lemma SearchSpec(g: Grid, x: int, y: int, dir: int)
    requires g.Valid() && g.InBounds(x, y) && y >= 1 && (dir == 1 || dir == -1)
    ensures var m := Search(g, x, y, dir, g.TagAt(x, y));
            && GoodMove(g, x, y, m)
            && (m.Remove? ==> !(0 <= x + Dx(dir, DispersionRate) < g.width))
  {
    var cols := Columns(g, x, y, dir, g.TagAt(x, y));
    match Scan(cols, 0, None)
    case OffEdge => SearchOffEdge(g, x, y, dir);
    case Diagonal(k) => SearchDiagonal(g, x, y, dir, k);
    case Side(k) => SearchSide(g, x, y, dir, k);
    case Nothing =>
  }

  /** A search that ends at the edge has its last column beyond it. */
  lemma SearchOffEdge(g: Grid, x: int, y: int, dir: int)
    requires g.Valid() && g.InBounds(x, y) && y >= 1 && (dir == 1 || dir == -1)
    requires Scan(Columns(g, x, y, dir, g.TagAt(x, y)), 0, None).OffEdge?
    ensures !(0 <= x + Dx(dir, DispersionRate) < g.width)
  {
    var me := g.TagAt(x, y);
    var cols := Columns(g, x, y, dir, me);
    ScanFound(cols, 0, None);
    var k :| 0 <= k < |cols| && cols[k].Edge?;
    assert ColumnAt(g, x, y, dir, me, k + 1).Edge?;
  }

  /** A search that ends at a diagonal proposes a good move. */
  lemma SearchDiagonal(g: Grid, x: int, y: int, dir: int, k: nat)
    requires g.Valid() && g.InBounds(x, y) && y >= 1 && (dir == 1 || dir == -1)
    requires Scan(Columns(g, x, y, dir, g.TagAt(x, y)), 0, None) == Diagonal(k)
    ensures GoodMove(g, x, y, Search(g, x, y, dir, g.TagAt(x, y)))
  {
    ScanFound(Columns(g, x, y, dir, g.TagAt(x, y)), 0, None);
    ColumnMove(g, x, y, dir, k + 1, y - 1);
  }

  /** A search that ends at a side candidate proposes a good move. */
  lemma SearchSide(g: Grid, x: int, y: int, dir: int, k: nat)
    requires g.Valid() && g.InBounds(x, y) && y >= 1 && (dir == 1 || dir == -1)
    requires Scan(Columns(g, x, y, dir, g.TagAt(x, y)), 0, None) == Side(k)
    ensures GoodMove(g, x, y, Search(g, x, y, dir, g.TagAt(x, y)))
  {
    ScanFound(Columns(g, x, y, dir, g.TagAt(x, y)), 0, None);
    ColumnMove(g, x, y, dir, k + 1, y);
  }

  /** A swappable cell in a searched column is a good move. */
  lemma ColumnMove(g: Grid, x: int, y: int, dir: int, i: int, ty: int)
    requires g.Valid() && g.InBounds(x, y) && y >= 1 && (dir == 1 || dir == -1) && 1 <= i <= DispersionRate
    requires ty == y - 1 || ty == y
    requires var c := ColumnAt(g, x, y, dir, g.TagAt(x, y), i);
             c.Column? && (if ty == y then c.side else c.diag)
    ensures GoodMove(g, x, y, SwapWith(Point(x + Dx(dir, i), ty)))
  {
  }

  /**
    A gas step only ever proposes a legal move: into a swappable cell one row
    up or beside it, at most `DispersionRate` columns away. Below the top row
    it removes the cell only when the search reaches past the world's edge.
   */
  lemma GasDecisionSpec(g: Grid, x: int, y: int, dirRoll: nat, diagRoll: nat)
    requires g.Valid() && g.InBounds(x, y)
    ensures var m := GasDecision(g, x, y, dirRoll, diagRoll);
            && GoodMove(g, x, y, m)
            && (m.Remove? && y > 0 ==> !(0 <= x + Dx(GasDir(dirRoll), DispersionRate) < g.width))
  {
    if y > 0 {
      SearchSpec(g, x, y, GasDir(dirRoll));
    }
  }

  /** Straight up is taken whenever the diagonal was not, and the cell above is swappable. */
  lemma GasRises(g: Grid, x: int, y: int, dirRoll: nat, diagRoll: nat)
    requires g.Valid() && g.InBounds(x, y) && y > 0
    requires CanSwapTag(g.TagAt(x, y - 1), g.TagAt(x, y))
    ensures var dir := GasDir(dirRoll);
            GasDecision(g, x, y, dirRoll, diagRoll)
            == if 0 <= x + dir < g.width && diagRoll % 100 < DiagChance && CanSwapTag(g.TagAt(x + dir, y - 1), g.TagAt(x, y))
               then SwapWith(Point(x + dir, y - 1)) else SwapWith(Point(x, y - 1))
  {
  }

  /** Doing what was decided: at most one swap, or the cell turned into Air. */
  function ApplyGas(g: Grid, cfg: Config, x: int, y: int, m: GasMove): (r: Grid)
    requires g.Valid() && g.InBounds(x, y) && GoodMove(g, x, y, m)
    ensures r.Valid() && r.width == g.width && r.height == g.height
  {
    match m
    case Stay => g
    case Remove => g.ReplaceNew(x, y, AirElement, cfg, 0)
    case SwapWith(p) => g.Swap(x, y, p.x, p.y)
  }

  /** `GasElement::step` on a grid value. */
  function GasStep(g: Grid, cfg: Config, x: int, y: int, dirRoll: nat, diagRoll: nat): (r: Grid)
    requires g.Valid() && g.InBounds(x, y)
    ensures r.Valid() && r.width == g.width && r.height == g.height
  {
    GasDecisionSpec(g, x, y, dirRoll, diagRoll);
    ApplyGas(g, cfg, x, y, GasDecision(g, x, y, dirRoll, diagRoll))
  }

  /** Gas on the top row becomes Air. */
  lemma GasTopRowRemoved(g: Grid, cfg: Config, x: int, dirRoll: nat, diagRoll: nat)
    requires g.Valid() && g.height > 0 && 0 <= x < g.width
    ensures GasStep(g, cfg, x, 0, dirRoll, diagRoll) == g.ReplaceNew(x, 0, AirElement, cfg, 0)
  {
  }

  /**
    A gas step changes at most two cells, the gas and the swappable cell it
    trades with, and leaves every static tag alone.
   */
  lemma GasStepLocal(g: Grid, cfg: Config, x: int, y: int, dirRoll: nat, diagRoll: nat)
    requires g.Valid() && g.InBounds(x, y)
    ensures var r := GasStep(g, cfg, x, y, dirRoll, diagRoll);
            var m := GasDecision(g, x, y, dirRoll, diagRoll);
            && r.statics == g.statics
            && forall a, b :: g.InBounds(a, b) && !(a == x && b == y) && !(m.SwapWith? && m.to == Point(a, b)) ==>
                 r.TagAt(a, b) == g.TagAt(a, b) && r.ElemAt(a, b) == g.ElemAt(a, b)
  {
    GasDecisionSpec(g, x, y, dirRoll, diagRoll);
    var m := GasDecision(g, x, y, dirRoll, diagRoll);
    match m
    case Stay =>
    case Remove => ReplaceCells(g, x, y, AirElement, NewTag(AirElement, cfg, 0));
    case SwapWith(p) => SwapCells(g, x, y, p.x, p.y);
  }

  /** One column of the search, read from the world. */
  method ColumnOf(w: PixelWorld, x: int, y: int, dir: int, me: Tag, i: int) returns (c: Column)
    requires w.Valid() && w.InBounds(x, y) && y >= 1 && (dir == 1 || dir == -1)
    ensures c == ColumnAt(w.Cells(), x, y, dir, me, i)
  {
    var dx := Dx(dir, i);
    if x + dx < 0 || x + dx >= w.width {
      return Edge;
    }
    return Column(CanSwapTag(w.TagOf(x + dx, y - 1), me), CanSwapTag(w.TagOf(x + dx, y), me));
  }

  /** The sideways search on the world: the loop over `i` updating `to_x`, `to_y`. */
  method SearchAt(w: PixelWorld, x: int, y: int, dir: int) returns (m: GasMove)
    requires w.Valid() && w.InBounds(x, y) && y >= 1 && (dir == 1 || dir == -1)
    ensures m == Search(w.Cells(), x, y, dir, w.Cells().TagAt(x, y))
  {
    var me := w.TagOf(x, y);
    ghost var cols := Columns(w.Cells(), x, y, dir, me);
    ghost var cand: Option<nat> := None;
    var toX, toY := x, y;
    var i := 1;
    while i <= DispersionRate
      invariant 1 <= i <= DispersionRate + 1
      invariant Scan(cols, 0, None) == Scan(cols, i - 1, cand)
      invariant cand.None? ==> toX == x && toY == y
      invariant cand.Some? ==> cand.value < i - 1 && toX == x + Dx(dir, cand.value + 1) && toY == y
    {
      var c := ColumnOf(w, x, y, dir, me, i);
      assert c == cols[i - 1];
      if c.Edge? {
        return Remove;
      }
      if c.diag {
        return SwapWith(Point(x + Dx(dir, i), y - 1));
      }
      if c.side {
        toX, toY := x + Dx(dir, i), y;
        cand := Some(i - 1);
      }
      i := i + 1;
    }
    if toX != x || toY != y {
      return SwapWith(Point(toX, toY));
    }
    return Stay;
  }

  /** The decision half of `GasElement::step`, read from the world; it changes nothing. */
  method GasDecisionAt(w: PixelWorld, x: int, y: int, dirRoll: nat, diagRoll: nat) returns (m: GasMove)
    requires w.Valid() && w.InBounds(x, y)
    ensures m == GasDecision(w.Cells(), x, y, dirRoll, diagRoll)
    ensures GoodMove(w.Cells(), x, y, m)
  {
    GasDecisionSpec(w.Cells(), x, y, dirRoll, diagRoll);
    if y == 0 {
      return Remove;
    }
    var me := w.TagOf(x, y);
    var dir := GasDir(dirRoll);
    if 0 <= x + dir < w.width && diagRoll % 100 < DiagChance {
      if CanSwapTag(w.TagOf(x + dir, y - 1), me) {
        return SwapWith(Point(x + dir, y - 1));
      }
    }
    if CanSwapTag(w.TagOf(x, y - 1), me) {
      return SwapWith(Point(x, y - 1));
    }
    m := SearchAt(w, x, y, dir);
  }

  /** `GasElement::step` on the world: decide, then swap or remove. */
  method GasStepAt(w: PixelWorld, x: int, y: int, dirRoll: nat, diagRoll: nat)
    requires w.Valid() && w.InBounds(x, y)
    modifies w.tags, w.elems
    ensures w.Cells() == GasStep(old(w.Cells()), w.cfg, x, y, dirRoll, diagRoll)
  {
    var m := GasDecisionAt(w, x, y, dirRoll, diagRoll);
    match m
    case Stay =>
    case Remove => w.ReplacePixelWithAir(x, y);
    case SwapWith(p) => w.SwapPixels(x, y, p.x, p.y);
  }

  /** `steam_condensation_heat_threshold`. */
  const SteamCondensationHeat: int := 10

  /** `smoke_disappear_heat_threshold`. */
  const SmokeDisappearHeat: int := 12

  /** `Steam::step`: cool steam condenses into Water keeping its heat; hot steam moves as gas. */
  function SteamStep(g: Grid, cfg: Config, x: int, y: int, dirRoll: nat, diagRoll: nat): (r: Grid)
    requires g.Valid() && g.InBounds(x, y)
    ensures r.Valid() && r.width == g.width && r.height == g.height
  {
    if g.TagAt(x, y).heat <= SteamCondensationHeat then g.ReplaceKeepHeat(x, y, WaterElement, cfg, 0)
    else GasStep(g, cfg, x, y, dirRoll, diagRoll)
  }

  /** `Smoke::step`: cool smoke disappears into Air keeping its heat; hot smoke moves as gas. */
  function SmokeStep(g: Grid, cfg: Config, x: int, y: int, dirRoll: nat, diagRoll: nat): (r: Grid)
    requires g.Valid() && g.InBounds(x, y)
    ensures r.Valid() && r.width == g.width && r.height == g.height
  {
    if g.TagAt(x, y).heat <= SmokeDisappearHeat then g.ReplaceKeepHeat(x, y, AirElement, cfg, 0)
    else GasStep(g, cfg, x, y, dirRoll, diagRoll)
  }

  /**
    Steam at heat 10 or less becomes Water with its heat, and nothing else
    changes; hotter steam follows the gas rule.
   */
  lemma SteamCondenses(g: Grid, cfg: Config, x: int, y: int, dirRoll: nat, diagRoll: nat)
    requires g.Valid() && g.InBounds(x, y)
    ensures var r := SteamStep(g, cfg, x, y, dirRoll, diagRoll);
            && (g.TagAt(x, y).heat <= SteamCondensationHeat ==>
                  && r.ElemAt(x, y) == WaterElement
                  && r.TagAt(x, y) == NewTag(WaterElement, cfg, 0).(heat := g.TagAt(x, y).heat)
                  && forall a, b :: g.InBounds(a, b) && !(a == x && b == y) ==>
                       r.TagAt(a, b) == g.TagAt(a, b) && r.ElemAt(a, b) == g.ElemAt(a, b))
            && (g.TagAt(x, y).heat > SteamCondensationHeat ==> r == GasStep(g, cfg, x, y, dirRoll, diagRoll))
  {
    ReplaceCells(g, x, y, WaterElement, NewTag(WaterElement, cfg, 0).(heat := g.TagAt(x, y).heat));
  }

  /**
    Smoke at heat 12 or less becomes Air with its heat, and nothing else
    changes; hotter smoke follows the gas rule.
   */
  lemma SmokeDisappears(g: Grid, cfg: Config, x: int, y: int, dirRoll: nat, diagRoll: nat)
    requires g.Valid() && g.InBounds(x, y)
    ensures var r := SmokeStep(g, cfg, x, y, dirRoll, diagRoll);
            && (g.TagAt(x, y).heat <= SmokeDisappearHeat ==>
                  && r.ElemAt(x, y) == AirElement
                  && r.TagAt(x, y) == AirTag(cfg).(heat := g.TagAt(x, y).heat)
                  && forall a, b :: g.InBounds(a, b) && !(a == x && b == y) ==>
                       r.TagAt(a, b) == g.TagAt(a, b) && r.ElemAt(a, b) == g.ElemAt(a, b))
            && (g.TagAt(x, y).heat > SmokeDisappearHeat ==> r == GasStep(g, cfg, x, y, dirRoll, diagRoll))
  {
    ReplaceCells(g, x, y, AirElement, AirTag(cfg).(heat := g.TagAt(x, y).heat));
  }

  /** `Steam::step` on the world. */
  method SteamStepAt(w: PixelWorld, x: int, y: int, dirRoll: nat, diagRoll: nat)
    requires w.Valid() && w.InBounds(x, y)
    modifies w.tags, w.elems
    ensures w.Cells() == SteamStep(old(w.Cells()), w.cfg, x, y, dirRoll, diagRoll)
  {
    if w.TagOf(x, y).heat <= SteamCondensationHeat {
      w.ReplaceKeepHeat(x, y, WaterElement, 0);
    } else {
      GasStepAt(w, x, y, dirRoll, diagRoll);
    }
  }

  /** `Smoke::step` on the world. */
  method SmokeStepAt(w: PixelWorld, x: int, y: int, dirRoll: nat, diagRoll: nat)
    requires w.Valid() && w.InBounds(x, y)
    modifies w.tags, w.elems
    ensures w.Cells() == SmokeStep(old(w.Cells()), w.cfg, x, y, dirRoll, diagRoll)
  {
    if w.TagOf(x, y).heat <= SmokeDisappearHeat {
      w.ReplaceKeepHeat(x, y, AirElement, 0);
    } else {
      GasStepAt(w, x, y, dirRoll, diagRoll);
    }
  }
}
