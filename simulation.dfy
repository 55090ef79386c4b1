// The structure list of `PixelWorld` (src/fallsand/world.cpp): `addStructure`
// runs a structure's `setup` and inserts it at its `std::lower_bound` by
// `priority`; `step` runs every structure once, in list order, and keeps the
// ones whose `step` returns true, in the same order. Every step takes the
// gate closing check `chk`: `AsWritten` is the source, `Corrected` the fix
// of gate_finding.dfy.
module Simulation {
  import opened Base
  import opened Pixels
  import opened Grids
  import opened World
  import opened Structures
  import opened Shapes
  import opened ShapeWorld
  import opened Rewrites
  import opened Gates
  import opened Transistors
  import opened Lasers
  import opened PressurePlates
  import opened Heaters
  import opened Taps
  import opened PowerSources

  /** What every structure in a world's list satisfies: it lies in the world, and a laser part has its one POI. */
  predicate Placed(s: Structure, width: int, height: int)
  {
    && s.Valid() && FitsIn(s.base, width, height)
    && ((s.kind.Emitter? || s.kind.Receiver?) ==> |s.base.poi| > 0)
  }

  /** Every structure of the list lies in a `width` x `height` world. */
  predicate AllPlaced(ss: seq<Structure>, width: int, height: int)
  {
    forall j :: 0 <= j < |ss| ==> Placed(ss[j], width, height)
  }

  /** The draws a structure's step takes: a tap needs one per POI, the others none. */
  predicate StepDraws(s: Structure, draws: seq<nat>)
  {
    IsTap(s.kind) ==> DrawsOk(s, draws)
  }

  /** The virtual `step` of a structure, dispatched on its kind; a gate closes with the check `chk` (`AsWritten` is the source's). */
  function StructureStep(g: Grid, s: Structure, cfg: Config, draws: seq<nat>, chk: Check): (r: StepResult)
    requires g.Valid() && Placed(s, g.width, g.height) && StepDraws(s, draws)
    ensures r.grid.Valid() && r.grid.width == g.width && r.grid.height == g.height
    ensures r.alive <==> Intact(g, s.base)
    ensures !r.alive ==> r.grid == g
    ensures r.alive ==> r.structure.base == s.base && Priority(r.structure) == Priority(s)
    ensures r.alive ==> Placed(r.structure, g.width, g.height) && StepDraws(r.structure, draws)
  {
    match s.kind
    case GateKind(_, _) => GateStepWith(g, s, cfg, chk)
    case NPN(_, _) => TransistorStep(g, s, cfg)
    case PNP(_, _) => TransistorStep(g, s, cfg)
    case Emitter(_) => EmitterStep(g, s)
    case Receiver => ReceiverStep(g, s, cfg)
    case Plate => PlateStep(g, s, cfg)
    case HeavyPlate => PlateStep(g, s, cfg)
    case PowerSource => PowerSourceStep(g, s, cfg)
    case Heater => HeaterStep(g, s, cfg)
    case WaterTap => TapStep(g, s, cfg, draws)
    case OilTap => TapStep(g, s, cfg, draws)
  }

  /** Every structure of the list lies in the world and has the draws its step takes. */
  predicate ListReady(ss: seq<Structure>, draws: seq<seq<nat>>, width: int, height: int)
  {
    && |draws| == |ss|
    && forall i :: 0 <= i < |ss| ==> Placed(ss[i], width, height) && StepDraws(ss[i], draws[i])
  }

  /** The grid after the structure loop, and the result of each structure's step in list order. */
  datatype Pass = Pass(grid: Grid, results: seq<StepResult>)

  /**
    The structure loop of `step` after its first `n` structures: each steps
    on the grid its predecessors left.
   */
  function StepPrefix(g: Grid, ss: seq<Structure>, cfg: Config, draws: seq<seq<nat>>, n: nat, chk: Check): (r: Pass)
    requires g.Valid() && ListReady(ss, draws, g.width, g.height) && n <= |ss|
    ensures r.grid.Valid() && r.grid.width == g.width && r.grid.height == g.height && |r.results| == n
    decreases n
  {
    if n == 0 then Pass(g, [])
    else
      var p := StepPrefix(g, ss, cfg, draws, n - 1, chk);
      var r := StructureStep(p.grid, ss[n - 1], cfg, draws[n - 1], chk);
      Pass(r.grid, p.results + [r])
  }

  /** `next_structures`: each structure whose step returned true, as its step left it, in order. */
  function Kept(rs: seq<StepResult>): (ks: seq<Structure>)
    ensures |ks| <= |rs|
  {
    if rs == [] then []
    else
      var last := rs[|rs| - 1];
      Kept(rs[..|rs| - 1]) + if last.alive then [last.structure] else []
  }

  /** The whole structure loop: the grid it leaves and the new list. */
  function StepStructures(g: Grid, ss: seq<Structure>, cfg: Config, draws: seq<seq<nat>>, chk: Check): (r: (Grid, seq<Structure>))
    requires g.Valid() && ListReady(ss, draws, g.width, g.height)
    ensures r.0.Valid() && r.0.width == g.width && r.0.height == g.height
  {
    var p := StepPrefix(g, ss, cfg, draws, |ss|, chk);
    (p.grid, Kept(p.results))
  }

  /**
    What each step promises the list: a structure that survives keeps its
    shape data and its priority, and still lies in the world.
   */
  predicate Faithful(rs: seq<StepResult>, ss: seq<Structure>, width: int, height: int)
  {
    && |rs| <= |ss|
    && forall i :: 0 <= i < |rs| && rs[i].alive ==>
         && rs[i].structure.base == ss[i].base && Priority(rs[i].structure) == Priority(ss[i])
         && Placed(rs[i].structure, width, height)
  }

  /** Each structure's step returns a result faithful to it; it survives exactly when its shape is intact. */
  lemma {:induction false} StepPrefixFaithful(g: Grid, ss: seq<Structure>, cfg: Config, draws: seq<seq<nat>>, n: nat, chk: Check)
    requires g.Valid() && ListReady(ss, draws, g.width, g.height) && n <= |ss|
    ensures Faithful(StepPrefix(g, ss, cfg, draws, n, chk).results, ss, g.width, g.height)
    decreases n
  {
    if n > 0 {
      var p := StepPrefix(g, ss, cfg, draws, n - 1, chk);
      var r := StructureStep(p.grid, ss[n - 1], cfg, draws[n - 1], chk);
      var rs := p.results + [r];
      assert StepPrefix(g, ss, cfg, draws, n, chk).results == rs;
      StepPrefixFaithful(g, ss, cfg, draws, n - 1, chk);
      forall i | 0 <= i < |rs| && rs[i].alive
        ensures rs[i].structure.base == ss[i].base && Priority(rs[i].structure) == Priority(ss[i])
        ensures Placed(rs[i].structure, g.width, g.height)
      {
        if i < n - 1 {
          assert rs[i] == p.results[i];
        } else {
          assert rs[i] == r;
        }
      }
    }
  }

  /** A structure whose shape is broken when its turn comes leaves the grid as it found it and is dropped. */
  lemma StepPrefixDrops(g: Grid, ss: seq<Structure>, cfg: Config, draws: seq<seq<nat>>, n: nat, chk: Check)
    requires g.Valid() && ListReady(ss, draws, g.width, g.height) && 0 < n <= |ss|
    ensures var p := StepPrefix(g, ss, cfg, draws, n - 1, chk);
            var q := StepPrefix(g, ss, cfg, draws, n, chk);
            && (q.results[n - 1].alive <==> Intact(p.grid, ss[n - 1].base))
            && (!Intact(p.grid, ss[n - 1].base) ==> q.grid == p.grid && Kept(q.results) == Kept(p.results))
  {
    var p := StepPrefix(g, ss, cfg, draws, n - 1, chk);
    var q := StepPrefix(g, ss, cfg, draws, n, chk);
    assert q.results[..n - 1] == p.results;
  }

  /** The list is in `priority` order, smaller first. */
  predicate SortedByPriority(ss: seq<Structure>)
  {
    forall i, j :: 0 <= i < j < |ss| ==> Priority(ss[i]) <= Priority(ss[j])
  }

  /** `a` is `b` with some elements dropped and the rest in their order. */
  predicate Subsequence<T(==)>(a: seq<T>, b: seq<T>)
    decreases |b|
  {
    if |a| == 0 then true
    else if |b| == 0 then false
    else if a[|a| - 1] == b[|b| - 1] then Subsequence(a[..|a| - 1], b[..|b| - 1])
    else Subsequence(a, b[..|b| - 1])
  }

  /** The shape data of each structure of a list. */
  function Bases(ss: seq<Structure>): (bs: seq<ShapeBase>)
    ensures |bs| == |ss| && forall i :: 0 <= i < |ss| ==> bs[i] == ss[i].base
  {
    seq(|ss|, i requires 0 <= i < |ss| => ss[i].base)
  }

  /** A subsequence stays one when `b` grows at its end. */
  lemma {:induction false} SubsequenceGrow<T>(a: seq<T>, b: seq<T>, x: T)
    requires Subsequence(a, b)
    ensures Subsequence(a, b + [x])
    decreases |b|, 1
  {
    assert (b + [x])[..|b|] == b;
    if |a| > 0 && a[|a| - 1] == x {
      SubsequenceShrink(a, b);
    }
  }

  /** A subsequence stays one when it loses its last element. */
  lemma {:induction false} SubsequenceShrink<T>(a: seq<T>, b: seq<T>)
    requires |a| > 0 && Subsequence(a, b)
    ensures Subsequence(a[..|a| - 1], b)
    decreases |b|, 0
  {
    var a', b' := a[..|a| - 1], b[..|b| - 1];
    assert b == b' + [b[|b| - 1]];
    if a[|a| - 1] != b[|b| - 1] {
      SubsequenceShrink(a, b');
    }
    SubsequenceGrow(a', b', b[|b| - 1]);
  }

  /** A subsequence extended by the same element on both sides is one. */
  lemma SubsequenceBoth<T>(a: seq<T>, b: seq<T>, x: T)
    requires Subsequence(a, b)
    ensures Subsequence(a + [x], b + [x])
  {
    assert (b + [x])[..|b|] == b;
    assert (a + [x])[..|a|] == a;
  }

  /**
    The filter keeps the list's order: by their shape data, the kept
    structures are an order-keeping selection of the structures that stepped.
   */
  lemma {:induction false} KeptInOrder(rs: seq<StepResult>, ss: seq<Structure>, width: int, height: int)
    requires Faithful(rs, ss, width, height)
    ensures Subsequence(Bases(Kept(rs)), Bases(ss[..|rs|]))
    decreases |rs|
  {
    if rs == [] {
      assert Bases([]) == [];
    } else {
      var n := |rs|;
      var init, last := rs[..n - 1], rs[n - 1];
      assert Faithful(init, ss, width, height) by {
        forall i | 0 <= i < |init| && init[i].alive ensures init[i] == rs[i] { }
      }
      KeptInOrder(init, ss, width, height);
      assert Bases(ss[..n]) == Bases(ss[..n - 1]) + [ss[n - 1].base];
      if last.alive {
        assert Kept(rs) == Kept(init) + [last.structure];
        assert Bases(Kept(init) + [last.structure]) == Bases(Kept(init)) + [ss[n - 1].base];
        SubsequenceBoth(Bases(Kept(init)), Bases(ss[..n - 1]), ss[n - 1].base);
      } else {
        assert Kept(rs) == Kept(init);
        SubsequenceGrow(Bases(Kept(init)), Bases(ss[..n - 1]), ss[n - 1].base);
      }
    }
  }

  /**
    Each kept structure holds the priority it had, so filtering a
    priority-sorted list leaves it sorted, and what is kept ranks no later
    than any structure yet to step.
   */
  lemma {:induction false} KeptSorted(rs: seq<StepResult>, ss: seq<Structure>, width: int, height: int)
    requires Faithful(rs, ss, width, height) && SortedByPriority(ss)
    ensures SortedByPriority(Kept(rs))
    ensures forall j, i :: 0 <= j < |Kept(rs)| && |rs| <= i < |ss| ==> Priority(Kept(rs)[j]) <= Priority(ss[i])
    decreases |rs|
  {
    if rs != [] {
      var n := |rs|;
      var init, last := rs[..n - 1], rs[n - 1];
      assert Faithful(init, ss, width, height) by {
        forall i | 0 <= i < |init| && init[i].alive ensures init[i] == rs[i] { }
      }
      KeptSorted(init, ss, width, height);
    }
  }

  /** Every kept structure lies in the world. */
  lemma {:induction false} KeptPlaced(rs: seq<StepResult>, ss: seq<Structure>, width: int, height: int)
    requires Faithful(rs, ss, width, height)
    ensures forall j :: 0 <= j < |Kept(rs)| ==> Placed(Kept(rs)[j], width, height)
    decreases |rs|
  {
    if rs != [] {
      var n := |rs|;
      var init := rs[..n - 1];
      assert Faithful(init, ss, width, height) by {
        forall i | 0 <= i < |init| && init[i].alive ensures init[i] == rs[i] { }
      }
      KeptPlaced(init, ss, width, height);
    }
  }

  /**
    The structure loop of `step`, as a whole: the new list keeps the order
    of the old one and everything in it still lies in the world, and a
    priority-sorted list stays sorted, so `addStructure`'s binary search
    stays valid.
   */
  lemma StepStructuresKeepsList(g: Grid, ss: seq<Structure>, cfg: Config, draws: seq<seq<nat>>, chk: Check)
    requires g.Valid() && ListReady(ss, draws, g.width, g.height)
    ensures var kept := StepStructures(g, ss, cfg, draws, chk).1;
            && |kept| <= |ss|
            && Subsequence(Bases(kept), Bases(ss))
            && (forall j :: 0 <= j < |kept| ==> Placed(kept[j], g.width, g.height))
            && (SortedByPriority(ss) ==> SortedByPriority(kept))
  {
    var rs := StepPrefix(g, ss, cfg, draws, |ss|, chk).results;
    StepPrefixFaithful(g, ss, cfg, draws, |ss|, chk);
    KeptInOrder(rs, ss, g.width, g.height);
    assert ss[..|rs|] == ss;
    KeptPlaced(rs, ss, g.width, g.height);
    if SortedByPriority(ss) {
      KeptSorted(rs, ss, g.width, g.height);
    }
  }

  /** The virtual `step` on the world, dispatched on the structure's kind. */
  method StructureStepAt(w: PixelWorld, s: Structure, draws: seq<nat>, chk: Check) returns (alive: bool, s': Structure)
    requires w.Valid() && Placed(s, w.width, w.height) && StepDraws(s, draws)
    modifies w.tags, w.elems, w.statics
    ensures StepResult(alive, w.Cells(), s') == StructureStep(old(w.Cells()), s, w.cfg, draws, chk)
  {
    match s.kind
    case GateKind(_, _) => alive, s' := GateStepAt(w, s, chk);
    case NPN(_, _) => alive, s' := TransistorStepAt(w, s);
    case PNP(_, _) => alive, s' := TransistorStepAt(w, s);
    case Emitter(_) => alive, s' := EmitterStepAt(w, s);
    case Receiver => alive, s' := ReceiverStepAt(w, s);
    case Plate => alive, s' := PlateStepAt(w, s);
    case HeavyPlate => alive, s' := PlateStepAt(w, s);
    case PowerSource => alive, s' := PowerSourceStepAt(w, s);
    case Heater => alive, s' := HeaterStepAt(w, s);
    case WaterTap => alive, s' := TapStepAt(w, s, draws);
    case OilTap => alive, s' := TapStepAt(w, s, draws);
  }

  /**
    `std::lower_bound` by `priority`: the number of leading structures that
    rank strictly before priority `p`.
   */
  function LowerBound(ss: seq<Structure>, p: int): (i: nat)
    ensures i <= |ss|
    ensures forall k :: 0 <= k < i ==> Priority(ss[k]) < p
    ensures i < |ss| ==> Priority(ss[i]) >= p
  {
    if ss == [] || Priority(ss[0]) >= p then 0 else 1 + LowerBound(ss[1..], p)
  }

  /** In a sorted list, the lower bound splits the list into the structures before `p` and the rest. */
  lemma LowerBoundSplits(ss: seq<Structure>, p: int, i: nat)
    requires SortedByPriority(ss) && i <= |ss|
    ensures i == LowerBound(ss, p) <==>
              && (forall k :: 0 <= k < i ==> Priority(ss[k]) < p)
              && (forall k :: i <= k < |ss| ==> Priority(ss[k]) >= p)
  {
    var j := LowerBound(ss, p);
    if i < j {
      assert Priority(ss[i]) < p;
    } else if j < i {
      assert Priority(ss[j]) >= p;
    }
  }

  /** `addStructure`'s insertion: before every structure of the same or a later priority. */
  function Insert(ss: seq<Structure>, s: Structure): (r: seq<Structure>)
    ensures |r| == |ss| + 1
  {
    var i := LowerBound(ss, Priority(s));
    ss[..i] + [s] + ss[i..]
  }

  /** Inserting puts the new structure at the lower bound, with the list's first part before it and the rest after. */
  lemma InsertAt(ss: seq<Structure>, s: Structure)
    ensures var i, r := LowerBound(ss, Priority(s)), Insert(ss, s);
            && r[i] == s
            && (forall k :: 0 <= k < i ==> r[k] == ss[k])
            && (forall k :: i < k < |r| ==> r[k] == ss[k - 1])
  {
  }

  /** Inserting adds exactly the new structure. */
  lemma InsertMultiset(ss: seq<Structure>, s: Structure)
    ensures multiset(Insert(ss, s)) == multiset(ss) + multiset{s}
  {
    var i := LowerBound(ss, Priority(s));
    assert ss == ss[..i] + ss[i..];
  }

  /**
    Inserting keeps a sorted list sorted. The new structure lands before
    every structure of equal priority already in the list, so among equals
    the structure added last steps first.
   */
  lemma InsertSorted(ss: seq<Structure>, s: Structure)
    requires SortedByPriority(ss)
    ensures SortedByPriority(Insert(ss, s))
    ensures var i := LowerBound(ss, Priority(s));
            forall k :: i <= k < |ss| ==> Priority(s) <= Priority(ss[k])
  {
    var i := LowerBound(ss, Priority(s));
    LowerBoundSplits(ss, Priority(s), i);
    InsertAt(ss, s);
    var r := Insert(ss, s);
    forall a, b | 0 <= a < b < |r| ensures Priority(r[a]) <= Priority(r[b]) {
      if b < i {
        assert r[a] == ss[a] && r[b] == ss[b];
      } else if a > i {
        assert r[a] == ss[a - 1] && r[b] == ss[b - 1];
      } else if a == i {
        assert r[b] == ss[b - 1];
      } else {
        assert r[a] == ss[a];
      }
    }
  }

  /** `std::lower_bound` on the world's list: a binary search, correct on a sorted list. */
  method LowerBoundAt(ss: seq<Structure>, p: int) returns (i: nat)
    requires SortedByPriority(ss)
    ensures i == LowerBound(ss, p)
  {
    var lo, hi := 0, |ss|;
    while lo < hi
      invariant 0 <= lo <= hi <= |ss|
      invariant forall k :: 0 <= k < lo ==> Priority(ss[k]) < p
      invariant forall k :: hi <= k < |ss| ==> Priority(ss[k]) >= p
      decreases hi - lo
    {
      var mid := lo + (hi - lo) / 2;
      if Priority(ss[mid]) < p {
        lo := mid + 1;
      } else {
        hi := mid;
      }
    }
    LowerBoundSplits(ss, p, lo);
    i := lo;
  }

  /**
    `addStructure` on the cells and the list: the structure's `setup` (a
    gate's may refuse, reporting the blocked cell), then the insertion.
   */
  function AddStructure(g: Grid, ss: seq<Structure>, s: Structure, cfg: Config, ds: seq<CellDraws>)
    : (r: Result<(Grid, seq<Structure>), Point>)
    requires g.Valid() && Placed(s, g.width, g.height) && DrawsFor(s.base, ds)
    ensures r.Err? ==> s.kind.GateKind?
    ensures r.Ok? ==> r.value.1 == Insert(ss, s) && r.value.0.Valid() && r.value.0.width == g.width && r.value.0.height == g.height
  {
    if s.kind.GateKind? then
      match GateSetup(g, s, cfg, ds)
      case Ok(g') => BarSetupOkValid(Setup(g, s.base, cfg, ds), s.base, s.kind.dir, cfg);
                     Ok((g', Insert(ss, s)))
      case Err(q) => Err(q)
    else Ok((Setup(g, s.base, cfg, ds), Insert(ss, s)))
  }

  /** A successful bar setup leaves a valid grid of the same size. */
  lemma BarSetupOkValid(g: Grid, b: ShapeBase, d: FacingDirection, cfg: Config)
    requires g.Valid() && b.Valid() && FitsIn(b, g.width, g.height)
    ensures var r := GateBarSetup(g, b, d, cfg);
            r.Ok? ==> r.value.Valid() && r.value.width == g.width && r.value.height == g.height
  {
  }

  /**
    Adding a structure keeps the world's list sorted by priority and every
    structure in it inside the world; the cells are those `setup` leaves.
   */
  lemma AddStructureKeepsList(g: Grid, ss: seq<Structure>, s: Structure, cfg: Config, ds: seq<CellDraws>)
    requires g.Valid() && Placed(s, g.width, g.height) && DrawsFor(s.base, ds)
    requires SortedByPriority(ss) && forall j :: 0 <= j < |ss| ==> Placed(ss[j], g.width, g.height)
    ensures var r := AddStructure(g, ss, s, cfg, ds);
            r.Ok? ==> && SortedByPriority(r.value.1)
                      && (forall j :: 0 <= j < |r.value.1| ==> Placed(r.value.1[j], g.width, g.height))
                      && (!s.kind.GateKind? ==> r.value.0 == Setup(g, s.base, cfg, ds))
  {
    InsertSorted(ss, s);
    InsertAt(ss, s);
  }

  /** `PixelWorld::addStructure`. A refused gate setup leaves the list unchanged. */
  method AddStructureAt(w: PixelWorld, s: Structure, ds: seq<CellDraws>) returns (err: Option<Point>)
    requires w.Valid() && Placed(s, w.width, w.height) && DrawsFor(s.base, ds) && SortedByPriority(w.structures)
    modifies w, w.tags, w.elems
    ensures var r := AddStructure(old(w.Cells()), old(w.structures), s, w.cfg, ds);
            && (err.None? <==> r.Ok?)
            && (r.Ok? ==> (w.Cells(), w.structures) == r.value)
            && (r.Err? ==> err == Some(r.error) && w.structures == old(w.structures))
  {
    if s.kind.GateKind? {
      err := GateSetupAt(w, s, ds);
      if err.Some? {
        return;
      }
    } else {
      SetupAt(w, s.base, ds);
      err := None;
    }
    var i := LowerBoundAt(w.structures, Priority(s));
    w.structures := w.structures[..i] + [s] + w.structures[i..];
  }

  /** One turn of the structure loop: structure `i` steps, and is appended to `next` when it survives. */
  method StepOneAt(w: PixelWorld, ss: seq<Structure>, draws: seq<seq<nat>>, i: nat, next: seq<Structure>,
                   ghost g: Grid, ghost rs: seq<StepResult>, chk: Check)
    returns (next': seq<Structure>, ghost rs': seq<StepResult>)
    requires w.Valid() && g.Valid() && g.width == w.width && g.height == w.height
    requires ListReady(ss, draws, w.width, w.height) && i < |ss|
    requires Pass(w.Cells(), rs) == StepPrefix(g, ss, w.cfg, draws, i, chk) && next == Kept(rs)
    modifies w.tags, w.elems, w.statics
    ensures Pass(w.Cells(), rs') == StepPrefix(g, ss, w.cfg, draws, i + 1, chk) && next' == Kept(rs')
  {
    var alive, s' := StructureStepAt(w, ss[i], draws[i], chk);
    ghost var r := StepResult(alive, w.Cells(), s');
    rs' := rs + [r];
    assert rs'[..|rs|] == rs;
    next' := if alive then next + [s'] else next;
  }

  /**
    The structure loop of `PixelWorld::step`: `next_structures` collects, in
    order, each structure whose step returned true, and replaces the list.
   */
  method StepStructuresAt(w: PixelWorld, draws: seq<seq<nat>>, chk: Check)
    requires w.Valid() && ListReady(w.structures, draws, w.width, w.height)
    modifies w, w.tags, w.elems, w.statics
    ensures (w.Cells(), w.structures) == StepStructures(old(w.Cells()), old(w.structures), w.cfg, draws, chk)
  {
    ghost var g := w.Cells();
    var ss := w.structures;
    var next: seq<Structure> := [];
    ghost var rs: seq<StepResult> := [];
    var i := 0;
    while i < |ss|
      invariant 0 <= i <= |ss| && ss == old(w.structures)
      invariant Pass(w.Cells(), rs) == StepPrefix(g, ss, w.cfg, draws, i, chk) && next == Kept(rs)
    {
      next, rs := StepOneAt(w, ss, draws, i, next, g, rs, chk);
      i := i + 1;
    }
    w.structures := next;
  }
}
