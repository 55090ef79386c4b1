// Step 3 of `fluidAnalysisStep` in src/fallsand/fluid.cpp: the surface
// pixels of each component, put in order top to bottom, and the levelling
// swaps that move fluid from the highest surface pixels to just above the
// lowest ones. The shuffle within one row of surface pixels is a rank of
// the list's positions given from outside, one per component, and
// `surface_adjust_factor` is an exact ratio.
module FluidLevel {
  import opened Base
  import opened Pixels
  import opened Grids
  import opened World

  /** `isAirLike`: gas and particles. */
  predicate AirLike(t: Tag)
  {
    t.pclass == Gas || t.pclass == Particle
  }

  /** A surface pixel is in the top row, or has gas or a particle above it and is not falling. */
  predicate IsSurface(g: Grid, p: Point)
    requires g.Valid() && g.InBounds(p.x, p.y)
  {
    p.y == 0 || (AirLike(g.TagAt(p.x, p.y - 1)) && !g.TagAt(p.x, p.y).isFreeFalling)
  }

  /** Every listed pixel is in the world and carries a component id below `count`. */
  predicate Placed(g: Grid, cid: array2<int>, ps: seq<Point>, count: int)
    reads cid
  {
    && cid.Length0 == g.width && cid.Length1 == g.height
    && forall i :: 0 <= i < |ps| ==> g.InBounds(ps[i].x, ps[i].y) && 0 <= cid[ps[i].x, ps[i].y] < count
  }

  /** Pixel `q` is a surface pixel of component `c`. */
  predicate Kept(g: Grid, cid: array2<int>, c: int, q: Point)
    reads cid
  {
    && g.Valid() && g.InBounds(q.x, q.y) && cid.Length0 == g.width && cid.Length1 == g.height
    && cid[q.x, q.y] == c && IsSurface(g, q)
  }

  /** The surface pixels of component `c` among the first `n` listed pixels, in list order. */
  function SurfaceOf(g: Grid, cid: array2<int>, ps: seq<Point>, n: int, c: int): seq<Point>
    requires 0 <= n <= |ps|
    reads cid
    decreases n
  {
    if n == 0 then []
    else
      var rest := SurfaceOf(g, cid, ps, n - 1, c);
      if Kept(g, cid, c, ps[n - 1]) then rest + [ps[n - 1]] else rest
  }

  /**
    A component's surface list holds every surface pixel of the component
    as often as the pixel list does (the flood fill may list a pixel
    twice), and nothing else.
   */
  lemma {:induction false} SurfaceOfMeaning(g: Grid, cid: array2<int>, ps: seq<Point>, n: int, c: int)
    requires 0 <= n <= |ps|
    ensures forall q :: multiset(SurfaceOf(g, cid, ps, n, c))[q] == if Kept(g, cid, c, q) then multiset(ps[..n])[q] else 0
    decreases n
  {
    if n > 0 {
      SurfaceOfMeaning(g, cid, ps, n - 1, c);
      assert ps[..n] == ps[..n - 1] + [ps[n - 1]];
    }
  }

  /**
    The surface lists of all components, gathered in one pass over the
    labelled pixels: `surf[c]` is `SurfaceOf` the whole list for `c`.
   */
  method CollectSurfaces(w: PixelWorld, cid: array2<int>, pixels: seq<Point>, count: nat) returns (surf: seq<seq<Point>>)
    requires w.Valid() && Placed(w.Cells(), cid, pixels, count)
    ensures |surf| == count
    ensures forall c :: 0 <= c < count ==> surf[c] == SurfaceOf(w.Cells(), cid, pixels, |pixels|, c)
  {
    ghost var g := w.Cells();
    surf := seq(count, _ => []);
    for i := 0 to |pixels|
      invariant |surf| == count
      invariant forall c :: 0 <= c < count ==> surf[c] == SurfaceOf(g, cid, pixels, i, c)
    {
      var p := pixels[i];
      var c := cid[p.x, p.y];
      if p.y == 0 || (AirLike(w.TagOf(p.x, p.y - 1)) && !w.TagOf(p.x, p.y).isFreeFalling) {
        assert Kept(g, cid, c, p);
        surf := surf[c := surf[c] + [p]];
      } else {
        assert !Kept(g, cid, c, p);
      }
    }
  }

  /** An entry of a surface list: its position `pos` in the list and its pixel. */
  datatype Entry = Entry(pos: int, p: Point)

  /** The entries of `ps`, each with its position. */
  function Entries(ps: seq<Point>): (es: seq<Entry>)
    ensures |es| == |ps| && forall k :: 0 <= k < |ps| ==> es[k] == Entry(k, ps[k])
  {
    seq(|ps|, k requires 0 <= k < |ps| => Entry(k, ps[k]))
  }

  /** The pixels of the entries `es`, in order. */
  function PixelsOf(es: seq<Entry>): (ps: seq<Point>)
    ensures |ps| == |es| && forall k :: 0 <= k < |es| ==> ps[k] == es[k].p
  {
    seq(|es|, k requires 0 <= k < |es| => es[k].p)
  }

  lemma PixelsOfEntries(ps: seq<Point>)
    ensures PixelsOf(Entries(ps)) == ps
  {
  }

  lemma PixelsOfAppend(a: seq<Entry>, b: seq<Entry>)
    ensures PixelsOf(a + b) == PixelsOf(a) + PixelsOf(b)
  {
  }

  /**
    The order of the surface list of component `c` once sorted and
    shuffled: by row, top first; within a row by `rank(c, pos)`, the place
    the shuffle gives the entry at position `pos` of the list; equal ranks
    keep list order. Ranking positions rather than pixels lets the shuffle
    part two entries of one pixel, which the flood fill can list twice.
   */
  predicate Before(a: Entry, b: Entry, c: int, rank: (int, int) -> int)
  {
    || a.p.y < b.p.y
    || (a.p.y == b.p.y && (rank(c, a.pos) < rank(c, b.pos) || (rank(c, a.pos) == rank(c, b.pos) && a.pos <= b.pos)))
  }

  predicate Sorted(s: seq<Entry>, c: int, rank: (int, int) -> int)
  {
    forall i, j :: 0 <= i < j < |s| ==> Before(s[i], s[j], c, rank)
  }

  /** `e` put in front of the first entry it comes before. */
  function Insert(e: Entry, s: seq<Entry>, c: int, rank: (int, int) -> int): (r: seq<Entry>)
    ensures multiset(r) == multiset(s) + multiset{e}
    ensures forall q :: q in r ==> q == e || q in s
  {
    if s == [] then [e]
    else if Before(e, s[0], c, rank) then [e] + s
    else
      assert s == [s[0]] + s[1..];
      [s[0]] + Insert(e, s[1..], c, rank)
  }

  lemma {:induction false} InsertSorted(e: Entry, s: seq<Entry>, c: int, rank: (int, int) -> int)
    requires Sorted(s, c, rank)
    ensures Sorted(Insert(e, s, c, rank), c, rank)
    decreases |s|
  {
    if s != [] && !Before(e, s[0], c, rank) {
      InsertSorted(e, s[1..], c, rank);
      var r := Insert(e, s, c, rank);
      forall j | 0 < j < |r| ensures Before(r[0], r[j], c, rank) {
        assert r[j] in Insert(e, s[1..], c, rank);
      }
    }
  }

  /** Inserting an entry adds its pixel to the pixels of the list. */
  lemma {:induction false} InsertPixels(e: Entry, s: seq<Entry>, c: int, rank: (int, int) -> int)
    ensures multiset(PixelsOf(Insert(e, s, c, rank))) == multiset(PixelsOf(s)) + multiset{e.p}
    decreases |s|
  {
    if s == [] {
    } else if Before(e, s[0], c, rank) {
      PixelsOfAppend([e], s);
    } else {
      InsertPixels(e, s[1..], c, rank);
      PixelsOfAppend([s[0]], Insert(e, s[1..], c, rank));
      assert s == [s[0]] + s[1..];
      PixelsOfAppend([s[0]], s[1..]);
    }
  }

  /** The insertion sort of entries by `Before`. */
  function SortEntries(es: seq<Entry>, c: int, rank: (int, int) -> int): (r: seq<Entry>)
    ensures multiset(r) == multiset(es) && |r| == |es|
    decreases |es|
  {
    if es == [] then []
    else
      assert es == [es[0]] + es[1..];
      Insert(es[0], SortEntries(es[1..], c, rank), c, rank)
  }

  lemma {:induction false} SortEntriesMeaning(es: seq<Entry>, c: int, rank: (int, int) -> int)
    ensures Sorted(SortEntries(es, c, rank), c, rank)
    ensures multiset(PixelsOf(SortEntries(es, c, rank))) == multiset(PixelsOf(es))
  {
    SortEntriesSorted(es, c, rank);
    SortEntriesPixels(es, c, rank);
  }

  lemma {:induction false} SortEntriesSorted(es: seq<Entry>, c: int, rank: (int, int) -> int)
    ensures Sorted(SortEntries(es, c, rank), c, rank)
    decreases |es|
  {
    if es != [] {
      var tl := SortEntries(es[1..], c, rank);
      SortEntriesSorted(es[1..], c, rank);
      InsertSorted(es[0], tl, c, rank);
    }
  }

  lemma {:induction false} SortEntriesPixels(es: seq<Entry>, c: int, rank: (int, int) -> int)
    ensures multiset(PixelsOf(SortEntries(es, c, rank))) == multiset(PixelsOf(es))
    decreases |es|
  {
    if es != [] {
      var tl := SortEntries(es[1..], c, rank);
      calc {
        multiset(PixelsOf(SortEntries(es, c, rank)));
        multiset(PixelsOf(Insert(es[0], tl, c, rank)));
        { InsertPixels(es[0], tl, c, rank); }
        multiset(PixelsOf(tl)) + multiset{es[0].p};
        { SortEntriesPixels(es[1..], c, rank); }
        multiset(PixelsOf(es[1..])) + multiset{es[0].p};
        { assert PixelsOf([es[0]]) == [es[0].p]; }
        multiset(PixelsOf([es[0]]) + PixelsOf(es[1..]));
        { assert es == [es[0]] + es[1..]; PixelsOfAppend([es[0]], es[1..]); }
        multiset(PixelsOf(es));
      }
    }
  }

  /** `std::sort` of the surface list of component `c` followed by the shuffle of each row, as one sort by `Before`. */
  function SortSurface(ps: seq<Point>, c: int, rank: (int, int) -> int): (r: seq<Point>)
    ensures |r| == |ps|
  {
    PixelsOf(SortEntries(Entries(ps), c, rank))
  }

  /** The rows of `sp` go down the list. */
  predicate RowsSorted(sp: seq<Point>)
  {
    forall i, j :: 0 <= i < j < |sp| ==> sp[i].y <= sp[j].y
  }

  /**
    The sorted list is the list's entries rearranged in `Before` order: its
    rows go down the list, and it holds the same pixels as often.
   */
  lemma SortSurfaceMeaning(ps: seq<Point>, c: int, rank: (int, int) -> int)
    ensures var es := SortEntries(Entries(ps), c, rank);
            && Sorted(es, c, rank) && multiset(es) == multiset(Entries(ps))
            && SortSurface(ps, c, rank) == PixelsOf(es)
    ensures multiset(SortSurface(ps, c, rank)) == multiset(ps)
    ensures RowsSorted(SortSurface(ps, c, rank))
  {
    var es := SortEntries(Entries(ps), c, rank);
    SortEntriesMeaning(Entries(ps), c, rank);
    PixelsOfEntries(ps);
    forall i, j | 0 <= i < j < |ps| ensures SortSurface(ps, c, rank)[i].y <= SortSurface(ps, c, rank)[j].y {
      assert Before(es[i], es[j], c, rank);
    }
  }

  /** A shuffle of a three-entry list that moves the entry at position 1 to the front. */
  function PartingRank(c: int, i: int): int
  {
    if i == 1 then 0 else if i == 0 then 1 else 2
  }

  /**
    The shuffle can part two entries of one pixel: the top row `[p, q, q]`
    of a 2x2 block, whose flood fill lists `q = (1, 0)` twice, comes out as
    `[q, p, q]` under a rank that puts the entry at position 1 first.
   */
  lemma SurfaceDuplicatesParted()
    ensures SortSurface([Point(0, 0), Point(1, 0), Point(1, 0)], 0, PartingRank) == [Point(1, 0), Point(0, 0), Point(1, 0)]
  {
    var p, q := Point(0, 0), Point(1, 0);
    var e0, e1, e2 := Entry(0, p), Entry(1, q), Entry(2, q);
    calc {
      SortSurface([p, q, q], 0, PartingRank);
      PixelsOf(SortEntries(Entries([p, q, q]), 0, PartingRank));
      { assert Entries([p, q, q]) == [e0, e1, e2]; }
      PixelsOf(SortEntries([e0, e1, e2], 0, PartingRank));
      { PartedEntries(p, q); }
      PixelsOf([e1, e0, e2]);
      [q, p, q];
    }
  }

  /** The entries of `[p, q, q]` sorted under `PartingRank`, for two pixels of one row. */
  lemma PartedEntries(p: Point, q: Point)
    requires p.y == q.y
    ensures SortEntries([Entry(0, p), Entry(1, q), Entry(2, q)], 0, PartingRank) == [Entry(1, q), Entry(0, p), Entry(2, q)]
  {
    var e0, e1, e2 := Entry(0, p), Entry(1, q), Entry(2, q);
    assert SortEntries([e1, e2], 0, PartingRank) == [e1, e2] by {
      assert [e1, e2][1..] == [e2];
      assert SortEntries([e2], 0, PartingRank) == [e2];
    }
    assert [e0, e1, e2][1..] == [e1, e2];
    assert [e1, e2][1..] == [e2];
    assert Insert(e0, [e2], 0, PartingRank) == [e0, e2];
  }

  /** The length of the leading run of entries in the same row as the first. */
  function TopRunFrom(sp: seq<Point>, k: nat): (p: nat)
    requires sp != [] && k <= |sp|
    ensures k <= p <= |sp|
    decreases |sp| - k
  {
    if k < |sp| && sp[k].y == sp[0].y then TopRunFrom(sp, k + 1) else k
  }

  /** The run counted from index 0 is every entry of the first row that leads the list, and no more. */
  lemma {:induction false} TopRunMeaning(sp: seq<Point>, k: nat)
    requires sp != [] && k <= |sp| && forall i :: 0 <= i < k ==> sp[i].y == sp[0].y
    ensures forall i :: 0 <= i < TopRunFrom(sp, k) ==> sp[i].y == sp[0].y
    ensures TopRunFrom(sp, k) < |sp| ==> sp[TopRunFrom(sp, k)].y != sp[0].y
    decreases |sp| - k
  {
    if k < |sp| && sp[k].y == sp[0].y {
      TopRunMeaning(sp, k + 1);
    }
  }

  /** `std::round(a * num / den)` for the ratio `num / den`: to nearest, halves away from zero. */
  function RoundRatio(a: int, num: nat, den: nat): int
    requires den > 0
  {
    if a >= 0 then (2 * a * num + den) / (2 * den) else -((2 * (-a) * num + den) / (2 * den))
  }

  /** For `a >= 0` the rounded value is within half a unit of `a * num / den`, and a half goes up. */
  lemma RoundRatioMeaning(a: nat, num: nat, den: nat)
    requires den > 0
    ensures var r := RoundRatio(a, num, den);
            -(den as int) <= 2 * (a * num - r * den) < den
  {
    var r := RoundRatio(a, num, den);
    var m := 2 * a * num + den;
    assert r == m / (2 * den);
    assert 2 * den * r <= m < 2 * den * (r + 1) by {
      DivBounds(m, 2 * den);
    }
  }

  lemma DivBounds(m: nat, d: nat)
    requires d > 0
    ensures d * (m / d) <= m < d * (m / d + 1)
  {
  }

  /** The number of pairs levelling may swap: the first row's run, capped by `round(max_delta_y * factor)`. */
  function Cap(sp: seq<Point>, num: nat, den: nat): int
    requires sp != [] && den > 0
  {
    Min(TopRunFrom(sp, 0), RoundRatio(sp[|sp| - 1].y - sp[0].y, num, den))
  }

  /**
    The swaps of the levelling loop from pair `i` on: the `i`-th highest
    surface pixel goes to the cell above the `i`-th lowest, while `i <= p`,
    the two ends have not met, and that cell is below the pixel.
   */
  function LevelFrom(sp: seq<Point>, p: int, i: nat): seq<(Point, Point)>
    decreases |sp| - i
  {
    if i <= p && p + i + 1 < |sp| && !(sp[|sp| - 1 - i].y - 1 <= sp[i].y) then
      [(sp[i], Point(sp[|sp| - 1 - i].x, sp[|sp| - 1 - i].y - 1))] + LevelFrom(sp, p, i + 1)
    else []
  }

  /** Both cells of every swap are in the world. */
  predicate SwapsIn(width: int, height: int, s: seq<(Point, Point)>)
  {
    forall k :: 0 <= k < |s| ==> 0 <= s[k].0.x < width && 0 <= s[k].0.y < height && 0 <= s[k].1.x < width && 0 <= s[k].1.y < height
  }

  /** The grid after `swapPixels` on each pair, first to last. */
  function ApplySwaps(g: Grid, s: seq<(Point, Point)>): (r: Grid)
    requires g.Valid() && SwapsIn(g.width, g.height, s)
    ensures r.Valid() && r.width == g.width && r.height == g.height
    decreases |s|
  {
    if s == [] then g
    else ApplySwaps(g.Swap(s[0].0.x, s[0].0.y, s[0].1.x, s[0].1.y), s[1..])
  }

  lemma ApplySwapsFirst(g: Grid, x: (Point, Point), rest: seq<(Point, Point)>)
    requires g.Valid() && SwapsIn(g.width, g.height, [x] + rest)
    ensures SwapsIn(g.width, g.height, rest)
    ensures ApplySwaps(g, [x] + rest) == ApplySwaps(g.Swap(x.0.x, x.0.y, x.1.x, x.1.y), rest)
  {
    assert ([x] + rest)[1..] == rest;
    assert forall k :: 0 <= k < |rest| ==> rest[k] == ([x] + rest)[k + 1];
  }

  /** Every pixel of the list is in the world. */
  predicate AllIn(width: int, height: int, sp: seq<Point>)
  {
    forall i :: 0 <= i < |sp| ==> 0 <= sp[i].x < width && 0 <= sp[i].y < height
  }

  /**
    The levelling swaps, stated without the loop: swap `k` takes the `k`-th
    entry to the cell above the `k`-th entry from the end, `k <= p`, the
    two entries are different entries of the list, the target lies in a
    lower row than the pixel that moves, and there are at most `p + 1`
    swaps and at most half as many as entries.
   */
  lemma {:induction false} LevelFromMeaning(width: int, height: int, sp: seq<Point>, p: int, i: nat)
    requires AllIn(width, height, sp) && 2 * i <= |sp|
    ensures var s := LevelFrom(sp, p, i);
            && SwapsIn(width, height, s)
            && |s| <= Max(0, p + 1 - i) && 2 * (i + |s|) <= |sp|
            && forall k :: 0 <= k < |s| ==>
                 && i + k <= p && i + k < |sp| - 1 - (i + k)
                 && s[k].0 == sp[i + k] && s[k].1 == Point(sp[|sp| - 1 - (i + k)].x, sp[|sp| - 1 - (i + k)].y - 1)
                 && s[k].1.y > s[k].0.y
    decreases |sp| - i
  {
    if i <= p && p + i + 1 < |sp| && !(sp[|sp| - 1 - i].y - 1 <= sp[i].y) {
      LevelFromMeaning(width, height, sp, p, i + 1);
      var s := LevelFrom(sp, p, i);
      var s' := LevelFrom(sp, p, i + 1);
      assert s == [s[0]] + s';
      forall k | 0 < k < |s|
        ensures s[k] == s'[k - 1]
      {
      }
    }
  }

  /** The loop that counts the leading run of the first row. */
  method TopRun(sp: seq<Point>) returns (p: int)
    requires sp != []
    ensures p == TopRunFrom(sp, 0)
  {
    p := 0;
    var y0 := sp[0].y;
    while p < |sp| && sp[p].y == y0
      invariant 0 <= p <= |sp| && TopRunFrom(sp, p) == TopRunFrom(sp, 0)
      decreases |sp| - p
    {
      p := p + 1;
    }
  }

  /** One turn of the levelling loop: the swap it makes is the first of the remaining ones. */
  lemma LevelStep(width: int, height: int, sp: seq<Point>, p: int, i: nat)
    requires AllIn(width, height, sp) && i <= p && p + i + 1 < |sp| && !(sp[|sp| - 1 - i].y - 1 <= sp[i].y)
    ensures var b := sp[|sp| - 1 - i];
            && LevelFrom(sp, p, i) == [(sp[i], Point(b.x, b.y - 1))] + LevelFrom(sp, p, i + 1)
            && 0 <= b.x < width && 0 <= b.y - 1 < height
  {
  }

  /** The number of pairs, as the source computes it before the levelling loop. */
  method LevelCount(sp: seq<Point>, num: nat, den: nat) returns (p: int)
    requires |sp| >= 2 && den > 0
    ensures p == Cap(sp, num, den)
  {
    p := TopRun(sp);
    var maxDeltaY := sp[|sp| - 1].y - sp[0].y;
    p := Min(p, RoundRatio(maxDeltaY, num, den));
  }

  /** Where the levelling loop stops, no swaps remain. */
  lemma LevelDone(g: Grid, sp: seq<Point>, p: int, i: nat)
    requires g.Valid() && !(i <= p && p + i + 1 < |sp| && !(sp[|sp| - 1 - i].y - 1 <= sp[i].y))
    ensures LevelFrom(sp, p, i) == [] && ApplySwaps(g, LevelFrom(sp, p, i)) == g
  {
  }

  /** One turn of the levelling loop that does not break: the `i`-th pair is swapped. */
  method LevelPair(w: PixelWorld, sp: seq<Point>, p: int, i: nat, ghost target: Grid)
    requires w.Valid() && AllIn(w.width, w.height, sp) && 2 * i <= |sp|
    requires i <= p && p + i + 1 < |sp| && !(sp[|sp| - 1 - i].y - 1 <= sp[i].y)
    requires SwapsIn(w.width, w.height, LevelFrom(sp, p, i)) && ApplySwaps(w.Cells(), LevelFrom(sp, p, i)) == target
    modifies w.tags, w.elems
    ensures SwapsIn(w.width, w.height, LevelFrom(sp, p, i + 1)) && ApplySwaps(w.Cells(), LevelFrom(sp, p, i + 1)) == target
  {
    var a, b := sp[i], sp[|sp| - 1 - i];
    LevelStep(w.width, w.height, sp, p, i);
    ApplySwapsFirst(w.Cells(), (a, Point(b.x, b.y - 1)), LevelFrom(sp, p, i + 1));
    w.SwapPixels(a.x, a.y, b.x, b.y - 1);
  }

  /** The levelling loop over pairs `0 .. p`. */
  method LevelPairs(w: PixelWorld, sp: seq<Point>, p: int)
    requires w.Valid() && AllIn(w.width, w.height, sp)
    modifies w.tags, w.elems
    ensures SwapsIn(w.width, w.height, LevelFrom(sp, p, 0))
    ensures w.Cells() == ApplySwaps(old(w.Cells()), LevelFrom(sp, p, 0))
  {
    var n := |sp|;
    LevelFromMeaning(w.width, w.height, sp, p, 0);
    ghost var target := ApplySwaps(w.Cells(), LevelFrom(sp, p, 0));
    var i := 0;
    while i <= p && p + i + 1 < n
      invariant 0 <= i && 2 * i <= n && SwapsIn(w.width, w.height, LevelFrom(sp, p, i))
      invariant ApplySwaps(w.Cells(), LevelFrom(sp, p, i)) == target
      decreases n - i
    {
      var a, b := sp[i], sp[n - 1 - i];
      if b.y - 1 <= a.y {
        LevelDone(w.Cells(), sp, p, i);
        return;
      }
      LevelPair(w, sp, p, i, target);
      i := i + 1;
    }
    LevelDone(w.Cells(), sp, p, i);
  }

  /** Levelling one component whose sorted surface list `sp` has at least two entries. */
  method LevelComponent(w: PixelWorld, sp: seq<Point>, num: nat, den: nat)
    requires w.Valid() && |sp| >= 2 && den > 0 && AllIn(w.width, w.height, sp)
    modifies w.tags, w.elems
    ensures SwapsIn(w.width, w.height, LevelFrom(sp, Cap(sp, num, den), 0))
    ensures w.Cells() == ApplySwaps(old(w.Cells()), LevelFrom(sp, Cap(sp, num, den), 0))
  {
    var p := LevelCount(sp, num, den);
    LevelPairs(w, sp, p);
  }

  /** Sorting keeps every pixel in the world. */
  lemma SortedIn(width: int, height: int, ps: seq<Point>, c: int, rank: (int, int) -> int)
    requires AllIn(width, height, ps)
    ensures AllIn(width, height, SortSurface(ps, c, rank))
  {
    var r := SortSurface(ps, c, rank);
    SortSurfaceMeaning(ps, c, rank);
    forall i | 0 <= i < |r| ensures 0 <= r[i].x < width && 0 <= r[i].y < height {
      assert r[i] in multiset(ps);
    }
  }

  /** Every surface list lies in the world. */
  predicate SurfacesIn(width: int, height: int, surf: seq<seq<Point>>)
  {
    forall c :: 0 <= c < |surf| ==> AllIn(width, height, surf[c])
  }

  /**
    The grid after levelling components `0 .. k - 1` in id order: a
    component with fewer than two surface pixels is left alone; otherwise
    its sorted list gives the swaps.
   */
  function LevelAll(g: Grid, surf: seq<seq<Point>>, rank: (int, int) -> int, num: nat, den: nat, k: nat): (r: Grid)
    requires g.Valid() && den > 0 && k <= |surf| && SurfacesIn(g.width, g.height, surf)
    ensures r.Valid() && r.width == g.width && r.height == g.height
    decreases k
  {
    if k == 0 then g
    else
      var h := LevelAll(g, surf, rank, num, den, k - 1);
      var sp := SortSurface(surf[k - 1], k - 1, rank);
      if |surf[k - 1]| < 2 then h
      else
        SortedIn(g.width, g.height, surf[k - 1], k - 1, rank);
        LevelFromMeaning(g.width, g.height, sp, Cap(sp, num, den), 0);
        ApplySwaps(h, LevelFrom(sp, Cap(sp, num, den), 0))
  }

  /** Levelling every component with at least two surface pixels, in id order. */
  method LevelComponents(w: PixelWorld, surf: seq<seq<Point>>, rank: (int, int) -> int, num: nat, den: nat)
    requires w.Valid() && den > 0 && SurfacesIn(w.width, w.height, surf)
    modifies w.tags, w.elems
    ensures w.Cells() == LevelAll(old(w.Cells()), surf, rank, num, den, |surf|)
  {
    ghost var g0 := w.Cells();
    for c := 0 to |surf|
      invariant w.Cells() == LevelAll(g0, surf, rank, num, den, c)
    {
      var n := |surf[c]|;
      if n < 2 {
        continue;
      }
      var sp := SortSurface(surf[c], c, rank);
      SortedIn(w.width, w.height, surf[c], c, rank);
      LevelComponent(w, sp, num, den);
    }
  }
}
