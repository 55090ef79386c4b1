// `prepareFlowNetworkOfComponent` of src/fallsand/fluidflow.cpp: the air
// surfaces of a component's vertices are merged, sorted top row first with
// each row shuffled (the `rank` given from outside), and the number of
// sources is chosen. The first `source_cnt` pixels feed the source vertex, the
// last `source_cnt` drain to the sink vertex, one unit of capacity per pixel.
// `surface_adjust_factor` of this file (0.7) is the exact ratio 7/10.
module FlowPrepare {
  import opened Base
  import opened Pixels
  import opened FlowNetwork
  import opened FluidLevel

  /** `surface_adjust_factor` of fluidflow.cpp as `AdjustNum / AdjustDen`. */
  const AdjustNum: nat := 7
  const AdjustDen: nat := 10

  /** The vertices of a component are region vertices. */
  predicate RegionIds(ids: seq<int>, n: int)
  {
    forall k :: 0 <= k < |ids| ==> 2 <= ids[k] < n
  }

  /** `merged_air_surface`: the air surfaces of the vertices `ids`, concatenated in list order. */
  function MergedAir(vs: seq<Vertex>, ids: seq<int>): seq<Point>
    requires forall k :: 0 <= k < |ids| ==> 0 <= ids[k] < |vs|
    decreases |ids|
  {
    if ids == [] then [] else MergedAir(vs, ids[..|ids| - 1]) + vs[ids[|ids| - 1]].air
  }

  /** Every air surface pixel of a vertex of `ids` lies in `pv` and carries that vertex. */
  ghost predicate OwnsAir(vs: seq<Vertex>, pv: array2<int>, ids: seq<int>)
    reads pv
    requires forall k :: 0 <= k < |ids| ==> 0 <= ids[k] < |vs|
  {
    forall k, j {:trigger vs[ids[k]].air[j]} :: 0 <= k < |ids| && 0 <= j < |vs[ids[k]].air| ==>
      var p := vs[ids[k]].air[j];
      0 <= p.x < pv.Length0 && 0 <= p.y < pv.Length1 && pv[p.x, p.y] in ids
  }

  /** Every pixel of `ps` lies in `pv` and carries a vertex of `ids`. */
  ghost predicate Owned(pv: array2<int>, ids: seq<int>, ps: seq<Point>)
    reads pv
  {
    forall i :: 0 <= i < |ps| ==> 0 <= ps[i].x < pv.Length0 && 0 <= ps[i].y < pv.Length1 && pv[ps[i].x, ps[i].y] in ids
  }

  /** The merged list holds only pixels of the component's vertices. */
  lemma {:induction false} MergedOwned(vs: seq<Vertex>, pv: array2<int>, ids: seq<int>, n: nat)
    requires forall k :: 0 <= k < |ids| ==> 0 <= ids[k] < |vs|
    requires OwnsAir(vs, pv, ids) && n <= |ids|
    ensures Owned(pv, ids, MergedAir(vs, ids[..n]))
    decreases n
  {
    if n > 0 {
      MergedOwned(vs, pv, ids, n - 1);
      assert ids[..n][..n - 1] == ids[..n - 1];
      var last := vs[ids[n - 1]].air;
      var m := MergedAir(vs, ids[..n]);
      assert m == MergedAir(vs, ids[..n - 1]) + last;
      forall i | 0 <= i < |m| ensures 0 <= m[i].x < pv.Length0 && 0 <= m[i].y < pv.Length1 && pv[m[i].x, m[i].y] in ids {
        var h := |MergedAir(vs, ids[..n - 1])|;
        if i >= h {
          assert m[i] == vs[ids[n - 1]].air[i - h];
        }
      }
    }
  }

  /** The sorted list holds the same pixels. */
  lemma SortedOwned(pv: array2<int>, ids: seq<int>, ps: seq<Point>, c: int, rank: (int, int) -> int)
    requires Owned(pv, ids, ps)
    ensures Owned(pv, ids, SortSurface(ps, c, rank))
  {
    var sp := SortSurface(ps, c, rank);
    SortSurfaceMeaning(ps, c, rank);
    forall i | 0 <= i < |sp| ensures 0 <= sp[i].x < pv.Length0 && 0 <= sp[i].y < pv.Length1 && pv[sp[i].x, sp[i].y] in ids {
      assert sp[i] in multiset(sp);
      assert sp[i] in ps;
      var j :| 0 <= j < |ps| && ps[j] == sp[i];
    }
  }

  /**
    The start of the trailing run of entries at row `d` or below, searched
    backwards from index `j`.
   */
  function DeepStart(sp: seq<Point>, d: int, j: nat): (r: nat)
    requires j <= |sp|
    ensures r <= j
  {
    if j > 0 && sp[j - 1].y >= d then DeepStart(sp, d, j - 1) else j
  }

  /** From its start to `j` the run lies at row `d` or below, and the entry before it above row `d`. */
  lemma {:induction false} DeepStartMeaning(sp: seq<Point>, d: int, j: nat)
    requires j <= |sp| && forall i :: j <= i < |sp| ==> sp[i].y >= d
    ensures forall i :: DeepStart(sp, d, j) <= i < |sp| ==> sp[i].y >= d
    ensures DeepStart(sp, d, j) > 0 ==> sp[DeepStart(sp, d, j) - 1].y < d
  {
    if j > 0 && sp[j - 1].y >= d {
      DeepStartMeaning(sp, d, j - 1);
    }
  }

  /** The run cannot reach back into a prefix that lies above row `d`. */
  lemma {:induction false} DeepStartAbove(sp: seq<Point>, d: int, j: nat, h: nat)
    requires h <= j <= |sp| && forall i :: 0 <= i < h ==> sp[i].y < d
    ensures h <= DeepStart(sp, d, j)
  {
    if j > 0 && sp[j - 1].y >= d {
      DeepStartAbove(sp, d, j - 1, h);
    }
  }

  /**
    The number of sources and sinks, stated without the loops: the pixels
    of the top row, the pixels at least two rows below it, and
    `(low_y - high_y) * 0.7` truncated, whichever is least.
   */
  function SourceCount(sp: seq<Point>): int
    requires sp != []
  {
    var high, low := sp[0].y, sp[|sp| - 1].y;
    Min(Min(TopRunFrom(sp, 0), |sp| - DeepStart(sp, high + 2, |sp|)), (low - high) * AdjustNum / AdjustDen)
  }

  /** The runs of a sorted list: the top run, then the row below it, then the deeper rows. */
  lemma Runs(sp: seq<Point>)
    requires |sp| >= 2 && RowsSorted(sp)
    ensures var high, h, t := sp[0].y, TopRunFrom(sp, 0), DeepStart(sp, sp[0].y + 2, |sp|);
            && 1 <= h <= t && sp[0].y <= sp[|sp| - 1].y
            && (forall i :: 0 <= i < h ==> sp[i].y == high)
            && (forall i :: t <= i < |sp| ==> sp[i].y >= high + 2)
            && (t > 0 ==> sp[t - 1].y < high + 2)
  {
    var high := sp[0].y;
    TopRunMeaning(sp, 0);
    DeepStartMeaning(sp, high + 2, |sp|);
    DeepStartAbove(sp, high + 2, |sp|, TopRunFrom(sp, 0));
  }

  /** Between the top run and the deeper rows, a sorted list holds the row just below the top. */
  lemma MiddleRow(sp: seq<Point>, i: int)
    requires |sp| >= 2 && RowsSorted(sp) && 0 <= i
    ensures TopRunFrom(sp, 0) <= i < DeepStart(sp, sp[0].y + 2, |sp|) ==> sp[i].y == sp[0].y + 1
  {
    var h, t := TopRunFrom(sp, 0), DeepStart(sp, sp[0].y + 2, |sp|);
    Runs(sp);
    TopRunMeaning(sp, 0);
    if h <= i < t {
    }
  }

  /**
    The sources are pixels of the top row and the sinks pixels at least two
    rows below it; there are as many of each, no pixel is both, and their
    number is at most `(low_y - high_y) * 0.7`.
   */
  lemma SourceCountMeaning(sp: seq<Point>)
    requires |sp| >= 2 && RowsSorted(sp)
    ensures var s := SourceCount(sp);
            && 0 <= s && 2 * s <= |sp| && s * AdjustDen <= (sp[|sp| - 1].y - sp[0].y) * AdjustNum
            && (forall i :: 0 <= i < s ==> sp[i].y == sp[0].y)
            && (forall i :: |sp| - s <= i < |sp| ==> sp[i].y >= sp[0].y + 2)
  {
    Runs(sp);
  }

  /**
    Where the trimming loop stops, the count is `SourceCount`: the loop
    drops sinks from the row just below the top, and a sorted list has
    those right before the deeper ones.
   */
  lemma SinkTrim(sp: seq<Point>, c0: int, src: int)
    requires |sp| >= 2 && RowsSorted(sp)
    requires var h := TopRunFrom(sp, 0);
             c0 == Min(Min(h, |sp| - h), (sp[|sp| - 1].y - sp[0].y) * AdjustNum / AdjustDen)
    requires 0 <= src <= c0 && (src == 0 || sp[|sp| - src].y != sp[0].y + 1)
    requires forall i :: |sp| - c0 <= i < |sp| - src ==> sp[i].y == sp[0].y + 1
    ensures src == SourceCount(sp)
  {
    var n, high := |sp|, sp[0].y;
    var t := DeepStart(sp, high + 2, n);
    Runs(sp);
    MiddleRow(sp, n - src);
    if src < c0 {
      assert sp[n - src - 1].y == high + 1;
    }
  }

  /** The counting loops of `prepareFlowNetworkOfComponent`, for a list spanning more than two rows. */
  method CountSources(sp: seq<Point>) returns (src: int)
    requires |sp| >= 2 && RowsSorted(sp)
    ensures src == SourceCount(sp)
  {
    var n := |sp|;
    var high, low := sp[0].y, sp[n - 1].y;
    src := 1;
    while src < n && sp[src].y == high
      invariant 1 <= src <= n && TopRunFrom(sp, src) == TopRunFrom(sp, 0)
      decreases n - src
    {
      src := src + 1;
    }
    src := Min(src, n - src);
    src := Min(src, (low - high) * AdjustNum / AdjustDen);
    ghost var c0 := src;
    while src > 0 && sp[n - src].y == high + 1
      invariant 0 <= src <= c0
      invariant forall i :: n - c0 <= i < n - src ==> sp[i].y == high + 1
    {
      src := src - 1;
    }
    SinkTrim(sp, c0, src);
  }

  /** The number of entries `lo <= i < hi` of `sp` whose pixel carries vertex `v`. */
  ghost function VidCount(pv: array2<int>, sp: seq<Point>, lo: int, hi: int, v: int): nat
    reads pv
    requires 0 <= lo && hi <= |sp|
    requires forall i :: lo <= i < hi ==> 0 <= sp[i].x < pv.Length0 && 0 <= sp[i].y < pv.Length1
    decreases hi - lo
  {
    if hi <= lo then 0 else VidCount(pv, sp, lo, hi - 1, v) + (if pv[sp[hi - 1].x, sp[hi - 1].y] == v then 1 else 0)
  }

  /**
    `touchEdge(u, v)` followed by one more unit of capacity on the returned
    edge: the network stays wired within `s`, only `u` and `v` change, and
    the pair gains one unit in the orientation `u` to `v` only.
   */
  lemma TouchAndWiden(vs: seq<Vertex>, idx: EdgeIndex, s: set<int>, u: int, v: int, p: Point)
    requires Wired(vs, idx, s) && u in s && v in s && u != v && (u >= 2 || v >= 2)
    ensures var (vs1, idx1, e) := Touch(vs, idx, u, v);
            && 0 <= e < |vs1[u].edges|
            && var vs2 := Widen(vs1, u, e, p);
               && Wired(vs2, idx1, s) && SameVertices(vs, vs2) && Within(vs, idx, vs2, idx1, s)
               && (forall a, b {:trigger CapOf(vs2, idx1, a, b)} :: a in s && b in s ==>
                     CapOf(vs2, idx1, a, b) == CapOf(vs, idx, a, b) + (if (a, b) == (u, v) then 1 else 0))
  {
    var (vs1, idx1, e) := Touch(vs, idx, u, v);
    TouchLinks(vs, idx, s, u, v);
    WidenCap(vs1, idx1, s, u, e, p);
    var vs2 := Widen(vs1, u, e, p);
    assert forall z :: 0 <= z < |vs| && z != u && z != v ==> vs1[z] == vs[z];
    assert SameVertices(vs, vs2) by {
      forall x | 0 <= x < |vs| ensures vs2[x] == vs[x].(edges := vs2[x].edges) {
        assert vs1[x] == vs[x].(edges := vs1[x].edges);
      }
    }
    forall a, b {:trigger CapOf(vs2, idx1, a, b)} | a in s && b in s
      ensures CapOf(vs2, idx1, a, b) == CapOf(vs, idx, a, b) + (if (a, b) == (u, v) then 1 else 0)
    {
      assert CapOf(vs1, idx1, a, b) == CapOf(vs, idx, a, b);
    }
  }

  lemma SameVerticesTrans(a: seq<Vertex>, b: seq<Vertex>, c: seq<Vertex>)
    requires SameVertices(a, b) && SameVertices(b, c)
    ensures SameVertices(a, c)
  {
    forall x | 0 <= x < |a| ensures c[x] == a[x].(edges := c[x].edges) {
      assert b[x] == a[x].(edges := b[x].edges);
    }
  }

  /** Every entry of `sp` lies in `pv` and carries a region vertex of `s`. */
  ghost predicate Feeds(pv: array2<int>, sp: seq<Point>, s: set<int>)
    reads pv
  {
    forall i :: 0 <= i < |sp| ==>
      && 0 <= sp[i].x < pv.Length0 && 0 <= sp[i].y < pv.Length1
      && pv[sp[i].x, sp[i].y] in s && pv[sp[i].x, sp[i].y] >= 2
  }

  /**
    The network `vs`, `idx` is `vs0`, `idx0` with the edges from the source
    to the vertices of the first `i` pixels of `sp` widened, one unit per pixel.
   */
  ghost predicate SourcesAt(vs0: seq<Vertex>, idx0: EdgeIndex, vs: seq<Vertex>, idx: EdgeIndex, s: set<int>,
                            pv: array2<int>, sp: seq<Point>, i: int)
    reads pv
  {
    && 0 <= i <= |sp| && Feeds(pv, sp, s) && SourceVid in s
    && Wired(vs, idx, s) && SameVertices(vs0, vs) && Within(vs0, idx0, vs, idx, s)
    && forall a, b {:trigger CapOf(vs, idx, a, b)} :: a in s && b in s ==>
         CapOf(vs, idx, a, b) == CapOf(vs0, idx0, a, b) + (if a == SourceVid then VidCount(pv, sp, 0, i, b) else 0)
  }

  /**
    The network `vs`, `idx` is `vs0`, `idx0` with the edges to the sink from
    the vertices of the pixels `lo <= j < i` of `sp` widened, one unit per pixel.
   */
  ghost predicate SinksAt(vs0: seq<Vertex>, idx0: EdgeIndex, vs: seq<Vertex>, idx: EdgeIndex, s: set<int>,
                          pv: array2<int>, sp: seq<Point>, lo: int, i: int)
    reads pv
  {
    && 0 <= lo <= i <= |sp| && Feeds(pv, sp, s) && SinkVid in s
    && Wired(vs, idx, s) && SameVertices(vs0, vs) && Within(vs0, idx0, vs, idx, s)
    && forall a, b {:trigger CapOf(vs, idx, a, b)} :: a in s && b in s ==>
         CapOf(vs, idx, a, b) == CapOf(vs0, idx0, a, b) + (if b == SinkVid then VidCount(pv, sp, lo, i, a) else 0)
  }

  lemma SourcesBegin(vs: seq<Vertex>, idx: EdgeIndex, s: set<int>, pv: array2<int>, sp: seq<Point>)
    requires Feeds(pv, sp, s) && SourceVid in s && Wired(vs, idx, s)
    ensures SourcesAt(vs, idx, vs, idx, s, pv, sp, 0)
  {
    forall b ensures VidCount(pv, sp, 0, 0, b) == 0 { }
  }

  lemma SinksBegin(vs: seq<Vertex>, idx: EdgeIndex, s: set<int>, pv: array2<int>, sp: seq<Point>, lo: int)
    requires Feeds(pv, sp, s) && SinkVid in s && Wired(vs, idx, s) && 0 <= lo <= |sp|
    ensures SinksAt(vs, idx, vs, idx, s, pv, sp, lo, lo)
  {
    forall a ensures VidCount(pv, sp, lo, lo, a) == 0 { }
  }

  /** One turn of "Connect source": `touchEdge(source_vid, v)`, then one more unit on that edge. */
  lemma SourceStep(vs0: seq<Vertex>, idx0: EdgeIndex, vs: seq<Vertex>, idx: EdgeIndex, s: set<int>,
                   pv: array2<int>, sp: seq<Point>, i: int, vs1: seq<Vertex>, idx1: EdgeIndex, e: int)
    requires SourcesAt(vs0, idx0, vs, idx, s, pv, sp, i) && i < |sp|
    requires var p := sp[i]; (vs1, idx1, e) == Touch(vs, idx, SourceVid, pv[p.x, p.y])
    ensures 0 <= e < |vs1[SourceVid].edges| && SourcesAt(vs0, idx0, Widen(vs1, SourceVid, e, sp[i]), idx1, s, pv, sp, i + 1)
  {
    var p := sp[i];
    var v := pv[p.x, p.y];
    TouchAndWiden(vs, idx, s, SourceVid, v, p);
    var vs2 := Widen(vs1, SourceVid, e, p);
    WithinTrans(vs0, idx0, vs, idx, vs2, idx1, s);
    SameVerticesTrans(vs0, vs, vs2);
    forall a, b {:trigger CapOf(vs2, idx1, a, b)} | a in s && b in s
      ensures CapOf(vs2, idx1, a, b) == CapOf(vs0, idx0, a, b) + (if a == SourceVid then VidCount(pv, sp, 0, i + 1, b) else 0)
    {
      assert CapOf(vs, idx, a, b) == CapOf(vs0, idx0, a, b) + (if a == SourceVid then VidCount(pv, sp, 0, i, b) else 0);
    }
  }

  /** One turn of "Connect sink": `touchEdge(v, sink_vid)`, then one more unit on that edge. */
  lemma SinkStep(vs0: seq<Vertex>, idx0: EdgeIndex, vs: seq<Vertex>, idx: EdgeIndex, s: set<int>,
                 pv: array2<int>, sp: seq<Point>, lo: int, i: int, v: int, vs1: seq<Vertex>, idx1: EdgeIndex, e: int)
    requires SinksAt(vs0, idx0, vs, idx, s, pv, sp, lo, i) && i < |sp| && v == pv[sp[i].x, sp[i].y]
    requires (vs1, idx1, e) == Touch(vs, idx, v, SinkVid)
    ensures 0 <= v < |vs1| && 0 <= e < |vs1[v].edges|
    ensures SinksAt(vs0, idx0, Widen(vs1, v, e, Point(sp[i].x, sp[i].y - 1)), idx1, s, pv, sp, lo, i + 1)
  {
    var p := sp[i];
    TouchAndWiden(vs, idx, s, v, SinkVid, Point(p.x, p.y - 1));
    var vs2 := Widen(vs1, v, e, Point(p.x, p.y - 1));
    WithinTrans(vs0, idx0, vs, idx, vs2, idx1, s);
    SameVerticesTrans(vs0, vs, vs2);
    assert Wired(vs2, idx1, s);
    forall a, b {:trigger CapOf(vs2, idx1, a, b)} | a in s && b in s
      ensures CapOf(vs2, idx1, a, b) == CapOf(vs0, idx0, a, b) + (if b == SinkVid then VidCount(pv, sp, lo, i + 1, a) else 0)
    {
      assert CapOf(vs, idx, a, b) == CapOf(vs0, idx0, a, b) + (if b == SinkVid then VidCount(pv, sp, lo, i, a) else 0);
    }
  }

  /** The loop "Connect source": one unit from the source to the vertex of each of the first `src` pixels. */
  method ConnectSources(ctx: AnalysisContext, sp: seq<Point>, src: int, ghost s: set<int>)
    requires 0 <= src <= |sp| && Feeds(ctx.pixelVid, sp, s) && SourceVid in s
    requires Wired(ctx.vertices, ctx.edgeIdx, s)
    modifies ctx
    ensures SourcesAt(old(ctx.vertices), old(ctx.edgeIdx), ctx.vertices, ctx.edgeIdx, s, ctx.pixelVid, sp, src)
    ensures ctx.components == old(ctx.components)
  {
    ghost var vs0, idx0 := ctx.vertices, ctx.edgeIdx;
    SourcesBegin(vs0, idx0, s, ctx.pixelVid, sp);
    var i := 0;
    while i < src
      invariant i <= src && SourcesAt(vs0, idx0, ctx.vertices, ctx.edgeIdx, s, ctx.pixelVid, sp, i)
      invariant ctx.components == old(ctx.components)
    {
      var p := sp[i];
      var v := ctx.pixelVid[p.x, p.y];
      ghost var vs, idx := ctx.vertices, ctx.edgeIdx;
      var eid := ctx.TouchEdge(SourceVid, v);
      SourceStep(vs0, idx0, vs, idx, s, ctx.pixelVid, sp, i, ctx.vertices, ctx.edgeIdx, eid);
      ctx.vertices := Widen(ctx.vertices, SourceVid, eid, p);
      i := i + 1;
    }
  }

  /**
    The loop "Connect sink": one unit from the vertex of each of the last
    `src` pixels to the sink; the edge's surface pixel is the air cell above.
   */
  method ConnectSinks(ctx: AnalysisContext, sp: seq<Point>, src: int, ghost s: set<int>)
    requires 0 <= src <= |sp| && Feeds(ctx.pixelVid, sp, s) && SinkVid in s
    requires Wired(ctx.vertices, ctx.edgeIdx, s)
    modifies ctx
    ensures SinksAt(old(ctx.vertices), old(ctx.edgeIdx), ctx.vertices, ctx.edgeIdx, s, ctx.pixelVid, sp, |sp| - src, |sp|)
    ensures ctx.components == old(ctx.components)
  {
    ghost var vs0, idx0 := ctx.vertices, ctx.edgeIdx;
    var n := |sp|;
    var i := n - src;
    ghost var lo := i;
    SinksBegin(vs0, idx0, s, ctx.pixelVid, sp, lo);
    while i < n
      invariant i <= n && SinksAt(vs0, idx0, ctx.vertices, ctx.edgeIdx, s, ctx.pixelVid, sp, lo, i)
      invariant ctx.components == old(ctx.components)
    {
      var p := sp[i];
      var v := ctx.pixelVid[p.x, p.y];
      ghost var vs, idx := ctx.vertices, ctx.edgeIdx;
      var eid := ctx.TouchEdge(v, SinkVid);
      SinkStep(vs0, idx0, vs, idx, s, ctx.pixelVid, sp, lo, i, v, ctx.vertices, ctx.edgeIdx, eid);
      ctx.vertices := Widen(ctx.vertices, v, eid, Point(p.x, p.y - 1));
      i := i + 1;
    }
  }

  /**
    `vs`, `idx` is `vs0`, `idx0` with the flow network of a component set
    up: the first `c` pixels of `sp` feed the source edges and the last `c`
    the sink edges, one unit of capacity per pixel, and nothing outside `s`
    changes.
   */
  ghost predicate Prepared(vs0: seq<Vertex>, idx0: EdgeIndex, vs: seq<Vertex>, idx: EdgeIndex, s: set<int>,
                           pv: array2<int>, sp: seq<Point>, c: int)
    reads pv
  {
    && 0 <= c <= |sp| && Feeds(pv, sp, s)
    && Wired(vs, idx, s) && SameVertices(vs0, vs) && Within(vs0, idx0, vs, idx, s)
    && forall a, b {:trigger CapOf(vs, idx, a, b)} :: a in s && b in s ==>
         CapOf(vs, idx, a, b) == CapOf(vs0, idx0, a, b)
           + (if a == SourceVid then VidCount(pv, sp, 0, c, b) else 0)
           + (if b == SinkVid then VidCount(pv, sp, |sp| - c, |sp|, a) else 0)
  }

  lemma PreparedFrom(vs0: seq<Vertex>, idx0: EdgeIndex, vs1: seq<Vertex>, idx1: EdgeIndex, vs2: seq<Vertex>, idx2: EdgeIndex,
                     s: set<int>, pv: array2<int>, sp: seq<Point>, c: int)
    requires SourcesAt(vs0, idx0, vs1, idx1, s, pv, sp, c) && c <= |sp|
    requires SinksAt(vs1, idx1, vs2, idx2, s, pv, sp, |sp| - c, |sp|)
    ensures Prepared(vs0, idx0, vs2, idx2, s, pv, sp, c)
  {
    WithinTrans(vs0, idx0, vs1, idx1, vs2, idx2, s);
    SameVerticesTrans(vs0, vs1, vs2);
    forall a, b {:trigger CapOf(vs2, idx2, a, b)} | a in s && b in s
      ensures CapOf(vs2, idx2, a, b) == CapOf(vs0, idx0, a, b)
                + (if a == SourceVid then VidCount(pv, sp, 0, c, b) else 0)
                + (if b == SinkVid then VidCount(pv, sp, |sp| - c, |sp|, a) else 0)
    {
      assert CapOf(vs1, idx1, a, b) == CapOf(vs0, idx0, a, b) + (if a == SourceVid then VidCount(pv, sp, 0, c, b) else 0);
    }
  }

  /** The vertices of a component together with the source and the sink. */
  ghost function CompSet(ids: seq<int>): (s: set<int>)
    ensures SourceVid in s && SinkVid in s && forall k :: 0 <= k < |ids| ==> ids[k] in s
  {
    (set z | z in ids) + {SourceVid, SinkVid}
  }

  lemma OwnedFeeds(pv: array2<int>, ids: seq<int>, n: int, sp: seq<Point>)
    requires Owned(pv, ids, sp) && RegionIds(ids, n)
    ensures Feeds(pv, sp, CompSet(ids))
  {
    forall i | 0 <= i < |sp| ensures pv[sp[i].x, sp[i].y] in CompSet(ids) && pv[sp[i].x, sp[i].y] >= 2 {
      var k :| 0 <= k < |ids| && ids[k] == pv[sp[i].x, sp[i].y];
    }
  }

  /** The loop that merges the air surfaces of a component's vertices. */
  method MergeAir(vs: seq<Vertex>, ids: seq<int>) returns (m: seq<Point>)
    requires forall k :: 0 <= k < |ids| ==> 0 <= ids[k] < |vs|
    ensures m == MergedAir(vs, ids)
  {
    m := [];
    var k := 0;
    while k < |ids|
      invariant 0 <= k <= |ids| && m == MergedAir(vs, ids[..k])
    {
      assert ids[..k + 1][..k] == ids[..k];
      m := m + vs[ids[k]].air;
      k := k + 1;
    }
    assert ids[..|ids|] == ids;
  }

  /** A pixel is merged exactly when it is on the air surface of one of the vertices. */
  lemma {:induction false} MergedMeaning(vs: seq<Vertex>, ids: seq<int>, p: Point)
    requires forall k :: 0 <= k < |ids| ==> 0 <= ids[k] < |vs|
    ensures p in MergedAir(vs, ids) <==> exists k :: 0 <= k < |ids| && p in vs[ids[k]].air
    decreases |ids|
  {
    if ids != [] {
      var init := ids[..|ids| - 1];
      MergedMeaning(vs, init, p);
      if p in MergedAir(vs, init) {
        var k :| 0 <= k < |init| && p in vs[init[k]].air;
        assert ids[k] == init[k];
      }
      if exists k :: 0 <= k < |ids| && p in vs[ids[k]].air {
        var k :| 0 <= k < |ids| && p in vs[ids[k]].air;
        if k < |init| {
          assert init[k] == ids[k];
        }
      }
    }
  }

  /** The sorted, shuffled air surface of a component. */
  function ComponentSurface(vs: seq<Vertex>, ids: seq<int>, c: int, rank: (int, int) -> int): (sp: seq<Point>)
    requires forall k :: 0 <= k < |ids| ==> 0 <= ids[k] < |vs|
  {
    SortSurface(MergedAir(vs, ids), c, rank)
  }

  /** The conditions under which `prepareFlowNetworkOfComponent` builds a network instead of returning false. */
  predicate Preparable(sp: seq<Point>)
  {
    |sp| >= 2 && sp[|sp| - 1].y > sp[0].y + 1 && SourceCount(sp) > 0
  }

  /** The two connecting loops of `prepareFlowNetworkOfComponent`. */
  method ConnectBoth(ctx: AnalysisContext, sp: seq<Point>, src: int, ghost s: set<int>)
    requires 0 <= src <= |sp| && Feeds(ctx.pixelVid, sp, s) && SourceVid in s && SinkVid in s
    requires Wired(ctx.vertices, ctx.edgeIdx, s)
    modifies ctx
    ensures Prepared(old(ctx.vertices), old(ctx.edgeIdx), ctx.vertices, ctx.edgeIdx, s, ctx.pixelVid, sp, src)
    ensures ctx.components == old(ctx.components)
  {
    ghost var vs0, idx0 := ctx.vertices, ctx.edgeIdx;
    ConnectSources(ctx, sp, src, s);
    ghost var vs1, idx1 := ctx.vertices, ctx.edgeIdx;
    ConnectSinks(ctx, sp, src, s);
    PreparedFrom(vs0, idx0, vs1, idx1, ctx.vertices, ctx.edgeIdx, s, ctx.pixelVid, sp, src);
  }

  /** The air surface pixels of a component carry its vertices. */
  lemma SurfaceFeeds(vs: seq<Vertex>, pv: array2<int>, ids: seq<int>, sp: seq<Point>, c: int, rank: (int, int) -> int)
    requires RegionIds(ids, |vs|) && OwnsAir(vs, pv, ids) && sp == ComponentSurface(vs, ids, c, rank)
    ensures Feeds(pv, sp, CompSet(ids))
  {
    MergedOwned(vs, pv, ids, |ids|);
    assert ids[..|ids|] == ids;
    SortedOwned(pv, ids, MergedAir(vs, ids), c, rank);
    OwnedFeeds(pv, ids, |vs|, sp);
  }

  /** `prepareFlowNetworkOfComponent` after its early returns: the connecting loops, then the two vertices appended to the component. */
  method ConnectComponent(ctx: AnalysisContext, cid: int, sp: seq<Point>, src: int, ghost rank: (int, int) -> int)
    requires 0 <= cid < |ctx.components| && RegionIds(ctx.components[cid], |ctx.vertices|)
    requires Wired(ctx.vertices, ctx.edgeIdx, CompSet(ctx.components[cid]))
    requires OwnsAir(ctx.vertices, ctx.pixelVid, ctx.components[cid])
    requires sp == ComponentSurface(ctx.vertices, ctx.components[cid], cid, rank) && 0 <= src <= |sp|
    modifies ctx
    ensures Prepared(old(ctx.vertices), old(ctx.edgeIdx), ctx.vertices, ctx.edgeIdx, CompSet(old(ctx.components[cid])), ctx.pixelVid, sp, src)
    ensures ctx.components == old(ctx.components)[cid := old(ctx.components[cid]) + [SourceVid, SinkVid]]
  {
    var ids := ctx.components[cid];
    SurfaceFeeds(ctx.vertices, ctx.pixelVid, ids, sp, cid, rank);
    ConnectBoth(ctx, sp, src, CompSet(ids));
    ctx.components := ctx.components[cid := ids + [SourceVid, SinkVid]];
  }

  /**
    `prepareFlowNetworkOfComponent`: fails, changing nothing, when the
    component has fewer than two air surface pixels, when they span at most
    two rows, or when no source is left; otherwise connects the source and
    the sink and appends them to the component's vertex list.
   */
  method PrepareComponent(ctx: AnalysisContext, cid: int, rank: (int, int) -> int) returns (ok: bool)
    requires 0 <= cid < |ctx.components| && RegionIds(ctx.components[cid], |ctx.vertices|)
    requires Wired(ctx.vertices, ctx.edgeIdx, CompSet(ctx.components[cid]))
    requires OwnsAir(ctx.vertices, ctx.pixelVid, ctx.components[cid])
    modifies ctx
    ensures var sp := ComponentSurface(old(ctx.vertices), old(ctx.components[cid]), cid, rank);
            && (ok <==> Preparable(sp))
            && (!ok ==> ctx.vertices == old(ctx.vertices) && ctx.edgeIdx == old(ctx.edgeIdx) && ctx.components == old(ctx.components))
            && (ok ==> Prepared(old(ctx.vertices), old(ctx.edgeIdx), ctx.vertices, ctx.edgeIdx, CompSet(old(ctx.components[cid])),
                                ctx.pixelVid, sp, SourceCount(sp)))
            && (ok ==> ctx.components == old(ctx.components)[cid := old(ctx.components[cid]) + [SourceVid, SinkVid]])
  {
    var ids := ctx.components[cid];
    ghost var s := CompSet(ids);
    var merged := MergeAir(ctx.vertices, ids);
    if |merged| < 2 {
      return false;
    }
    var sp := SortSurface(merged, cid, rank);
    SortSurfaceMeaning(merged, cid, rank);
    var n := |sp|;
    var high, low := sp[0].y, sp[n - 1].y;
    if low <= high + 1 {
      return false;
    }
    var src := CountSources(sp);
    if src == 0 {
      return false;
    }
    ConnectComponent(ctx, cid, sp, src, rank);
    ok := true;
  }
}
