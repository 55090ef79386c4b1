// `buildNetwork` of src/fallsand/fluidflow.cpp after the labelling: every
// vertical pair of pixels whose vertices differ adds one unit of capacity
// between the two vertices, in both orientations, and every labelled pixel
// with air (or the top border) above it joins its vertex's air surface.
// The capacity between two vertices is specified by `VerticalJoins`, the
// number of such pixel pairs, counted row by row as the loop meets them.
module FlowBuild {
  import opened Base
  import opened Pixels
  import opened Grids
  import opened FluidLabels
  import opened FlowNetwork
  import opened FlowRegions

  /** The vertex ids `0` up to `n`. */
  ghost function Ids(n: int): (r: set<int>)
    ensures forall x :: x in r <==> 0 <= x < n
    decreases n
  {
    if n <= 0 then {} else Ids(n - 1) + {n - 1}
  }

  /** The upper pixel labelled `s` and the lower one `t` join two different vertices `u` and `v`, either way up. */
  predicate JoinsPair(s: int, t: int, u: int, v: int)
  {
    s != -1 && t != -1 && s != t && ((s == u && t == v) || (s == v && t == u))
  }

  /**
    The number of vertical pixel pairs joining `u` and `v` in `a`, among the
    rows above `y` and, in row `y`, the columns before `x`.
   */
  ghost function PairCount(a: array2<int>, u: int, v: int, y: int, x: int): nat
    reads a
    requires 0 <= y < a.Length1 && 0 <= x <= a.Length0 && (x > 0 ==> y + 1 < a.Length1)
    decreases y, x
  {
    if x > 0 then PairCount(a, u, v, y, x - 1) + (if JoinsPair(a[x - 1, y], a[x - 1, y + 1], u, v) then 1 else 0)
    else if y > 0 then PairCount(a, u, v, y - 1, a.Length0)
    else 0
  }

  /** The number of vertically adjacent pixel pairs, one labelled `u` and the other `v`, with `u != v`. */
  ghost function VerticalJoins(a: array2<int>, u: int, v: int): nat
    reads a
  {
    if a.Length1 == 0 then 0 else PairCount(a, u, v, a.Length1 - 1, 0)
  }

  /** The count does not depend on which of the two vertices is named first. */
  lemma {:induction false} PairCountSymmetric(a: array2<int>, u: int, v: int, y: int, x: int)
    requires 0 <= y < a.Length1 && 0 <= x <= a.Length0 && (x > 0 ==> y + 1 < a.Length1)
    ensures PairCount(a, u, v, y, x) == PairCount(a, v, u, y, x)
    decreases y, x
  {
    if x > 0 {
      PairCountSymmetric(a, u, v, y, x - 1);
    } else if y > 0 {
      PairCountSymmetric(a, u, v, y - 1, a.Length0);
    }
  }

  /** No pair joins a vertex with itself, or with a vertex no pixel carries. */
  lemma {:induction false} PairCountZero(a: array2<int>, u: int, v: int, y: int, x: int)
    requires 0 <= y < a.Length1 && 0 <= x <= a.Length0 && (x > 0 ==> y + 1 < a.Length1)
    requires u == v || u == -1 || forall c, d :: 0 <= c < a.Length0 && 0 <= d < a.Length1 ==> a[c, d] != u
    ensures PairCount(a, u, v, y, x) == 0
    decreases y, x
  {
    if x > 0 {
      PairCountZero(a, u, v, y, x - 1);
    } else if y > 0 {
      PairCountZero(a, u, v, y - 1, a.Length0);
    }
  }

  /** Capacities are symmetric, and zero for a vertex with itself or with one no pixel carries. */
  lemma VerticalJoinsProps(a: array2<int>, u: int, v: int)
    ensures VerticalJoins(a, u, v) == VerticalJoins(a, v, u)
    ensures u == v || u == -1 || (forall c, d :: 0 <= c < a.Length0 && 0 <= d < a.Length1 ==> a[c, d] != u)
            ==> VerticalJoins(a, u, v) == 0
  {
    if a.Length1 > 0 {
      PairCountSymmetric(a, u, v, a.Length1 - 1, 0);
      if u == v || u == -1 || (forall c, d :: 0 <= c < a.Length0 && 0 <= d < a.Length1 ==> a[c, d] != u) {
        PairCountZero(a, u, v, a.Length1 - 1, 0);
      }
    }
  }

  /** Every pixel carries -1 or a region vertex `2 <= x < n`. */
  ghost predicate Labels(a: array2<int>, n: int)
    reads a
  {
    forall c, d :: 0 <= c < a.Length0 && 0 <= d < a.Length1 ==> a[c, d] == -1 || 2 <= a[c, d] < n
  }

  /**
    The edge loop's invariant after the pairs `PairCount` covers at `(x, y)`:
    the network is wired, only region vertices are indexed, and each pair's
    capacity is its count, indexed exactly when it is positive.
   */
  ghost predicate Counted(vs: seq<Vertex>, idx: EdgeIndex, a: array2<int>, y: int, x: int)
    reads a
    requires 0 <= y < a.Length1 && 0 <= x <= a.Length0 && (x > 0 ==> y + 1 < a.Length1)
  {
    Wired(vs, idx, Ids(|vs|)) && Tallied(vs, idx, a, y, x)
  }

  /**
    `touchEdge` followed by `incFlow` on a pair of region vertices: the
    network stays wired, only the vertices' edge lists change, and the pair
    gains one unit of capacity in both orientations.
   */
  lemma TouchThenWiden(vs: seq<Vertex>, idx: EdgeIndex, s: set<int>, u: int, v: int, x: int, y: int, vs1: seq<Vertex>, idx1: EdgeIndex)
    requires forall z {:trigger z in s} :: z in s <==> 0 <= z < |vs|
    requires Wired(vs, idx, s) && 0 <= u < |vs| && 0 <= v < |vs| && u != v
    requires vs1 == Touch(vs, idx, u, v).0 && idx1 == Touch(vs, idx, u, v).1
    ensures HasEdge(vs1, idx1, u, v)
    ensures var vs2 := IncFlowNet(vs1, idx1, u, v, x, y);
            && Wired(vs2, idx1, s) && SameVertices(vs, vs2)
            && (forall k :: k in idx1 <==> k in idx || k == (u, v) || k == (v, u))
            && (forall a, b {:trigger CapOf(vs2, idx1, a, b)} :: 0 <= a < |vs| && 0 <= b < |vs| ==>
                  CapOf(vs2, idx1, a, b) == CapOf(vs, idx, a, b) + (if (a, b) == (u, v) || (a, b) == (v, u) then 1 else 0))
  {
    TouchLinks(vs, idx, s, u, v);
    IncFlowWidens(vs1, idx1, s, u, v, x, y);
    var vs2 := IncFlowNet(vs1, idx1, u, v, x, y);
    forall a, b {:trigger CapOf(vs2, idx1, a, b)} | 0 <= a < |vs| && 0 <= b < |vs|
      ensures CapOf(vs2, idx1, a, b) == CapOf(vs, idx, a, b) + (if (a, b) == (u, v) || (a, b) == (v, u) then 1 else 0)
    {
      assert a in s && b in s;
      assert CapOf(vs1, idx1, a, b) == CapOf(vs, idx, a, b);
    }
  }

  /** The counting part of `Counted`: only region vertices are indexed, and each pair's capacity is its count. */
  ghost predicate Tallied(vs: seq<Vertex>, idx: EdgeIndex, a: array2<int>, y: int, x: int)
    reads a
    requires 0 <= y < a.Length1 && 0 <= x <= a.Length0 && (x > 0 ==> y + 1 < a.Length1)
  {
    && (forall k {:trigger k in idx} :: k in idx ==> 2 <= k.0 < |vs| && 2 <= k.1 < |vs|)
    && (forall u, v {:trigger CapOf(vs, idx, u, v)} :: 0 <= u < |vs| && 0 <= v < |vs| ==>
          CapOf(vs, idx, u, v) == PairCount(a, u, v, y, x) && ((u, v) in idx <==> PairCount(a, u, v, y, x) > 0))
  }

  /** The counting step of the edge loop, on values. */
  lemma CountStep(vs: seq<Vertex>, idx: EdgeIndex, a: array2<int>, x: int, y: int, vs2: seq<Vertex>, idx1: EdgeIndex)
    requires 0 <= x < a.Length0 && 0 <= y && y + 1 < a.Length1
    requires Tallied(vs, idx, a, y, x) && |vs2| == |vs|
    requires var u, v := a[x, y], a[x, y + 1];
             && u != -1 && v != -1 && u != v && 2 <= u < |vs| && 2 <= v < |vs|
             && (forall k :: k in idx1 <==> k in idx || k == (u, v) || k == (v, u))
             && (forall c, d {:trigger CapOf(vs2, idx1, c, d)} :: 0 <= c < |vs| && 0 <= d < |vs| ==>
                   CapOf(vs2, idx1, c, d) == CapOf(vs, idx, c, d) + (if (c, d) == (u, v) || (c, d) == (v, u) then 1 else 0))
    ensures Tallied(vs2, idx1, a, y, x + 1)
  {
    forall c, d {:trigger CapOf(vs2, idx1, c, d)} | 0 <= c < |vs2| && 0 <= d < |vs2|
      ensures && CapOf(vs2, idx1, c, d) == PairCount(a, c, d, y, x + 1)
              && ((c, d) in idx1 <==> PairCount(a, c, d, y, x + 1) > 0)
    {
      assert CapOf(vs, idx, c, d) == PairCount(a, c, d, y, x);
      var u, v := a[x, y], a[x, y + 1];
      assert JoinsPair(u, v, c, d) <==> (c, d) == (u, v) || (c, d) == (v, u);
      assert PairCount(a, c, d, y, x + 1) == PairCount(a, c, d, y, x) + (if JoinsPair(u, v, c, d) then 1 else 0);
    }
  }

  /** A pair that joins no two vertices leaves every count as it was. */
  lemma CountSkip(vs: seq<Vertex>, idx: EdgeIndex, a: array2<int>, x: int, y: int)
    requires 0 <= x < a.Length0 && 0 <= y && y + 1 < a.Length1
    requires a[x, y] == -1 || a[x, y + 1] == -1 || a[x, y] == a[x, y + 1]
    requires Tallied(vs, idx, a, y, x)
    ensures Tallied(vs, idx, a, y, x + 1)
  {
    forall c, d {:trigger CapOf(vs, idx, c, d)} | 0 <= c < |vs| && 0 <= d < |vs|
      ensures PairCount(a, c, d, y, x + 1) == PairCount(a, c, d, y, x)
    {
    }
  }

  /** One pixel pair of the edge loop: `(x, y)` above `(x, y + 1)`. */
  method JoinPair(ctx: AnalysisContext, x: int, y: int)
    requires 0 <= x < ctx.pixelVid.Length0 && 0 <= y && y + 1 < ctx.pixelVid.Length1
    requires Labels(ctx.pixelVid, |ctx.vertices|) && Counted(ctx.vertices, ctx.edgeIdx, ctx.pixelVid, y, x)
    modifies ctx
    ensures SameVertices(old(ctx.vertices), ctx.vertices) && ctx.components == old(ctx.components)
    ensures Counted(ctx.vertices, ctx.edgeIdx, ctx.pixelVid, y, x + 1)
  {
    var a := ctx.pixelVid;
    var u := a[x, y];
    var v := a[x, y + 1];
    if u == -1 || v == -1 || u == v {
      CountSkip(ctx.vertices, ctx.edgeIdx, a, x, y);
      return;
    }
    ghost var vs0, idx0 := ctx.vertices, ctx.edgeIdx;
    var _ := ctx.TouchEdge(u, v);
    TouchThenWiden(vs0, idx0, Ids(|vs0|), u, v, x, y, ctx.vertices, ctx.edgeIdx);
    ctx.IncFlow(u, v, x, y);
    CountStep(vs0, idx0, a, x, y, ctx.vertices, ctx.edgeIdx);
  }

  /** A list of vertices without edges. */
  predicate NoEdges(vs: seq<Vertex>)
  {
    forall x :: 0 <= x < |vs| ==> vs[x].edges == []
  }

  /** Vertices without edges and an empty index are the count before any pair. */
  lemma CountedStart(vs: seq<Vertex>, a: array2<int>)
    requires NoEdges(vs) && 0 < a.Length1
    ensures Counted(vs, map[], a, 0, 0)
  {
    forall u, v | 0 <= u < |vs| && 0 <= v < |vs| ensures CapOf(vs, map[], u, v) == PairCount(a, u, v, 0, 0) { }
  }

  /** Vertices without edges and an empty index are a wired network without capacity. */
  lemma EmptyNetwork(vs: seq<Vertex>)
    requires NoEdges(vs)
    ensures Wired(vs, map[], Ids(|vs|))
    ensures forall u, v {:trigger CapOf(vs, map[], u, v)} :: 0 <= u < |vs| && 0 <= v < |vs| ==> CapOf(vs, map[], u, v) == 0
  {
  }

  /**
    The edge loop of `buildNetwork`: for every pixel with a pixel below it,
    row by row, a pair of different vertices is touched and widened. The
    capacity between any two vertices ends as the number of vertical pixel
    pairs joining them, and exactly the pairs with a positive count are
    indexed, all of them between region vertices.
   */
  method ConnectRegions(ctx: AnalysisContext)
    requires Labels(ctx.pixelVid, |ctx.vertices|) && NoEdges(ctx.vertices) && ctx.edgeIdx == map[]
    modifies ctx
    ensures SameVertices(old(ctx.vertices), ctx.vertices) && ctx.components == old(ctx.components)
    ensures Wired(ctx.vertices, ctx.edgeIdx, Ids(|ctx.vertices|))
    ensures forall k {:trigger k in ctx.edgeIdx} :: k in ctx.edgeIdx ==> 2 <= k.0 < |ctx.vertices| && 2 <= k.1 < |ctx.vertices|
    ensures forall u, v {:trigger CapOf(ctx.vertices, ctx.edgeIdx, u, v)} :: 0 <= u < |ctx.vertices| && 0 <= v < |ctx.vertices| ==>
              CapOf(ctx.vertices, ctx.edgeIdx, u, v) == VerticalJoins(ctx.pixelVid, u, v) &&
              ((u, v) in ctx.edgeIdx <==> VerticalJoins(ctx.pixelVid, u, v) > 0)
  {
    var a := ctx.pixelVid;
    var w, h := a.Length0, a.Length1;
    if h == 0 {
      EmptyNetwork(ctx.vertices);
      return;
    }
    CountedStart(ctx.vertices, a);
    var y := 0;
    while y < h - 1
      invariant 0 <= y < h
      invariant SameVertices(old(ctx.vertices), ctx.vertices) && ctx.components == old(ctx.components)
      invariant Counted(ctx.vertices, ctx.edgeIdx, a, y, 0)
    {
      var x := 0;
      while x < w
        invariant 0 <= x <= w
        invariant SameVertices(old(ctx.vertices), ctx.vertices) && ctx.components == old(ctx.components)
        invariant Counted(ctx.vertices, ctx.edgeIdx, a, y, x)
      {
        JoinPair(ctx, x, y);
        x := x + 1;
      }
      assert Counted(ctx.vertices, ctx.edgeIdx, a, y + 1, 0) by { NextRow(ctx.vertices, ctx.edgeIdx, a, y); }
      y := y + 1;
    }
    CountedAll(ctx.vertices, ctx.edgeIdx, a);
  }

  /** The count after the last row is `VerticalJoins`. */
  lemma CountedAll(vs: seq<Vertex>, idx: EdgeIndex, a: array2<int>)
    requires 0 < a.Length1 && Counted(vs, idx, a, a.Length1 - 1, 0)
    ensures forall u, v {:trigger CapOf(vs, idx, u, v)} :: 0 <= u < |vs| && 0 <= v < |vs| ==>
              CapOf(vs, idx, u, v) == VerticalJoins(a, u, v) && ((u, v) in idx <==> VerticalJoins(a, u, v) > 0)
  {
    forall u, v {:trigger CapOf(vs, idx, u, v)} | 0 <= u < |vs| && 0 <= v < |vs|
      ensures CapOf(vs, idx, u, v) == VerticalJoins(a, u, v) && ((u, v) in idx <==> VerticalJoins(a, u, v) > 0)
    {
      assert VerticalJoins(a, u, v) == PairCount(a, u, v, a.Length1 - 1, 0);
      assert CapOf(vs, idx, u, v) == PairCount(a, u, v, a.Length1 - 1, 0);
    }
  }

  /** The count at the end of a row is the count at the start of the next. */
  lemma NextRow(vs: seq<Vertex>, idx: EdgeIndex, a: array2<int>, y: int)
    requires 0 <= y && y + 1 < a.Length1 && Counted(vs, idx, a, y, a.Length0)
    ensures Counted(vs, idx, a, y + 1, 0)
  {
    forall u, v | 0 <= u < |vs| && 0 <= v < |vs| ensures PairCount(a, u, v, y + 1, 0) == PairCount(a, u, v, y, a.Length0) { }
  }

  /** Pixel `p` of vertex `z` has air, or the top border, above it. */
  ghost predicate IsAirSurface(g: Grid, a: array2<int>, z: int, p: Point)
    reads a
    requires g.Valid() && a.Length0 == g.width && a.Length1 == g.height
  {
    && g.InBounds(p.x, p.y) && a[p.x, p.y] == z
    && (p.y == 0 || g.TagAt(p.x, p.y - 1).kind == Air)
  }

  /** The air surface pixels of `z` in scan order, over the rows above `y` and, in row `y`, the columns before `x`. */
  ghost function AirScan(g: Grid, a: array2<int>, z: int, y: int, x: int): seq<Point>
    reads a
    requires g.Valid() && a.Length0 == g.width && a.Length1 == g.height
    requires 0 <= y < g.height && 0 <= x <= g.width
    decreases y, x
  {
    if x > 0 then AirScan(g, a, z, y, x - 1) + (if IsAirSurface(g, a, z, Point(x - 1, y)) then [Point(x - 1, y)] else [])
    else if y > 0 then AirScan(g, a, z, y - 1, g.width)
    else []
  }

  /** The whole scan: every air surface pixel of `z`, in scan order. */
  ghost function AirSurface(g: Grid, a: array2<int>, z: int): seq<Point>
    reads a
    requires g.Valid() && a.Length0 == g.width && a.Length1 == g.height
  {
    if g.height == 0 then [] else AirScan(g, a, z, g.height - 1, g.width)
  }

  /** A point comes before `(x, y)` in the row-major scan. */
  predicate ScanBefore(p: Point, y: int, x: int)
  {
    p.y < y || (p.y == y && p.x < x)
  }

  /** The scan holds exactly the air surface pixels before `(x, y)`, each once and in scan order. */
  lemma {:induction false} AirScanMeaning(g: Grid, a: array2<int>, z: int, y: int, x: int)
    requires g.Valid() && a.Length0 == g.width && a.Length1 == g.height
    requires 0 <= y < g.height && 0 <= x <= g.width
    ensures forall p :: p in AirScan(g, a, z, y, x) <==> IsAirSurface(g, a, z, p) && ScanBefore(p, y, x)
    ensures forall i, j :: 0 <= i < j < |AirScan(g, a, z, y, x)| ==>
              ScanBefore(AirScan(g, a, z, y, x)[i], AirScan(g, a, z, y, x)[j].y, AirScan(g, a, z, y, x)[j].x)
    decreases y, x
  {
    if x > 0 {
      AirScanMeaning(g, a, z, y, x - 1);
    } else if y > 0 {
      AirScanMeaning(g, a, z, y - 1, g.width);
    }
  }

  /** The scan of every region vertex: exactly its air surface pixels, each once, in scan order. */
  lemma AirSurfaceMeaning(g: Grid, a: array2<int>, z: int)
    requires g.Valid() && a.Length0 == g.width && a.Length1 == g.height
    ensures forall p :: p in AirSurface(g, a, z) <==> IsAirSurface(g, a, z, p)
    ensures forall i, j :: 0 <= i < j < |AirSurface(g, a, z)| ==>
              ScanBefore(AirSurface(g, a, z)[i], AirSurface(g, a, z)[j].y, AirSurface(g, a, z)[j].x)
  {
    if g.height > 0 {
      AirScanMeaning(g, a, z, g.height - 1, g.width);
    }
  }

  /** The scan over the rows above `y`. */
  ghost function AirRows(g: Grid, a: array2<int>, z: int, y: int): seq<Point>
    reads a
    requires g.Valid() && a.Length0 == g.width && a.Length1 == g.height && 0 <= y <= g.height
  {
    if y == 0 then [] else AirScan(g, a, z, y - 1, g.width)
  }

  /** `vs` is `vs0` with the scan `air` appended to the air surface of every vertex. */
  ghost predicate AirAdded(vs0: seq<Vertex>, vs: seq<Vertex>, g: Grid, a: array2<int>, y: int, x: int)
    reads a
    requires g.Valid() && a.Length0 == g.width && a.Length1 == g.height && 0 <= y <= g.height && 0 <= x <= g.width
    requires y == g.height ==> x == 0
  {
    && |vs| == |vs0|
    && forall z {:trigger vs[z]} :: 0 <= z < |vs| ==>
         && vs[z] == vs0[z].(air := vs[z].air)
         && vs[z].air == vs0[z].air + (if y < g.height then AirScan(g, a, z, y, x) else AirRows(g, a, z, y))
  }

  /**
    The air surface loop of `buildNetwork`: each labelled pixel with air or
    the top border above it is appended to its vertex's air surface. Only
    the air surfaces change.
   */
  method CollectAirSurfaces(g: Grid, ctx: AnalysisContext)
    requires g.Valid() && ctx.pixelVid.Length0 == g.width && ctx.pixelVid.Length1 == g.height
    requires Labels(ctx.pixelVid, |ctx.vertices|)
    modifies ctx
    ensures |ctx.vertices| == |old(ctx.vertices)|
    ensures forall z {:trigger ctx.vertices[z]} :: 0 <= z < |ctx.vertices| ==>
              && ctx.vertices[z] == old(ctx.vertices[z]).(air := ctx.vertices[z].air)
              && ctx.vertices[z].air == old(ctx.vertices[z]).air + AirSurface(g, ctx.pixelVid, z)
    ensures ctx.edgeIdx == old(ctx.edgeIdx) && ctx.components == old(ctx.components)
  {
    var a := ctx.pixelVid;
    ghost var vs0 := ctx.vertices;
    var y := 0;
    while y < g.height
      invariant 0 <= y <= g.height
      invariant ctx.edgeIdx == old(ctx.edgeIdx) && ctx.components == old(ctx.components)
      invariant AirAdded(vs0, ctx.vertices, g, a, y, 0)
    {
      CollectAirRow(g, ctx, y, vs0);
      AirNextRow(g, a, vs0, ctx.vertices, y);
      y := y + 1;
    }
    AirAddedAll(g, a, vs0, ctx.vertices);
  }

  /** One row `y` of the air surface loop. */
  method CollectAirRow(g: Grid, ctx: AnalysisContext, y: int, ghost vs0: seq<Vertex>)
    requires g.Valid() && ctx.pixelVid.Length0 == g.width && ctx.pixelVid.Length1 == g.height && 0 <= y < g.height
    requires Labels(ctx.pixelVid, |ctx.vertices|) && AirAdded(vs0, ctx.vertices, g, ctx.pixelVid, y, 0)
    modifies ctx
    ensures Labels(ctx.pixelVid, |ctx.vertices|) && AirAdded(vs0, ctx.vertices, g, ctx.pixelVid, y, g.width)
    ensures ctx.edgeIdx == old(ctx.edgeIdx) && ctx.components == old(ctx.components)
  {
    var a := ctx.pixelVid;
    var x := 0;
    while x < g.width
      invariant 0 <= x <= g.width
      invariant ctx.edgeIdx == old(ctx.edgeIdx) && ctx.components == old(ctx.components)
      invariant AirAdded(vs0, ctx.vertices, g, a, y, x)
    {
      ghost var vs := ctx.vertices;
      var vid := a[x, y];
      if vid != -1 && (y == 0 || g.TagAt(x, y - 1).kind == Air) {
        ctx.vertices := ctx.vertices[vid := ctx.vertices[vid].(air := ctx.vertices[vid].air + [Point(x, y)])];
      }
      AirStep(g, a, vs0, vs, ctx.vertices, y, x);
      x := x + 1;
    }
  }

  /** After the last row every vertex has its whole air surface appended. */
  lemma AirAddedAll(g: Grid, a: array2<int>, vs0: seq<Vertex>, vs: seq<Vertex>)
    requires g.Valid() && a.Length0 == g.width && a.Length1 == g.height
    requires AirAdded(vs0, vs, g, a, g.height, 0)
    ensures |vs| == |vs0|
    ensures forall z {:trigger vs[z]} :: 0 <= z < |vs| ==>
              && vs[z] == vs0[z].(air := vs[z].air)
              && vs[z].air == vs0[z].air + AirSurface(g, a, z)
  {
    forall z {:trigger vs[z]} | 0 <= z < |vs|
      ensures vs[z].air == vs0[z].air + AirSurface(g, a, z)
    {
      assert AirRows(g, a, z, g.height) == AirSurface(g, a, z);
    }
  }

  /** The end of a row is the start of the next. */
  lemma AirNextRow(g: Grid, a: array2<int>, vs0: seq<Vertex>, vs: seq<Vertex>, y: int)
    requires g.Valid() && a.Length0 == g.width && a.Length1 == g.height && 0 <= y < g.height
    requires AirAdded(vs0, vs, g, a, y, g.width)
    ensures AirAdded(vs0, vs, g, a, y + 1, 0)
  {
  }

  /** The vertex of pixel `p`. */
  ghost function VidAt(a: array2<int>, p: Point): int
    reads a
    requires 0 <= p.x < a.Length0 && 0 <= p.y < a.Length1
  {
    a[p.x, p.y]
  }

  /**
    The regions of `buildNetwork` on the pixel array `a` of grid `g`: every
    fluid pixel carries a region vertex, two labelled pixels carry the same
    vertex exactly when a same-type 4-connected walk joins them, a labelled
    pixel has the type of its vertex and is reached from the fluid pixel its
    vertex started from, and every region vertex started from a fluid pixel
    that carries it. A pixel joined to a fluid pixel is labelled.
   */
  ghost predicate Regions(g: Grid, a: array2<int>, vs: seq<Vertex>, seeds: seq<Point>)
    reads a
    requires g.Valid() && a.Length0 == g.width && a.Length1 == g.height
  {
    var km := Kinds(g);
    && |seeds| == |vs| && Labels(a, |vs|)
    && (forall p: Point {:trigger VidAt(a, p)} :: g.InBounds(p.x, p.y) && g.TagAt(p.x, p.y).pclass == Fluid ==> VidAt(a, p) != -1)
    && (forall p: Point, q: Point {:trigger Connected(km, p, q)} :: g.InBounds(p.x, p.y) && g.InBounds(q.x, q.y) && VidAt(a, p) != -1 && VidAt(a, q) != -1 ==>
          (VidAt(a, p) == VidAt(a, q) <==> Connected(km, p, q)))
    && (forall p: Point, q: Point {:trigger Connected(km, p, q)} :: g.InBounds(p.x, p.y) && g.InBounds(q.x, q.y) && g.TagAt(p.x, p.y).pclass == Fluid && Connected(km, p, q) ==>
          VidAt(a, q) != -1)
    && Seeded(g, a, vs, seeds)
  }

  /**
    The vertex of a labelled pixel has the pixel's type and started from a
    fluid pixel joined to it, and every region vertex started from a fluid
    pixel that carries it.
   */
  ghost predicate Seeded(g: Grid, a: array2<int>, vs: seq<Vertex>, seeds: seq<Point>)
    reads a
    requires g.Valid() && a.Length0 == g.width && a.Length1 == g.height
    requires |seeds| == |vs| && Labels(a, |vs|)
  {
    var km := Kinds(g);
    && (forall p: Point {:trigger VidAt(a, p)} :: g.InBounds(p.x, p.y) && VidAt(a, p) != -1 ==>
          var z := VidAt(a, p);
          assert a[p.x, p.y] == z;
          && g.InBounds(seeds[z].x, seeds[z].y) && g.TagAt(seeds[z].x, seeds[z].y).pclass == Fluid && Connected(km, seeds[z], p)
          && vs[z].kind == g.TagAt(p.x, p.y).kind)
    && (forall z :: 2 <= z < |vs| ==> g.InBounds(seeds[z].x, seeds[z].y) && g.TagAt(seeds[z].x, seeds[z].y).pclass == Fluid && VidAt(a, seeds[z]) == z)
  }

  /** The vertex array read through the labelling's map. */
  lemma PixelVids(dirty: array2<bool>, vid: array2<int>, marked: set<Point>, ids: map<Point, int>)
    requires FlowRegions.Linked(dirty, vid, marked, ids)
    ensures forall p: Point {:trigger VidAt(vid, p)} :: 0 <= p.x < vid.Length0 && 0 <= p.y < vid.Length1 ==>
              VidAt(vid, p) == (if p in ids then ids[p] else -1)
  {
    forall p: Point {:trigger VidAt(vid, p)} | 0 <= p.x < vid.Length0 && 0 <= p.y < vid.Length1
      ensures VidAt(vid, p) == (if p in ids then ids[p] else -1)
    {
      assert dirty[p.x, p.y] == (Point(p.x, p.y) in marked);
    }
  }

  /** The labelling's facts on values are the regions on the pixel array. */
  lemma RegionsOnPixels(g: Grid, km: KindMap, fluid: set<Point>, marked: set<Point>, ids: map<Point, int>,
                        vs: seq<Vertex>, seeds: seq<Point>, dirty: array2<bool>, vid: array2<int>)
    requires g.Valid() && vid.Length0 == g.width && vid.Length1 == g.height
    requires km == Kinds(g) && FluidOf(g, fluid) && FlowRegions.Settled(km, fluid, marked, ids, vs, seeds) && fluid <= marked
    requires FlowRegions.Linked(dirty, vid, marked, ids)
    ensures Regions(g, vid, vs, seeds)
  {
    RegionsAreComponents(km, fluid, marked, ids, vs, seeds);
    PixelVids(dirty, vid, marked, ids);
    forall c, d | 0 <= c < vid.Length0 && 0 <= d < vid.Length1 ensures vid[c, d] == -1 || 2 <= vid[c, d] < |vs| {
      assert VidAt(vid, Point(c, d)) == vid[c, d];
    }
    forall p: Point, q: Point | g.InBounds(p.x, p.y) && g.InBounds(q.x, q.y) && VidAt(vid, p) != -1 && VidAt(vid, q) != -1
      ensures VidAt(vid, p) == VidAt(vid, q) <==> Connected(km, p, q)
    {
      assert p in marked && q in marked;
    }
    forall p: Point {:trigger VidAt(vid, p)} | g.InBounds(p.x, p.y) && g.TagAt(p.x, p.y).pclass == Fluid ensures VidAt(vid, p) != -1 {
      assert p == Point(p.x, p.y);
      assert p in fluid;
    }
    forall p: Point, q: Point | g.InBounds(p.x, p.y) && g.InBounds(q.x, q.y) && g.TagAt(p.x, p.y).pclass == Fluid && Connected(km, p, q)
      ensures VidAt(vid, q) != -1
    {
      assert p == Point(p.x, p.y);
      assert p in fluid;
    }
    forall p: Point | g.InBounds(p.x, p.y) && VidAt(vid, p) != -1
      ensures var s := seeds[VidAt(vid, p)];
              && g.InBounds(s.x, s.y) && g.TagAt(s.x, s.y).pclass == Fluid && Connected(km, s, p)
              && vs[VidAt(vid, p)].kind == g.TagAt(p.x, p.y).kind
    {
      var s := seeds[ids[p]];
      assert s in fluid;
      assert s == Point(s.x, s.y);
      KindAt(g, km, p);
    }
    forall z | 2 <= z < |vs|
      ensures g.InBounds(seeds[z].x, seeds[z].y) && g.TagAt(seeds[z].x, seeds[z].y).pclass == Fluid && VidAt(vid, seeds[z]) == z
    {
      var s := seeds[z];
      assert s in fluid;
      assert s == Point(s.x, s.y);
    }
  }

  /** One pixel of the air surface loop extends the scan of every vertex. */
  lemma AirStep(g: Grid, a: array2<int>, vs0: seq<Vertex>, vs: seq<Vertex>, vs': seq<Vertex>, y: int, x: int)
    requires g.Valid() && a.Length0 == g.width && a.Length1 == g.height && 0 <= y < g.height && 0 <= x < g.width
    requires Labels(a, |vs0|) && AirAdded(vs0, vs, g, a, y, x)
    requires var z := a[x, y];
             if z != -1 && (y == 0 || g.TagAt(x, y - 1).kind == Air) then vs' == vs[z := vs[z].(air := vs[z].air + [Point(x, y)])]
             else vs' == vs
    ensures AirAdded(vs0, vs', g, a, y, x + 1)
  {
    var p := Point(x, y);
    forall z {:trigger vs'[z]} | 0 <= z < |vs'|
      ensures vs'[z] == vs0[z].(air := vs'[z].air) && vs'[z].air == vs0[z].air + AirScan(g, a, z, y, x + 1)
    {
      var before := AirScan(g, a, z, y, x);
      assert vs[z].air == vs0[z].air + before;
      assert AirScan(g, a, z, y, x + 1) == before + (if IsAirSurface(g, a, z, p) then [p] else []);
      if IsAirSurface(g, a, z, p) {
        assert vs'[z] == vs[z].(air := vs[z].air + [p]);
      } else {
        assert vs'[z] == vs[z];
      }
    }
  }

  /** The regions depend on the vertices only through their number and types. */
  lemma RegionsKeep(g: Grid, a: array2<int>, vs: seq<Vertex>, vs': seq<Vertex>, seeds: seq<Point>)
    requires g.Valid() && a.Length0 == g.width && a.Length1 == g.height
    requires Regions(g, a, vs, seeds) && |vs'| == |vs|
    requires forall z {:trigger vs'[z]} :: 0 <= z < |vs| ==> vs'[z].kind == vs[z].kind
    ensures Regions(g, a, vs', seeds)
  {
    forall p: Point {:trigger VidAt(a, p)} | g.InBounds(p.x, p.y) && VidAt(a, p) != -1
      ensures vs'[VidAt(a, p)].kind == g.TagAt(p.x, p.y).kind
    {
      assert vs'[VidAt(a, p)].kind == vs[VidAt(a, p)].kind;
    }
  }

  /**
    The network `buildNetwork` leaves: the regions on the pixel array;
    vertex `z` has id `z`, no component, clear Dinic and topological-sort
    counters, and its air surface pixels in scan order, vertices 0 and 1
    (source and sink) having type Air; the network is wired, and the
    capacity between any two vertices is the number of vertical pixel pairs
    joining them, an edge existing exactly when that number is positive.
   */
  ghost predicate Network(g: Grid, a: array2<int>, vs: seq<Vertex>, idx: EdgeIndex, seeds: seq<Point>)
    reads a
    requires g.Valid() && a.Length0 == g.width && a.Length1 == g.height
  {
    && |vs| >= 2 && vs[SourceVid].kind == Air && vs[SinkVid].kind == Air
    && Regions(g, a, vs, seeds)
    && (forall z {:trigger vs[z]} :: 0 <= z < |vs| ==>
          && vs[z].id == z && vs[z].comp == -1 && vs[z].dep == 0 && vs[z].curEdge == 0 && vs[z].indeg == 0
          && vs[z].air == AirSurface(g, a, z))
    && Wired(vs, idx, Ids(|vs|))
    && (forall k {:trigger k in idx} :: k in idx ==> 2 <= k.0 < |vs| && 2 <= k.1 < |vs|)
    && (forall u, v {:trigger CapOf(vs, idx, u, v)} :: 0 <= u < |vs| && 0 <= v < |vs| ==>
          CapOf(vs, idx, u, v) == VerticalJoins(a, u, v) && ((u, v) in idx <==> VerticalJoins(a, u, v) > 0))
  }

  /**
    `buildNetwork` on a fresh context: the two reserved vertices, one
    vertex per region found by the scan and `searchConnected`, the edges of
    the vertical pixel pairs, and the air surfaces. The fill marks its
    pixels in an array of its own, clear at the start as the world's dirty
    flags are.
   */
  method BuildNetwork(g: Grid, ctx: AnalysisContext) returns (ghost seeds: seq<Point>)
    requires g.Valid() && ctx.pixelVid.Length0 == g.width && ctx.pixelVid.Length1 == g.height
    requires ctx.vertices == [] && ctx.edgeIdx == map[]
    requires forall a, b :: 0 <= a < g.width && 0 <= b < g.height ==> ctx.pixelVid[a, b] == -1
    modifies ctx, ctx.pixelVid
    ensures ctx.components == old(ctx.components)
    ensures Network(g, ctx.pixelVid, ctx.vertices, ctx.edgeIdx, seeds)
  {
    var dirty := new bool[g.width, g.height]((_, _) => false);
    ghost var fluid := FluidCells(g);
    FluidCellsOf(g);
    var vs;
    ghost var km, marked, ids;
    vs, km, seeds, marked, ids := LabelRegions(g, dirty, ctx.pixelVid, fluid);
    RegionsOnPixels(g, km, fluid, marked, ids, vs, seeds, dirty, ctx.pixelVid);
    ctx.vertices := vs;
    ConnectRegions(ctx);
    ghost var vs1 := ctx.vertices;
    CollectAirSurfaces(g, ctx);
    NetworkAssembled(g, ctx.pixelVid, vs, vs1, ctx.vertices, ctx.edgeIdx, seeds);
  }

  /** The three stages of `buildNetwork` put together. */
  lemma NetworkAssembled(g: Grid, a: array2<int>, vs: seq<Vertex>, vs1: seq<Vertex>, vs2: seq<Vertex>, idx: EdgeIndex, seeds: seq<Point>)
    requires g.Valid() && a.Length0 == g.width && a.Length1 == g.height
    requires FreshVertices(vs) && Regions(g, a, vs, seeds)
    requires SameVertices(vs, vs1) && Wired(vs1, idx, Ids(|vs1|))
    requires forall k {:trigger k in idx} :: k in idx ==> 2 <= k.0 < |vs1| && 2 <= k.1 < |vs1|
    requires forall u, v {:trigger CapOf(vs1, idx, u, v)} :: 0 <= u < |vs1| && 0 <= v < |vs1| ==>
               CapOf(vs1, idx, u, v) == VerticalJoins(a, u, v) && ((u, v) in idx <==> VerticalJoins(a, u, v) > 0)
    requires |vs2| == |vs1|
    requires forall z {:trigger vs2[z]} :: 0 <= z < |vs2| ==>
               && vs2[z] == vs1[z].(air := vs2[z].air) && vs2[z].air == vs1[z].air + AirSurface(g, a, z)
    ensures Network(g, a, vs2, idx, seeds)
  {
    VertexFieldsKept(g, a, vs, vs1, vs2);
    WiredEdgesOnly(vs1, vs2, idx, Ids(|vs1|));
    RegionsKeep(g, a, vs, vs2, seeds);
  }

  /** The air loop changes only the air surfaces, which start empty, and the edge loop only the edge lists. */
  lemma VertexFieldsKept(g: Grid, a: array2<int>, vs: seq<Vertex>, vs1: seq<Vertex>, vs2: seq<Vertex>)
    requires g.Valid() && a.Length0 == g.width && a.Length1 == g.height
    requires FreshVertices(vs) && SameVertices(vs, vs1) && |vs2| == |vs1|
    requires forall z {:trigger vs2[z]} :: 0 <= z < |vs2| ==>
               && vs2[z] == vs1[z].(air := vs2[z].air) && vs2[z].air == vs1[z].air + AirSurface(g, a, z)
    ensures forall z {:trigger vs2[z]} :: 0 <= z < |vs2| ==>
              && vs2[z].edges == vs1[z].edges && vs2[z].kind == vs[z].kind
              && vs2[z].id == z && vs2[z].comp == -1 && vs2[z].dep == 0 && vs2[z].curEdge == 0 && vs2[z].indeg == 0
              && vs2[z].air == AirSurface(g, a, z)
  {
    forall z {:trigger vs2[z]} | 0 <= z < |vs2|
      ensures && vs2[z].edges == vs1[z].edges && vs2[z].kind == vs[z].kind
              && vs2[z].id == z && vs2[z].comp == -1 && vs2[z].dep == 0 && vs2[z].curEdge == 0 && vs2[z].indeg == 0
              && vs2[z].air == AirSurface(g, a, z)
    {
      var v := vs[z];
      assert v.air == [] && v.id == z && v.comp == -1 && v.dep == 0 && v.curEdge == 0 && v.indeg == 0 by {
        if z >= 2 {
          assert v == NewVertex(z, v.kind);
        }
      }
      assert vs1[z] == v.(edges := vs1[z].edges);
    }
  }
}
