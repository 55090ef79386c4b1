// `analysisFlow` and `fluidAnalysisStep` of src/fallsand/fluidflow.cpp: for
// every connected component of the region graph in turn, the source and the
// sink are connected to it (`prepareFlowNetworkOfComponent`); when that
// succeeds, Dinic's maximum flow runs on it and the flow results are
// consumed in topological order (`applyFlowResults`); then the source and
// the sink lose their edges and in-degrees for the next component. The
// analysis as a whole is the density pass, the network, the components and
// this loop.
module FlowAnalysis {
  import opened Base
  import opened Pixels
  import opened FlowNetwork
  import opened FlowComponents
  import opened FlowPrepare
  import opened FlowDinic
  import opened FlowApply
  import FlowBuild
  import Grids
  import World
  import FluidDensity
  import DensityRows

  /** `b` is `a` with only the working fields of the analysis changed: levels, current edges, in-degrees and edges. */
  ghost predicate Working(a: seq<Vertex>, b: seq<Vertex>)
  {
    |a| == |b| && forall z {:trigger b[z]} :: 0 <= z < |a| ==>
      b[z] == a[z].(dep := b[z].dep, curEdge := b[z].curEdge, indeg := b[z].indeg, edges := b[z].edges)
  }

  lemma WorkingTrans(a: seq<Vertex>, b: seq<Vertex>, c: seq<Vertex>)
    requires Working(a, b) && Working(b, c)
    ensures Working(a, c)
  {
    forall z | 0 <= z < |a|
      ensures c[z] == a[z].(dep := c[z].dep, curEdge := c[z].curEdge, indeg := c[z].indeg, edges := c[z].edges)
    {
      assert b[z] == a[z].(dep := b[z].dep, curEdge := b[z].curEdge, indeg := b[z].indeg, edges := b[z].edges);
    }
  }

  /** Each step of one component's analysis changes only working fields. */
  lemma StepsWork(v0: seq<Vertex>, v1: seq<Vertex>, v2: seq<Vertex>, v3: seq<Vertex>)
    requires SameVertices(v0, v1) && FlowsOnly(v1, v2) && Consumed(v2, v3)
    ensures Working(v0, v3)
  {
    forall z | 0 <= z < |v0|
      ensures v3[z] == v0[z].(dep := v3[z].dep, curEdge := v3[z].curEdge, indeg := v3[z].indeg, edges := v3[z].edges)
    {
      assert v1[z] == v0[z].(edges := v1[z].edges);
      assert v2[z] == v1[z].(dep := v2[z].dep, curEdge := v2[z].curEdge, edges := v2[z].edges);
      assert v3[z].(indeg := v2[z].indeg, edges := v2[z].edges) == v2[z];
    }
  }

  /** A component with the source and the sink appended lists no vertex twice. */
  lemma AppendedDistinct(ids: seq<int>, n: int)
    requires RegionIds(ids, n) && Distinct(ids)
    ensures Distinct(ids + [SourceVid, SinkVid])
    ensures forall z :: z in CompSet(ids) <==> z in ids + [SourceVid, SinkVid]
  {
    var l := ids + [SourceVid, SinkVid];
    forall j, k | 0 <= j < k < |l| ensures l[j] != l[k] {
      if k >= |ids| && j < |ids| {
        assert l[j] == ids[j];
      }
    }
    forall z ensures z in CompSet(ids) <==> z in l {
      if z in ids {
        var k :| 0 <= k < |ids| && ids[k] == z;
        assert l[k] == z;
      }
    }
  }

  /**
    The body of the loop of `analysisFlow` for component `cid`, before the
    source and the sink are reset: when `prepareFlowNetworkOfComponent`
    succeeds, the maximum flow of the prepared network `net` gives `flowed`,
    whose flow results are then consumed. `total` is the flow `maxFlow`
    returns; `done` says the search ran until no augmenting walk was left.
   */
  method FlowComponent(ctx: AnalysisContext, cid: int, rank: (int, int) -> int, fuel: nat, ghost s: set<int>)
    returns (ok: bool, total: int, done: bool, ghost net: seq<Vertex>, ghost flowed: seq<Vertex>, ghost order: seq<int>)
    requires 0 <= cid < |ctx.components| && RegionIds(ctx.components[cid], |ctx.vertices|) && Distinct(ctx.components[cid])
    requires s == CompSet(ctx.components[cid]) && Wired(ctx.vertices, ctx.edgeIdx, s)
    requires OwnsAir(ctx.vertices, ctx.pixelVid, ctx.components[cid])
    requires forall z :: z in s && 0 <= z < |ctx.vertices| ==> ctx.vertices[z].indeg == 0
    modifies ctx
    ensures var sp := ComponentSurface(old(ctx.vertices), old(ctx.components[cid]), cid, rank);
            && (ok <==> Preparable(sp))
            && (!ok ==> ctx.vertices == old(ctx.vertices) && ctx.edgeIdx == old(ctx.edgeIdx) && ctx.components == old(ctx.components))
            && (ok ==> Prepared(old(ctx.vertices), old(ctx.edgeIdx), net, ctx.edgeIdx, s, ctx.pixelVid, sp, SourceCount(sp)))
    ensures ok ==> ctx.components == old(ctx.components)[cid := old(ctx.components[cid]) + [SourceVid, SinkVid]]
    ensures ok ==> && 0 <= total && Wired(flowed, ctx.edgeIdx, s) && FlowsOnly(net, flowed)
                   && Conserves(net, flowed, SourceVid, total)
                   && (done ==> forall w :: !Walk(flowed, SourceVid, w, SinkVid))
    ensures ok ==> && Consumed(flowed, ctx.vertices) && Unmoved(flowed, ctx.vertices, s)
                   && |order| > 0 && order[0] == SourceVid && (forall x :: x in order ==> x in s)
                   && Topological(flowed, s, order)
                   && (forall x, i {:trigger ctx.vertices[x].edges[i]} :: x in order && 0 <= x < |ctx.vertices| && 0 <= i < |ctx.vertices[x].edges|
                         ==> ctx.vertices[x].edges[i].flow <= 0)
    ensures Working(old(ctx.vertices), ctx.vertices) && Unmoved(old(ctx.vertices), ctx.vertices, s)
  {
    ghost var v0, idx0 := ctx.vertices, ctx.edgeIdx;
    net, flowed, order := ctx.vertices, ctx.vertices, [];
    total, done := 0, false;
    ok := PrepareComponent(ctx, cid, rank);
    if !ok {
      assert Working(v0, v0) && Unmoved(v0, v0, s);
      return;
    }
    net := ctx.vertices;
    AppendedDistinct(old(ctx.components[cid]), |v0|);
    total, done := MaxFlow(ctx, cid, fuel, s);
    flowed := ctx.vertices;
    forall z | z in s && 0 <= z < |flowed| ensures flowed[z].indeg == 0 {
      assert net[z] == v0[z].(edges := net[z].edges);
    }
    order := ApplyFlowResults(ctx, cid, s);
    StepsWork(v0, net, flowed, ctx.vertices);
    UnmovedTrans(v0, net, flowed, s);
    UnmovedTrans(v0, flowed, ctx.vertices, s);
  }

  /** The source and the sink have no edges and no in-degree. */
  ghost predicate Cleared(vs: seq<Vertex>)
  {
    |vs| >= 2 && vs[SourceVid].edges == [] && vs[SinkVid].edges == [] && vs[SourceVid].indeg == 0 && vs[SinkVid].indeg == 0
  }

  /** Every air surface pixel of a vertex lies on the pixel array and carries that vertex. */
  ghost predicate AirOwned(vs: seq<Vertex>, pv: array2<int>)
    reads pv
  {
    forall z, j {:trigger vs[z].air[j]} :: 0 <= z < |vs| && 0 <= j < |vs[z].air| ==>
      0 <= vs[z].air[j].x < pv.Length0 && 0 <= vs[z].air[j].y < pv.Length1 && pv[vs[z].air[j].x, vs[z].air[j].y] == z
  }

  /**
    What `analysisFlow` starts from: the network of `buildNetwork`, wired,
    indexed only between region vertices and with no in-degrees, split into
    components with no edge between two of them.
   */
  ghost predicate Split(vs: seq<Vertex>, idx: EdgeIndex, comps: seq<seq<int>>, pv: array2<int>)
    reads pv
  {
    && Cleared(vs) && Wired(vs, idx, FlowBuild.Ids(|vs|))
    && (forall k {:trigger k in idx} :: k in idx ==> 2 <= k.0 < |vs| && 2 <= k.1 < |vs|)
    && Listed(vs, comps) && NoCrossing(vs) && Terminals(vs)
    && (forall z :: 2 <= z < |vs| ==> 0 <= vs[z].comp < |comps|)
    && (forall z {:trigger vs[z]} :: 0 <= z < |vs| ==> vs[z].indeg == 0)
    && AirOwned(vs, pv)
  }

  /** The region vertices of the components from the `i`-th on are as they were in `vs0`. */
  ghost predicate Pristine(vs0: seq<Vertex>, vs: seq<Vertex>, i: int)
  {
    |vs| == |vs0| && forall z {:trigger vs[z]} :: 2 <= z < |vs0| && vs0[z].comp >= i ==> vs[z] == vs0[z]
  }

  /** The index keeps every pair of `idx0`; a pair it gained has an end among the region vertices of the components before the `i`-th. */
  ghost predicate KeysFrom(vs0: seq<Vertex>, idx0: EdgeIndex, idx: EdgeIndex, i: int)
  {
    && (forall k {:trigger k in idx0} :: k in idx0 ==> k in idx && idx[k] == idx0[k])
    && (forall k {:trigger k in idx} :: k in idx && k !in idx0 ==>
          (2 <= k.0 < |vs0| && vs0[k.0].comp < i) || (2 <= k.1 < |vs0| && vs0[k.1].comp < i))
  }

  /** `prepareFlowNetworkOfComponent` succeeds on the component `ids` of `vs0` under the surface order `r`. */
  ghost predicate Prepares(vs0: seq<Vertex>, ids: seq<int>, c: int, rank: (int, int) -> int)
  {
    RegionIds(ids, |vs0|) && Preparable(ComponentSurface(vs0, ids, c, rank))
  }

  /** The component lists after the first `i` rounds: a component that prepared has the source and the sink appended. */
  ghost predicate CompsAt(vs0: seq<Vertex>, comps0: seq<seq<int>>, comps: seq<seq<int>>, rank: (int, int) -> int, i: int)
  {
    |comps| == |comps0| && forall j {:trigger comps[j]} :: 0 <= j < |comps0| ==>
      comps[j] == (if j < i && Prepares(vs0, comps0[j], j, rank) then comps0[j] + [SourceVid, SinkVid] else comps0[j])
  }

  /** The region vertices of the components before the `i`-th that did not prepare are as they were. */
  ghost predicate Untouched(vs0: seq<Vertex>, comps0: seq<seq<int>>, vs: seq<Vertex>, rank: (int, int) -> int, i: int)
  {
    |vs| == |vs0| && forall z {:trigger vs[z]} ::
      2 <= z < |vs0| && 0 <= vs0[z].comp < i && vs0[z].comp < |comps0| && !Prepares(vs0, comps0[vs0[z].comp], vs0[z].comp, rank)
      ==> vs[z] == vs0[z]
  }

  /** The component `i` lists distinct region vertices, each of component `i`. */
  lemma ComponentIds(vs0: seq<Vertex>, comps0: seq<seq<int>>, i: int)
    requires Listed(vs0, comps0) && Terminals(vs0) && |vs0| >= 2 && 0 <= i < |comps0|
    ensures RegionIds(comps0[i], |vs0|) && Distinct(comps0[i])
    ensures forall z :: z in CompSet(comps0[i]) && z >= 2 ==> 0 <= z < |vs0| && vs0[z].comp == i
    ensures forall z :: z in CompSet(comps0[i]) ==> 0 <= z < |vs0|
  {
    var ids := comps0[i];
    forall k | 0 <= k < |ids| ensures 2 <= ids[k] < |vs0| {
      assert vs0[ids[k]].comp == i;
    }
    forall z | z in CompSet(ids) && z >= 2 ensures 0 <= z < |vs0| && vs0[z].comp == i {
      var k :| 0 <= k < |ids| && ids[k] == z;
    }
  }

  /** The merged air surface depends only on the air surfaces of the listed vertices. */
  lemma {:induction false} MergedSame(a: seq<Vertex>, b: seq<Vertex>, ids: seq<int>)
    requires RegionIds(ids, |a|) && |a| == |b| && forall k :: 0 <= k < |ids| ==> b[ids[k]].air == a[ids[k]].air
    ensures MergedAir(b, ids) == MergedAir(a, ids)
    decreases |ids|
  {
    if ids != [] {
      MergedSame(a, b, ids[..|ids| - 1]);
    }
  }

  /** Under the loop invariant, an edge of a region vertex of component `i` is as it was in `vs0`, and stays within the component. */
  lemma ComponentEdge(vs0: seq<Vertex>, idx0: EdgeIndex, comps0: seq<seq<int>>, vs: seq<Vertex>, idx: EdgeIndex, i: int, u: int, j: int)
    requires Wired(vs0, idx0, FlowBuild.Ids(|vs0|)) && (forall k {:trigger k in idx0} :: k in idx0 ==> 2 <= k.0 < |vs0| && 2 <= k.1 < |vs0|)
    requires Listed(vs0, comps0) && NoCrossing(vs0) && 0 <= i < |comps0|
    requires Pristine(vs0, vs, i) && KeysFrom(vs0, idx0, idx, i)
    requires 2 <= u < |vs0| && vs0[u].comp == i && 0 <= j < |vs[u].edges|
    ensures EdgeOk(vs, idx, CompSet(comps0[i]), u, j)
  {
    assert vs[u] == vs0[u];
    assert u in FlowBuild.Ids(|vs0|);
    assert EdgeOk(vs0, idx0, FlowBuild.Ids(|vs0|), u, j);
    var t := vs0[u].edges[j].to;
    assert (u, t) in idx0;
    assert vs0[t].comp == i;
    assert t in comps0[i];
    assert vs[t] == vs0[t];
  }

  /** Under the loop invariant, component `i` is wired within itself, the source and the sink, all as in `vs0`. */
  lemma WiredComponent(vs0: seq<Vertex>, idx0: EdgeIndex, comps0: seq<seq<int>>, vs: seq<Vertex>, idx: EdgeIndex, i: int)
    requires Wired(vs0, idx0, FlowBuild.Ids(|vs0|)) && (forall k {:trigger k in idx0} :: k in idx0 ==> 2 <= k.0 < |vs0| && 2 <= k.1 < |vs0|)
    requires Listed(vs0, comps0) && NoCrossing(vs0) && Terminals(vs0) && |vs0| >= 2 && 0 <= i < |comps0|
    requires Pristine(vs0, vs, i) && Cleared(vs) && KeysFrom(vs0, idx0, idx, i)
    ensures Wired(vs, idx, CompSet(comps0[i]))
  {
    ComponentIds(vs0, comps0, i);
    ComponentEdges(vs0, idx0, comps0, vs, idx, i);
    ComponentKeys(vs0, idx0, comps0, vs, idx, i);
  }

  lemma ComponentEdges(vs0: seq<Vertex>, idx0: EdgeIndex, comps0: seq<seq<int>>, vs: seq<Vertex>, idx: EdgeIndex, i: int)
    requires Wired(vs0, idx0, FlowBuild.Ids(|vs0|)) && (forall k {:trigger k in idx0} :: k in idx0 ==> 2 <= k.0 < |vs0| && 2 <= k.1 < |vs0|)
    requires Listed(vs0, comps0) && NoCrossing(vs0) && Terminals(vs0) && |vs0| >= 2 && 0 <= i < |comps0|
    requires Pristine(vs0, vs, i) && Cleared(vs) && KeysFrom(vs0, idx0, idx, i)
    ensures forall u, j :: u in CompSet(comps0[i]) && 0 <= u < |vs| && 0 <= j < |vs[u].edges| ==> EdgeOk(vs, idx, CompSet(comps0[i]), u, j)
  {
    var s := CompSet(comps0[i]);
    ComponentIds(vs0, comps0, i);
    forall u, j | u in s && 0 <= u < |vs| && 0 <= j < |vs[u].edges| ensures EdgeOk(vs, idx, s, u, j) {
      assert u != SourceVid && u != SinkVid;
      assert u >= 2 && vs0[u].comp == i;
      ComponentEdge(vs0, idx0, comps0, vs, idx, i, u, j);
    }
  }

  lemma ComponentKeys(vs0: seq<Vertex>, idx0: EdgeIndex, comps0: seq<seq<int>>, vs: seq<Vertex>, idx: EdgeIndex, i: int)
    requires Wired(vs0, idx0, FlowBuild.Ids(|vs0|)) && (forall k {:trigger k in idx0} :: k in idx0 ==> 2 <= k.0 < |vs0| && 2 <= k.1 < |vs0|)
    requires Listed(vs0, comps0) && Terminals(vs0) && |vs0| >= 2 && 0 <= i < |comps0|
    requires Pristine(vs0, vs, i) && KeysFrom(vs0, idx0, idx, i)
    ensures forall k {:trigger k in idx} :: k in idx && k.0 in CompSet(comps0[i]) && k.1 in CompSet(comps0[i]) ==>
              0 <= k.0 < |vs| && 0 <= idx[k] < |vs[k.0].edges| && vs[k.0].edges[idx[k]].to == k.1
  {
    var s := CompSet(comps0[i]);
    forall k | k in idx && k.0 in s && k.1 in s
      ensures 0 <= k.0 < |vs| && 0 <= idx[k] < |vs[k.0].edges| && vs[k.0].edges[idx[k]].to == k.1
    {
      ComponentKey(vs0, idx0, comps0, vs, idx, i, k);
    }
  }

  /** Under the loop invariant, a pair within component `i`, the source and the sink is a pair of `idx0` between region vertices of the component. */
  lemma ComponentKey(vs0: seq<Vertex>, idx0: EdgeIndex, comps0: seq<seq<int>>, vs: seq<Vertex>, idx: EdgeIndex, i: int, k: (int, int))
    requires Wired(vs0, idx0, FlowBuild.Ids(|vs0|)) && (forall k {:trigger k in idx0} :: k in idx0 ==> 2 <= k.0 < |vs0| && 2 <= k.1 < |vs0|)
    requires Listed(vs0, comps0) && Terminals(vs0) && |vs0| >= 2 && 0 <= i < |comps0|
    requires Pristine(vs0, vs, i) && KeysFrom(vs0, idx0, idx, i)
    requires k in idx && k.0 in CompSet(comps0[i]) && k.1 in CompSet(comps0[i])
    ensures k in idx0 && 0 <= k.0 < |vs| && 0 <= idx[k] < |vs[k.0].edges| && vs[k.0].edges[idx[k]].to == k.1
  {
    ComponentIds(vs0, comps0, i);
    assert k in idx0;
    assert k.0 in FlowBuild.Ids(|vs0|) && k.1 in FlowBuild.Ids(|vs0|);
    assert vs[k.0] == vs0[k.0];
  }

  /** Under the loop invariant, component `i` is ready for `FlowComponent`, and its air surface is as in `vs0`. */
  lemma ReadyFor(vs0: seq<Vertex>, idx0: EdgeIndex, comps0: seq<seq<int>>, pv: array2<int>, vs: seq<Vertex>, idx: EdgeIndex, i: int)
    requires Split(vs0, idx0, comps0, pv) && 0 <= i < |comps0|
    requires Pristine(vs0, vs, i) && Cleared(vs) && KeysFrom(vs0, idx0, idx, i)
    ensures RegionIds(comps0[i], |vs|) && Distinct(comps0[i]) && Wired(vs, idx, CompSet(comps0[i]))
    ensures OwnsAir(vs, pv, comps0[i])
    ensures forall z :: z in CompSet(comps0[i]) && 0 <= z < |vs| ==> vs[z].indeg == 0
    ensures forall r :: ComponentSurface(vs, comps0[i], i, r) == ComponentSurface(vs0, comps0[i], i, r)
  {
    var ids := comps0[i];
    ComponentIds(vs0, comps0, i);
    WiredComponent(vs0, idx0, comps0, vs, idx, i);
    forall k | 0 <= k < |ids| ensures vs[ids[k]] == vs0[ids[k]] {
      assert ids[k] in CompSet(ids);
    }
    forall k, j | 0 <= k < |ids| && 0 <= j < |vs[ids[k]].air|
      ensures 0 <= vs[ids[k]].air[j].x < pv.Length0 && 0 <= vs[ids[k]].air[j].y < pv.Length1
      ensures pv[vs[ids[k]].air[j].x, vs[ids[k]].air[j].y] in ids
    {
      assert vs0[ids[k]].air[j] == vs[ids[k]].air[j];
    }
    MergedSame(vs0, vs, ids);
    forall z | z in CompSet(ids) && 0 <= z < |vs| ensures vs[z].indeg == 0 {
      if z >= 2 {
        assert vs[z] == vs0[z];
      }
    }
  }

  /** The end of a round of `analysisFlow`: the source and the sink lose their edges and their in-degrees. */
  function Reset(vs: seq<Vertex>): (r: seq<Vertex>)
    requires |vs| >= 2
    ensures Cleared(r) && |r| == |vs| && forall z {:trigger r[z]} :: 2 <= z < |vs| ==> r[z] == vs[z]
  {
    vs[SourceVid := vs[SourceVid].(edges := [], indeg := 0)][SinkVid := vs[SinkVid].(edges := [], indeg := 0)]
  }

  /** A round of `analysisFlow` on component `i` keeps the vertices of the later components and of the earlier ones that did not prepare. */
  lemma AdvanceVertices(vs0: seq<Vertex>, comps0: seq<seq<int>>, rank: (int, int) -> int, vs: seq<Vertex>, vs1: seq<Vertex>, i: int, ok: bool)
    requires Listed(vs0, comps0) && Terminals(vs0) && |vs0| >= 2 && 0 <= i < |comps0|
    requires Pristine(vs0, vs, i) && Untouched(vs0, comps0, vs, rank, i) && Working(vs0, vs)
    requires ok <==> Prepares(vs0, comps0[i], i, rank)
    requires (!ok ==> vs1 == vs) && Unmoved(vs, vs1, CompSet(comps0[i])) && Working(vs, vs1)
    ensures Pristine(vs0, Reset(vs1), i + 1) && Untouched(vs0, comps0, Reset(vs1), rank, i + 1) && Working(vs0, Reset(vs1))
  {
    var s := CompSet(comps0[i]);
    var vs2 := Reset(vs1);
    ComponentIds(vs0, comps0, i);
    forall z | 2 <= z < |vs0| && vs0[z].comp != i ensures vs2[z] == vs[z] {
      assert z !in s;
    }
    WorkingTrans(vs0, vs, vs1);
    forall z | 0 <= z < |vs0|
      ensures vs2[z] == vs0[z].(dep := vs2[z].dep, curEdge := vs2[z].curEdge, indeg := vs2[z].indeg, edges := vs2[z].edges)
    {
      assert vs1[z] == vs0[z].(dep := vs1[z].dep, curEdge := vs1[z].curEdge, indeg := vs1[z].indeg, edges := vs1[z].edges);
    }
  }

  /** A round of `analysisFlow` on component `i` gains index pairs only with an end in component `i`. */
  lemma AdvanceKeys(vs0: seq<Vertex>, idx0: EdgeIndex, comps0: seq<seq<int>>, idx: EdgeIndex, idx1: EdgeIndex, vs: seq<Vertex>, net: seq<Vertex>, i: int)
    requires Listed(vs0, comps0) && Terminals(vs0) && |vs0| >= 2 && 0 <= i < |comps0|
    requires KeysFrom(vs0, idx0, idx, i)
    requires idx1 == idx || Within(vs, idx, net, idx1, CompSet(comps0[i]))
    ensures KeysFrom(vs0, idx0, idx1, i + 1)
  {
    ComponentIds(vs0, comps0, i);
  }

  /** The component lists after a round of `analysisFlow` on component `i`. */
  lemma AdvanceComps(vs0: seq<Vertex>, comps0: seq<seq<int>>, rank: (int, int) -> int, comps: seq<seq<int>>, comps1: seq<seq<int>>, i: int, ok: bool)
    requires CompsAt(vs0, comps0, comps, rank, i) && 0 <= i < |comps0|
    requires ok <==> Prepares(vs0, comps0[i], i, rank)
    requires comps1 == (if ok then comps[i := comps[i] + [SourceVid, SinkVid]] else comps)
    ensures CompsAt(vs0, comps0, comps1, rank, i + 1)
  {
    assert comps[i] == comps0[i];
  }

  /** The state of `analysisFlow` after its first `i` rounds, from the state `vs0`, `idx0`, `comps0` it started from. */
  ghost predicate Rounds(vs0: seq<Vertex>, idx0: EdgeIndex, comps0: seq<seq<int>>, rank: (int, int) -> int,
                         vs: seq<Vertex>, idx: EdgeIndex, comps: seq<seq<int>>, i: int)
  {
    && 0 <= i <= |comps0|
    && Pristine(vs0, vs, i) && Cleared(vs) && KeysFrom(vs0, idx0, idx, i)
    && CompsAt(vs0, comps0, comps, rank, i) && Untouched(vs0, comps0, vs, rank, i)
    && Working(vs0, vs)
  }

  /** Round `i` of `analysisFlow`: the component's analysis, then the reset of the source and the sink. */
  method AnalysisRound(ctx: AnalysisContext, i: int, rank: (int, int) -> int, fuel: nat,
                       ghost vs0: seq<Vertex>, ghost idx0: EdgeIndex, ghost comps0: seq<seq<int>>)
    requires Split(vs0, idx0, comps0, ctx.pixelVid) && i < |comps0|
    requires Rounds(vs0, idx0, comps0, rank, ctx.vertices, ctx.edgeIdx, ctx.components, i)
    modifies ctx
    ensures Rounds(vs0, idx0, comps0, rank, ctx.vertices, ctx.edgeIdx, ctx.components, i + 1)
  {
    ReadyFor(vs0, idx0, comps0, ctx.pixelVid, ctx.vertices, ctx.edgeIdx, i);
    ghost var vs, idx, comps := ctx.vertices, ctx.edgeIdx, ctx.components;
    assert comps[i] == comps0[i];
    var ok;
    ghost var net;
    ok, net := RoundFlow(ctx, i, rank, fuel);
    ghost var vs1 := ctx.vertices;
    ResetTerminals(ctx);
    AdvanceVertices(vs0, comps0, rank, vs, vs1, i, ok);
    AdvanceKeys(vs0, idx0, comps0, idx, ctx.edgeIdx, vs, net, i);
    AdvanceComps(vs0, comps0, rank, comps, ctx.components, i, ok);
  }

  /** `FlowComponent` as the loop of `analysisFlow` sees it: what changes, and where. */
  method RoundFlow(ctx: AnalysisContext, cid: int, rank: (int, int) -> int, fuel: nat) returns (ok: bool, ghost net: seq<Vertex>)
    requires 0 <= cid < |ctx.components| && RegionIds(ctx.components[cid], |ctx.vertices|) && Distinct(ctx.components[cid])
    requires Wired(ctx.vertices, ctx.edgeIdx, CompSet(ctx.components[cid]))
    requires OwnsAir(ctx.vertices, ctx.pixelVid, ctx.components[cid])
    requires forall z :: z in CompSet(ctx.components[cid]) && 0 <= z < |ctx.vertices| ==> ctx.vertices[z].indeg == 0
    modifies ctx
    ensures ok <==> Preparable(ComponentSurface(old(ctx.vertices), old(ctx.components[cid]), cid, rank))
    ensures !ok ==> ctx.vertices == old(ctx.vertices) && ctx.edgeIdx == old(ctx.edgeIdx) && ctx.components == old(ctx.components)
    ensures ok ==> Within(old(ctx.vertices), old(ctx.edgeIdx), net, ctx.edgeIdx, CompSet(old(ctx.components[cid])))
    ensures ok ==> ctx.components == old(ctx.components)[cid := old(ctx.components[cid]) + [SourceVid, SinkVid]]
    ensures Working(old(ctx.vertices), ctx.vertices) && Unmoved(old(ctx.vertices), ctx.vertices, CompSet(old(ctx.components[cid])))
  {
    var flow, done;
    ghost var flowed, order;
    ok, flow, done, net, flowed, order := FlowComponent(ctx, cid, rank, fuel, CompSet(ctx.components[cid]));
  }

  /** The reset at the end of a round of `analysisFlow`. */
  method ResetTerminals(ctx: AnalysisContext)
    requires |ctx.vertices| >= 2
    modifies ctx
    ensures ctx.vertices == Reset(old(ctx.vertices))
    ensures ctx.edgeIdx == old(ctx.edgeIdx) && ctx.components == old(ctx.components)
  {
    ctx.vertices := ctx.vertices[SourceVid := ctx.vertices[SourceVid].(edges := [])];
    ctx.vertices := ctx.vertices[SinkVid := ctx.vertices[SinkVid].(edges := [])];
    ctx.vertices := ctx.vertices[SourceVid := ctx.vertices[SourceVid].(indeg := 0)];
    ctx.vertices := ctx.vertices[SinkVid := ctx.vertices[SinkVid].(indeg := 0)];
  }

  /** After every round: the component lists and the vertices as `analysisFlow` promises them. */
  lemma RoundsEnd(vs0: seq<Vertex>, idx0: EdgeIndex, comps0: seq<seq<int>>, rank: (int, int) -> int,
                  vs: seq<Vertex>, idx: EdgeIndex, comps: seq<seq<int>>)
    requires Rounds(vs0, idx0, comps0, rank, vs, idx, comps, |comps0|)
    requires forall z :: 2 <= z < |vs0| ==> 0 <= vs0[z].comp < |comps0|
    ensures |comps| == |comps0|
    ensures forall c {:trigger comps[c]} :: 0 <= c < |comps| ==>
              comps[c] == comps0[c] + (if Prepares(vs0, comps0[c], c, rank) then [SourceVid, SinkVid] else [])
    ensures forall z {:trigger vs[z]} :: 2 <= z < |vs| && !Prepares(vs0, comps0[vs0[z].comp], vs0[z].comp, rank) ==> vs[z] == vs0[z]
  {
    forall c | 0 <= c < |comps| ensures comps[c] == comps0[c] + (if Prepares(vs0, comps0[c], c, rank) then [SourceVid, SinkVid] else []) {
      assert comps0[c] + [] == comps0[c];
    }
  }

  /**
    `analysisFlow`: every component in turn is prepared, and when that
    succeeds its maximum flow is found and its flow results consumed; after
    each the source and the sink are reset. A component gets the source and
    the sink appended exactly when it prepared, the vertices of one that did
    not are left as they were, the index keeps every pair, only the
    working fields of vertices change, and the source and the sink end
    with no edges.
   */
  method AnalysisFlow(ctx: AnalysisContext, rank: (int, int) -> int, fuel: nat)
    requires Split(ctx.vertices, ctx.edgeIdx, ctx.components, ctx.pixelVid)
    modifies ctx
    ensures |ctx.components| == |old(ctx.components)|
    ensures forall c {:trigger ctx.components[c]} :: 0 <= c < |ctx.components| ==>
              ctx.components[c] == old(ctx.components[c]) + (if Prepares(old(ctx.vertices), old(ctx.components[c]), c, rank) then [SourceVid, SinkVid] else [])
    ensures Cleared(ctx.vertices) && Working(old(ctx.vertices), ctx.vertices)
    ensures forall k {:trigger k in old(ctx.edgeIdx)} :: k in old(ctx.edgeIdx) ==> k in ctx.edgeIdx && ctx.edgeIdx[k] == old(ctx.edgeIdx)[k]
    ensures forall z {:trigger ctx.vertices[z]} :: 2 <= z < |ctx.vertices| && !Prepares(old(ctx.vertices), old(ctx.components)[old(ctx.vertices)[z].comp], old(ctx.vertices)[z].comp, rank)
              ==> ctx.vertices[z] == old(ctx.vertices)[z]
  {
    ghost var vs0, idx0, comps0 := ctx.vertices, ctx.edgeIdx, ctx.components;
    var i := 0;
    assert Working(vs0, vs0) && CompsAt(vs0, comps0, comps0, rank, 0);
    while i < |ctx.components|
      invariant Rounds(vs0, idx0, comps0, rank, ctx.vertices, ctx.edgeIdx, ctx.components, i)
      invariant |ctx.components| == |comps0|
      decreases |comps0| - i
    {
      AnalysisRound(ctx, i, rank, fuel, vs0, idx0, comps0);
      i := i + 1;
    }
    RoundsEnd(vs0, idx0, comps0, rank, ctx.vertices, ctx.edgeIdx, ctx.components);
  }

  /** Edges indexed only between region vertices: each leads to a region vertex and back, and the source and the sink have none. */
  lemma RegionEdges(vs: seq<Vertex>, idx: EdgeIndex)
    requires Wired(vs, idx, FlowBuild.Ids(|vs|)) && |vs| >= 2
    requires forall k {:trigger k in idx} :: k in idx ==> 2 <= k.0 < |vs| && 2 <= k.1 < |vs|
    ensures Undirected(vs) && vs[SourceVid].edges == [] && vs[SinkVid].edges == []
  {
    var s := FlowBuild.Ids(|vs|);
    forall u, i | 0 <= u < |vs| && 0 <= i < |vs[u].edges|
      ensures 2 <= u && 2 <= vs[u].edges[i].to < |vs|
      ensures 0 <= vs[u].edges[i].rev < |vs[vs[u].edges[i].to].edges| && BackTo(vs, vs[u].edges[i].to, vs[u].edges[i].rev, u)
    {
      assert u in s;
      assert EdgeOk(vs, idx, s, u, i);
      assert (u, vs[u].edges[i].to) in idx;
    }
    forall u | 0 <= u < |vs| ensures |vs[u].edges| > 0 ==> 2 <= u {
      if |vs[u].edges| > 0 {
        assert u in s && EdgeOk(vs, idx, s, u, 0);
        assert (u, vs[u].edges[0].to) in idx;
      }
    }
  }

  /** Air surfaces as `buildNetwork` collects them lie on the pixel array and carry their vertex. */
  lemma SurfacesOwned(g: Grids.Grid, a: array2<int>, vs: seq<Vertex>)
    requires g.Valid() && a.Length0 == g.width && a.Length1 == g.height
    requires forall z {:trigger vs[z]} :: 0 <= z < |vs| ==> vs[z].air == FlowBuild.AirSurface(g, a, z)
    ensures AirOwned(vs, a)
  {
    forall z, j | 0 <= z < |vs| && 0 <= j < |vs[z].air|
      ensures 0 <= vs[z].air[j].x < a.Length0 && 0 <= vs[z].air[j].y < a.Length1 && a[vs[z].air[j].x, vs[z].air[j].y] == z
    {
      FlowBuild.AirSurfaceMeaning(g, a, z);
      assert vs[z].air[j] in FlowBuild.AirSurface(g, a, z);
    }
  }

  /**
    A network as `buildNetwork` leaves it: every edge leads to a region
    vertex and back, the source and the sink have no edges, and every air
    surface pixel carries its vertex.
   */
  lemma NetworkShape(g: Grids.Grid, a: array2<int>, vs: seq<Vertex>, idx: EdgeIndex, seeds: seq<Point>)
    requires g.Valid() && a.Length0 == g.width && a.Length1 == g.height
    requires FlowBuild.Network(g, a, vs, idx, seeds)
    ensures Undirected(vs) && Cleared(vs) && AirOwned(vs, a)
  {
    RegionEdges(vs, idx);
    SurfacesOwned(g, a, vs);
  }

  /** `calculateGraphConnectedComponents` on such a network leaves what `analysisFlow` starts from. */
  lemma SplitNetwork(vs: seq<Vertex>, idx: EdgeIndex, vs': seq<Vertex>, comps: seq<seq<int>>, a: array2<int>)
    requires Cleared(vs) && AirOwned(vs, a) && Wired(vs, idx, FlowBuild.Ids(|vs|))
    requires forall k {:trigger k in idx} :: k in idx ==> 2 <= k.0 < |vs| && 2 <= k.1 < |vs|
    requires forall z {:trigger vs[z]} :: 0 <= z < |vs| ==> vs[z].indeg == 0
    requires SameButComp(vs, vs') && Listed(vs', comps) && NoCrossing(vs') && Terminals(vs')
    requires forall z :: 2 <= z < |vs'| ==> 0 <= vs'[z].comp < |comps|
    ensures Split(vs', idx, comps, a)
  {
    assert vs'[SourceVid] == vs[SourceVid].(comp := vs'[SourceVid].comp);
    assert vs'[SinkVid] == vs[SinkVid].(comp := vs'[SinkVid].comp);
    WiredEdgesOnly(vs, vs', idx, FlowBuild.Ids(|vs|));
    assert FlowBuild.Ids(|vs|) == FlowBuild.Ids(|vs'|);
    forall z, j | 0 <= z < |vs'| && 0 <= j < |vs'[z].air|
      ensures 0 <= vs'[z].air[j].x < a.Length0 && 0 <= vs'[z].air[j].y < a.Length1 && a[vs'[z].air[j].x, vs'[z].air[j].y] == z
    {
      assert vs'[z].air == vs[z].air;
    }
  }

  /**
    The second half of `fluidAnalysisStep` on a network as `buildNetwork`
    leaves it: the components, then the flow of every component. `split`
    is the network with its components `comps`.
   */
  method ComponentFlow(ctx: AnalysisContext, rank: (int, int) -> int, fuel: nat, ghost g: Grids.Grid, ghost seeds: seq<Point>)
      returns (ghost split: seq<Vertex>, ghost comps: seq<seq<int>>)
    requires g.Valid() && ctx.pixelVid.Length0 == g.width && ctx.pixelVid.Length1 == g.height
    requires FlowBuild.Network(g, ctx.pixelVid, ctx.vertices, ctx.edgeIdx, seeds) && ctx.components == []
    modifies ctx
    ensures SameButComp(old(ctx.vertices), split) && Listed(split, comps) && NoCrossing(split) && Terminals(split)
    ensures |ctx.components| == |comps|
    ensures forall c {:trigger ctx.components[c]} :: 0 <= c < |comps| ==>
              ctx.components[c] == comps[c] + (if Prepares(split, comps[c], c, rank) then [SourceVid, SinkVid] else [])
    ensures Cleared(ctx.vertices) && Working(split, ctx.vertices)
    ensures forall k {:trigger k in old(ctx.edgeIdx)} :: k in old(ctx.edgeIdx) ==> k in ctx.edgeIdx && ctx.edgeIdx[k] == old(ctx.edgeIdx)[k]
  {
    ghost var net, idx := ctx.vertices, ctx.edgeIdx;
    NetworkShape(g, ctx.pixelVid, net, idx, seeds);
    CalculateComponents(ctx);
    split, comps := ctx.vertices, ctx.components;
    SplitNetwork(net, idx, split, comps, ctx.pixelVid);
    AnalysisFlow(ctx, rank, fuel);
  }

  /**
    `fluidAnalysisStep`: the density pass, then on a fresh context the
    network of the world as that pass leaves it, the dirty flags cleared,
    the components, and the flow of every component. `g` is the world the
    network is built from, `net` the network, and `split` the network with
    its components.
   */
  method FluidFlowStep(w: World.PixelWorld, rank: (int, int) -> int, fuel: nat)
      returns (ctx: AnalysisContext, ghost g: Grids.Grid, ghost net: seq<Vertex>, ghost idx: EdgeIndex,
               ghost seeds: seq<Point>, ghost split: seq<Vertex>, ghost comps: seq<seq<int>>)
    requires w.Valid()
    modifies w.tags, w.elems
    ensures g == FluidDensity.DensityFrom(old(w.Cells()), w.height - 2, DensityRows.ByDensity, false)
    ensures w.Cells() == Grids.ClearDirty(g)
    ensures g.Valid() && fresh(ctx.pixelVid) && ctx.pixelVid.Length0 == g.width && ctx.pixelVid.Length1 == g.height
    ensures FlowBuild.Network(g, ctx.pixelVid, net, idx, seeds)
    ensures SameButComp(net, split) && Listed(split, comps) && NoCrossing(split) && Terminals(split)
    ensures |ctx.components| == |comps|
    ensures forall c {:trigger ctx.components[c]} :: 0 <= c < |comps| ==>
              ctx.components[c] == comps[c] + (if Prepares(split, comps[c], c, rank) then [SourceVid, SinkVid] else [])
    ensures Cleared(ctx.vertices) && Working(split, ctx.vertices)
    ensures forall k {:trigger k in idx} :: k in idx ==> k in ctx.edgeIdx && ctx.edgeIdx[k] == idx[k]
  {
    ctx := new AnalysisContext(w.width, w.height);
    FluidDensity.DensityStep(w, DensityRows.ByDensity, false);
    g := w.Cells();
    seeds := FlowBuild.BuildNetwork(w.Cells(), ctx);
    net, idx := ctx.vertices, ctx.edgeIdx;
    w.ResetDirtyFlags();
    split, comps := ComponentFlow(ctx, rank, fuel, g, seeds);
  }
}
