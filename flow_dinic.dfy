// Dinic's maximum flow of src/fallsand/fluidflow.cpp on one component:
// `dinicBFS` levels the vertices by residual distance from the source,
// `dinicDFS` pushes flow along level-increasing residual edges, and
// `maxFlow` repeats the two while the sink is still reached. Every step
// keeps `Wired` (flow within capacity and antisymmetric on each pair of
// edges) and changes nothing but levels, current edges and flows.
module FlowDinic {
  import opened Base
  import opened FlowNetwork

  /** `std::numeric_limits<int>::max()`, the amount the first search may push. */
  const IntMax: int := 0x7fff_ffff

  /** What an edge can still carry. */
  function Residual(e: Edge): int
  {
    e.cap - e.flow
  }

  /** The net flow out of a vertex: the sum of the flows on its edges. */
  function OutFlow(es: seq<Edge>): int
    decreases |es|
  {
    if es == [] then 0 else OutFlow(es[..|es| - 1]) + es[|es| - 1].flow
  }

  /** Changing the flow of one edge changes the net flow by the same amount. */
  lemma {:induction false} OutFlowUpdate(es: seq<Edge>, i: int, f: int)
    requires 0 <= i < |es|
    ensures OutFlow(es[i := es[i].(flow := f)]) == OutFlow(es) + f - es[i].flow
    decreases |es|
  {
    var es' := es[i := es[i].(flow := f)];
    var n := |es| - 1;
    if i < n {
      assert es'[..n] == es[..n][i := es[i].(flow := f)];
      OutFlowUpdate(es[..n], i, f);
    } else {
      assert es'[..n] == es[..n];
    }
  }

  /** The two edge lists agree in everything but the flows. */
  predicate SameEdges(a: seq<Edge>, b: seq<Edge>)
  {
    |a| == |b| && forall i :: 0 <= i < |a| ==> b[i] == a[i].(flow := b[i].flow)
  }

  /** `b` is `a` with only levels, current edges and flows changed. */
  predicate FlowsOnly(a: seq<Vertex>, b: seq<Vertex>)
  {
    && |a| == |b|
    && forall z :: 0 <= z < |a| ==>
         b[z] == a[z].(dep := b[z].dep, curEdge := b[z].curEdge, edges := b[z].edges) && SameEdges(a[z].edges, b[z].edges)
  }

  lemma FlowsOnlySelf(a: seq<Vertex>)
    ensures FlowsOnly(a, a)
  {
  }

  lemma FlowsOnlyTrans(a: seq<Vertex>, b: seq<Vertex>, c: seq<Vertex>)
    requires FlowsOnly(a, b) && FlowsOnly(b, c)
    ensures FlowsOnly(a, c)
  {
    forall z | 0 <= z < |a|
      ensures c[z] == a[z].(dep := c[z].dep, curEdge := c[z].curEdge, edges := c[z].edges) && SameEdges(a[z].edges, c[z].edges)
    {
      assert b[z] == a[z].(dep := b[z].dep, curEdge := b[z].curEdge, edges := b[z].edges);
      forall i | 0 <= i < |a[z].edges| ensures c[z].edges[i] == a[z].edges[i].(flow := c[z].edges[i].flow) {
        assert b[z].edges[i] == a[z].edges[i].(flow := b[z].edges[i].flow);
      }
    }
  }

  /** Edge `i` of `u` and its reverse edge exist. */
  predicate Pushable(vs: seq<Vertex>, u: int, i: int)
  {
    && 0 <= u < |vs| && 0 <= i < |vs[u].edges|
    && 0 <= vs[u].edges[i].to < |vs| && 0 <= vs[u].edges[i].rev < |vs[vs[u].edges[i].to].edges|
  }

  /** `e.flow += c` on edge `i` of `u` and `flow -= c` on its reverse edge. */
  function Push(vs: seq<Vertex>, u: int, i: int, c: int): (r: seq<Vertex>)
    requires Pushable(vs, u, i)
  {
    var e := vs[u].edges[i];
    var vs1 := vs[u := vs[u].(edges := vs[u].edges[i := e.(flow := e.flow + c)])];
    var re := vs1[e.to].edges[e.rev];
    vs1[e.to := vs1[e.to].(edges := vs1[e.to].edges[e.rev := re.(flow := re.flow - c)])]
  }

  /** One edge of the network after a push within the residual capacity. */
  lemma PushEdgeOk(vs: seq<Vertex>, idx: EdgeIndex, s: set<int>, u: int, i: int, c: int, x: int, k: int)
    requires Wired(vs, idx, s) && u in s && 0 <= i < |vs[u].edges| && 0 <= c <= Residual(vs[u].edges[i])
    requires Pushable(vs, u, i) && x in s && 0 <= x < |vs| && 0 <= k < |vs[x].edges|
    ensures |Push(vs, u, i, c)[x].edges| == |vs[x].edges| && EdgeOk(Push(vs, u, i, c), idx, s, x, k)
  {
    var vs1 := Push(vs, u, i, c);
    var e := vs[u].edges[i];
    var w, j := e.to, e.rev;
    assert EdgeOk(vs, idx, s, u, i);
    assert EdgeOk(vs, idx, s, x, k);
    var f := vs[x].edges[k];
    if (x, k) == (u, i) {
      assert vs1[u].edges[i] == e.(flow := e.flow + c);
    } else if (x, k) == (w, j) {
      assert EdgeOk(vs, idx, s, w, j);
    } else {
      assert vs1[x].edges[k] == f;
      assert (f.to, f.rev) != (u, i) && (f.to, f.rev) != (w, j);
      assert vs1[f.to].edges[f.rev] == vs[f.to].edges[f.rev];
    }
  }

  lemma PushWired(vs: seq<Vertex>, idx: EdgeIndex, s: set<int>, u: int, i: int, c: int)
    requires Wired(vs, idx, s) && u in s && 0 <= i < |vs[u].edges| && 0 <= c <= Residual(vs[u].edges[i])
    ensures Pushable(vs, u, i) && Wired(Push(vs, u, i, c), idx, s)
  {
    assert EdgeOk(vs, idx, s, u, i);
    var vs1 := Push(vs, u, i, c);
    forall x, k | x in s && 0 <= x < |vs1| && 0 <= k < |vs1[x].edges| ensures EdgeOk(vs1, idx, s, x, k) {
      PushEdgeOk(vs, idx, s, u, i, c, x, k);
    }
    forall k {:trigger k in idx} | k in idx && k.0 in s && k.1 in s
      ensures 0 <= k.0 < |vs1| && 0 <= idx[k] < |vs1[k.0].edges| && vs1[k.0].edges[idx[k]].to == k.1
    {
    }
  }

  /**
    Pushing at most the residual capacity keeps `Wired`, adds `c` to the
    net flow out of `u`, takes `c` from the net flow out of the far end, and
    changes no other vertex.
   */
  lemma PushKeeps(vs: seq<Vertex>, idx: EdgeIndex, s: set<int>, u: int, i: int, c: int)
    requires Wired(vs, idx, s) && u in s && 0 <= i < |vs[u].edges| && 0 <= c <= Residual(vs[u].edges[i])
    ensures Pushable(vs, u, i)
    ensures var w, vs1 := vs[u].edges[i].to, Push(vs, u, i, c);
            && w in s && w != u && Wired(vs1, idx, s) && FlowsOnly(vs, vs1)
            && vs1[u] == vs[u].(edges := vs1[u].edges) && vs1[w] == vs[w].(edges := vs1[w].edges)
            && (forall z {:trigger vs1[z]} :: 0 <= z < |vs| && z != u && z != w ==> vs1[z] == vs[z])
            && OutFlow(vs1[u].edges) == OutFlow(vs[u].edges) + c
            && OutFlow(vs1[w].edges) == OutFlow(vs[w].edges) - c
  {
    assert EdgeOk(vs, idx, s, u, i);
    PushWired(vs, idx, s, u, i, c);
    var e := vs[u].edges[i];
    var w, j := e.to, e.rev;
    var vs1 := Push(vs, u, i, c);
    OutFlowUpdate(vs[u].edges, i, e.flow + c);
    OutFlowUpdate(vs[w].edges, j, vs[w].edges[j].flow - c);
    forall z | 0 <= z < |vs|
      ensures vs1[z] == vs[z].(dep := vs1[z].dep, curEdge := vs1[z].curEdge, edges := vs1[z].edges) && SameEdges(vs[z].edges, vs1[z].edges)
    {
    }
  }

  /** No level exceeds `k`. */
  ghost predicate LevelsBelow(vs: seq<Vertex>, k: int)
  {
    forall z :: 0 <= z < |vs| ==> vs[z].dep <= k
  }

  /** The current edges of `s` are not negative. */
  ghost predicate Cursors(vs: seq<Vertex>, s: set<int>)
  {
    forall z :: z in s && 0 <= z < |vs| ==> 0 <= vs[z].curEdge
  }

  /**
    `b` is `a` after a search started at level `d`: only levels, current
    edges and flows change, a level changes only to 0, and no vertex outside
    `s` or below level `d` changes at all.
   */
  ghost predicate Searched(a: seq<Vertex>, b: seq<Vertex>, s: set<int>, d: int)
  {
    && FlowsOnly(a, b)
    && (forall z {:trigger b[z]} :: 0 <= z < |a| ==> b[z].dep == a[z].dep || b[z].dep == 0)
    && (forall z {:trigger b[z]} :: 0 <= z < |a| && (z !in s || a[z].dep < d) ==> b[z] == a[z])
  }

  /**
    From `a` to `b` the search from `u` pushed `ret` units from `u` to the
    sink: every other vertex keeps its net flow.
   */
  ghost predicate Conserves(a: seq<Vertex>, b: seq<Vertex>, u: int, ret: int)
  {
    && |a| == |b| && 0 <= SinkVid < |a| && 0 <= u < |a|
    && (forall z {:trigger b[z]} :: 0 <= z < |a| && z != u && z != SinkVid ==> OutFlow(b[z].edges) == OutFlow(a[z].edges))
    && (u == SinkVid ==> OutFlow(b[u].edges) == OutFlow(a[u].edges))
    && (u != SinkVid ==>
          OutFlow(b[u].edges) == OutFlow(a[u].edges) + ret && OutFlow(b[SinkVid].edges) == OutFlow(a[SinkVid].edges) - ret)
  }

  /** What `dinicDFS` from `u` promises about the network it leaves. */
  ghost predicate Augmented(a: seq<Vertex>, b: seq<Vertex>, idx: EdgeIndex, s: set<int>, u: int, k: int, ret: int)
    requires 0 <= u < |a|
  {
    Wired(b, idx, s) && Searched(a, b, s, a[u].dep) && LevelsBelow(b, k) && Cursors(b, s) && Conserves(a, b, u, ret)
  }

  /** The invariant of the edge loop of `dinicDFS` at `u`, from the network `a` it started with. */
  ghost predicate Augmenting(a: seq<Vertex>, b: seq<Vertex>, idx: EdgeIndex, s: set<int>, u: int, k: int, ret: int)
  {
    && 0 <= u < |a| && u in s && SinkVid in s && u != SinkVid
    && Augmented(a, b, idx, s, u, k, ret) && b[u].dep == a[u].dep >= 1
  }

  lemma AugmentingBegins(vs: seq<Vertex>, idx: EdgeIndex, s: set<int>, u: int, k: int)
    requires Wired(vs, idx, s) && u in s && SinkVid in s && u != SinkVid && vs[u].dep >= 1
    requires LevelsBelow(vs, k) && Cursors(vs, s)
    ensures Augmenting(vs, vs, idx, s, u, k, 0)
  {
    FlowsOnlySelf(vs);
  }

  /** Moving on to the next edge keeps the invariant. */
  lemma AugmentingSkips(a: seq<Vertex>, b: seq<Vertex>, b': seq<Vertex>, idx: EdgeIndex, s: set<int>, u: int, k: int, ret: int)
    requires Augmenting(a, b, idx, s, u, k, ret) && 0 <= b[u].curEdge
    requires b' == b[u := b[u].(curEdge := b[u].curEdge + 1)]
    ensures Augmenting(a, b', idx, s, u, k, ret)
  {
    WiredEdgesOnly(b, b', idx, s);
    assert FlowsOnly(b, b');
    FlowsOnlyTrans(a, b, b');
  }

  /** Leaving `u` at level 0 once the whole amount is pushed, as the source does, keeps the promises. */
  lemma AugmentingCloses(a: seq<Vertex>, b: seq<Vertex>, b': seq<Vertex>, idx: EdgeIndex, s: set<int>, u: int, k: int, ret: int)
    requires Augmenting(a, b, idx, s, u, k, ret)
    requires b' == b[u := b[u].(dep := 0)]
    ensures Augmented(a, b', idx, s, u, k, ret)
  {
    WiredEdgesOnly(b, b', idx, s);
    assert FlowsOnly(b, b');
    FlowsOnlyTrans(a, b, b');
  }

  /**
    One augmenting step at `u`: the search from the far end `w` of edge
    `i`, one level down, returned `c`, and `c` more units go along edge `i`.
   */
  /** The search one level down from `u` along edge `i` leaves `u` and edge `i` as they were. */
  lemma AugmentingCalls(vs0: seq<Vertex>, pre: seq<Vertex>, post: seq<Vertex>, idx: EdgeIndex, s: set<int>,
                        u: int, k: int, ret: int, i: int, c: int)
    requires Augmenting(vs0, pre, idx, s, u, k, ret) && 0 <= i < |pre[u].edges|
    requires 0 <= pre[u].edges[i].to < |pre| && pre[pre[u].edges[i].to].dep == pre[u].dep + 1
    requires Augmented(pre, post, idx, s, pre[u].edges[i].to, k, c)
    ensures post[u] == pre[u] && Pushable(post, u, i)
  {
    assert EdgeOk(post, idx, s, u, i);
  }

  /**
    One augmenting step at `u`: the search from the far end `w` of edge
    `i`, one level down, returned `c`, and `c` more units go along edge `i`.
   */
  lemma AugmentingPushes(vs0: seq<Vertex>, pre: seq<Vertex>, post: seq<Vertex>, nx: seq<Vertex>, idx: EdgeIndex, s: set<int>,
                         u: int, k: int, ret: int, i: int, c: int)
    requires Augmenting(vs0, pre, idx, s, u, k, ret) && 0 <= i < |pre[u].edges|
    requires 0 <= pre[u].edges[i].to < |pre| && pre[pre[u].edges[i].to].dep == pre[u].dep + 1
    requires 0 <= c <= Residual(pre[u].edges[i])
    requires Augmented(pre, post, idx, s, pre[u].edges[i].to, k, c)
    requires post[u] == pre[u] && Pushable(post, u, i) && nx == Push(post, u, i, c)
    ensures Augmenting(vs0, nx, idx, s, u, k, ret + c)
    ensures nx[u].curEdge == pre[u].curEdge
  {
    var d := vs0[u].dep;
    var w := pre[u].edges[i].to;
    PushKeeps(post, idx, s, u, i, c);
    FlowsOnlyTrans(vs0, pre, post);
    FlowsOnlyTrans(vs0, post, nx);
    assert pre[w].dep == vs0[w].dep;
    forall z | 0 <= z < |vs0| ensures nx[z].dep == vs0[z].dep || nx[z].dep == 0 {
      assert nx[z].dep == post[z].dep;
    }
    forall z | 0 <= z < |vs0| && (z !in s || vs0[z].dep < d) ensures nx[z] == vs0[z] {
      assert pre[z] == vs0[z];
      assert post[z] == pre[z];
    }
    forall z | 0 <= z < |vs0| ensures nx[z].dep <= k && (z in s ==> 0 <= nx[z].curEdge) {
      assert nx[z].dep == post[z].dep && nx[z].curEdge == post[z].curEdge;
    }
    forall z | 0 <= z < |vs0| && z != u && z != SinkVid ensures OutFlow(nx[z].edges) == OutFlow(vs0[z].edges) {
      assert OutFlow(pre[z].edges) == OutFlow(vs0[z].edges);
      if z != w {
        assert OutFlow(post[z].edges) == OutFlow(pre[z].edges);
      }
    }
  }

  /**
    `dinicDFS`: pushes at most `flow` units from `u` to the sink along edges
    that go one level down and have room left, resuming every vertex's edge
    scan where the last search left it; a vertex that passes on all it was
    asked for drops to level 0. The result is what reached the sink, and
    every vertex other than `u` and the sink keeps its net flow.
   */
  method DinicDFS(ctx: AnalysisContext, u: int, flow: int, ghost s: set<int>, ghost k: int) returns (ret: int)
    requires Wired(ctx.vertices, ctx.edgeIdx, s) && u in s && SinkVid in s
    requires ctx.vertices[u].dep >= 1 && LevelsBelow(ctx.vertices, k) && Cursors(ctx.vertices, s)
    requires 0 <= flow
    modifies ctx
    ensures 0 <= ret <= flow
    ensures u == SinkVid ==> ret == flow && ctx.vertices == old(ctx.vertices)
    ensures Augmented(old(ctx.vertices), ctx.vertices, ctx.edgeIdx, s, u, k, ret)
    ensures ctx.edgeIdx == old(ctx.edgeIdx) && ctx.components == old(ctx.components)
    decreases k - ctx.vertices[u].dep, 2
  {
    ghost var vs0 := ctx.vertices;
    if u == SinkVid {
      FlowsOnlySelf(vs0);
      return flow;
    }
    ret := 0;
    AugmentingBegins(vs0, ctx.edgeIdx, s, u, k);
    while ctx.vertices[u].curEdge < |ctx.vertices[u].edges|
      invariant ctx.edgeIdx == old(ctx.edgeIdx) && ctx.components == old(ctx.components)
      invariant Augmenting(vs0, ctx.vertices, ctx.edgeIdx, s, u, k, ret)
      invariant 0 <= ret <= flow
      decreases |ctx.vertices[u].edges| - ctx.vertices[u].curEdge
    {
      var closed;
      ret, closed := ScanEdge(ctx, u, flow, ret, vs0, s, k);
      if closed {
        return ret;
      }
    }
  }

  /**
    One round of the edge loop of `dinicDFS` at `u`, at its current edge:
    either the whole amount has now been pushed and `u` is closed at level
    0, or the scan moves on to the next edge.
   */
  method ScanEdge(ctx: AnalysisContext, u: int, flow: int, ret0: int, ghost vs0: seq<Vertex>, ghost s: set<int>,
                  ghost k: int) returns (ret: int, closed: bool)
    requires Augmenting(vs0, ctx.vertices, ctx.edgeIdx, s, u, k, ret0) && 0 <= ret0 <= flow
    requires ctx.vertices[u].curEdge < |ctx.vertices[u].edges|
    modifies ctx
    ensures ret0 <= ret <= flow
    ensures closed ==> ret == flow && Augmented(vs0, ctx.vertices, ctx.edgeIdx, s, u, k, ret)
    ensures !closed ==> Augmenting(vs0, ctx.vertices, ctx.edgeIdx, s, u, k, ret)
    ensures !closed ==> ctx.vertices[u].curEdge == old(ctx.vertices[u].curEdge) + 1
    ensures |ctx.vertices[u].edges| == |old(ctx.vertices[u].edges)|
    ensures ctx.edgeIdx == old(ctx.edgeIdx) && ctx.components == old(ctx.components)
    decreases k - ctx.vertices[u].dep, 1
  {
    var i := ctx.vertices[u].curEdge;
    var e := ctx.vertices[u].edges[i];
    assert EdgeOk(ctx.vertices, ctx.edgeIdx, s, u, i);
    ret := ret0;
    if ctx.vertices[e.to].dep == ctx.vertices[u].dep + 1 && e.flow < e.cap {
      var c := PushAlong(ctx, u, i, flow - ret, vs0, s, k, ret);
      ret := ret + c;
      if ret == flow {
        ghost var b := ctx.vertices;
        ctx.vertices := ctx.vertices[u := ctx.vertices[u].(dep := 0)];
        AugmentingCloses(vs0, b, ctx.vertices, ctx.edgeIdx, s, u, k, ret);
        return ret, true;
      }
    }
    ghost var b := ctx.vertices;
    ctx.vertices := ctx.vertices[u := ctx.vertices[u].(curEdge := ctx.vertices[u].curEdge + 1)];
    AugmentingSkips(vs0, b, ctx.vertices, ctx.edgeIdx, s, u, k, ret);
    closed := false;
  }

  /**
    The body of the edge loop of `dinicDFS` when edge `i` of `u` goes one
    level down and has room: search from its far end for at most `room`
    units and push what comes back along the edge and against its reverse.
   */
  method PushAlong(ctx: AnalysisContext, u: int, i: int, room: int, ghost vs0: seq<Vertex>, ghost s: set<int>,
                   ghost k: int, ghost ret: int) returns (c: int)
    requires Augmenting(vs0, ctx.vertices, ctx.edgeIdx, s, u, k, ret) && 0 <= room
    requires 0 <= i < |ctx.vertices[u].edges| && 0 <= ctx.vertices[u].edges[i].to < |ctx.vertices|
    requires ctx.vertices[ctx.vertices[u].edges[i].to].dep == ctx.vertices[u].dep + 1
    requires ctx.vertices[u].edges[i].flow < ctx.vertices[u].edges[i].cap
    modifies ctx
    ensures 0 <= c <= room
    ensures Augmenting(vs0, ctx.vertices, ctx.edgeIdx, s, u, k, ret + c)
    ensures ctx.vertices[u].curEdge == old(ctx.vertices[u].curEdge)
    ensures |ctx.vertices[u].edges| == |old(ctx.vertices[u].edges)|
    ensures ctx.edgeIdx == old(ctx.edgeIdx) && ctx.components == old(ctx.components)
    decreases k - ctx.vertices[u].dep, 0
  {
    var e := ctx.vertices[u].edges[i];
    assert EdgeOk(ctx.vertices, ctx.edgeIdx, s, u, i);
    ghost var pre := ctx.vertices;
    c := DinicDFS(ctx, e.to, Min(room, e.cap - e.flow), s, k);
    ghost var post := ctx.vertices;
    AugmentingCalls(vs0, pre, post, ctx.edgeIdx, s, u, k, ret, i, c);
    ctx.vertices := Push(ctx.vertices, u, i, c);
    AugmentingPushes(vs0, pre, post, ctx.vertices, ctx.edgeIdx, s, u, k, ret, i, c);
  }

  /** `b` is `a` with only levels and current edges changed. */
  ghost predicate Relabelled(a: seq<Vertex>, b: seq<Vertex>)
  {
    |a| == |b| && forall z {:trigger b[z]} :: 0 <= z < |a| ==> b[z] == a[z].(dep := b[z].dep, curEdge := b[z].curEdge)
  }

  lemma RelabelledFlowsOnly(a: seq<Vertex>, b: seq<Vertex>, idx: EdgeIndex, s: set<int>)
    requires Relabelled(a, b) && Wired(a, idx, s)
    ensures FlowsOnly(a, b) && Wired(b, idx, s)
  {
    forall z | 0 <= z < |a| ensures b[z].edges == a[z].edges && SameEdges(a[z].edges, b[z].edges) {
      assert b[z] == a[z].(dep := b[z].dep, curEdge := b[z].curEdge);
    }
    WiredEdgesOnly(a, b, idx, s);
  }

  /** No vertex outside `s` changes from `a` to `b`. */
  ghost predicate Unmoved(a: seq<Vertex>, b: seq<Vertex>, s: set<int>)
  {
    |a| == |b| && forall z {:trigger b[z]} :: 0 <= z < |a| && z !in s ==> b[z] == a[z]
  }

  lemma RelabelledTrans(a: seq<Vertex>, b: seq<Vertex>, c: seq<Vertex>, s: set<int>)
    requires Relabelled(a, b) && Relabelled(b, c) && Unmoved(a, b, s) && Unmoved(b, c, s)
    ensures Relabelled(a, c) && Unmoved(a, c, s)
  {
    forall z | 0 <= z < |a| ensures c[z] == a[z].(dep := c[z].dep, curEdge := c[z].curEdge) {
      assert b[z] == a[z].(dep := b[z].dep, curEdge := b[z].curEdge);
    }
  }

  /** `b` is `a` with only levels changed. */
  ghost predicate Relevelled(a: seq<Vertex>, b: seq<Vertex>)
  {
    |a| == |b| && forall z {:trigger b[z]} :: 0 <= z < |a| ==> b[z] == a[z].(dep := b[z].dep)
  }

  lemma RelevelledRelabelled(a: seq<Vertex>, b: seq<Vertex>)
    requires Relevelled(a, b)
    ensures Relabelled(a, b)
  {
    forall z | 0 <= z < |a| ensures b[z] == a[z].(dep := b[z].dep, curEdge := b[z].curEdge) {
      assert b[z] == a[z].(dep := b[z].dep);
    }
  }

  lemma RelevelledTrans(a: seq<Vertex>, b: seq<Vertex>, c: seq<Vertex>, s: set<int>)
    requires Relevelled(a, b) && Relevelled(b, c) && Unmoved(a, b, s) && Unmoved(b, c, s)
    ensures Relevelled(a, c) && Unmoved(a, c, s)
  {
    forall z | 0 <= z < |a| ensures c[z] == a[z].(dep := c[z].dep) {
      assert b[z] == a[z].(dep := b[z].dep);
    }
  }

  /**
    A walk from `a` to `b` in the residual network: `w` lists the vertex
    and the edge taken at each step, and every edge taken has room left.
   */
  ghost predicate Walk(vs: seq<Vertex>, a: int, w: seq<(int, int)>, b: int)
    decreases |w|
  {
    if w == [] then a == b
    else
      && w[0].0 == a && 0 <= a < |vs| && 0 <= w[0].1 < |vs[a].edges| && Residual(vs[a].edges[w[0].1]) > 0
      && Walk(vs, vs[a].edges[w[0].1].to, w[1..], b)
  }

  /** A walk extended by one residual edge at its end. */
  lemma {:induction false} WalkExtends(vs: seq<Vertex>, a: int, w: seq<(int, int)>, b: int, i: int)
    requires Walk(vs, a, w, b) && 0 <= b < |vs| && 0 <= i < |vs[b].edges| && Residual(vs[b].edges[i]) > 0
    ensures Walk(vs, a, w + [(b, i)], vs[b].edges[i].to)
    decreases |w|
  {
    if w == [] {
      assert Walk(vs, vs[b].edges[i].to, [], vs[b].edges[i].to);
      assert ([] + [(b, i)])[1..] == [];
    } else {
      WalkExtends(vs, vs[a].edges[w[0].1].to, w[1..], b, i);
      assert (w + [(b, i)])[1..] == w[1..] + [(b, i)];
    }
  }

  /** Walks use only edges, so they do not see levels or current edges. */
  lemma {:induction false} WalkRelabelled(a: seq<Vertex>, b: seq<Vertex>, x: int, w: seq<(int, int)>, y: int)
    requires Relabelled(a, b)
    ensures Walk(a, x, w, y) <==> Walk(b, x, w, y)
    decreases |w|
  {
    if w != [] && 0 <= x < |a| && 0 <= w[0].1 < |a[x].edges| {
      assert b[x] == a[x].(dep := b[x].dep, curEdge := b[x].curEdge);
      WalkRelabelled(a, b, a[x].edges[w[0].1].to, w[1..], y);
    }
  }

  /** Edges `0 .. j` of `x` that have room left all lead to labelled vertices. */
  ghost predicate ClosedUpTo(vs: seq<Vertex>, x: int, j: int)
  {
    && 0 <= x < |vs|
    && forall i :: 0 <= i < j && i < |vs[x].edges| && Residual(vs[x].edges[i]) > 0 ==>
         0 <= vs[x].edges[i].to < |vs| && vs[vs[x].edges[i].to].dep != 0
  }

  /** Every edge of `x` that has room left leads to a labelled vertex. */
  ghost predicate Closed(vs: seq<Vertex>, x: int)
  {
    0 <= x < |vs| && ClosedUpTo(vs, x, |vs[x].edges|)
  }

  /** `z` was labelled, one level below `x`, over edge `pz.1` of `pz.0` which had room left. */
  ghost predicate Parented(vs: seq<Vertex>, s: set<int>, z: int, pz: (int, int))
  {
    && 0 <= z < |vs| && pz.0 in s && 0 <= pz.0 < |vs| && 0 <= pz.1 < |vs[pz.0].edges|
    && vs[pz.0].edges[pz.1].to == z && Residual(vs[pz.0].edges[pz.1]) > 0
    && 1 <= vs[pz.0].dep && vs[z].dep == vs[pz.0].dep + 1
  }

  /**
    The invariant of the queue loop of `dinicBFS`: `l` is the set of
    labelled vertices of `s`, the source at level 1 and every other one
    one level below the vertex that labelled it; the queue holds labelled
    vertices, and every labelled vertex no longer queued is closed.
   */
  ghost predicate Levelled(vs: seq<Vertex>, s: set<int>, l: set<int>, q: seq<int>, parent: map<int, (int, int)>)
  {
    && l <= s && SourceVid in l && (forall z :: z in s ==> 0 <= z < |vs|)
    && (forall z :: z in s ==> 0 <= vs[z].dep && (z in l <==> vs[z].dep != 0))
    && vs[SourceVid].dep == 1
    && (forall z :: z in l && z != SourceVid ==> z in parent && Parented(vs, s, z, parent[z]))
    && (forall x :: x in q ==> x in l)
    && (forall x :: x in l && x !in q ==> Closed(vs, x))
  }

  /** Labelling an unlabelled vertex `y` of `s` keeps what labelled vertices had. */
  lemma LabelKeeps(vs: seq<Vertex>, s: set<int>, l: set<int>, parent: map<int, (int, int)>, y: int, d: int, vs': seq<Vertex>)
    requires l <= s && y in s && y !in l && 0 <= y < |vs| && d != 0 && vs' == vs[y := vs[y].(dep := d)]
    requires forall z :: z in s ==> 0 <= z < |vs| && (z in l <==> vs[z].dep != 0)
    ensures Relevelled(vs, vs')
    ensures forall x, j :: ClosedUpTo(vs, x, j) ==> ClosedUpTo(vs', x, j)
    ensures forall z :: z in l && z in parent && Parented(vs, s, z, parent[z]) ==> Parented(vs', s, z, parent[z])
  {
    forall x, j | ClosedUpTo(vs, x, j) ensures ClosedUpTo(vs', x, j) {
      assert vs'[x].edges == vs[x].edges;
    }
  }

  /** One edge of `u` in the edge loop of `dinicBFS`, taking its far end `y` into the queue. */
  lemma LabelStep(vs: seq<Vertex>, idx: EdgeIndex, s: set<int>, l: set<int>, q: seq<int>, parent: map<int, (int, int)>,
                  u: int, j: int, vs': seq<Vertex>)
    requires Wired(vs, idx, s) && Levelled(vs, s, l, [u] + q, parent) && ClosedUpTo(vs, u, j)
    requires u in l && 0 <= j < |vs[u].edges| && 0 <= vs[u].edges[j].to < |vs|
    requires vs[vs[u].edges[j].to].dep == 0 && Residual(vs[u].edges[j]) > 0
    requires vs' == vs[vs[u].edges[j].to := vs[vs[u].edges[j].to].(dep := vs[u].dep + 1)]
    ensures var y := vs[u].edges[j].to;
            && Relevelled(vs, vs') && Unmoved(vs, vs', s) && y in s && y !in l
            && Levelled(vs', s, l + {y}, [u] + (q + [y]), parent[y := (u, j)]) && ClosedUpTo(vs', u, j + 1)
  {
    var y := vs[u].edges[j].to;
    assert EdgeOk(vs, idx, s, u, j);
    LabelKeeps(vs, s, l, parent, y, vs[u].dep + 1, vs');
    var l', q', p' := l + {y}, [u] + (q + [y]), parent[y := (u, j)];
    assert Parented(vs', s, y, (u, j));
    forall x | x in l' && x !in q' ensures Closed(vs', x) {
      assert x in l && x !in [u] + q;
      assert ClosedUpTo(vs, x, |vs[x].edges|);
    }
    forall x | x in q' ensures x in l' {
      if x != y {
        assert x in [u] + q;
      }
    }
  }

  /** An edge of `u` whose far end is labelled already, or that has no room, leaves the queue as it is. */
  lemma PassStep(vs: seq<Vertex>, idx: EdgeIndex, s: set<int>, u: int, j: int)
    requires Wired(vs, idx, s) && u in s && ClosedUpTo(vs, u, j) && 0 <= j < |vs[u].edges| && 0 <= vs[u].edges[j].to < |vs|
    requires !(vs[vs[u].edges[j].to].dep == 0 && Residual(vs[u].edges[j]) > 0)
    ensures ClosedUpTo(vs, u, j + 1)
  {
    assert EdgeOk(vs, idx, s, u, j);
  }

  /** Labelling more of `s` leaves fewer of it unlabelled. */
  lemma FewerLeft(s: set<int>, l0: set<int>, l: set<int>)
    requires l0 <= l <= s && |l0| < |l|
    ensures |s - l| < |s - l0|
  {
    assert s - l0 == (s - l) + (l - l0);
    assert (s - l) * (l - l0) == {};
    assert l == l0 + (l - l0);
  }

  /** One round of the edge loop of `dinicBFS`: edge `j` of `u` labels and queues its far end if that is unlabelled and the edge has room. */
  method VisitEdge(ctx: AnalysisContext, u: int, j: int, q0: seq<int>, ghost s: set<int>, ghost l0: set<int>,
                   ghost p0: map<int, (int, int)>) returns (q: seq<int>, ghost l: set<int>, ghost parent: map<int, (int, int)>)
    requires Wired(ctx.vertices, ctx.edgeIdx, s) && Levelled(ctx.vertices, s, l0, [u] + q0, p0) && u in l0
    requires ClosedUpTo(ctx.vertices, u, j) && 0 <= j < |ctx.vertices[u].edges|
    modifies ctx
    ensures Relevelled(old(ctx.vertices), ctx.vertices) && Wired(ctx.vertices, ctx.edgeIdx, s)
    ensures Levelled(ctx.vertices, s, l, [u] + q, parent) && ClosedUpTo(ctx.vertices, u, j + 1)
    ensures l0 <= l <= s && ((l == l0 && q == q0) || |l0| < |l|)
    ensures Unmoved(old(ctx.vertices), ctx.vertices, s)
    ensures ctx.edgeIdx == old(ctx.edgeIdx) && ctx.components == old(ctx.components)
  {
    q, l, parent := q0, l0, p0;
    var e := ctx.vertices[u].edges[j];
    assert EdgeOk(ctx.vertices, ctx.edgeIdx, s, u, j);
    if ctx.vertices[e.to].dep == 0 && e.flow < e.cap {
      ghost var vs := ctx.vertices;
      ctx.vertices := ctx.vertices[e.to := ctx.vertices[e.to].(dep := ctx.vertices[u].dep + 1)];
      LabelStep(vs, ctx.edgeIdx, s, l, q, parent, u, j, ctx.vertices);
      RelevelledRelabelled(vs, ctx.vertices);
      RelabelledFlowsOnly(vs, ctx.vertices, ctx.edgeIdx, s);
      q, l, parent := q + [e.to], l + {e.to}, parent[e.to := (u, j)];
    } else {
      PassStep(ctx.vertices, ctx.edgeIdx, s, u, j);
      assert Relevelled(ctx.vertices, ctx.vertices) && Unmoved(ctx.vertices, ctx.vertices, s);
    }
  }

  /** The edge loop of `dinicBFS` for the vertex `u` just taken off the queue. */
  method LabelEdges(ctx: AnalysisContext, u: int, q0: seq<int>, ghost s: set<int>, ghost l0: set<int>,
                    ghost p0: map<int, (int, int)>) returns (q: seq<int>, ghost l: set<int>, ghost parent: map<int, (int, int)>)
    requires Wired(ctx.vertices, ctx.edgeIdx, s) && Levelled(ctx.vertices, s, l0, [u] + q0, p0) && u in l0
    modifies ctx
    ensures Relevelled(old(ctx.vertices), ctx.vertices) && Wired(ctx.vertices, ctx.edgeIdx, s)
    ensures Levelled(ctx.vertices, s, l, q, parent)
    ensures l0 <= l && ((l == l0 && q == q0) || |l0| < |l|)
    ensures Unmoved(old(ctx.vertices), ctx.vertices, s)
    ensures ctx.edgeIdx == old(ctx.edgeIdx) && ctx.components == old(ctx.components)
  {
    q, l, parent := q0, l0, p0;
    assert Relevelled(ctx.vertices, ctx.vertices) && Unmoved(ctx.vertices, ctx.vertices, s);
    var j := 0;
    while j < |ctx.vertices[u].edges|
      invariant ctx.edgeIdx == old(ctx.edgeIdx) && ctx.components == old(ctx.components)
      invariant Relevelled(old(ctx.vertices), ctx.vertices) && Wired(ctx.vertices, ctx.edgeIdx, s)
      invariant 0 <= j <= |ctx.vertices[u].edges|
      invariant Levelled(ctx.vertices, s, l, [u] + q, parent) && ClosedUpTo(ctx.vertices, u, j)
      invariant l0 <= l <= s && ((l == l0 && q == q0) || |l0| < |l|)
      invariant Unmoved(old(ctx.vertices), ctx.vertices, s)
      decreases |ctx.vertices[u].edges| - j
    {
      ghost var vs := ctx.vertices;
      q, l, parent := VisitEdge(ctx, u, j, q, s, l, parent);
      RelevelledTrans(old(ctx.vertices), vs, ctx.vertices, s);
      j := j + 1;
    }
    forall x | x in l && x !in q ensures Closed(ctx.vertices, x) {
      if x != u {
        assert x !in [u] + q;
      }
    }
  }

  /** The first loop of `dinicBFS`: every vertex of the component back to level 0 and its first edge. */
  method ResetLevels(ctx: AnalysisContext, cid: int, ghost s: set<int>)
    requires 0 <= cid < |ctx.components| && (forall z :: z in ctx.components[cid] ==> z in s)
    requires forall z :: z in s ==> 0 <= z < |ctx.vertices|
    modifies ctx
    ensures ctx.edgeIdx == old(ctx.edgeIdx) && ctx.components == old(ctx.components)
    ensures Relabelled(old(ctx.vertices), ctx.vertices) && Unmoved(old(ctx.vertices), ctx.vertices, s)
    ensures forall z :: z in ctx.components[cid] ==> ctx.vertices[z].dep == 0 && ctx.vertices[z].curEdge == 0
  {
    var ids := ctx.components[cid];
    forall j | 0 <= j < |ids| ensures 0 <= ids[j] < |ctx.vertices| {
      assert ids[j] in ids;
    }
    var t := 0;
    while t < |ids|
      invariant 0 <= t <= |ids| && ctx.edgeIdx == old(ctx.edgeIdx) && ctx.components == old(ctx.components)
      invariant Relabelled(old(ctx.vertices), ctx.vertices) && Unmoved(old(ctx.vertices), ctx.vertices, s)
      invariant forall j :: 0 <= j < |ids| ==> 0 <= ids[j] < |ctx.vertices|
      invariant forall j :: 0 <= j < t ==> ctx.vertices[ids[j]].dep == 0 && ctx.vertices[ids[j]].curEdge == 0
    {
      var z := ids[t];
      ctx.vertices := ctx.vertices[z := ctx.vertices[z].(dep := 0, curEdge := 0)];
      t := t + 1;
    }
  }

  /** The queue of `dinicBFS` before its loop: only the source, at level 1. */
  lemma QueueBegins(vs: seq<Vertex>, s: set<int>, vs': seq<Vertex>)
    requires SourceVid in s && (forall z :: z in s ==> 0 <= z < |vs| && vs[z].dep == 0)
    requires vs' == vs[SourceVid := vs[SourceVid].(dep := 1)]
    ensures Relevelled(vs, vs') && Unmoved(vs, vs', s)
    ensures Levelled(vs', s, {SourceVid}, [SourceVid], map[])
  {
  }

  /** Every vertex a residual walk reaches from a labelled vertex is labelled, once all labelled vertices are closed. */
  lemma {:induction false} ClosedReach(vs: seq<Vertex>, idx: EdgeIndex, s: set<int>, a: int, w: seq<(int, int)>, b: int)
    requires Wired(vs, idx, s) && a in s && vs[a].dep != 0 && Walk(vs, a, w, b)
    requires forall x :: x in s && vs[x].dep != 0 ==> Closed(vs, x)
    ensures b in s && vs[b].dep != 0
    decreases |w|
  {
    if w != [] {
      assert Closed(vs, a);
      assert EdgeOk(vs, idx, s, a, w[0].1);
      ClosedReach(vs, idx, s, vs[a].edges[w[0].1].to, w[1..], b);
    }
  }

  /** Following the labelling edges back from a labelled vertex gives a residual walk to it from the source. */
  lemma {:induction false} ParentWalk(vs: seq<Vertex>, s: set<int>, l: set<int>, parent: map<int, (int, int)>, z: int)
    returns (w: seq<(int, int)>)
    requires Levelled(vs, s, l, [], parent) && z in l
    ensures Walk(vs, SourceVid, w, z)
    decreases vs[z].dep
  {
    if z == SourceVid {
      w := [];
    } else {
      var (x, i) := parent[z];
      assert Parented(vs, s, z, (x, i));
      var w' := ParentWalk(vs, s, l, parent, x);
      WalkExtends(vs, SourceVid, w', x, i);
      w := w' + [(x, i)];
    }
  }

  /** The queue loop of `dinicBFS`, from the source alone at level 1 until the queue runs empty. */
  method DrainQueue(ctx: AnalysisContext, ghost s: set<int>) returns (ghost l: set<int>, ghost parent: map<int, (int, int)>)
    requires Wired(ctx.vertices, ctx.edgeIdx, s) && Levelled(ctx.vertices, s, {SourceVid}, [SourceVid], map[])
    modifies ctx
    ensures Relevelled(old(ctx.vertices), ctx.vertices) && Unmoved(old(ctx.vertices), ctx.vertices, s)
    ensures Wired(ctx.vertices, ctx.edgeIdx, s) && Levelled(ctx.vertices, s, l, [], parent)
    ensures ctx.edgeIdx == old(ctx.edgeIdx) && ctx.components == old(ctx.components)
  {
    var q := [SourceVid];
    l, parent := {SourceVid}, map[];
    assert Relevelled(ctx.vertices, ctx.vertices) && Unmoved(ctx.vertices, ctx.vertices, s);
    while |q| > 0
      invariant ctx.edgeIdx == old(ctx.edgeIdx) && ctx.components == old(ctx.components)
      invariant Relevelled(old(ctx.vertices), ctx.vertices) && Unmoved(old(ctx.vertices), ctx.vertices, s)
      invariant Wired(ctx.vertices, ctx.edgeIdx, s) && Levelled(ctx.vertices, s, l, q, parent)
      decreases |s - l|, |q|
    {
      var u := q[0];
      q := q[1..];
      ghost var vs, l0 := ctx.vertices, l;
      q, l, parent := LabelEdges(ctx, u, q, s, l, parent);
      RelevelledTrans(old(ctx.vertices), vs, ctx.vertices, s);
      if l != l0 {
        FewerLeft(s, l0, l);
      }
    }
  }

  /**
    `dinicBFS`: levels the vertices of the component by residual distance
    from the source (the source at level 1, unreached vertices at 0) and
    resets their current edges; it reports whether the sink was reached.
    The labelling is closed, so the sink is reached exactly when some
    residual walk leads from the source to it.
   */
  method DinicBFS(ctx: AnalysisContext, cid: int, ghost s: set<int>) returns (found: bool, ghost path: seq<(int, int)>)
    requires 0 <= cid < |ctx.components| && (forall z :: z in s <==> z in ctx.components[cid])
    requires SourceVid in s && SinkVid in s && Wired(ctx.vertices, ctx.edgeIdx, s)
    modifies ctx
    ensures Relabelled(old(ctx.vertices), ctx.vertices) && Unmoved(old(ctx.vertices), ctx.vertices, s)
    ensures Wired(ctx.vertices, ctx.edgeIdx, s)
    ensures found <==> ctx.vertices[SinkVid].dep != 0
    ensures ctx.vertices[SourceVid].dep == 1
    ensures forall z :: z in s ==> ctx.vertices[z].curEdge == 0 && 0 <= ctx.vertices[z].dep
    ensures forall x :: x in s && ctx.vertices[x].dep != 0 ==> Closed(ctx.vertices, x)
    ensures found ==> Walk(ctx.vertices, SourceVid, path, SinkVid)
    ensures !found ==> forall w :: !Walk(ctx.vertices, SourceVid, w, SinkVid)
    ensures ctx.edgeIdx == old(ctx.edgeIdx) && ctx.components == old(ctx.components)
  {
    ResetLevels(ctx, cid, s);
    ghost var vr := ctx.vertices;
    RelabelledFlowsOnly(old(ctx.vertices), vr, ctx.edgeIdx, s);
    ctx.vertices := ctx.vertices[SourceVid := ctx.vertices[SourceVid].(dep := 1)];
    QueueBegins(vr, s, ctx.vertices);
    RelevelledRelabelled(vr, ctx.vertices);
    RelabelledFlowsOnly(vr, ctx.vertices, ctx.edgeIdx, s);
    ghost var vb := ctx.vertices;
    ghost var l, parent := DrainQueue(ctx, s);
    RelevelledTrans(vr, vb, ctx.vertices, s);
    RelevelledRelabelled(vr, ctx.vertices);
    RelabelledTrans(old(ctx.vertices), vr, ctx.vertices, s);
    found := ctx.vertices[SinkVid].dep != 0;
    path := [];
    if found {
      path := ParentWalk(ctx.vertices, s, l, parent, SinkVid);
    } else {
      forall w | Walk(ctx.vertices, SourceVid, w, SinkVid) ensures false {
        ClosedReach(ctx.vertices, ctx.edgeIdx, s, SourceVid, w, SinkVid);
      }
    }
  }

  /** The highest level of any vertex (0 for none), the bound on the depth of `dinicDFS`'s recursion. */
  ghost function MaxDep(vs: seq<Vertex>): (r: int)
    ensures LevelsBelow(vs, r)
  {
    if |vs| == 0 then 0
    else
      var r := Max(MaxDep(vs[..|vs| - 1]), vs[|vs| - 1].dep);
      assert forall z :: 0 <= z < |vs| - 1 ==> vs[z] == vs[..|vs| - 1][z];
      r
  }

  /** Relabelling changes no net flow. */
  lemma RelabelledConserves(a: seq<Vertex>, b: seq<Vertex>, u: int)
    requires Relabelled(a, b) && 0 <= SinkVid < |a| && 0 <= u < |a|
    ensures Conserves(a, b, u, 0)
  {
    forall z | 0 <= z < |a| ensures OutFlow(b[z].edges) == OutFlow(a[z].edges) {
      assert b[z] == a[z].(dep := b[z].dep, curEdge := b[z].curEdge);
    }
  }

  lemma ConservesTrans(a: seq<Vertex>, b: seq<Vertex>, c: seq<Vertex>, u: int, x: int, y: int)
    requires Conserves(a, b, u, x) && Conserves(b, c, u, y)
    ensures Conserves(a, c, u, x + y)
  {
  }

  lemma UnmovedTrans(a: seq<Vertex>, b: seq<Vertex>, c: seq<Vertex>, s: set<int>)
    requires Unmoved(a, b, s) && Unmoved(b, c, s)
    ensures Unmoved(a, c, s)
  {
  }

  /**
    One round of the loop of `maxFlow`: level by `dinicBFS`, then, when the
    sink was reached, one `dinicDFS` from the source with an unbounded
    amount. When the sink was not reached nothing changes but levels and
    current edges.
   */
  method DinicRound(ctx: AnalysisContext, cid: int, ghost s: set<int>) returns (pushed: int, found: bool)
    requires 0 <= cid < |ctx.components| && (forall z :: z in s <==> z in ctx.components[cid])
    requires SourceVid in s && SinkVid in s && Wired(ctx.vertices, ctx.edgeIdx, s)
    modifies ctx
    ensures 0 <= pushed <= IntMax && (!found ==> pushed == 0)
    ensures Wired(ctx.vertices, ctx.edgeIdx, s) && FlowsOnly(old(ctx.vertices), ctx.vertices)
    ensures Unmoved(old(ctx.vertices), ctx.vertices, s)
    ensures Conserves(old(ctx.vertices), ctx.vertices, SourceVid, pushed)
    ensures !found ==> forall w :: !Walk(ctx.vertices, SourceVid, w, SinkVid)
    ensures ctx.edgeIdx == old(ctx.edgeIdx) && ctx.components == old(ctx.components)
  {
    ghost var path;
    found, path := DinicBFS(ctx, cid, s);
    ghost var v1 := ctx.vertices;
    RelabelledFlowsOnly(old(ctx.vertices), v1, ctx.edgeIdx, s);
    RelabelledConserves(old(ctx.vertices), v1, SourceVid);
    if !found {
      return 0, false;
    }
    pushed := DinicDFS(ctx, SourceVid, IntMax, s, MaxDep(ctx.vertices));
    FlowsOnlyTrans(old(ctx.vertices), v1, ctx.vertices);
    ConservesTrans(old(ctx.vertices), v1, ctx.vertices, SourceVid, 0, pushed);
    UnmovedTrans(old(ctx.vertices), v1, ctx.vertices, s);
  }

  /**
    `maxFlow`: alternates `dinicBFS` and a `dinicDFS` from the source with
    an unbounded amount while the sink is reached, for at most `fuel`
    rounds. `total` is what left the source, and the same arrived at the
    sink; every other vertex keeps its net flow; flows stay within
    capacity and antisymmetric. When `done`, the last search found the sink
    unreachable: no residual walk leads from the source to the sink.
   */
  method MaxFlow(ctx: AnalysisContext, cid: int, fuel: nat, ghost s: set<int>) returns (total: int, done: bool)
    requires 0 <= cid < |ctx.components| && (forall z :: z in s <==> z in ctx.components[cid])
    requires SourceVid in s && SinkVid in s && Wired(ctx.vertices, ctx.edgeIdx, s)
    modifies ctx
    ensures 0 <= total
    ensures Wired(ctx.vertices, ctx.edgeIdx, s) && FlowsOnly(old(ctx.vertices), ctx.vertices)
    ensures Unmoved(old(ctx.vertices), ctx.vertices, s)
    ensures Conserves(old(ctx.vertices), ctx.vertices, SourceVid, total)
    ensures done ==> forall w :: !Walk(ctx.vertices, SourceVid, w, SinkVid)
    ensures ctx.edgeIdx == old(ctx.edgeIdx) && ctx.components == old(ctx.components)
  {
    total, done := 0, false;
    FlowsOnlySelf(ctx.vertices);
    assert Unmoved(ctx.vertices, ctx.vertices, s);
    var round := 0;
    while round < fuel
      invariant ctx.edgeIdx == old(ctx.edgeIdx) && ctx.components == old(ctx.components)
      invariant 0 <= total && Wired(ctx.vertices, ctx.edgeIdx, s) && FlowsOnly(old(ctx.vertices), ctx.vertices)
      invariant Unmoved(old(ctx.vertices), ctx.vertices, s)
      invariant Conserves(old(ctx.vertices), ctx.vertices, SourceVid, total)
      decreases fuel - round
    {
      ghost var v0 := ctx.vertices;
      var pushed, found := DinicRound(ctx, cid, s);
      if !found {
        done := true;
        return;
      }
      FlowsOnlyTrans(old(ctx.vertices), v0, ctx.vertices);
      ConservesTrans(old(ctx.vertices), v0, ctx.vertices, SourceVid, total, pushed);
      UnmovedTrans(old(ctx.vertices), v0, ctx.vertices, s);
      total := total + pushed;
      round := round + 1;
    }
  }
}
