// The flow bookkeeping of `applyFlowResults` of src/fallsand/fluidflow.cpp:
// every vertex of the component counts the edges with flow into it
// (`indeg`), and a queue from the source visits vertices in topological
// order of the flow, consuming each edge with flow (its flow set to 0, the
// in-degree of its far end lowered by one) and queueing a far end, other
// than the sink, once nothing flows into it any more. The pixel moves that
// accompany each consumed edge are not part of this model.
module FlowApply {
  import opened FlowNetwork
  import opened FlowDinic

  /** The number of edges of `es` into `z` that carry flow. */
  function FlowsInto(es: seq<Edge>, z: int): (r: nat)
    ensures r <= |es|
  {
    if es == [] then 0
    else FlowsInto(es[..|es| - 1], z) + (if es[|es| - 1].to == z && es[|es| - 1].flow > 0 then 1 else 0)
  }

  /** The number of edges of `es` that carry flow. */
  function Carrying(es: seq<Edge>): (r: nat)
    ensures r <= |es|
  {
    if es == [] then 0 else Carrying(es[..|es| - 1]) + (if es[|es| - 1].flow > 0 then 1 else 0)
  }

  /** Every listed vertex exists. */
  ghost predicate InRange(vs: seq<Vertex>, ids: seq<int>)
  {
    forall k :: 0 <= k < |ids| ==> 0 <= ids[k] < |vs|
  }

  /** No vertex is listed twice. */
  ghost predicate Distinct(ids: seq<int>)
  {
    forall j, k :: 0 <= j < k < |ids| ==> ids[j] != ids[k]
  }

  /** The edges with flow into `z` from the listed vertices: what the first loop of `applyFlowResults` counts. */
  ghost function InFlow(vs: seq<Vertex>, ids: seq<int>, z: int): nat
    requires InRange(vs, ids)
  {
    if ids == [] then 0 else InFlow(vs, ids[..|ids| - 1], z) + FlowsInto(vs[ids[|ids| - 1]].edges, z)
  }

  /** The edges with flow out of the listed vertices. */
  ghost function Carried(vs: seq<Vertex>, ids: seq<int>): nat
    requires InRange(vs, ids)
  {
    if ids == [] then 0 else Carried(vs, ids[..|ids| - 1]) + Carrying(vs[ids[|ids| - 1]].edges)
  }

  /** Every edge of a vertex of `s` leads to another vertex of `s`. */
  ghost predicate Targets(vs: seq<Vertex>, s: set<int>)
  {
    && (forall z :: z in s ==> 0 <= z < |vs|)
    && (forall z, i :: z in s && 0 <= z < |vs| && 0 <= i < |vs[z].edges| ==> vs[z].edges[i].to in s && vs[z].edges[i].to != z)
  }

  lemma WiredTargets(vs: seq<Vertex>, idx: EdgeIndex, s: set<int>)
    requires Wired(vs, idx, s)
    ensures Targets(vs, s)
  {
    forall z, i | z in s && 0 <= z < |vs| && 0 <= i < |vs[z].edges| ensures vs[z].edges[i].to in s && vs[z].edges[i].to != z {
      assert EdgeOk(vs, idx, s, z, i);
    }
  }

  /** `b` is `a` with only in-degrees changed. */
  ghost predicate Recounted(a: seq<Vertex>, b: seq<Vertex>)
  {
    |a| == |b| && forall z {:trigger b[z]} :: 0 <= z < |a| ==> b[z] == a[z].(indeg := b[z].indeg)
  }

  /** `b` is `a` with only in-degrees changed and some edges with flow consumed (their flow set to 0). */
  ghost predicate Consumed(a: seq<Vertex>, b: seq<Vertex>)
  {
    && |a| == |b|
    && (forall z {:trigger b[z]} :: 0 <= z < |a| ==>
          b[z].(indeg := a[z].indeg, edges := a[z].edges) == a[z] && |b[z].edges| == |a[z].edges|)
    && (forall z, i {:trigger b[z].edges[i]} :: 0 <= z < |a| && 0 <= i < |a[z].edges| ==>
          && b[z].edges[i] == a[z].edges[i].(flow := b[z].edges[i].flow)
          && (b[z].edges[i].flow == a[z].edges[i].flow || (a[z].edges[i].flow > 0 && b[z].edges[i].flow == 0)))
  }

  lemma ConsumedTrans(a: seq<Vertex>, b: seq<Vertex>, c: seq<Vertex>)
    requires Consumed(a, b) && Consumed(b, c)
    ensures Consumed(a, c)
  {
    forall z, i | 0 <= z < |a| && 0 <= i < |a[z].edges|
      ensures c[z].edges[i] == a[z].edges[i].(flow := c[z].edges[i].flow)
      ensures c[z].edges[i].flow == a[z].edges[i].flow || (a[z].edges[i].flow > 0 && c[z].edges[i].flow == 0)
    {
      assert b[z].edges[i] == a[z].edges[i].(flow := b[z].edges[i].flow);
      assert c[z].edges[i] == b[z].edges[i].(flow := c[z].edges[i].flow);
    }
    forall z | 0 <= z < |a| ensures c[z].(indeg := a[z].indeg, edges := a[z].edges) == a[z] {
      assert b[z].(indeg := a[z].indeg, edges := a[z].edges) == a[z];
      assert c[z].(indeg := b[z].indeg, edges := b[z].edges) == b[z];
    }
  }

  lemma RecountedConsumed(a: seq<Vertex>, b: seq<Vertex>)
    requires Recounted(a, b)
    ensures Consumed(a, b)
  {
    forall z | 0 <= z < |a| ensures b[z] == a[z].(indeg := b[z].indeg) {
    }
  }

  /** The edges of a vertex other than `u` are the same in `a` and `b`. */
  ghost predicate EdgesBut(a: seq<Vertex>, b: seq<Vertex>, u: int)
  {
    |a| == |b| && forall z {:trigger b[z]} :: 0 <= z < |a| && z != u ==> b[z].edges == a[z].edges
  }

  /** The listed count when only `u`'s edges differ: it moves by `u`'s own difference if `u` is listed (once). */
  lemma {:induction false} InFlowUpdate(a: seq<Vertex>, b: seq<Vertex>, ids: seq<int>, u: int, z: int)
    requires InRange(a, ids) && Distinct(ids) && EdgesBut(a, b, u) && 0 <= u < |a|
    ensures InRange(b, ids)
    ensures InFlow(b, ids, z) == InFlow(a, ids, z) + (if u in ids then FlowsInto(b[u].edges, z) - FlowsInto(a[u].edges, z) else 0)
    ensures Carried(b, ids) == Carried(a, ids) + (if u in ids then Carrying(b[u].edges) - Carrying(a[u].edges) else 0)
    decreases |ids|
  {
    if ids != [] {
      var front, last := ids[..|ids| - 1], ids[|ids| - 1];
      assert ids == front + [last];
      assert Distinct(front);
      InFlowUpdate(a, b, front, u, z);
      if last == u {
        assert u !in front;
      } else {
        assert b[last].edges == a[last].edges;
        assert u in ids <==> u in front;
      }
    }
  }

  /** Edge `i` with flow set to 0: one edge fewer carries flow, and one fewer into its far end. */
  lemma {:induction false} ZeroedCounts(es: seq<Edge>, i: int, z: int)
    requires 0 <= i < |es| && es[i].flow > 0
    ensures FlowsInto(es[i := es[i].(flow := 0)], z) == FlowsInto(es, z) - (if es[i].to == z then 1 else 0)
    ensures Carrying(es[i := es[i].(flow := 0)]) == Carrying(es) - 1
    decreases |es|
  {
    var es' := es[i := es[i].(flow := 0)];
    assert es'[..|es'| - 1] == (if i < |es| - 1 then es[..|es| - 1][i := es[i].(flow := 0)] else es[..|es| - 1]);
    if i < |es| - 1 {
      ZeroedCounts(es[..|es| - 1], i, z);
    }
  }

  /** An edge into `z` that carries flow from a listed vertex is counted. */
  lemma {:induction false} CountedInto(vs: seq<Vertex>, ids: seq<int>, z: int, x: int, i: int)
    requires InRange(vs, ids) && x in ids && 0 <= x < |vs| && 0 <= i < |vs[x].edges|
    requires vs[x].edges[i].to == z && vs[x].edges[i].flow > 0
    ensures InFlow(vs, ids, z) > 0
    decreases |ids|
  {
    var front, last := ids[..|ids| - 1], ids[|ids| - 1];
    assert ids == front + [last];
    if last == x {
      EdgeCounted(vs[x].edges, z, i);
    } else {
      CountedInto(vs, front, z, x, i);
    }
  }

  lemma {:induction false} EdgeCounted(es: seq<Edge>, z: int, i: int)
    requires 0 <= i < |es| && es[i].to == z && es[i].flow > 0
    ensures FlowsInto(es, z) > 0
    decreases |es|
  {
    if i < |es| - 1 {
      EdgeCounted(es[..|es| - 1], z, i);
    }
  }

  /** The first loop of `applyFlowResults` for one vertex `u`: each of its edges with flow raises the in-degree of its far end. */
  method CountEdgesOf(ctx: AnalysisContext, u: int, ghost s: set<int>)
    requires u in s && Targets(ctx.vertices, s)
    modifies ctx
    ensures Recounted(old(ctx.vertices), ctx.vertices) && Unmoved(old(ctx.vertices), ctx.vertices, s)
    ensures forall z {:trigger ctx.vertices[z]} :: 0 <= z < |ctx.vertices| ==>
              ctx.vertices[z].indeg == old(ctx.vertices[z].indeg) + FlowsInto(old(ctx.vertices[u].edges), z)
    ensures ctx.edgeIdx == old(ctx.edgeIdx) && ctx.components == old(ctx.components)
  {
    ghost var es := ctx.vertices[u].edges;
    var i := 0;
    assert es[..i] == [];
    assert forall z :: FlowsInto(es[..i], z) == 0;
    assert forall z {:trigger ctx.vertices[z]} :: 0 <= z < |ctx.vertices| ==>
                  ctx.vertices[z].indeg == old(ctx.vertices[z].indeg) + FlowsInto(es[..i], z);
    while i < |ctx.vertices[u].edges|
      invariant ctx.edgeIdx == old(ctx.edgeIdx) && ctx.components == old(ctx.components)
      invariant Recounted(old(ctx.vertices), ctx.vertices) && Unmoved(old(ctx.vertices), ctx.vertices, s) && 0 <= i <= |es|
      invariant forall z {:trigger ctx.vertices[z]} :: 0 <= z < |ctx.vertices| ==>
                  ctx.vertices[z].indeg == old(ctx.vertices[z].indeg) + FlowsInto(es[..i], z)
    {
      assert ctx.vertices[u] == old(ctx.vertices[u]).(indeg := ctx.vertices[u].indeg);
      var e := ctx.vertices[u].edges[i];
      assert es[..i + 1][..i] == es[..i];
      if e.flow > 0 {
        ctx.vertices := ctx.vertices[e.to := ctx.vertices[e.to].(indeg := ctx.vertices[e.to].indeg + 1)];
      }
      i := i + 1;
    }
    assert es[..i] == es;
  }

  lemma RecountedTrans(a: seq<Vertex>, b: seq<Vertex>, c: seq<Vertex>, s: set<int>, u: int)
    requires Recounted(a, b) && Recounted(b, c) && Targets(b, s) && 0 <= u < |a|
    ensures Recounted(a, c) && Targets(c, s) && b[u].edges == a[u].edges
  {
    assert b[u] == a[u].(indeg := b[u].indeg);
    forall z | 0 <= z < |c| ensures c[z] == a[z].(indeg := c[z].indeg) {
      assert b[z] == a[z].(indeg := b[z].indeg);
    }
    forall z, i | z in s && 0 <= z < |c| && 0 <= i < |c[z].edges|
      ensures c[z].edges[i].to in s && c[z].edges[i].to != z
    {
      assert c[z].edges == b[z].edges;
    }
  }

  /** The first loop of `applyFlowResults`: the in-degree of every vertex rises by the edges with flow into it from the component. */
  method CountIndeg(ctx: AnalysisContext, cid: int, ghost s: set<int>)
    requires 0 <= cid < |ctx.components| && (forall z :: z in ctx.components[cid] ==> z in s) && Targets(ctx.vertices, s)
    modifies ctx
    ensures ctx.edgeIdx == old(ctx.edgeIdx) && ctx.components == old(ctx.components)
    ensures Recounted(old(ctx.vertices), ctx.vertices) && Unmoved(old(ctx.vertices), ctx.vertices, s) && Targets(ctx.vertices, s)
    ensures InRange(old(ctx.vertices), ctx.components[cid])
    ensures forall z {:trigger ctx.vertices[z]} :: 0 <= z < |ctx.vertices| ==>
              ctx.vertices[z].indeg == old(ctx.vertices[z].indeg) + InFlow(old(ctx.vertices), ctx.components[cid], z)
  {
    var ids := ctx.components[cid];
    ghost var v0 := ctx.vertices;
    forall k | 0 <= k < |ids| ensures 0 <= ids[k] < |v0| {
      assert ids[k] in ids;
    }
    var k := 0;
    assert Recounted(v0, v0) && Unmoved(v0, v0, s) && ids[..k] == [];
    while k < |ids|
      invariant ctx.edgeIdx == old(ctx.edgeIdx) && ctx.components == old(ctx.components)
      invariant 0 <= k <= |ids| && Recounted(v0, ctx.vertices) && Unmoved(v0, ctx.vertices, s) && Targets(ctx.vertices, s)
      invariant forall z {:trigger ctx.vertices[z]} :: 0 <= z < |ctx.vertices| ==>
                  ctx.vertices[z].indeg == v0[z].indeg + InFlow(v0, ids[..k], z)
    {
      ghost var vs := ctx.vertices;
      assert ids[k] in ids;
      CountEdgesOf(ctx, ids[k], s);
      assert ids[..k + 1][..k] == ids[..k];
      RecountedTrans(v0, vs, ctx.vertices, s, ids[k]);
      UnmovedTrans(v0, vs, ctx.vertices, s);
      k := k + 1;
    }
    assert ids[..k] == ids;
  }

  /** Every visited vertex but the source comes after every vertex of `s` with flow into it in `a`. */
  ghost predicate Topological(a: seq<Vertex>, s: set<int>, order: seq<int>)
  {
    forall j, x, i {:trigger order[j], a[x].edges[i]} ::
      && 0 <= j < |order| && order[j] != SourceVid && x in s && 0 <= x < |a| && 0 <= i < |a[x].edges|
      && a[x].edges[i].to == order[j] && a[x].edges[i].flow > 0
      ==> x in order[..j]
  }

  /** Only the visited vertices of `s` have edges whose flow changed from `a` to `b`. */
  ghost predicate ChangedIn(a: seq<Vertex>, b: seq<Vertex>, s: set<int>, order: seq<int>)
    requires Consumed(a, b)
  {
    forall x, i {:trigger b[x].edges[i]} :: x in s && 0 <= x < |a| && 0 <= i < |a[x].edges| && b[x].edges[i].flow != a[x].edges[i].flow ==> x in order
  }

  /** No flow is left on the edges of visited vertices, except from edge `n` on of `u`, the one being visited. */
  ghost predicate Done(b: seq<Vertex>, order: seq<int>, u: int, n: int)
  {
    forall x, i {:trigger b[x].edges[i]} :: x in order && 0 <= x < |b| && 0 <= i < |b[x].edges| && (x != u || i < n) ==> b[x].edges[i].flow <= 0
  }

  /**
    The state of the queue loop of `applyFlowResults` from the counted
    network `a`, with the first `n` edges of the vertex `u` being visited
    done (`u` is -1 between visits): in-degrees count the edges with
    flow not yet consumed; only visited vertices had edges consumed, and
    the edges they are done with carry no flow; every queued vertex but
    the source has no flow coming in; the visits are in topological order.
   */
  ghost predicate Draining(a: seq<Vertex>, b: seq<Vertex>, ids: seq<int>, s: set<int>, q: seq<int>, order: seq<int>, u: int, n: int)
  {
    && InRange(a, ids) && Distinct(ids) && (forall z {:trigger z in s} :: z in s <==> z in ids) && Targets(a, s)
    && Consumed(a, b) && InRange(b, ids)
    && (forall z {:trigger b[z].indeg} :: z in s && 0 <= z < |b| ==> b[z].indeg == InFlow(b, ids, z))
    && ChangedIn(a, b, s, order) && Done(b, order, u, n)
    && (forall x :: x in order ==> x in s)
    && (forall x :: x in q ==> x in s && (x == SourceVid || InFlow(b, ids, x) == 0))
    && Topological(a, s, order)
  }

  /** Every vertex but the sink that had flow coming in, all of it consumed since, has been visited or is queued. */
  ghost predicate Reached(a: seq<Vertex>, b: seq<Vertex>, ids: seq<int>, s: set<int>, q: seq<int>, order: seq<int>)
  {
    && InRange(a, ids) && InRange(b, ids)
    && forall z {:trigger InFlow(b, ids, z)} :: z in s && z != SinkVid && InFlow(a, ids, z) > 0 && InFlow(b, ids, z) == 0 ==> z in order || z in q
  }

  ghost predicate Sorting(a: seq<Vertex>, b: seq<Vertex>, ids: seq<int>, s: set<int>, q: seq<int>, order: seq<int>, u: int, n: int)
  {
    Draining(a, b, ids, s, q, order, u, n) && Reached(a, b, ids, s, q, order)
  }

  /** Taking `u` off the queue to visit it keeps the order topological. */
  lemma VisitBegins(a: seq<Vertex>, b: seq<Vertex>, ids: seq<int>, s: set<int>, q: seq<int>, order: seq<int>, u: int)
    requires Sorting(a, b, ids, s, [u] + q, order, -1, 0)
    ensures Sorting(a, b, ids, s, q, order + [u], u, 0)
  {
    var o := order + [u];
    assert u in [u] + q;
    forall j, x, i | 0 <= j < |o| && o[j] != SourceVid && x in s && 0 <= x < |a| && 0 <= i < |a[x].edges|
                     && a[x].edges[i].to == o[j] && a[x].edges[i].flow > 0
      ensures x in o[..j]
    {
      if j == |order| {
        assert o[..j] == order;
        if b[x].edges[i].flow > 0 {
          CountedInto(b, ids, u, x, i);
        }
      } else {
        assert o[..j] == order[..j];
      }
    }
    forall x | x in q ensures x in s && (x == SourceVid || InFlow(b, ids, x) == 0) {
      assert x in [u] + q;
    }
  }

  /** A visit that is done with all of `u`'s edges. */
  lemma VisitEnds(a: seq<Vertex>, b: seq<Vertex>, ids: seq<int>, s: set<int>, q: seq<int>, order: seq<int>, u: int)
    requires 0 <= u < |b| && u in s && Sorting(a, b, ids, s, q, order, u, |b[u].edges|)
    ensures Sorting(a, b, ids, s, q, order, -1, 0)
  {
  }

  /** The network after consuming edge `i` of `u` (flow set to 0) and lowering the in-degree of its far end. */
  function Consume(b: seq<Vertex>, u: int, i: int): seq<Vertex>
    requires 0 <= u < |b| && 0 <= i < |b[u].edges| && 0 <= b[u].edges[i].to < |b|
  {
    var e := b[u].edges[i];
    var b1 := b[u := b[u].(edges := b[u].edges[i := e.(flow := 0)])];
    b1[e.to := b1[e.to].(indeg := b1[e.to].indeg - 1)]
  }

  /** Consuming an edge that carries flow, as seen by the counts for one far end `z`. */
  lemma ConsumeInFlow(b: seq<Vertex>, ids: seq<int>, u: int, i: int, z: int)
    requires InRange(b, ids) && Distinct(ids) && u in ids && 0 <= u < |b| && 0 <= i < |b[u].edges|
    requires 0 <= b[u].edges[i].to < |b| && b[u].edges[i].to != u && b[u].edges[i].flow > 0
    ensures InRange(Consume(b, u, i), ids) && Carried(Consume(b, u, i), ids) == Carried(b, ids) - 1
    ensures InFlow(Consume(b, u, i), ids, z) == InFlow(b, ids, z) - (if b[u].edges[i].to == z then 1 else 0)
  {
    var e := b[u].edges[i];
    var t := e.to;
    var b1 := b[u := b[u].(edges := b[u].edges[i := e.(flow := 0)])];
    var b' := Consume(b, u, i);
    assert b'[t].edges == b1[t].edges;
    ZeroedCounts(b[u].edges, i, z);
    InFlowUpdate(b, b1, ids, u, z);
    InFlowUpdate(b1, b', ids, t, z);
  }

  /** Consuming an edge that carries flow: one edge fewer carries flow, one fewer into its far end, nothing else changes. */
  lemma ConsumeCounts(b: seq<Vertex>, ids: seq<int>, u: int, i: int)
    requires InRange(b, ids) && Distinct(ids) && u in ids && 0 <= u < |b| && 0 <= i < |b[u].edges|
    requires 0 <= b[u].edges[i].to < |b| && b[u].edges[i].to != u && b[u].edges[i].flow > 0
    ensures var b' := Consume(b, u, i);
            && Consumed(b, b') && InRange(b', ids) && Carried(b', ids) == Carried(b, ids) - 1
            && forall z :: InFlow(b', ids, z) == InFlow(b, ids, z) - (if b[u].edges[i].to == z then 1 else 0)
  {
    var b' := Consume(b, u, i);
    forall z ensures InFlow(b', ids, z) == InFlow(b, ids, z) - (if b[u].edges[i].to == z then 1 else 0) {
      ConsumeInFlow(b, ids, u, i, z);
    }
    ConsumeInFlow(b, ids, u, i, 0);
    forall z, j | 0 <= z < |b| && 0 <= j < |b[z].edges|
      ensures b'[z].edges[j] == b[z].edges[j].(flow := b'[z].edges[j].flow)
      ensures b'[z].edges[j].flow == b[z].edges[j].flow || (b[z].edges[j].flow > 0 && b'[z].edges[j].flow == 0)
    {
      if z != u {
        assert b'[z].edges == b[z].edges;
      }
    }
  }

  /**
    One edge of the visit of `u`: consuming edge `i`, which carries flow,
    lowers the in-degree of its far end `t` by one and sets its flow to 0;
    `t` may then be queued once nothing more flows into it.
   */
  lemma ConsumeStep(a: seq<Vertex>, b: seq<Vertex>, ids: seq<int>, s: set<int>, q: seq<int>, order: seq<int>,
                    u: int, i: int)
    requires Draining(a, b, ids, s, q, order, u, i) && u in order && 0 <= u < |b| && 0 <= i < |b[u].edges|
    requires b[u].edges[i].flow > 0
    ensures 0 <= b[u].edges[i].to < |b|
    ensures var t := b[u].edges[i].to;
            var b' := Consume(b, u, i);
            && t in s && b'[t].indeg == InFlow(b', ids, t)
            && Consumed(b, b') && Unmoved(b, b', s) && Carried(b', ids) < Carried(b, ids)
            && Draining(a, b', ids, s, q, order, u, i + 1)
  {
    var e := b[u].edges[i];
    var t := e.to;
    assert u in s && u in ids;
    assert a[u].edges[i] == b[u].edges[i].(flow := a[u].edges[i].flow);
    assert t in s && t != u;
    ConsumeCounts(b, ids, u, i);
    ConsumeEdits(a, b, s, order, u, i);
  }

  /** Consuming edge `i` of the visited `u` changes only `u` and the far end, and leaves edge `i` done too. */
  lemma ConsumeEdits(a: seq<Vertex>, b: seq<Vertex>, s: set<int>, order: seq<int>, u: int, i: int)
    requires Consumed(a, b) && ChangedIn(a, b, s, order) && Done(b, order, u, i) && u in order && u in s
    requires 0 <= u < |b| && 0 <= i < |b[u].edges| && 0 <= b[u].edges[i].to < |b| && b[u].edges[i].to in s
    requires b[u].edges[i].flow > 0
    ensures var b' := Consume(b, u, i);
            Consumed(a, b') && ChangedIn(a, b', s, order) && Done(b', order, u, i + 1) && Unmoved(b, b', s)
  {
    var b' := Consume(b, u, i);
    assert Consumed(b, b') by {
      forall z, j | 0 <= z < |b| && 0 <= j < |b[z].edges|
        ensures b'[z].edges[j] == b[z].edges[j].(flow := b'[z].edges[j].flow)
        ensures b'[z].edges[j].flow == b[z].edges[j].flow || (b[z].edges[j].flow > 0 && b'[z].edges[j].flow == 0)
      {
        if z != u {
          assert b'[z].edges == b[z].edges;
        }
      }
    }
    ConsumedTrans(a, b, b');
    forall x, j | x in s && 0 <= x < |a| && 0 <= j < |a[x].edges| && b'[x].edges[j].flow != a[x].edges[j].flow
      ensures x in order
    {
      if x != u {
        assert b'[x].edges == b[x].edges;
      }
    }
    forall x, j | x in order && 0 <= x < |b'| && 0 <= j < |b'[x].edges| && (x != u || j < i + 1)
      ensures b'[x].edges[j].flow <= 0
    {
      if x != u {
        assert b'[x].edges == b[x].edges;
      }
    }
  }

  /** A vertex of `s` with nothing flowing in may join the queue. */
  lemma Enqueue(a: seq<Vertex>, b: seq<Vertex>, ids: seq<int>, s: set<int>, q: seq<int>, order: seq<int>,
                u: int, n: int, t: int)
    requires Draining(a, b, ids, s, q, order, u, n) && t in s && 0 <= t < |b| && b[t].indeg == 0
    ensures Draining(a, b, ids, s, q + [t], order, u, n)
  {
  }

  /** Consuming an edge keeps every vertex whose in-flow is used up visited or queued, queueing its far end if that is the one. */
  lemma ReachedStep(a: seq<Vertex>, b: seq<Vertex>, ids: seq<int>, s: set<int>, q: seq<int>, order: seq<int>, u: int, i: int)
    requires Reached(a, b, ids, s, q, order) && Distinct(ids) && u in ids && 0 <= u < |b| && 0 <= i < |b[u].edges|
    requires 0 <= b[u].edges[i].to < |b| && b[u].edges[i].to != u && b[u].edges[i].flow > 0
    ensures InRange(Consume(b, u, i), ids)
    ensures var t := b[u].edges[i].to;
            Reached(a, Consume(b, u, i), ids, s, q + (if t != SinkVid && InFlow(Consume(b, u, i), ids, t) == 0 then [t] else []), order)
  {
    ConsumeCounts(b, ids, u, i);
  }

  /** The measure of the queue loop: edges with flow left, then the queue. Here: `b` has fewer edges with flow than `a`, or as many and the same queue. */
  ghost predicate Shrinks(a: seq<Vertex>, b: seq<Vertex>, ids: seq<int>, q0: seq<int>, q: seq<int>)
  {
    InRange(a, ids) && InRange(b, ids) && ((q == q0 && Carried(b, ids) == Carried(a, ids)) || Carried(b, ids) < Carried(a, ids))
  }

  lemma ShrinksTrans(a: seq<Vertex>, b: seq<Vertex>, c: seq<Vertex>, ids: seq<int>, q0: seq<int>, q1: seq<int>, q2: seq<int>)
    requires Shrinks(a, b, ids, q0, q1) && Shrinks(b, c, ids, q1, q2)
    ensures Shrinks(a, c, ids, q0, q2)
  {
  }

  /** One round of the edge loop of the visit of `u`: consume edge `i` if it carries flow. */
  method ConsumeEdge(ctx: AnalysisContext, u: int, i: int, q0: seq<int>, ghost a: seq<Vertex>, ghost ids: seq<int>,
                     ghost s: set<int>, ghost order: seq<int>) returns (q: seq<int>)
    requires Sorting(a, ctx.vertices, ids, s, q0, order, u, i) && u in order && 0 <= u < |ctx.vertices|
    requires 0 <= i < |ctx.vertices[u].edges|
    modifies ctx
    ensures Sorting(a, ctx.vertices, ids, s, q, order, u, i + 1)
    ensures Consumed(old(ctx.vertices), ctx.vertices) && Unmoved(old(ctx.vertices), ctx.vertices, s)
    ensures |ctx.vertices[u].edges| == |old(ctx.vertices[u].edges)|
    ensures Shrinks(old(ctx.vertices), ctx.vertices, ids, q0, q)
    ensures ctx.edgeIdx == old(ctx.edgeIdx) && ctx.components == old(ctx.components)
  {
    q := q0;
    var e := ctx.vertices[u].edges[i];
    if e.flow <= 0 {
      assert Consumed(ctx.vertices, ctx.vertices) && Unmoved(ctx.vertices, ctx.vertices, s);
      return;
    }
    ghost var b := ctx.vertices;
    ConsumeStep(a, b, ids, s, q, order, u, i);
    ReachedStep(a, b, ids, s, q, order, u, i);
    ctx.vertices := ctx.vertices[u := ctx.vertices[u].(edges := ctx.vertices[u].edges[i := e.(flow := 0)])];
    ctx.vertices := ctx.vertices[e.to := ctx.vertices[e.to].(indeg := ctx.vertices[e.to].indeg - 1)];
    assert ctx.vertices == Consume(b, u, i);
    if e.to != SinkVid && ctx.vertices[e.to].indeg == 0 {
      Enqueue(a, ctx.vertices, ids, s, q, order, u, i + 1, e.to);
      q := q + [e.to];
    }
  }

  /** The edge loop of the visit of `u`: every edge of `u` that carries flow is consumed. */
  method VisitVertex(ctx: AnalysisContext, u: int, q0: seq<int>, ghost a: seq<Vertex>, ghost ids: seq<int>,
                     ghost s: set<int>, ghost order: seq<int>) returns (q: seq<int>)
    requires Sorting(a, ctx.vertices, ids, s, q0, order, u, 0) && u in order && 0 <= u < |ctx.vertices|
    modifies ctx
    ensures Sorting(a, ctx.vertices, ids, s, q, order, -1, 0)
    ensures Consumed(old(ctx.vertices), ctx.vertices) && Unmoved(old(ctx.vertices), ctx.vertices, s)
    ensures Shrinks(old(ctx.vertices), ctx.vertices, ids, q0, q)
    ensures ctx.edgeIdx == old(ctx.edgeIdx) && ctx.components == old(ctx.components)
  {
    q := q0;
    var i := 0;
    assert Consumed(ctx.vertices, ctx.vertices) && Unmoved(ctx.vertices, ctx.vertices, s) && Shrinks(ctx.vertices, ctx.vertices, ids, q0, q);
    while i < |ctx.vertices[u].edges|
      invariant ctx.edgeIdx == old(ctx.edgeIdx) && ctx.components == old(ctx.components)
      invariant |ctx.vertices| == |old(ctx.vertices)| && 0 <= i <= |ctx.vertices[u].edges|
      invariant Sorting(a, ctx.vertices, ids, s, q, order, u, i)
      invariant Consumed(old(ctx.vertices), ctx.vertices) && Unmoved(old(ctx.vertices), ctx.vertices, s)
      invariant Shrinks(old(ctx.vertices), ctx.vertices, ids, q0, q)
    {
      ghost var b := ctx.vertices;
      ghost var q1 := q;
      q := ConsumeEdge(ctx, u, i, q, a, ids, s, order);
      ShrinksTrans(old(ctx.vertices), b, ctx.vertices, ids, q0, q1, q);
      ConsumedTrans(old(ctx.vertices), b, ctx.vertices);
      UnmovedTrans(old(ctx.vertices), b, ctx.vertices, s);
      i := i + 1;
    }
    VisitEnds(a, ctx.vertices, ids, s, q, order, u);
  }

  /**
    The queue loop of `applyFlowResults` from the counted network `a`: from
    the source, visit each vertex once nothing flows into it any more,
    consuming its edges that carry flow.
   */
  method Topsort(ctx: AnalysisContext, ghost a: seq<Vertex>, ghost ids: seq<int>, ghost s: set<int>) returns (ghost order: seq<int>)
    requires Sorting(a, ctx.vertices, ids, s, [SourceVid], [], -1, 0)
    modifies ctx
    ensures Sorting(a, ctx.vertices, ids, s, [], order, -1, 0)
    ensures |order| > 0 && order[0] == SourceVid
    ensures Consumed(old(ctx.vertices), ctx.vertices) && Unmoved(old(ctx.vertices), ctx.vertices, s)
    ensures ctx.edgeIdx == old(ctx.edgeIdx) && ctx.components == old(ctx.components)
  {
    var q := [SourceVid];
    order := [];
    assert Consumed(ctx.vertices, ctx.vertices) && Unmoved(ctx.vertices, ctx.vertices, s);
    while q != []
      invariant ctx.edgeIdx == old(ctx.edgeIdx) && ctx.components == old(ctx.components)
      invariant Sorting(a, ctx.vertices, ids, s, q, order, -1, 0)
      invariant Consumed(old(ctx.vertices), ctx.vertices) && Unmoved(old(ctx.vertices), ctx.vertices, s)
      invariant order == [] ==> q == [SourceVid]
      invariant order != [] ==> order[0] == SourceVid
      decreases Carried(ctx.vertices, ids), |q|
    {
      var u := q[0];
      assert q == [u] + q[1..];
      assert u in q;
      VisitBegins(a, ctx.vertices, ids, s, q[1..], order, u);
      order := order + [u];
      ghost var b := ctx.vertices;
      q := VisitVertex(ctx, u, q[1..], a, ids, s, order);
      ConsumedTrans(old(ctx.vertices), b, ctx.vertices);
      UnmovedTrans(old(ctx.vertices), b, ctx.vertices, s);
    }
  }

  /** Only the edges matter to the counts of flow. */
  lemma {:induction false} SameInFlow(a: seq<Vertex>, b: seq<Vertex>, ids: seq<int>, z: int)
    requires InRange(a, ids) && |a| == |b| && forall x {:trigger b[x]} :: 0 <= x < |a| ==> b[x].edges == a[x].edges
    ensures InRange(b, ids) && InFlow(b, ids, z) == InFlow(a, ids, z)
    decreases |ids|
  {
    if ids != [] {
      SameInFlow(a, b, ids[..|ids| - 1], z);
      assert b[ids[|ids| - 1]].edges == a[ids[|ids| - 1]].edges;
    }
  }

  /** The queue loop starts from the counted network with the source queued. */
  lemma SortingBegins(v0: seq<Vertex>, a: seq<Vertex>, ids: seq<int>, s: set<int>)
    requires Recounted(v0, a) && InRange(v0, ids) && Distinct(ids) && (forall z :: z in s <==> z in ids) && SourceVid in s
    requires Targets(a, s)
    requires forall z {:trigger a[z]} :: 0 <= z < |a| ==> a[z].indeg == v0[z].indeg + InFlow(v0, ids, z)
    requires forall z :: z in s && 0 <= z < |v0| ==> v0[z].indeg == 0
    ensures Sorting(a, a, ids, s, [SourceVid], [], -1, 0)
  {
    forall x | 0 <= x < |a| ensures a[x].edges == v0[x].edges {
      assert a[x] == v0[x].(indeg := a[x].indeg);
    }
    forall z ensures InRange(a, ids) && InFlow(a, ids, z) == InFlow(v0, ids, z) {
      SameInFlow(v0, a, ids, z);
    }
    SameInFlow(v0, a, ids, 0);
    assert Consumed(a, a);
  }

  /** Topological order carries over between networks with the same edges. */
  lemma TopologicalRecounted(a: seq<Vertex>, b: seq<Vertex>, s: set<int>, order: seq<int>)
    requires Recounted(a, b) && Topological(b, s, order)
    ensures Topological(a, s, order)
  {
    forall j, x, i | 0 <= j < |order| && order[j] != SourceVid && x in s && 0 <= x < |a| && 0 <= i < |a[x].edges|
                     && a[x].edges[i].to == order[j] && a[x].edges[i].flow > 0
      ensures x in order[..j]
    {
      assert b[x] == a[x].(indeg := b[x].indeg);
    }
  }

  /**
    The flow bookkeeping of `applyFlowResults` for component `cid`, after
    its maximum flow: the in-degrees are counted, then the vertices are
    visited from the source in topological order of the flow, each
    consuming the edges with flow out of it. Afterwards no flow is left
    on the edges of a visited vertex, every vertex but the sink whose
    incoming flow was all consumed has been visited, and each in-degree
    counts the edges with flow still coming in.
   */
  method ApplyFlowResults(ctx: AnalysisContext, cid: int, ghost s: set<int>) returns (ghost order: seq<int>)
    requires 0 <= cid < |ctx.components| && Distinct(ctx.components[cid])
    requires (forall z :: z in s <==> z in ctx.components[cid]) && SourceVid in s
    requires Wired(ctx.vertices, ctx.edgeIdx, s)
    requires forall z :: z in s && 0 <= z < |ctx.vertices| ==> ctx.vertices[z].indeg == 0
    modifies ctx
    ensures ctx.edgeIdx == old(ctx.edgeIdx) && ctx.components == old(ctx.components)
    ensures Consumed(old(ctx.vertices), ctx.vertices) && Unmoved(old(ctx.vertices), ctx.vertices, s)
    ensures |order| > 0 && order[0] == SourceVid && (forall x :: x in order ==> x in s)
    ensures Topological(old(ctx.vertices), s, order)
    ensures forall x, i {:trigger ctx.vertices[x].edges[i]} :: x in order && 0 <= x < |ctx.vertices| && 0 <= i < |ctx.vertices[x].edges| ==>
              ctx.vertices[x].edges[i].flow <= 0
    ensures InRange(old(ctx.vertices), ctx.components[cid]) && InRange(ctx.vertices, ctx.components[cid])
    ensures forall z :: z in s && 0 <= z < |ctx.vertices| ==> ctx.vertices[z].indeg == InFlow(ctx.vertices, ctx.components[cid], z)
    ensures forall z ::
              z in s && z != SinkVid && InFlow(old(ctx.vertices), ctx.components[cid], z) > 0 && InFlow(ctx.vertices, ctx.components[cid], z) == 0
              ==> z in order
  {
    ghost var v0 := ctx.vertices;
    ghost var ids := ctx.components[cid];
    WiredTargets(ctx.vertices, ctx.edgeIdx, s);
    CountIndeg(ctx, cid, s);
    ghost var a := ctx.vertices;
    SortingBegins(v0, a, ids, s);
    order := Topsort(ctx, a, ids, s);
    RecountedConsumed(v0, a);
    ConsumedTrans(v0, a, ctx.vertices);
    UnmovedTrans(v0, a, ctx.vertices, s);
    TopologicalRecounted(v0, a, s, order);
    forall x | 0 <= x < |a| ensures a[x].edges == v0[x].edges {
      assert a[x] == v0[x].(indeg := a[x].indeg);
    }
    forall z ensures InFlow(a, ids, z) == InFlow(v0, ids, z) {
      SameInFlow(v0, a, ids, z);
    }
  }
}
