// `calculateGraphConnectedComponents` of src/fallsand/fluidflow.cpp: a
// depth-first search with an explicit stack from every region vertex not yet
// in a component. The components partition the region vertices, the source
// and the sink stay outside every component, and no edge leaves a component.
module FlowComponents {
  import opened FlowNetwork

  /** The reverse edge `j` of vertex `t` leads back to `u`. */
  predicate BackTo(vs: seq<Vertex>, t: int, j: int, u: int)
    requires 0 <= t < |vs| && 0 <= j < |vs[t].edges|
  {
    vs[t].edges[j].to == u
  }

  /** Every edge leads to a region vertex (neither source nor sink), and its reverse edge leads back. */
  ghost predicate Undirected(vs: seq<Vertex>)
  {
    forall u, i {:trigger vs[u].edges[i]} :: 0 <= u < |vs| && 0 <= i < |vs[u].edges| ==>
      var e := vs[u].edges[i];
      2 <= e.to < |vs| && 0 <= e.rev < |vs[e.to].edges| && BackTo(vs, e.to, e.rev, u)
  }

  /** `b` is `a` with only `belonged_component` changed. */
  predicate SameButComp(a: seq<Vertex>, b: seq<Vertex>)
  {
    |b| == |a| && forall z {:trigger b[z]} :: 0 <= z < |a| ==> b[z] == a[z].(comp := b[z].comp)
  }

  /** The component lists: `comps[c]` holds every vertex whose component is `c`, each once, and no other. */
  ghost predicate Listed(vs: seq<Vertex>, comps: seq<seq<int>>)
  {
    && (forall z {:trigger vs[z]} :: 0 <= z < |vs| && vs[z].comp != -1 ==> 0 <= vs[z].comp < |comps| && z in comps[vs[z].comp])
    && (forall c, j {:trigger comps[c][j]} :: 0 <= c < |comps| && 0 <= j < |comps[c]| ==>
          0 <= comps[c][j] < |vs| && vs[comps[c][j]].comp == c)
    && (forall c, j, k {:trigger comps[c][j], comps[c][k]} :: 0 <= c < |comps| && 0 <= j < k < |comps[c]| ==>
          comps[c][j] != comps[c][k])
  }

  /**
    The search invariant: every edge of a vertex in a component stays in
    that component, except that an edge of the component `cid` being
    searched may lead to a vertex with no component yet that is on the stack.
   */
  ghost predicate Closing(vs: seq<Vertex>, cid: int, stack: seq<int>)
  {
    forall u, i {:trigger vs[u].edges[i]} :: 0 <= u < |vs| && vs[u].comp != -1 && 0 <= i < |vs[u].edges| ==>
      var t := vs[u].edges[i].to;
      0 <= t < |vs| && (vs[t].comp == vs[u].comp || (vs[u].comp == cid && vs[t].comp == -1 && t in stack))
  }

  /** No edge leaves a component. */
  ghost predicate NoCrossing(vs: seq<Vertex>)
  {
    forall u, i {:trigger vs[u].edges[i]} :: 0 <= u < |vs| && 0 <= i < |vs[u].edges| ==>
      0 <= vs[u].edges[i].to < |vs| && vs[vs[u].edges[i].to].comp == vs[u].comp
  }

  /** The source and the sink are in no component. */
  predicate Terminals(vs: seq<Vertex>)
  {
    forall z :: 0 <= z < 2 && z < |vs| ==> vs[z].comp == -1
  }

  /**
    The state of the search of component `cid`: the component lists are
    right, edges are closed but for the stack, the stack holds region
    vertices with no component or of `cid`, and the earlier components are
    not empty.
   */
  ghost predicate Searching(vs: seq<Vertex>, comps: seq<seq<int>>, cid: int, stack: seq<int>)
  {
    && Undirected(vs) && Listed(vs, comps) && Closing(vs, cid, stack) && Terminals(vs)
    && 0 <= cid <= |comps|
    && (forall k :: 0 <= k < |stack| ==> 2 <= stack[k] < |vs| && (vs[stack[k]].comp == -1 || vs[stack[k]].comp == cid))
    && (forall c :: 0 <= c < cid ==> |comps[c]| > 0)
  }

  /** The number of vertices with no component. */
  ghost function Unassigned(vs: seq<Vertex>): nat
    decreases |vs|
  {
    if |vs| == 0 then 0 else Unassigned(vs[..|vs| - 1]) + (if vs[|vs| - 1].comp == -1 then 1 else 0)
  }

  /** Giving a vertex with no component a component leaves one fewer without. */
  lemma {:induction false} AssignDecreases(vs: seq<Vertex>, u: int, c: int)
    requires 0 <= u < |vs| && vs[u].comp == -1 && c != -1
    ensures Unassigned(vs[u := vs[u].(comp := c)]) == Unassigned(vs) - 1
    decreases |vs|
  {
    var vs' := vs[u := vs[u].(comp := c)];
    var n := |vs| - 1;
    if u == n {
      assert vs'[..n] == vs[..n];
    } else {
      assert vs'[..n] == vs[..n][u := vs[u].(comp := c)];
      AssignDecreases(vs[..n], u, c);
    }
  }

  /** Changing components only keeps the edges undirected. */
  lemma UndirectedKept(vs: seq<Vertex>, vs': seq<Vertex>)
    requires Undirected(vs) && SameButComp(vs, vs')
    ensures Undirected(vs')
  {
    forall u, i | 0 <= u < |vs'| && 0 <= i < |vs'[u].edges|
      ensures var e := vs'[u].edges[i]; 2 <= e.to < |vs'| && 0 <= e.rev < |vs'[e.to].edges| && BackTo(vs', e.to, e.rev, u)
    {
      assert vs'[u].edges == vs[u].edges;
      var e := vs[u].edges[i];
      assert vs'[e.to].edges == vs[e.to].edges;
    }
  }

  /**
    The neighbours of a vertex with no component, under the search
    invariant, have no component or belong to `cid`: a neighbour in an
    earlier component would have its reverse edge leave that component.
   */
  lemma NeighboursOpen(vs: seq<Vertex>, comps: seq<seq<int>>, cid: int, stack: seq<int>, u: int)
    requires Searching(vs, comps, cid, stack) && 0 <= u < |vs| && vs[u].comp == -1
    ensures forall i :: 0 <= i < |vs[u].edges| ==> vs[vs[u].edges[i].to].comp == -1 || vs[vs[u].edges[i].to].comp == cid
  {
    forall i | 0 <= i < |vs[u].edges| ensures vs[vs[u].edges[i].to].comp == -1 || vs[vs[u].edges[i].to].comp == cid {
      var e := vs[u].edges[i];
      assert BackTo(vs, e.to, e.rev, u);
      assert vs[e.to].edges[e.rev].to == u;
    }
  }

  /** Putting the popped vertex `u` into `cid` keeps the lists right and every edge closed but `u`'s own. */
  lemma AssignKeeps(vs: seq<Vertex>, comps: seq<seq<int>>, cid: int, stack: seq<int>, u: int)
    requires Searching(vs, comps, cid, stack + [u]) && cid < |comps| && 0 <= u < |vs| && vs[u].comp == -1
    ensures var vs' := vs[u := vs[u].(comp := cid)];
            && SameButComp(vs, vs') && Undirected(vs') && Listed(vs', comps[cid := comps[cid] + [u]]) && Terminals(vs')
            && (forall k :: 0 <= k < |stack| ==> 2 <= stack[k] < |vs'| && (vs'[stack[k]].comp == -1 || vs'[stack[k]].comp == cid))
            && (forall c :: 0 <= c < cid ==> |comps[c]| > 0)
            && ClosingBut(vs', cid, stack, u)
            && (forall i :: 0 <= i < |vs'[u].edges| ==> vs'[vs'[u].edges[i].to].comp == -1 || vs'[vs'[u].edges[i].to].comp == cid)
  {
    var vs' := vs[u := vs[u].(comp := cid)];
    assert (stack + [u])[|stack|] == u;
    NeighboursOpen(vs, comps, cid, stack + [u], u);
    UndirectedKept(vs, vs');
    forall k | 0 <= k < |stack| ensures 2 <= stack[k] < |vs'| && (vs'[stack[k]].comp == -1 || vs'[stack[k]].comp == cid) {
      assert (stack + [u])[k] == stack[k];
    }
    ClosingAssign(vs, cid, stack, u);
    ListedAssign(vs, comps, cid, u);
  }

  /** `Closing` for every vertex but `u`. */
  ghost predicate ClosingBut(vs: seq<Vertex>, cid: int, stack: seq<int>, u: int)
  {
    forall w, i {:trigger vs[w].edges[i]} :: 0 <= w < |vs| && w != u && vs[w].comp != -1 && 0 <= i < |vs[w].edges| ==>
      var t := vs[w].edges[i].to;
      0 <= t < |vs| && (vs[t].comp == vs[w].comp || (vs[w].comp == cid && vs[t].comp == -1 && t in stack))
  }

  /** The closing part of `AssignKeeps`: an edge that led to `u` on the stack now stays in `cid`. */
  lemma ClosingAssign(vs: seq<Vertex>, cid: int, stack: seq<int>, u: int)
    requires Closing(vs, cid, stack + [u]) && 0 <= u < |vs| && vs[u].comp == -1 && cid != -1
    ensures ClosingBut(vs[u := vs[u].(comp := cid)], cid, stack, u)
  {
    var vs' := vs[u := vs[u].(comp := cid)];
    forall w, i {:trigger vs'[w].edges[i]} | 0 <= w < |vs'| && w != u && vs'[w].comp != -1 && 0 <= i < |vs'[w].edges|
      ensures var t := vs'[w].edges[i].to;
              0 <= t < |vs'| && (vs'[t].comp == vs'[w].comp || (vs'[w].comp == cid && vs'[t].comp == -1 && t in stack))
    {
      var t := vs[w].edges[i].to;
      assert vs'[w] == vs[w];
      if t != u && t in stack + [u] {
        assert t in stack;
      }
    }
  }

  /** The listing part of `AssignKeeps`: `u` is appended to the list of `cid`, which did not hold it. */
  lemma ListedAssign(vs: seq<Vertex>, comps: seq<seq<int>>, cid: int, u: int)
    requires Listed(vs, comps) && 0 <= cid < |comps| && 0 <= u < |vs| && vs[u].comp == -1
    ensures Listed(vs[u := vs[u].(comp := cid)], comps[cid := comps[cid] + [u]])
  {
    var vs' := vs[u := vs[u].(comp := cid)];
    var comps' := comps[cid := comps[cid] + [u]];
    forall z {:trigger vs'[z]} | 0 <= z < |vs'| && vs'[z].comp != -1
      ensures 0 <= vs'[z].comp < |comps'| && z in comps'[vs'[z].comp]
    {
      if z != u {
        assert z in comps[vs[z].comp];
      }
    }
    forall c, j, k {:trigger comps'[c][j], comps'[c][k]} | 0 <= c < |comps'| && 0 <= j < k < |comps'[c]|
      ensures comps'[c][j] != comps'[c][k]
    {
      if c == cid && k == |comps[cid]| {
        assert vs[comps[c][j]].comp == c;
      }
    }
  }

  /** The pushes of the popped vertex's open neighbours close its edges. */
  lemma PushesClose(vs: seq<Vertex>, cid: int, stack0: seq<int>, stack: seq<int>, u: int)
    requires 0 <= u < |vs| && vs[u].comp == cid && cid != -1
    requires forall x :: x in stack0 ==> x in stack
    requires ClosingBut(vs, cid, stack0, u)
    requires forall i :: 0 <= i < |vs[u].edges| ==>
               0 <= vs[u].edges[i].to < |vs| &&
               (vs[vs[u].edges[i].to].comp == cid || (vs[vs[u].edges[i].to].comp == -1 && vs[u].edges[i].to in stack))
    ensures Closing(vs, cid, stack)
  {
  }

  /**
    One round of the search loop: pop a vertex; one already in a component
    is skipped, otherwise it joins `cid` and its neighbours with no
    component are pushed. The vertices with no component, then the stack,
    shrink.
   */
  method PopStep(ctx: AnalysisContext, stack: seq<int>, cid: int) returns (stack': seq<int>)
    requires |stack| > 0 && cid < |ctx.components| && Searching(ctx.vertices, ctx.components, cid, stack)
    modifies ctx
    ensures Searching(ctx.vertices, ctx.components, cid, stack')
    ensures SameButComp(old(ctx.vertices), ctx.vertices) && ctx.edgeIdx == old(ctx.edgeIdx)
    ensures |ctx.components| == |old(ctx.components)|
    ensures KeepsAssigned(old(ctx.vertices), ctx.vertices)
    ensures ctx.vertices[stack[|stack| - 1]].comp == cid
    ensures Unassigned(ctx.vertices) < Unassigned(old(ctx.vertices))
            || (Unassigned(ctx.vertices) == Unassigned(old(ctx.vertices)) && |stack'| < |stack|)
  {
    var u := stack[|stack| - 1];
    stack' := stack[..|stack| - 1];
    assert stack == stack' + [u];
    if ctx.vertices[u].comp != -1 {
      assert forall x :: x in stack && x != u ==> x in stack';
      return;
    }
    ghost var vs0, stack0 := ctx.vertices, stack';
    AssignKeeps(vs0, ctx.components, cid, stack', u);
    AssignDecreases(vs0, u, cid);
    ctx.vertices := ctx.vertices[u := ctx.vertices[u].(comp := cid)];
    ctx.components := ctx.components[cid := ctx.components[cid] + [u]];
    stack' := PushOpen(ctx.vertices, cid, u, stack');
  }

  /** The edge loop of a popped vertex `u`: each neighbour with no component is pushed. */
  method PushOpen(vs: seq<Vertex>, cid: int, u: int, stack0: seq<int>) returns (stack: seq<int>)
    requires Undirected(vs) && 0 <= u < |vs| && vs[u].comp == cid && cid != -1
    requires forall k :: 0 <= k < |stack0| ==> 2 <= stack0[k] < |vs| && (vs[stack0[k]].comp == -1 || vs[stack0[k]].comp == cid)
    requires ClosingBut(vs, cid, stack0, u)
    requires forall i :: 0 <= i < |vs[u].edges| ==> vs[vs[u].edges[i].to].comp == -1 || vs[vs[u].edges[i].to].comp == cid
    ensures Closing(vs, cid, stack)
    ensures forall k :: 0 <= k < |stack| ==> 2 <= stack[k] < |vs| && (vs[stack[k]].comp == -1 || vs[stack[k]].comp == cid)
  {
    assert forall i :: 0 <= i < |vs[u].edges| ==> 2 <= vs[u].edges[i].to < |vs|;
    var pushed := OpenTargets(vs, vs[u].edges, cid);
    stack := stack0 + pushed;
    PushesClose(vs, cid, stack0, stack, u);
  }

  /** The targets of the edges `es` with no component, in order: the pushes of the edge loop. */
  method OpenTargets(vs: seq<Vertex>, es: seq<Edge>, cid: int) returns (pushed: seq<int>)
    requires forall i :: 0 <= i < |es| ==> 2 <= es[i].to < |vs|
    requires forall i :: 0 <= i < |es| ==> vs[es[i].to].comp == -1 || vs[es[i].to].comp == cid
    ensures forall k :: 0 <= k < |pushed| ==> 2 <= pushed[k] < |vs| && vs[pushed[k]].comp == -1
    ensures forall i :: 0 <= i < |es| ==> vs[es[i].to].comp == cid || (vs[es[i].to].comp == -1 && es[i].to in pushed)
  {
    pushed := [];
    var j := 0;
    while j < |es|
      invariant 0 <= j <= |es|
      invariant forall k :: 0 <= k < |pushed| ==> 2 <= pushed[k] < |vs| && vs[pushed[k]].comp == -1
      invariant forall i :: 0 <= i < j ==> vs[es[i].to].comp == cid || (vs[es[i].to].comp == -1 && es[i].to in pushed)
    {
      var t := es[j].to;
      if vs[t].comp == -1 {
        pushed := pushed + [t];
      }
      j := j + 1;
    }
  }

  /** Every vertex of `a` in a component is still there in `b`. */
  predicate KeepsAssigned(a: seq<Vertex>, b: seq<Vertex>)
  {
    |b| == |a| && forall z {:trigger b[z]} :: 0 <= z < |a| && a[z].comp != -1 ==> b[z].comp == a[z].comp
  }

  lemma KeepsTrans(a: seq<Vertex>, b: seq<Vertex>, c: seq<Vertex>)
    requires SameButComp(a, b) && KeepsAssigned(a, b) && SameButComp(b, c) && KeepsAssigned(b, c)
    ensures SameButComp(a, c) && KeepsAssigned(a, c)
  {
    forall z {:trigger c[z]} | 0 <= z < |a| ensures c[z] == a[z].(comp := c[z].comp) {
      assert b[z] == a[z].(comp := b[z].comp);
    }
  }

  /** The search of one component from the region vertex `start`, which has none. */
  method SearchComponent(ctx: AnalysisContext, start: int)
    requires Searching(ctx.vertices, ctx.components, |ctx.components|, [])
    requires 2 <= start < |ctx.vertices| && ctx.vertices[start].comp == -1
    modifies ctx
    ensures Searching(ctx.vertices, ctx.components, |ctx.components|, [])
    ensures SameButComp(old(ctx.vertices), ctx.vertices) && KeepsAssigned(old(ctx.vertices), ctx.vertices)
    ensures ctx.edgeIdx == old(ctx.edgeIdx) && |ctx.components| == |old(ctx.components)| + 1
    ensures ctx.vertices[start].comp != -1
  {
    var cid := |ctx.components|;
    ghost var vs0 := ctx.vertices;
    SearchBegins(ctx.vertices, ctx.components, start);
    ctx.components := ctx.components + [[]];
    var stack := PopStep(ctx, [start], cid);
    while |stack| > 0
      invariant Searching(ctx.vertices, ctx.components, cid, stack)
      invariant SameButComp(vs0, ctx.vertices) && KeepsAssigned(vs0, ctx.vertices) && ctx.edgeIdx == old(ctx.edgeIdx)
      invariant |ctx.components| == cid + 1 && ctx.vertices[start].comp == cid
      decreases Unassigned(ctx.vertices), |stack|
    {
      ghost var vs1 := ctx.vertices;
      stack := PopStep(ctx, stack, cid);
      KeepsTrans(vs0, vs1, ctx.vertices);
    }
    SearchEnds(ctx.vertices, ctx.components, start);
  }

  /** A new, empty component list with the start vertex on the stack begins the search. */
  lemma SearchBegins(vs: seq<Vertex>, comps: seq<seq<int>>, start: int)
    requires Searching(vs, comps, |comps|, []) && 2 <= start < |vs| && vs[start].comp == -1
    ensures Searching(vs, comps + [[]], |comps|, [start])
  {
    var comps' := comps + [[]];
    forall c, j {:trigger comps'[c][j]} | 0 <= c < |comps'| && 0 <= j < |comps'[c]|
      ensures 0 <= comps'[c][j] < |vs| && vs[comps'[c][j]].comp == c
    {
      assert comps'[c] == comps[c];
    }
  }

  /** With the stack empty, the component of `start` is closed and not empty. */
  lemma SearchEnds(vs: seq<Vertex>, comps: seq<seq<int>>, start: int)
    requires |comps| > 0 && Searching(vs, comps, |comps| - 1, [])
    requires 0 <= start < |vs| && vs[start].comp == |comps| - 1
    ensures Searching(vs, comps, |comps|, [])
  {
    assert start in comps[|comps| - 1];
  }

  /**
    `calculateGraphConnectedComponents`: every region vertex ends in exactly
    one component, listed once in that component's list; the source and the
    sink are in none; no edge leaves a component; nothing but the
    components changes.
   */
  method CalculateComponents(ctx: AnalysisContext)
    requires Undirected(ctx.vertices) && ctx.components == []
    requires forall z :: 0 <= z < |ctx.vertices| ==> ctx.vertices[z].id == z && ctx.vertices[z].comp == -1
    modifies ctx
    ensures SameButComp(old(ctx.vertices), ctx.vertices) && ctx.edgeIdx == old(ctx.edgeIdx)
    ensures Listed(ctx.vertices, ctx.components) && NoCrossing(ctx.vertices) && Terminals(ctx.vertices)
    ensures forall z :: 2 <= z < |ctx.vertices| ==> 0 <= ctx.vertices[z].comp < |ctx.components|
    ensures forall c :: 0 <= c < |ctx.components| ==> |ctx.components[c]| > 0
  {
    var i := 0;
    while i < |ctx.vertices|
      invariant 0 <= i <= |ctx.vertices|
      invariant Searching(ctx.vertices, ctx.components, |ctx.components|, [])
      invariant SameButComp(old(ctx.vertices), ctx.vertices) && ctx.edgeIdx == old(ctx.edgeIdx)
      invariant forall z :: 2 <= z < i ==> ctx.vertices[z].comp != -1
    {
      var v := ctx.vertices[i];
      assert v.id == i by { assert v == old(ctx.vertices[i]).(comp := v.comp); }
      if v.id == SourceVid || v.id == SinkVid || v.comp != -1 {
        i := i + 1;
        continue;
      }
      SearchComponent(ctx, v.id);
      i := i + 1;
    }
    ClosedAtEnd(ctx.vertices, ctx.components);
  }

  /** Once every region vertex is in a component and the stack is empty, no edge leaves a component. */
  lemma ClosedAtEnd(vs: seq<Vertex>, comps: seq<seq<int>>)
    requires Searching(vs, comps, |comps|, [])
    requires forall z :: 2 <= z < |vs| ==> vs[z].comp != -1
    ensures NoCrossing(vs)
    ensures forall z :: 2 <= z < |vs| ==> 0 <= vs[z].comp < |comps|
  {
    forall u, i | 0 <= u < |vs| && 0 <= i < |vs[u].edges|
      ensures 0 <= vs[u].edges[i].to < |vs| && vs[vs[u].edges[i].to].comp == vs[u].comp
    {
      var e := vs[u].edges[i];
      assert BackTo(vs, e.to, e.rev, u);
      assert vs[e.to].edges[e.rev].to == u;
      assert 2 <= u;
    }
    forall z | 2 <= z < |vs| ensures 0 <= vs[z].comp < |comps| {
      assert vs[z].comp != -1;
    }
  }

  /** The components partition the region vertices: each is listed in exactly the component it belongs to. */
  lemma ComponentsPartition(vs: seq<Vertex>, comps: seq<seq<int>>)
    requires Listed(vs, comps) && Terminals(vs)
    requires forall z :: 2 <= z < |vs| ==> vs[z].comp != -1
    ensures forall z, c :: 2 <= z < |vs| && 0 <= c < |comps| ==> (z in comps[c] <==> vs[z].comp == c)
    ensures forall c, z :: 0 <= c < |comps| && z in comps[c] ==> 2 <= z < |vs|
  {
    forall z, c | 2 <= z < |vs| && 0 <= c < |comps| ensures z in comps[c] <==> vs[z].comp == c {
      assert vs[z].comp != -1;
      if z in comps[c] {
        var j :| 0 <= j < |comps[c]| && comps[c][j] == z;
      }
    }
    forall c, z | 0 <= c < |comps| && z in comps[c] ensures 2 <= z < |vs| {
      var j :| 0 <= j < |comps[c]| && comps[c][j] == z;
      assert vs[z].comp == c;
    }
  }

  /** Consecutive vertices of `p` are joined by an edge: edge `ix[k]` of `p[k]` leads to `p[k + 1]`. */
  ghost predicate EdgePath(vs: seq<Vertex>, p: seq<int>, ix: seq<int>)
  {
    && |ix| == |p| - 1
    && (forall k :: 0 <= k < |p| ==> 0 <= p[k] < |vs|)
    && (forall k :: 0 <= k < |ix| ==> 0 <= ix[k] < |vs[p[k]].edges| && vs[p[k]].edges[ix[k]].to == p[k + 1])
  }

  /** With no edge leaving a component, a path of edges stays in the component it starts in. */
  lemma PathStays(vs: seq<Vertex>, p: seq<int>, ix: seq<int>)
    requires NoCrossing(vs) && EdgePath(vs, p, ix) && |p| > 0
    ensures forall k :: 0 <= k < |p| ==> vs[p[k]].comp == vs[p[0]].comp
  {
    forall k | 0 <= k < |p| ensures vs[p[k]].comp == vs[p[0]].comp {
      PathPrefixStays(vs, p, ix, k);
    }
  }

  lemma {:induction false} PathPrefixStays(vs: seq<Vertex>, p: seq<int>, ix: seq<int>, k: int)
    requires NoCrossing(vs) && EdgePath(vs, p, ix) && 0 <= k < |p|
    ensures vs[p[k]].comp == vs[p[0]].comp
    decreases k
  {
    if k > 0 {
      PathPrefixStays(vs, p, ix, k - 1);
      assert vs[p[k - 1]].edges[ix[k - 1]].to == p[k];
    }
  }
}
