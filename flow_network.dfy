// The flow network of src/fallsand/fluidflow.cpp: edges and vertices, the
// `AnalysisContext` that holds them with the pair-to-edge index, and its two
// operations `touchEdge` and `incFlow`. The operations are specified by
// functions on the vertex list and the index; `Wired` is the invariant that
// every later step of the analysis keeps on the vertices it works on: each
// edge has a reverse edge that points back to it, the index names exactly
// the edges, flows are antisymmetric and within capacity, and an edge's
// capacity is the number of surface pixels it carries.
module FlowNetwork {
  import opened Base
  import opened Pixels

  /** Vertex 0 is the source and vertex 1 the sink (`source_vid`, `sink_vid`). */
  const SourceVid: int := 0
  const SinkVid: int := 1

  /** `Edge`: the far end, the index of the reverse edge in the far end's list, capacity, flow and `y_surface`. */
  datatype Edge = Edge(to: int, rev: int, cap: int, flow: int, surface: seq<Point>)

  /**
    `Vertex`: its id, `belonged_component`, the Dinic level and current
    edge, the in-degree of the flow results, the pixel type of its region,
    its edges and `air_surface`. The pixel cache of `applyFlowResults` is not
    part of this model.
   */
  datatype Vertex = Vertex(id: int, comp: int, dep: int, curEdge: int, indeg: int, kind: PixelType,
                           edges: seq<Edge>, air: seq<Point>)

  /** The `edge_idx_map`: the index of the edge from `u` to `v` in `u`'s list. */
  type EdgeIndex = map<(int, int), int>

  /** A vertex as `buildNetwork` pushes it: fields the initialiser does not name are zero, `belonged_component` is -1. */
  function NewVertex(id: int, kind: PixelType): (v: Vertex)
    ensures v.id == id && v.kind == kind && v.comp == -1 && v.dep == 0 && v.curEdge == 0 && v.indeg == 0
    ensures v.edges == [] && v.air == []
  {
    Vertex(id, -1, 0, 0, 0, kind, [], [])
  }

  /**
    `touchEdge` on values: an indexed pair returns its edge; otherwise an
    edge is appended to each end, each naming the other's position as its
    reverse, and both orientations are indexed.
   */
  function Touch(vs: seq<Vertex>, idx: EdgeIndex, u: int, v: int): (r: (seq<Vertex>, EdgeIndex, int))
    requires 0 <= u < |vs| && 0 <= v < |vs|
  {
    if (u, v) in idx then (vs, idx, idx[(u, v)])
    else
      var ue, ve := |vs[u].edges|, |vs[v].edges|;
      var vs1 := vs[u := vs[u].(edges := vs[u].edges + [Edge(v, ve, 0, 0, [])])];
      var vs2 := vs1[v := vs1[v].(edges := vs1[v].edges + [Edge(u, ue, 0, 0, [])])];
      (vs2, idx[(u, v) := ue][(v, u) := ve], ue)
  }

  /** Edge `i` of vertex `u` gains one unit of capacity and the surface pixel `p`. */
  function Widen(vs: seq<Vertex>, u: int, i: int, p: Point): (r: seq<Vertex>)
    requires 0 <= u < |vs| && 0 <= i < |vs[u].edges|
  {
    var e := vs[u].edges[i];
    vs[u := vs[u].(edges := vs[u].edges[i := e.(cap := e.cap + 1, surface := e.surface + [p])])]
  }

  /** An indexed pair whose edge and reverse edge exist: what `incFlow` relies on. */
  predicate HasEdge(vs: seq<Vertex>, idx: EdgeIndex, u: int, v: int)
  {
    && 0 <= u < |vs| && 0 <= v < |vs| && (u, v) in idx
    && 0 <= idx[(u, v)] < |vs[u].edges| && 0 <= vs[u].edges[idx[(u, v)]].rev < |vs[v].edges|
  }

  /**
    `incFlow` on values, for the pixel `(x, y)` of `u` above the pixel
    `(x, y + 1)` of `v`: the edge from `u` gains capacity and the lower
    pixel, its reverse gains capacity and the upper pixel.
   */
  function IncFlowNet(vs: seq<Vertex>, idx: EdgeIndex, u: int, v: int, x: int, y: int): (r: seq<Vertex>)
    requires HasEdge(vs, idx, u, v)
  {
    var i := idx[(u, v)];
    var j := vs[u].edges[i].rev;
    var vs1 := Widen(vs, u, i, Point(x, y + 1));
    Widen(vs1, v, j, Point(x, y))
  }

  /** Edge `i` of `u` within the vertex set `s`: linked both ways, indexed, and its flow within bounds. */
  ghost predicate EdgeOk(vs: seq<Vertex>, idx: EdgeIndex, s: set<int>, u: int, i: int)
    requires 0 <= u < |vs| && 0 <= i < |vs[u].edges|
  {
    var e := vs[u].edges[i];
    && e.to in s && e.to != u && 0 <= e.to < |vs|
    && 0 <= e.rev < |vs[e.to].edges|
    && vs[e.to].edges[e.rev].to == u && vs[e.to].edges[e.rev].rev == i
    && vs[e.to].edges[e.rev].flow == -e.flow
    && e.flow <= e.cap && e.cap == |e.surface|
    && (u, e.to) in idx && idx[(u, e.to)] == i
  }

  /**
    The network invariant on a vertex set `s` closed under edges: every
    edge of a vertex of `s` is `EdgeOk`, and an indexed pair within `s`
    names an edge between the two.
   */
  ghost predicate Wired(vs: seq<Vertex>, idx: EdgeIndex, s: set<int>)
  {
    && (forall u :: u in s ==> 0 <= u < |vs|)
    && (forall u, i :: u in s && 0 <= u < |vs| && 0 <= i < |vs[u].edges| ==> EdgeOk(vs, idx, s, u, i))
    && (forall k {:trigger k in idx} :: k in idx && k.0 in s && k.1 in s ==>
          0 <= k.0 < |vs| && 0 <= idx[k] < |vs[k.0].edges| && vs[k.0].edges[idx[k]].to == k.1)
  }

  /** The capacity from `u` to `v`: that of the indexed edge, or zero with no edge. */
  function CapOf(vs: seq<Vertex>, idx: EdgeIndex, u: int, v: int): int
  {
    if HasEdge(vs, idx, u, v) then vs[u].edges[idx[(u, v)]].cap else 0
  }

  /** The two vertex lists agree in everything but the edge lists. */
  predicate SameVertices(a: seq<Vertex>, b: seq<Vertex>)
  {
    |a| == |b| && forall x :: 0 <= x < |a| ==> b[x] == a[x].(edges := b[x].edges)
  }

  /** `SameVertices`, and each edge list of `b` extends that of `a`. */
  predicate Grows(a: seq<Vertex>, b: seq<Vertex>)
  {
    && SameVertices(a, b)
    && forall x :: 0 <= x < |a| ==> |a[x].edges| <= |b[x].edges| && b[x].edges[..|a[x].edges|] == a[x].edges
  }

  /** Edge `i` of `u` under `Wired` is indexed, and the pair's reverse names its reverse edge. */
  lemma WiredEdge(vs: seq<Vertex>, idx: EdgeIndex, s: set<int>, u: int, i: int)
    requires Wired(vs, idx, s) && u in s && 0 <= i < |vs[u].edges|
    ensures var e := vs[u].edges[i];
            && HasEdge(vs, idx, u, e.to) && idx[(u, e.to)] == i
            && HasEdge(vs, idx, e.to, u) && idx[(e.to, u)] == e.rev
  {
    var e := vs[u].edges[i];
    assert EdgeOk(vs, idx, s, u, i);
    assert EdgeOk(vs, idx, s, e.to, e.rev);
  }

  /**
    Touching a pair a second time, in either orientation, changes nothing:
    the same orientation returns the same edge, the other one the reverse.
   */
  lemma TouchIdempotent(vs: seq<Vertex>, idx: EdgeIndex, s: set<int>, u: int, v: int)
    requires Wired(vs, idx, s) && u in s && v in s && u != v
    ensures var (vs1, idx1, e) := Touch(vs, idx, u, v);
            && 0 <= e < |vs1[u].edges|
            && Touch(vs1, idx1, u, v) == (vs1, idx1, e)
            && Touch(vs1, idx1, v, u) == (vs1, idx1, vs1[u].edges[e].rev)
  {
    if (u, v) in idx {
      var e := idx[(u, v)];
      assert vs[u].edges[e].to == v;
      WiredEdge(vs, idx, s, u, e);
    } else {
      TouchNew(vs, idx, s, u, v);
    }
  }

  /**
    `touchEdge` keeps `Wired` and returns an edge from `u` to `v` whose
    reverse edge points back to it; a pair not yet indexed gets two new
    empty edges, one at each end, and nothing else changes.
   */
  lemma {:induction false} TouchLinks(vs: seq<Vertex>, idx: EdgeIndex, s: set<int>, u: int, v: int)
    requires Wired(vs, idx, s) && u in s && v in s && u != v
    ensures var (vs1, idx1, e) := Touch(vs, idx, u, v);
            && Wired(vs1, idx1, s) && Grows(vs, vs1)
            && 0 <= e < |vs1[u].edges| && vs1[u].edges[e].to == v
            && HasEdge(vs1, idx1, u, v) && idx1[(u, v)] == e
            && HasEdge(vs1, idx1, v, u) && idx1[(v, u)] == vs1[u].edges[e].rev
            && vs1[v].edges[vs1[u].edges[e].rev].rev == e
            && (forall k :: k in idx ==> k in idx1 && idx1[k] == idx[k])
            && (forall k :: k in idx1 ==> k in idx || k == (u, v) || k == (v, u))
            && (forall a, b {:trigger CapOf(vs1, idx1, a, b)} :: a in s && b in s ==> CapOf(vs1, idx1, a, b) == CapOf(vs, idx, a, b))
  {
    var (vs1, idx1, e) := Touch(vs, idx, u, v);
    if (u, v) in idx {
      assert vs[u].edges[e].to == v;
      assert EdgeOk(vs, idx, s, u, e);
      WiredEdge(vs, idx, s, u, e);
      GrowsSelf(vs);
    } else {
      TouchNew(vs, idx, s, u, v);
      assert idx1 == idx[(u, v) := e][(v, u) := |vs[v].edges|];
    }
  }

  lemma GrowsSelf(vs: seq<Vertex>)
    ensures Grows(vs, vs)
  {
    forall x | 0 <= x < |vs| ensures vs[x].edges[..|vs[x].edges|] == vs[x].edges { }
  }

  lemma GrowsTrans(a: seq<Vertex>, b: seq<Vertex>, c: seq<Vertex>)
    requires Grows(a, b) && Grows(b, c)
    ensures Grows(a, c)
  {
    forall x | 0 <= x < |a| ensures c[x].edges[..|a[x].edges|] == a[x].edges {
      assert c[x].edges[..|a[x].edges|] == c[x].edges[..|b[x].edges|][..|a[x].edges|];
    }
  }

  /** Every edge after a new pair is touched is `EdgeOk`: the two new edges name each other, the old ones are as they were. */
  lemma TouchNewEdges(vs: seq<Vertex>, idx: EdgeIndex, s: set<int>, u: int, v: int)
    requires Wired(vs, idx, s) && u in s && v in s && u != v && (u, v) !in idx && (v, u) !in idx
    ensures var (vs1, idx1, e) := Touch(vs, idx, u, v);
            forall x, i {:trigger EdgeOk(vs1, idx1, s, x, i)} :: x in s && 0 <= x < |vs1| && 0 <= i < |vs1[x].edges| ==> EdgeOk(vs1, idx1, s, x, i)
  {
    var ue, ve := |vs[u].edges|, |vs[v].edges|;
    var (vs1, idx1, e) := Touch(vs, idx, u, v);
    assert forall x :: 0 <= x < |vs| && x != u && x != v ==> vs1[x] == vs[x];
    forall x, i | x in s && 0 <= x < |vs1| && 0 <= i < |vs1[x].edges| ensures EdgeOk(vs1, idx1, s, x, i) {
      if (x == u && i == ue) || (x == v && i == ve) {
      } else {
        assert i < |vs[x].edges| && vs1[x].edges[i] == vs[x].edges[i];
        assert EdgeOk(vs, idx, s, x, i);
        var t := vs[x].edges[i].to;
        assert t != u || vs[x].edges[i].rev < ue;
        assert t != v || vs[x].edges[i].rev < ve;
        assert vs1[t].edges[vs[x].edges[i].rev] == vs[t].edges[vs[x].edges[i].rev];
        assert (x, t) != (u, v) && (x, t) != (v, u);
      }
    }
  }

  /** The new-pair case of `TouchLinks`. */
  lemma TouchNew(vs: seq<Vertex>, idx: EdgeIndex, s: set<int>, u: int, v: int)
    requires Wired(vs, idx, s) && u in s && v in s && u != v && (u, v) !in idx
    ensures var (vs1, idx1, e) := Touch(vs, idx, u, v);
            && Wired(vs1, idx1, s) && Grows(vs, vs1)
            && (v, u) !in idx
            && e == |vs[u].edges| && vs1[u].edges == vs[u].edges + [Edge(v, |vs[v].edges|, 0, 0, [])]
            && vs1[v].edges == vs[v].edges + [Edge(u, e, 0, 0, [])]
            && (forall a, b {:trigger CapOf(vs1, idx1, a, b)} :: a in s && b in s ==> CapOf(vs1, idx1, a, b) == CapOf(vs, idx, a, b))
  {
    var ue, ve := |vs[u].edges|, |vs[v].edges|;
    var (vs1, idx1, e) := Touch(vs, idx, u, v);
    if (v, u) in idx {
      WiredEdge(vs, idx, s, v, idx[(v, u)]);
    }
    TouchNewEdges(vs, idx, s, u, v);
    forall x | 0 <= x < |vs| ensures vs1[x].edges[..|vs[x].edges|] == vs[x].edges {
      if x == u { assert vs1[x].edges == vs[x].edges + [Edge(v, ve, 0, 0, [])]; }
      else if x == v { assert vs1[x].edges == vs[x].edges + [Edge(u, ue, 0, 0, [])]; }
    }
    forall a, b {:trigger CapOf(vs1, idx1, a, b)} | a in s && b in s ensures CapOf(vs1, idx1, a, b) == CapOf(vs, idx, a, b) {
      if (a, b) == (u, v) || (a, b) == (v, u) {
      } else if (a, b) in idx {
        var i := idx[(a, b)];
        assert i < |vs[a].edges| && vs[a].edges[i].to == b;
        WiredEdge(vs, idx, s, a, i);
        assert vs1[a].edges[i] == vs[a].edges[i];
      }
    }
  }

  /** `Wired` and the capacities read only the edge lists. */
  lemma WiredEdgesOnly(vs: seq<Vertex>, vs': seq<Vertex>, idx: EdgeIndex, s: set<int>)
    requires Wired(vs, idx, s) && |vs'| == |vs|
    requires forall z {:trigger vs'[z]} :: 0 <= z < |vs| ==> vs'[z].edges == vs[z].edges
    ensures Wired(vs', idx, s)
    ensures forall a, b {:trigger CapOf(vs', idx, a, b)} :: CapOf(vs', idx, a, b) == CapOf(vs, idx, a, b)
  {
    forall u, i | u in s && 0 <= u < |vs'| && 0 <= i < |vs'[u].edges| ensures EdgeOk(vs', idx, s, u, i) {
      assert EdgeOk(vs, idx, s, u, i);
      assert vs'[vs[u].edges[i].to].edges == vs[vs[u].edges[i].to].edges;
    }
    forall a, b {:trigger CapOf(vs', idx, a, b)} ensures CapOf(vs', idx, a, b) == CapOf(vs, idx, a, b) {
      if 0 <= a < |vs| {
        assert vs'[a].edges == vs[a].edges;
        if 0 <= b < |vs| {
          assert vs'[b].edges == vs[b].edges;
        }
      }
    }
  }

  /** `Widen` keeps `Wired`: capacity and surface grow together, and a capacity only grows. */
  lemma WidenKeeps(vs: seq<Vertex>, idx: EdgeIndex, s: set<int>, u: int, i: int, p: Point)
    requires Wired(vs, idx, s) && u in s && 0 <= i < |vs[u].edges|
    ensures Wired(Widen(vs, u, i, p), idx, s) && SameVertices(vs, Widen(vs, u, i, p))
    ensures forall x :: 0 <= x < |vs| ==> |Widen(vs, u, i, p)[x].edges| == |vs[x].edges|
  {
    var vs1 := Widen(vs, u, i, p);
    forall x, j | x in s && 0 <= x < |vs1| && 0 <= j < |vs1[x].edges| ensures EdgeOk(vs1, idx, s, x, j) {
      assert EdgeOk(vs, idx, s, x, j);
    }
  }

  /** Widening edge `i` of `u` adds one unit of capacity to its pair and none to any other. */
  lemma WidenCap(vs: seq<Vertex>, idx: EdgeIndex, s: set<int>, u: int, i: int, p: Point)
    requires Wired(vs, idx, s) && u in s && 0 <= i < |vs[u].edges|
    ensures var vs1 := Widen(vs, u, i, p);
            && Wired(vs1, idx, s) && SameVertices(vs, vs1)
            && (forall x :: 0 <= x < |vs| ==> |vs1[x].edges| == |vs[x].edges|)
            && (forall a, b {:trigger CapOf(vs1, idx, a, b)} :: a in s && b in s ==>
                  CapOf(vs1, idx, a, b) == CapOf(vs, idx, a, b) + (if (a, b) == (u, vs[u].edges[i].to) then 1 else 0))
  {
    var vs1 := Widen(vs, u, i, p);
    WidenKeeps(vs, idx, s, u, i, p);
    assert EdgeOk(vs, idx, s, u, i);
    forall a, b {:trigger CapOf(vs1, idx, a, b)} | a in s && b in s
      ensures CapOf(vs1, idx, a, b) == CapOf(vs, idx, a, b) + (if (a, b) == (u, vs[u].edges[i].to) then 1 else 0)
    {
      if (a, b) in idx && (a, b) != (u, vs[u].edges[i].to) {
        var k := idx[(a, b)];
        if 0 <= k < |vs[a].edges| {
          assert vs[a].edges[k].to == b;
          assert (a, k) != (u, i);
          assert vs1[a].edges[k] == vs[a].edges[k];
        }
      }
    }
  }

  /**
    `vs` and `idx` differ from `vs0` and `idx0` only at the vertices of
    `s`: the index keeps every pair it had and gains only pairs within `s`
    with a region vertex at one end at least.
   */
  ghost predicate Within(vs0: seq<Vertex>, idx0: EdgeIndex, vs: seq<Vertex>, idx: EdgeIndex, s: set<int>)
  {
    && |vs| == |vs0|
    && (forall z {:trigger vs[z]} :: 0 <= z < |vs| && z !in s ==> vs[z] == vs0[z])
    && (forall k {:trigger k in idx0} :: k in idx0 ==> k in idx && idx[k] == idx0[k])
    && (forall k {:trigger k in idx} :: k in idx && k !in idx0 ==> k.0 in s && k.1 in s && (k.0 >= 2 || k.1 >= 2))
  }

  lemma WithinTrans(vs0: seq<Vertex>, idx0: EdgeIndex, vs1: seq<Vertex>, idx1: EdgeIndex, vs2: seq<Vertex>, idx2: EdgeIndex, s: set<int>)
    requires Within(vs0, idx0, vs1, idx1, s) && Within(vs1, idx1, vs2, idx2, s)
    ensures Within(vs0, idx0, vs2, idx2, s)
  {
    forall k {:trigger k in idx2} | k in idx2 && k !in idx0 ensures k.0 in s && k.1 in s && (k.0 >= 2 || k.1 >= 2) {
      if k in idx1 {
        assert k !in idx0;
      }
    }
  }

  /**
    `incFlow` keeps `Wired`, adds one unit of capacity to the pair in both
    orientations and none to any other pair, and appends the lower pixel to
    the edge from `u` and the upper pixel to its reverse.
   */
  lemma {:induction false} IncFlowWidens(vs: seq<Vertex>, idx: EdgeIndex, s: set<int>, u: int, v: int, x: int, y: int)
    requires Wired(vs, idx, s) && u in s && v in s && u != v && HasEdge(vs, idx, u, v)
    ensures var vs1 := IncFlowNet(vs, idx, u, v, x, y);
            && Wired(vs1, idx, s) && SameVertices(vs, vs1)
            && (forall z :: 0 <= z < |vs| ==> |vs1[z].edges| == |vs[z].edges|)
            && vs1[u].edges[idx[(u, v)]].surface == vs[u].edges[idx[(u, v)]].surface + [Point(x, y + 1)]
            && HasEdge(vs, idx, v, u) && idx[(v, u)] == vs[u].edges[idx[(u, v)]].rev
            && vs1[v].edges[idx[(v, u)]].surface == vs[v].edges[idx[(v, u)]].surface + [Point(x, y)]
            && (forall a, b {:trigger CapOf(vs1, idx, a, b)} :: a in s && b in s ==>
                  CapOf(vs1, idx, a, b) == CapOf(vs, idx, a, b) + (if (a, b) == (u, v) || (a, b) == (v, u) then 1 else 0))
  {
    var i := idx[(u, v)];
    assert EdgeOk(vs, idx, s, u, i);
    var j := vs[u].edges[i].rev;
    WiredEdge(vs, idx, s, u, i);
    var vs1 := Widen(vs, u, i, Point(x, y + 1));
    WidenKeeps(vs, idx, s, u, i, Point(x, y + 1));
    var vs2 := Widen(vs1, v, j, Point(x, y));
    WidenKeeps(vs1, idx, s, v, j, Point(x, y));
    assert vs2 == IncFlowNet(vs, idx, u, v, x, y);

    forall a, b {:trigger CapOf(vs2, idx, a, b)} | a in s && b in s
      ensures CapOf(vs2, idx, a, b) == CapOf(vs, idx, a, b) + (if (a, b) == (u, v) || (a, b) == (v, u) then 1 else 0)
    {
      if (a, b) == (v, u) {
        assert idx[(v, u)] == j;
      } else if (a, b) != (u, v) && (a, b) in idx {
        var k := idx[(a, b)];
        WiredEdge(vs, idx, s, a, k);
        IndexedOutside(vs, idx, s, a, b, u, v);
        assert vs2[a].edges[k] == vs[a].edges[k];
      }
    }
  }

  /** An indexed pair other than `(u, v)` and `(v, u)` names neither of their edges. */
  lemma IndexedOutside(vs: seq<Vertex>, idx: EdgeIndex, s: set<int>, a: int, b: int, u: int, v: int)
    requires Wired(vs, idx, s) && u in s && v in s && a in s && b in s
    requires HasEdge(vs, idx, u, v) && (a, b) in idx && (a, b) != (u, v) && (a, b) != (v, u)
    ensures (a, idx[(a, b)]) != (u, idx[(u, v)])
    ensures (a, idx[(a, b)]) != (v, vs[u].edges[idx[(u, v)]].rev)
  {
    assert EdgeOk(vs, idx, s, u, idx[(u, v)]);
  }

  /**
    `AnalysisContext`: the vertices, the pair index, the connected
    components as vertex lists, and the vertex of every pixel
    (`pixel_vid`, -1 for none).
   */
  class AnalysisContext {
    var vertices: seq<Vertex>
    var edgeIdx: EdgeIndex
    var components: seq<seq<int>>
    const pixelVid: array2<int>

    /** No vertices, edges or components; every pixel's vertex is -1. */
    constructor(width: nat, height: nat)
      ensures vertices == [] && edgeIdx == map[] && components == []
      ensures fresh(pixelVid) && pixelVid.Length0 == width && pixelVid.Length1 == height
      ensures forall a, b :: 0 <= a < width && 0 <= b < height ==> pixelVid[a, b] == -1
    {
      vertices := [];
      edgeIdx := map[];
      components := [];
      pixelVid := new int[width, height]((_, _) => -1);
    }

    /** `touchEdge`. */
    method TouchEdge(u: int, v: int) returns (eid: int)
      requires 0 <= u < |vertices| && 0 <= v < |vertices|
      modifies this
      ensures (vertices, edgeIdx, eid) == Touch(old(vertices), old(edgeIdx), u, v)
      ensures components == old(components)
    {
      if (u, v) in edgeIdx {
        return edgeIdx[(u, v)];
      }
      var ue, ve := |vertices[u].edges|, |vertices[v].edges|;
      vertices := vertices[u := vertices[u].(edges := vertices[u].edges + [Edge(v, ve, 0, 0, [])])];
      vertices := vertices[v := vertices[v].(edges := vertices[v].edges + [Edge(u, ue, 0, 0, [])])];
      edgeIdx := edgeIdx[(u, v) := ue][(v, u) := ve];
      eid := ue;
    }

    /** `incFlow`; a pair with no edge is a failed assertion in the source, so the caller must have touched it. */
    method IncFlow(u: int, v: int, x: int, y: int)
      requires HasEdge(vertices, edgeIdx, u, v)
      modifies this
      ensures vertices == IncFlowNet(old(vertices), old(edgeIdx), u, v, x, y)
      ensures edgeIdx == old(edgeIdx) && components == old(components)
    {
      var i := edgeIdx[(u, v)];
      var e := vertices[u].edges[i];
      vertices := vertices[u := vertices[u].(edges := vertices[u].edges[i := e.(cap := e.cap + 1, surface := e.surface + [Point(x, y + 1)])])];
      var j := e.rev;
      var re := vertices[v].edges[j];
      vertices := vertices[v := vertices[v].(edges := vertices[v].edges[j := re.(cap := re.cap + 1, surface := re.surface + [Point(x, y)])])];
    }
  }
}
