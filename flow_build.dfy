// `searchConnected` and the first loop of `buildNetwork` in
// src/fallsand/fluidflow.cpp: every fluid pixel not yet reached starts a
// vertex of its own type, and a stack-driven flood fill gives that vertex
// every pixel reachable through 4-neighbours of the same type. A popped
// pixel that is marked already is skipped. The fill's marks are kept in an
// array of their own that starts clear, as the world's dirty flags are
// when the analysis begins (`step` ends by clearing them). The proofs run
// on values: the type of every pixel as a map, the marked set, the vertex
// of every marked pixel, the stack, and the pixel each vertex was started
// from.
module FlowRegions {
  import opened Base
  import opened Pixels
  import opened Grids
  import opened Raster2D
  import opened FluidLabels
  import opened FlowNetwork

  /** The type of every pixel of the grid, as a map from the grid's pixels. */
  type KindMap = map<Point, PixelType>

  /** `km` holds exactly the pixels of `g`, each with its type. */
  ghost predicate KindsOf(g: Grid, km: KindMap)
    requires g.Valid()
  {
    && (forall p :: p in km ==> g.InBounds(p.x, p.y))
    && (forall a, b {:trigger g.TagAt(a, b)} :: g.InBounds(a, b) ==> Point(a, b) in km && km[Point(a, b)] == g.TagAt(a, b).kind)
  }

  /** `fluid` holds exactly the pixels of `g` whose class is Fluid. */
  ghost predicate FluidOf(g: Grid, fluid: set<Point>)
    requires g.Valid()
  {
    && (forall p {:trigger p in fluid} :: p in fluid ==> g.InBounds(p.x, p.y))
    && (forall a, b {:trigger g.TagAt(a, b)} :: g.InBounds(a, b) ==> (Point(a, b) in fluid <==> g.TagAt(a, b).pclass == Fluid))
  }

  /** `FluidCells` is the fluid set of its grid. */
  lemma FluidCellsOf(g: Grid)
    requires g.Valid()
    ensures FluidOf(g, FluidCells(g))
  {
    FluidCellsSpec(g);
    forall a, b | g.InBounds(a, b) ensures Point(a, b) in FluidCells(g) <==> g.TagAt(a, b).pclass == Fluid {
      var p := Point(a, b);
      assert p.x == a && p.y == b;
    }
  }

  /** The pixels of a `width` x `height` grid. */
  ghost function AllCells(width: int, height: int): set<Point>
  {
    set a, b | 0 <= a < width && 0 <= b < height :: Point(a, b)
  }

  /** The kind map of a grid. */
  ghost function Kinds(g: Grid): (km: KindMap)
    requires g.Valid()
    ensures KindsOf(g, km)
  {
    var km := map p | p in AllCells(g.width, g.height) :: g.TagAt(p.x, p.y).kind;
    assert forall a, b :: g.InBounds(a, b) ==> Point(a, b) in AllCells(g.width, g.height);
    km
  }

  /** A pixel of the grid read through its kind map. */
  lemma KindAt(g: Grid, km: KindMap, p: Point)
    requires g.Valid() && KindsOf(g, km) && g.InBounds(p.x, p.y)
    ensures p in km && km[p] == g.TagAt(p.x, p.y).kind
  {
    var t := g.TagAt(p.x, p.y);
    assert p == Point(p.x, p.y);
  }

  /** The kinds map holds exactly the grid's pixels. */
  lemma KindsCells(g: Grid, km: KindMap)
    requires g.Valid() && KindsOf(g, km)
    ensures km.Keys == AllCells(g.width, g.height)
  {
    forall p | p in AllCells(g.width, g.height) ensures p in km {
      KindAt(g, km, p);
    }
  }

  /** Two pixels that share an edge and have the same type: a step of `searchConnected`. */
  ghost predicate Joined(km: KindMap, p: Point, q: Point)
  {
    p in km && q in km && Adjacent(p, q) && km[p] == km[q]
  }

  /** A walk through same-type neighbours. */
  ghost predicate IsWalk(km: KindMap, w: seq<Point>)
  {
    |w| > 0 && forall i :: 0 <= i < |w| - 1 ==> Joined(km, w[i], w[i + 1])
  }

  /** `q` is reached from `p` through same-type neighbours. */
  ghost predicate Connected(km: KindMap, p: Point, q: Point)
  {
    exists w :: IsWalk(km, w) && w[0] == p && w[|w| - 1] == q
  }

  lemma ConnectedSelf(km: KindMap, p: Point)
    ensures Connected(km, p, p)
  {
    assert IsWalk(km, [p]);
  }

  /** A walk extends by one step. */
  lemma ConnectedStep(km: KindMap, a: Point, p: Point, q: Point)
    requires Connected(km, a, p) && Joined(km, p, q)
    ensures Connected(km, a, q)
  {
    var w :| IsWalk(km, w) && w[0] == a && w[|w| - 1] == p;
    var w' := w + [q];
    forall i | 0 <= i < |w'| - 1 ensures Joined(km, w'[i], w'[i + 1]) {
      if i < |w| - 1 {
        assert w'[i] == w[i] && w'[i + 1] == w[i + 1];
      }
    }
    assert IsWalk(km, w') && w'[0] == a && w'[|w'| - 1] == q;
  }

  /** Walks run both ways. */
  lemma ConnectedReverse(km: KindMap, a: Point, b: Point)
    requires Connected(km, a, b)
    ensures Connected(km, b, a)
  {
    var w :| IsWalk(km, w) && w[0] == a && w[|w| - 1] == b;
    var n := |w|;
    var r := seq(n, i requires 0 <= i < n => w[n - 1 - i]);
    forall i | 0 <= i < n - 1 ensures Joined(km, r[i], r[i + 1]) {
      assert Joined(km, w[n - 2 - i], w[n - 1 - i]);
    }
    assert IsWalk(km, r) && r[0] == b && r[n - 1] == a;
  }

  /** Two walks meeting at `b` make one. */
  lemma ConnectedTrans(km: KindMap, a: Point, b: Point, c: Point)
    requires Connected(km, a, b) && Connected(km, b, c)
    ensures Connected(km, a, c)
  {
    var w1 :| IsWalk(km, w1) && w1[0] == a && w1[|w1| - 1] == b;
    var w2 :| IsWalk(km, w2) && w2[0] == b && w2[|w2| - 1] == c;
    var w := w1 + w2[1..];
    forall i | 0 <= i < |w| - 1 ensures Joined(km, w[i], w[i + 1]) {
      if i < |w1| - 1 {
        assert w[i] == w1[i] && w[i + 1] == w1[i + 1];
      } else {
        var j := i - |w1| + 1;
        assert w[i] == w2[j] && w[i + 1] == w2[j + 1];
      }
    }
    assert IsWalk(km, w) && w[0] == a;
    if |w2| == 1 {
      assert w == w1;
    } else {
      assert w[|w| - 1] == w2[|w2| - 1];
    }
  }

  /** The marked pixels, each with a vertex id in `[2, hi]` whose type is the pixel's. */
  ghost predicate Marks(km: KindMap, marked: set<Point>, ids: map<Point, int>, vs: seq<Vertex>, hi: int)
  {
    && ids.Keys == marked
    && forall p {:trigger p in marked} :: p in marked ==> p in km && 2 <= ids[p] <= hi && ids[p] < |vs| && vs[ids[p]].kind == km[p]
  }

  /** Every marked pixel is reached from the pixel its vertex was started from. */
  ghost predicate Rooted(km: KindMap, marked: set<Point>, ids: map<Point, int>, seeds: seq<Point>)
    requires ids.Keys == marked
  {
    forall p {:trigger p in marked} :: p in marked ==> 0 <= ids[p] < |seeds| && Connected(km, seeds[ids[p]], p)
  }

  /** Vertices `2` up to `hi` (exclusive) were started from a fluid pixel that carries them. */
  ghost predicate Seeded(fluid: set<Point>, marked: set<Point>, ids: map<Point, int>, seeds: seq<Point>, hi: int)
    requires ids.Keys == marked
  {
    && hi <= |seeds|
    && forall x :: 2 <= x < hi ==> seeds[x] in marked && ids[seeds[x]] == x && seeds[x] in fluid
  }

  /** The vertex list as the labelling builds it: source and sink of type Air, then one fresh vertex per region. */
  ghost predicate FreshVertices(vs: seq<Vertex>)
  {
    && |vs| >= 2 && vs[0] == NewVertex(0, Air) && vs[1] == NewVertex(1, Air)
    && forall x :: 2 <= x < |vs| ==> vs[x] == NewVertex(x, vs[x].kind)
  }

  /** Between two fills: every same-type neighbour of a marked pixel is marked with the same vertex. */
  ghost predicate Settled(km: KindMap, fluid: set<Point>, marked: set<Point>, ids: map<Point, int>, vs: seq<Vertex>, seeds: seq<Point>)
  {
    && FreshVertices(vs) && |seeds| == |vs|
    && Marks(km, marked, ids, vs, |vs| - 1)
    && Rooted(km, marked, ids, seeds) && Seeded(fluid, marked, ids, seeds, |vs|)
    && Closed(km, marked, ids)
  }

  /** Every same-type neighbour of a marked pixel is marked with the same vertex. */
  ghost predicate Closed(km: KindMap, marked: set<Point>, ids: map<Point, int>)
    requires ids.Keys == marked
  {
    forall p, q {:trigger Joined(km, p, q)} :: p in marked && Joined(km, p, q) ==> q in marked && ids[q] == ids[p]
  }

  /** The stack holds pixels of type `kind` reached from `seed`; the marked ones carry vertex `vid`. */
  ghost predicate StackOk(km: KindMap, marked: set<Point>, ids: map<Point, int>, stack: seq<Point>, vid: int,
                          kind: PixelType, seed: Point)
    requires ids.Keys == marked
  {
    forall i :: 0 <= i < |stack| ==>
      && stack[i] in km && km[stack[i]] == kind
      && Connected(km, seed, stack[i])
      && (stack[i] in marked ==> ids[stack[i]] == vid)
  }

  /** A same-type neighbour of a marked pixel is marked alike, or it waits on the stack and the pixel has vertex `vid`. */
  ghost predicate Closure(km: KindMap, marked: set<Point>, ids: map<Point, int>, stack: seq<Point>, vid: int)
    requires ids.Keys == marked
  {
    forall p, q {:trigger Joined(km, p, q)} :: p in marked && Joined(km, p, q) ==>
      if q in marked then ids[q] == ids[p] else q in stack && ids[p] == vid
  }

  /** A marked pixel on the stack has its unmarked same-type neighbours above it. */
  ghost predicate Above(km: KindMap, marked: set<Point>, stack: seq<Point>)
  {
    forall i, q {:trigger Joined(km, stack[i], q)} :: 0 <= i < |stack| && stack[i] in marked && q !in marked && Joined(km, stack[i], q) ==>
      q in stack[i + 1..]
  }

  /**
    During the fill of the last vertex `|vs| - 1`: the stack holds pixels of
    that vertex's type reached from its seed; a marked pixel's unmarked
    same-type neighbour is on the stack above it, and the pixel has the
    current vertex.
   */
  ghost predicate Filling(km: KindMap, fluid: set<Point>, marked: set<Point>, ids: map<Point, int>, stack: seq<Point>,
                          vs: seq<Vertex>, seeds: seq<Point>)
  {
    && FreshVertices(vs) && |seeds| == |vs| && |vs| >= 3
    && var vid := |vs| - 1;
    && Marks(km, marked, ids, vs, vid)
    && Rooted(km, marked, ids, seeds) && Seeded(fluid, marked, ids, seeds, vid)
    && StackOk(km, marked, ids, stack, vid, vs[vid].kind, seeds[vid])
    && Closure(km, marked, ids, stack, vid)
    && Above(km, marked, stack)
  }

  /** The marks and vertex ids as the two arrays keep them. */
  ghost predicate Linked(dirty: array2<bool>, vid: array2<int>, marked: set<Point>, ids: map<Point, int>)
    reads dirty, vid
  {
    && dirty.Length0 == vid.Length0 && dirty.Length1 == vid.Length1
    && (forall p {:trigger p in marked} :: p in marked ==> 0 <= p.x < dirty.Length0 && 0 <= p.y < dirty.Length1)
    && (forall a, b {:trigger dirty[a, b]} {:trigger vid[a, b]} :: 0 <= a < dirty.Length0 && 0 <= b < dirty.Length1 ==>
          dirty[a, b] == (Point(a, b) in marked)
          && vid[a, b] == if Point(a, b) in ids then ids[Point(a, b)] else -1)
  }

  /** A fill starts from a settled state, a new vertex of the seed's type and the seed on the stack. */
  lemma StartFill(km: KindMap, fluid: set<Point>, marked: set<Point>, ids: map<Point, int>, vs: seq<Vertex>, seeds: seq<Point>,
                  seed: Point)
    requires Settled(km, fluid, marked, ids, vs, seeds)
    requires seed in km && seed !in marked
    ensures Filling(km, fluid, marked, ids, [seed], vs + [NewVertex(|vs|, km[seed])], seeds + [seed])
  {
    var vs' := vs + [NewVertex(|vs|, km[seed])];
    var seeds' := seeds + [seed];
    ConnectedSelf(km, seed);
    assert forall x :: 0 <= x < |vs| ==> vs'[x] == vs[x];
    assert forall x :: 0 <= x < |seeds| ==> seeds'[x] == seeds[x];
  }

  /** A fill whose stack has run empty, with its fluid seed marked, leaves a settled state. */
  lemma EndFill(km: KindMap, fluid: set<Point>, marked: set<Point>, ids: map<Point, int>, vs: seq<Vertex>, seeds: seq<Point>)
    requires Filling(km, fluid, marked, ids, [], vs, seeds)
    requires var s := seeds[|vs| - 1]; s in marked && ids[s] == |vs| - 1 && s in fluid
    ensures Settled(km, fluid, marked, ids, vs, seeds)
  {
  }

  /** The stack and closure parts of `PopMarked`. */
  lemma PopMarkedClosure(km: KindMap, marked: set<Point>, ids: map<Point, int>, stack: seq<Point>, vid: int,
                         kind: PixelType, seed: Point)
    requires ids.Keys == marked && Closure(km, marked, ids, stack, vid) && StackOk(km, marked, ids, stack, vid, kind, seed)
    requires |stack| > 0 && stack[|stack| - 1] in marked
    ensures Closure(km, marked, ids, stack[..|stack| - 1], vid) && StackOk(km, marked, ids, stack[..|stack| - 1], vid, kind, seed)
  {
    var n := |stack|;
    var st := stack[..n - 1];
    assert stack == st + [stack[n - 1]];
    forall p0, q | p0 in marked && Joined(km, p0, q) && q !in marked ensures q in st {
      assert q in stack && q != stack[n - 1];
    }
  }

  /** The ordering part of `PopMarked`. */
  lemma PopMarkedAbove(km: KindMap, marked: set<Point>, stack: seq<Point>)
    requires Above(km, marked, stack) && |stack| > 0 && stack[|stack| - 1] in marked
    ensures Above(km, marked, stack[..|stack| - 1])
  {
    var n := |stack|;
    var st := stack[..n - 1];
    forall i, q | 0 <= i < |st| && st[i] in marked && q !in marked && Joined(km, st[i], q) ensures q in st[i + 1..] {
      assert stack[i] == st[i];
      assert q in stack[i + 1..];
      assert stack[i + 1..] == st[i + 1..] + [stack[n - 1]];
    }
  }

  /** A popped pixel that is marked already: dropping it keeps the fill going, with a shorter stack. */
  lemma PopMarked(km: KindMap, fluid: set<Point>, marked: set<Point>, ids: map<Point, int>, stack: seq<Point>,
                  vs: seq<Vertex>, seeds: seq<Point>)
    requires Filling(km, fluid, marked, ids, stack, vs, seeds) && |stack| > 0 && stack[|stack| - 1] in marked
    ensures Filling(km, fluid, marked, ids, stack[..|stack| - 1], vs, seeds)
  {
    var vid := |vs| - 1;
    PopMarkedClosure(km, marked, ids, stack, vid, vs[vid].kind, seeds[vid]);
    PopMarkedAbove(km, marked, stack);
  }

  /** `pushed` holds exactly the same-type neighbours of `p` among `ns` that are not marked. */
  ghost predicate PushedAll(km: KindMap, p: Point, ns: seq<Point>, marked: set<Point>, pushed: seq<Point>)
  {
    forall q {:trigger q in pushed} {:trigger Joined(km, p, q)} :: q in pushed <==> q in ns && Joined(km, p, q) && q !in marked
  }

  /** The stack part of `PopFresh`. */
  lemma PopFreshStack(km: KindMap, marked: set<Point>, ids: map<Point, int>, stack: seq<Point>, vid: int,
                      kind: PixelType, seed: Point, pushed: seq<Point>)
    requires ids.Keys == marked && StackOk(km, marked, ids, stack, vid, kind, seed) && |stack| > 0
    requires forall q :: q in pushed ==> Joined(km, stack[|stack| - 1], q) && q !in marked && q != stack[|stack| - 1]
    ensures var p := stack[|stack| - 1];
            StackOk(km, marked + {p}, ids[p := vid], stack[..|stack| - 1] + pushed, vid, kind, seed)
  {
    var n := |stack|;
    var p := stack[n - 1];
    var st := stack[..n - 1] + pushed;
    assert p == stack[n - 1];
    forall q | q in pushed ensures Connected(km, seed, q) {
      ConnectedStep(km, seed, p, q);
    }
    forall i | 0 <= i < |st|
      ensures st[i] in km && km[st[i]] == kind && Connected(km, seed, st[i]) && (st[i] in marked + {p} ==> ids[p := vid][st[i]] == vid)
    {
      if i < n - 1 {
        assert st[i] == stack[i];
      } else {
        assert st[i] in pushed;
      }
    }
  }

  /** The closure part of `PopFresh`. */
  lemma PopFreshClosure(km: KindMap, marked: set<Point>, ids: map<Point, int>, stack: seq<Point>, vid: int,
                        ns: seq<Point>, pushed: seq<Point>)
    requires ids.Keys == marked && Closure(km, marked, ids, stack, vid) && |stack| > 0
    requires var p := stack[|stack| - 1];
             && p !in marked && PushedAll(km, p, ns, marked + {p}, pushed)
             && forall q :: q in km && Adjacent(p, q) ==> q in ns
    ensures var p := stack[|stack| - 1];
            Closure(km, marked + {p}, ids[p := vid], stack[..|stack| - 1] + pushed, vid)
  {
    var n := |stack|;
    var p := stack[n - 1];
    var m' := marked + {p};
    var ids' := ids[p := vid];
    var st := stack[..n - 1] + pushed;
    assert stack == stack[..n - 1] + [p];
    forall p0, q | p0 in m' && Joined(km, p0, q)
      ensures if q in m' then ids'[q] == ids'[p0] else q in st && ids'[p0] == vid
    {
      if p0 == p {
        if q in marked {
          assert Joined(km, q, p);
        } else if q != p {
          assert q in pushed;
        }
      } else if q !in marked && q != p {
        assert q in stack[..n - 1];
      }
    }
  }

  /** The ordering part of `PopFresh`. */
  lemma PopFreshAbove(km: KindMap, marked: set<Point>, stack: seq<Point>, ns: seq<Point>, pushed: seq<Point>)
    requires Above(km, marked, stack) && |stack| > 0
    requires var p := stack[|stack| - 1];
             && p !in marked && PushedAll(km, p, ns, marked + {p}, pushed)
             && forall q :: q in km && Adjacent(p, q) ==> q in ns
    ensures var p := stack[|stack| - 1];
            Above(km, marked + {p}, stack[..|stack| - 1] + pushed)
  {
    var n := |stack|;
    var p := stack[n - 1];
    var m' := marked + {p};
    var st := stack[..n - 1] + pushed;
    forall j | n - 1 <= j < |st| ensures st[j] !in m' {
      assert st[j] == pushed[j - (n - 1)];
      assert st[j] in pushed;
    }
    forall i, q | 0 <= i < |st| && st[i] in m' && q !in m' && Joined(km, st[i], q) ensures q in st[i + 1..] {
      assert st[i] == stack[i];
      assert st[i + 1..] == stack[i + 1..n - 1] + pushed;
      if stack[i] == p {
        assert q in pushed;
      } else {
        assert stack[i + 1..] == stack[i + 1..n - 1] + [p];
        assert q in stack[i + 1..n - 1];
      }
    }
  }

  /**
    A popped pixel not marked yet: it is marked with the current vertex and
    its unmarked same-type neighbours go on the stack.
   */
  lemma PopFresh(km: KindMap, fluid: set<Point>, marked: set<Point>, ids: map<Point, int>, stack: seq<Point>,
                 vs: seq<Vertex>, seeds: seq<Point>, ns: seq<Point>, pushed: seq<Point>)
    requires Filling(km, fluid, marked, ids, stack, vs, seeds) && |stack| > 0
    requires var p := stack[|stack| - 1];
             && p !in marked && PushedAll(km, p, ns, marked + {p}, pushed)
             && forall q :: q in km && Adjacent(p, q) ==> q in ns
    ensures var p := stack[|stack| - 1];
            Filling(km, fluid, marked + {p}, ids[p := |vs| - 1], stack[..|stack| - 1] + pushed, vs, seeds)
  {
    var vid := |vs| - 1;
    var p := stack[|stack| - 1];
    PopFreshStack(km, marked, ids, stack, vid, vs[vid].kind, seeds[vid], pushed);
    PopFreshClosure(km, marked, ids, stack, vid, ns, pushed);
    PopFreshAbove(km, marked, stack, ns, pushed);
    assert p in km && km[p] == vs[vid].kind && Connected(km, seeds[vid], p);
  }

  /** Marking an unmarked pixel leaves one pixel fewer to mark. */
  lemma MarkShrinksCells(cells: set<Point>, marked: set<Point>, p: Point)
    requires p in cells && p !in marked
    ensures |cells - (marked + {p})| < |cells - marked|
  {
    assert cells - (marked + {p}) == (cells - marked) - {p};
  }

  /**
    The neighbour loop of one pop: `searchConnected` pushes each in-bounds
    neighbour of type `ptype` that is not marked, in `neighborsOf` order.
   */
  method PushSameType(g: Grid, dirty: array2<bool>, p: Point, ptype: PixelType, stack: seq<Point>,
                      ghost km: KindMap, ghost marked: set<Point>)
    returns (stack': seq<Point>, ghost pushed: seq<Point>)
    requires g.Valid() && g.InBounds(p.x, p.y) && p in km && km[p] == ptype
    requires forall q {:trigger q in NeighborsOf(p, g.width, g.height)} :: q in NeighborsOf(p, g.width, g.height) ==> q in km && km[q] == g.TagAt(q.x, q.y).kind
    requires dirty.Length0 == g.width && dirty.Length1 == g.height
    requires forall q {:trigger q in NeighborsOf(p, g.width, g.height)} :: q in NeighborsOf(p, g.width, g.height) ==> dirty[q.x, q.y] == (q in marked)
    ensures stack' == stack + pushed && PushedAll(km, p, NeighborsOf(p, g.width, g.height), marked, pushed)
  {
    var ns := NeighborsOf(p, g.width, g.height);
    stack' := stack;
    pushed := [];
    for k := 0 to |ns|
      invariant stack' == stack + pushed
      invariant forall q {:trigger q in pushed} {:trigger Joined(km, p, q)} :: q in pushed <==> q in ns[..k] && Joined(km, p, q) && q !in marked
    {
      var q := ns[k];
      assert q in ns;
      assert forall r :: r in ns[..k + 1] <==> r in ns[..k] || r == q;
      if g.TagAt(q.x, q.y).kind == ptype && !dirty[q.x, q.y] {
        stack', pushed := stack' + [q], pushed + [q];
      }
    }
    assert ns[..|ns|] == ns;
  }

  /** The grid's types and the marks read around `p`, as `PushSameType` needs them. */
  lemma AroundPixel(g: Grid, km: KindMap, dirty: array2<bool>, marked: set<Point>, p: Point)
    requires g.Valid() && KindsOf(g, km) && g.InBounds(p.x, p.y)
    requires dirty.Length0 == g.width && dirty.Length1 == g.height
    requires forall a, b {:trigger dirty[a, b]} :: 0 <= a < g.width && 0 <= b < g.height ==> dirty[a, b] == (Point(a, b) in marked)
    ensures p in km && km[p] == g.TagAt(p.x, p.y).kind
    ensures forall q {:trigger q in NeighborsOf(p, g.width, g.height)} :: q in NeighborsOf(p, g.width, g.height) ==> q in km && km[q] == g.TagAt(q.x, q.y).kind
    ensures forall q {:trigger q in NeighborsOf(p, g.width, g.height)} :: q in NeighborsOf(p, g.width, g.height) ==> dirty[q.x, q.y] == (q in marked)
    ensures forall q :: q in km && Adjacent(p, q) ==> q in NeighborsOf(p, g.width, g.height)
  {
    KindAt(g, km, p);
    forall q | q in NeighborsOf(p, g.width, g.height)
      ensures q in km && km[q] == g.TagAt(q.x, q.y).kind && dirty[q.x, q.y] == (q in marked)
    {
      KindAt(g, km, q);
      assert q == Point(q.x, q.y);
    }
  }

  /** Marks `p` with vertex `id` in both arrays. */
  method Mark(dirty: array2<bool>, vid: array2<int>, p: Point, id: int, ghost marked: set<Point>, ghost ids: map<Point, int>)
    returns (ghost marked': set<Point>, ghost ids': map<Point, int>)
    requires Linked(dirty, vid, marked, ids) && 0 <= p.x < dirty.Length0 && 0 <= p.y < dirty.Length1
    modifies dirty, vid
    ensures marked' == marked + {p} && ids' == ids[p := id] && Linked(dirty, vid, marked', ids')
  {
    dirty[p.x, p.y] := true;
    vid[p.x, p.y] := id;
    marked', ids' := marked + {p}, ids[p := id];
    forall a, b | 0 <= a < dirty.Length0 && 0 <= b < dirty.Length1
      ensures dirty[a, b] == (Point(a, b) in marked') && vid[a, b] == if Point(a, b) in ids' then ids'[Point(a, b)] else -1
    {
      if a != p.x || b != p.y {
        assert Point(a, b) != p && dirty[a, b] == old(dirty[a, b]) && vid[a, b] == old(vid[a, b]);
      }
    }
  }

  /** A popped pixel not marked yet is marked with vertex `id`, and its unmarked neighbours of type `ptype` are pushed. */
  method SearchFresh(g: Grid, dirty: array2<bool>, vid: array2<int>, id: int, ptype: PixelType, stack: seq<Point>,
                     ghost km: KindMap, ghost fluid: set<Point>, ghost vs: seq<Vertex>, ghost seeds: seq<Point>,
                     ghost marked: set<Point>, ghost ids: map<Point, int>)
    returns (stack': seq<Point>, ghost marked': set<Point>, ghost ids': map<Point, int>)
    requires g.Valid() && KindsOf(g, km) && dirty.Length0 == g.width && dirty.Length1 == g.height
    requires id == |vs| - 1 && Filling(km, fluid, marked, ids, stack, vs, seeds) && Linked(dirty, vid, marked, ids) && stack != []
    requires vs[id].kind == ptype && stack[|stack| - 1] !in marked
    modifies dirty, vid
    ensures Filling(km, fluid, marked', ids', stack', vs, seeds) && Linked(dirty, vid, marked', ids')
    ensures marked' == marked + {stack[|stack| - 1]} && ids' == ids[stack[|stack| - 1] := id]
    ensures |km.Keys - marked'| < |km.Keys - marked|
  {
    var p := stack[|stack| - 1];
    assert p in km;
    marked', ids' := Mark(dirty, vid, p, id, marked, ids);
    AroundPixel(g, km, dirty, marked', p);
    ghost var pushed;
    stack', pushed := PushSameType(g, dirty, p, ptype, stack[..|stack| - 1], km, marked');
    PopFresh(km, fluid, marked, ids, stack, vs, seeds, NeighborsOf(p, g.width, g.height), pushed);
    MarkShrinksCells(km.Keys, marked, p);
  }

  /**
    One round of `searchConnected`'s loop: the top pixel is popped; a marked
    one is skipped, an unmarked one is marked with vertex `id` and its
    unmarked neighbours of type `ptype` are pushed.
   */
  method SearchPop(g: Grid, dirty: array2<bool>, vid: array2<int>, id: int, ptype: PixelType, stack: seq<Point>,
                   ghost km: KindMap, ghost fluid: set<Point>, ghost vs: seq<Vertex>, ghost seeds: seq<Point>,
                   ghost marked: set<Point>, ghost ids: map<Point, int>)
    returns (stack': seq<Point>, ghost marked': set<Point>, ghost ids': map<Point, int>)
    requires g.Valid() && KindsOf(g, km) && dirty.Length0 == g.width && dirty.Length1 == g.height
    requires id == |vs| - 1 && Filling(km, fluid, marked, ids, stack, vs, seeds) && Linked(dirty, vid, marked, ids) && stack != []
    requires vs[id].kind == ptype
    modifies dirty, vid
    ensures Filling(km, fluid, marked', ids', stack', vs, seeds) && Linked(dirty, vid, marked', ids')
    ensures Extends(ids, ids')
    ensures stack[|stack| - 1] in marked ==> marked' == marked && ids' == ids && |stack'| < |stack|
    ensures stack[|stack| - 1] !in marked ==>
              marked' == marked + {stack[|stack| - 1]} && ids' == ids[stack[|stack| - 1] := id] && |km.Keys - marked'| < |km.Keys - marked|
  {
    var p := stack[|stack| - 1];
    assert p in km;
    if dirty[p.x, p.y] {
      stack' := stack[..|stack| - 1];
      marked', ids' := marked, ids;
      PopMarked(km, fluid, marked, ids, stack, vs, seeds);
      return;
    }
    stack', marked', ids' := SearchFresh(g, dirty, vid, id, ptype, stack, km, fluid, vs, seeds, marked, ids);
  }

  /** `ids'` keeps every entry of `ids`. */
  ghost predicate Extends(ids: map<Point, int>, ids': map<Point, int>)
  {
    forall q {:trigger q in ids} :: q in ids ==> q in ids' && ids'[q] == ids[q]
  }

  lemma ExtendsTrans(a: map<Point, int>, b: map<Point, int>, c: map<Point, int>)
    requires Extends(a, b) && Extends(b, c)
    ensures Extends(a, c)
  {
  }

  /**
    `searchConnected` from the unmarked pixel `seed` for the vertex `id`
    just pushed: on return every pixel reached from the seed through
    neighbours of the seed's type is marked with `id`.
   */
  method SearchConnected(g: Grid, dirty: array2<bool>, vid: array2<int>, id: int, seed: Point, ptype: PixelType,
                         ghost km: KindMap, ghost fluid: set<Point>, ghost vs: seq<Vertex>, ghost seeds: seq<Point>,
                         ghost marked: set<Point>, ghost ids: map<Point, int>)
    returns (ghost marked': set<Point>, ghost ids': map<Point, int>)
    requires g.Valid() && KindsOf(g, km) && dirty.Length0 == g.width && dirty.Length1 == g.height
    requires id == |vs| - 1 && Filling(km, fluid, marked, ids, [seed], vs, seeds) && Linked(dirty, vid, marked, ids)
    requires seed !in marked && seeds[id] == seed && vs[id].kind == ptype
    modifies dirty, vid
    ensures Filling(km, fluid, marked', ids', [], vs, seeds) && Linked(dirty, vid, marked', ids')
    ensures marked <= marked' && seed in marked' && ids'[seed] == id
  {
    // The first round pops the seed, which is not marked yet.
    var stack;
    stack, marked', ids' := SearchFresh(g, dirty, vid, id, ptype, [seed], km, fluid, vs, seeds, marked, ids);
    ghost var ids1 := ids';
    while stack != []
      invariant Filling(km, fluid, marked', ids', stack, vs, seeds) && Linked(dirty, vid, marked', ids')
      invariant Extends(ids1, ids')
      decreases |km.Keys - marked'|, |stack|
    {
      ghost var ids0 := ids';
      stack, marked', ids' := SearchPop(g, dirty, vid, id, ptype, stack, km, fluid, vs, seeds, marked', ids');
      ExtendsTrans(ids1, ids0, ids');
    }
    assert seed in ids1;
  }

  /**
    One pixel of the first loop of `buildNetwork`: a fluid pixel not marked
    yet starts vertex `|vs|` of its type, which `searchConnected` fills.
   */
  method LabelPixel(g: Grid, dirty: array2<bool>, vid: array2<int>, x: int, y: int, vs: seq<Vertex>,
                   ghost km: KindMap, ghost fluid: set<Point>, ghost seeds: seq<Point>, ghost marked: set<Point>, ghost ids: map<Point, int>)
    returns (vs': seq<Vertex>, ghost seeds': seq<Point>, ghost marked': set<Point>, ghost ids': map<Point, int>)
    requires g.Valid() && KindsOf(g, km) && FluidOf(g, fluid) && g.InBounds(x, y)
    requires dirty.Length0 == g.width && dirty.Length1 == g.height
    requires Settled(km, fluid, marked, ids, vs, seeds) && Linked(dirty, vid, marked, ids)
    modifies dirty, vid
    ensures Settled(km, fluid, marked', ids', vs', seeds') && Linked(dirty, vid, marked', ids')
    ensures marked <= marked' && (Point(x, y) in fluid ==> Point(x, y) in marked')
  {
    var tag := g.TagAt(x, y);
    if tag.pclass != Fluid || dirty[x, y] {
      vs', seeds', marked', ids' := vs, seeds, marked, ids;
      return;
    }
    var id := |vs|;
    var seed := Point(x, y);
    KindAt(g, km, seed);
    StartFill(km, fluid, marked, ids, vs, seeds, seed);
    vs', seeds' := vs + [NewVertex(id, tag.kind)], seeds + [seed];
    marked', ids' := SearchConnected(g, dirty, vid, id, seed, tag.kind, km, fluid, vs', seeds', marked, ids);
    EndFill(km, fluid, marked', ids', vs', seeds');
  }

  /**
    The first loop of `buildNetwork`: the pixels are scanned row by row, and
    each fluid pixel not marked yet starts a vertex of its type, which
    `searchConnected` fills. Vertices 0 and 1 are the source and the sink.
   */
  method LabelRegions(g: Grid, dirty: array2<bool>, vid: array2<int>, ghost fluid: set<Point>)
    returns (vs: seq<Vertex>, ghost km: KindMap, ghost seeds: seq<Point>, ghost marked: set<Point>, ghost ids: map<Point, int>)
    requires g.Valid() && FluidOf(g, fluid) && dirty.Length0 == g.width && dirty.Length1 == g.height
    requires vid.Length0 == g.width && vid.Length1 == g.height
    requires forall a, b :: 0 <= a < g.width && 0 <= b < g.height ==> !dirty[a, b] && vid[a, b] == -1
    modifies dirty, vid
    ensures km == Kinds(g) && Settled(km, fluid, marked, ids, vs, seeds) && Linked(dirty, vid, marked, ids)
    ensures fluid <= marked
  {
    km := Kinds(g);
    vs := [NewVertex(SourceVid, Air), NewVertex(SinkVid, Air)];
    seeds := [Point(0, 0), Point(0, 0)];
    marked, ids := {}, map[];
    for y := 0 to g.height
      invariant Settled(km, fluid, marked, ids, vs, seeds) && Linked(dirty, vid, marked, ids)
      invariant Scanned(fluid, marked, y, 0)
    {
      for x := 0 to g.width
        invariant Settled(km, fluid, marked, ids, vs, seeds) && Linked(dirty, vid, marked, ids)
        invariant Scanned(fluid, marked, y, x)
      {
        ghost var marked0 := marked;
        vs, seeds, marked, ids := LabelPixel(g, dirty, vid, x, y, vs, km, fluid, seeds, marked, ids);
        ScanStep(g, fluid, marked0, marked, y, x);
      }
      ScanRow(g, fluid, marked, y);
    }
    ScanAll(g, fluid, marked);
  }

  /** Every fluid pixel before `(x, y)` in the row-major scan is marked. */
  ghost predicate Scanned(fluid: set<Point>, marked: set<Point>, y: int, x: int)
  {
    forall p {:trigger p in fluid} :: p in fluid && (p.y < y || (p.y == y && p.x < x)) ==> p in marked
  }

  /** Visiting `(x, y)` extends the scan by one pixel. */
  lemma ScanStep(g: Grid, fluid: set<Point>, marked: set<Point>, marked': set<Point>, y: int, x: int)
    requires Scanned(fluid, marked, y, x) && marked <= marked' && (Point(x, y) in fluid ==> Point(x, y) in marked')
    ensures Scanned(fluid, marked', y, x + 1)
  {
    forall p | p in fluid && (p.y < y || (p.y == y && p.x < x + 1)) ensures p in marked' {
      if p.y == y && p.x == x {
        assert p == Point(x, y);
      }
    }
  }

  /** The end of a row is the start of the next. */
  lemma ScanRow(g: Grid, fluid: set<Point>, marked: set<Point>, y: int)
    requires g.Valid() && FluidOf(g, fluid) && Scanned(fluid, marked, y, g.width)
    ensures Scanned(fluid, marked, y + 1, 0)
  {
  }

  /** The whole scan marks every fluid pixel. */
  lemma ScanAll(g: Grid, fluid: set<Point>, marked: set<Point>)
    requires g.Valid() && FluidOf(g, fluid) && Scanned(fluid, marked, g.height, 0)
    ensures fluid <= marked
  {
  }

  /** A walk that starts at a marked pixel stays on pixels marked with the same vertex. */
  lemma {:induction false} WalkKeepsVertex(km: KindMap, marked: set<Point>, ids: map<Point, int>, w: seq<Point>, k: int)
    requires ids.Keys == marked && Closed(km, marked, ids)
    requires IsWalk(km, w) && w[0] in marked && 0 <= k < |w|
    ensures w[k] in marked && ids[w[k]] == ids[w[0]]
    decreases k
  {
    if k > 0 {
      WalkKeepsVertex(km, marked, ids, w, k - 1);
      assert Joined(km, w[k - 1], w[k]);
    }
  }

  /**
    After the labelling, the vertices are the regions: two marked pixels
    share a vertex exactly when a same-type walk joins them; whatever a
    fluid pixel reaches is marked; every marked pixel is reached from the
    fluid pixel its vertex started from; and every vertex from 2 on has
    such a pixel.
   */
  lemma RegionsAreComponents(km: KindMap, fluid: set<Point>, marked: set<Point>, ids: map<Point, int>,
                             vs: seq<Vertex>, seeds: seq<Point>)
    requires Settled(km, fluid, marked, ids, vs, seeds) && fluid <= marked
    ensures forall p, q :: p in marked && q in marked ==> (ids[p] == ids[q] <==> Connected(km, p, q))
    ensures forall f, p :: f in fluid && Connected(km, f, p) ==> p in marked
    ensures forall p :: p in marked ==> 2 <= ids[p] < |vs| && seeds[ids[p]] in fluid && Connected(km, seeds[ids[p]], p)
    ensures forall x :: 2 <= x < |vs| ==> seeds[x] in fluid && ids[seeds[x]] == x
  {
    forall p, q | p in marked && q in marked ensures ids[p] == ids[q] <==> Connected(km, p, q) {
      if ids[p] == ids[q] {
        var s := seeds[ids[p]];
        ConnectedReverse(km, s, p);
        ConnectedTrans(km, p, s, q);
      }
      if Connected(km, p, q) {
        var w :| IsWalk(km, w) && w[0] == p && w[|w| - 1] == q;
        WalkKeepsVertex(km, marked, ids, w, |w| - 1);
      }
    }
    forall f, p | f in fluid && Connected(km, f, p) ensures p in marked {
      var w :| IsWalk(km, w) && w[0] == f && w[|w| - 1] == p;
      WalkKeepsVertex(km, marked, ids, w, |w| - 1);
    }
  }
}
