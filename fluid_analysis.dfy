// `PixelWorld::fluidAnalysisStep` of src/fallsand/fluid.cpp, composed from
// its parts: the flood-fill labelling, `resetDirtyFlags`, the row passes,
// the surface levelling and the density pass under `ByType`. The shuffle of
// each row of surface pixels is the `rank` of list positions per component
// given from outside, and
// `surface_adjust_factor` (0.7) is the exact ratio 7/10.
module FluidAnalysis {
  import opened Base
  import opened Pixels
  import opened Grids
  import opened World
  import opened FluidLabels
  import opened FluidPass
  import opened FluidLevel
  import opened DensityRows
  import opened FluidDensity

  /** `surface_adjust_factor` as the ratio `SurfaceNum / SurfaceDen`. */
  const SurfaceNum: nat := 7
  const SurfaceDen: nat := 10

  /** Every fluid cell's `fluid_dir` is -1, 0 or +1, the three counters of the row pass. */
  predicate UnitFluidDirs(g: Grid)
    requires g.Valid()
  {
    forall x, y :: 0 <= x < g.width && 0 <= y < g.height && g.TagAt(x, y).pclass == Fluid ==> -1 <= g.TagAt(x, y).fluidDir <= 1
  }

  /** The labelling facts carry over to a grid with the same classes: the row passes change only `fluid_dir`. */
  lemma LabelsPlaced(g: Grid, h: Grid, cid: array2<int>, pixels: seq<Point>, count: nat)
    requires g.Valid() && h.Valid() && h.width == g.width && h.height == g.height
    requires cid.Length0 == g.width && cid.Length1 == g.height
    requires forall x, y :: g.InBounds(x, y) ==> h.TagAt(x, y).pclass == g.TagAt(x, y).pclass
    requires forall a, b :: 0 <= a < g.width && 0 <= b < g.height ==>
               if g.TagAt(a, b).pclass == Fluid then 0 <= cid[a, b] < count else cid[a, b] == -1
    requires forall p :: p in pixels <==> p in FluidCells(g)
    ensures Placed(h, cid, pixels, count)
  {
    FluidCellsSpec(g);
    forall i | 0 <= i < |pixels| ensures h.InBounds(pixels[i].x, pixels[i].y) && 0 <= cid[pixels[i].x, pixels[i].y] < count {
      assert pixels[i] in pixels;
    }
  }

  /** Every surface list lies in the world, since it holds only surface pixels of the world. */
  lemma SurfacesPlaced(g: Grid, cid: array2<int>, pixels: seq<Point>, surf: seq<seq<Point>>)
    requires g.Valid() && cid.Length0 == g.width && cid.Length1 == g.height
    requires forall c :: 0 <= c < |surf| ==> surf[c] == SurfaceOf(g, cid, pixels, |pixels|, c)
    ensures SurfacesIn(g.width, g.height, surf)
  {
    forall c, i | 0 <= c < |surf| && 0 <= i < |surf[c]|
      ensures 0 <= surf[c][i].x < g.width && 0 <= surf[c][i].y < g.height
    {
      SurfaceOfMeaning(g, cid, pixels, |pixels|, c);
      assert surf[c][i] in multiset(surf[c]);
      assert Kept(g, cid, c, surf[c][i]);
    }
  }

  /**
    One `fluidAnalysisStep`: the components are labelled on the grid as it
    was, the dirty flags are cleared, every row pass runs, each component's
    surface pixels of the grid the passes left are levelled in id order,
    and the density pass under `ByType` runs last. `fluid_pixels` and the
    surface lists are returned with the labels.
   */
  method FluidAnalysisStep(w: PixelWorld, rank: (int, int) -> int)
    returns (cid: array2<int>, pixels: seq<Point>, count: nat, surf: seq<seq<Point>>)
    requires w.Valid() && UnitFluidDirs(w.Cells())
    modifies w.tags, w.elems
    ensures fresh(cid) && cid.Length0 == w.width && cid.Length1 == w.height
    ensures forall a, b :: 0 <= a < w.width && 0 <= b < w.height ==>
              if old(w.Cells()).TagAt(a, b).pclass == Fluid then 0 <= cid[a, b] < count else cid[a, b] == -1
    ensures forall p :: p in pixels <==> p in FluidCells(old(w.Cells()))
    ensures var g1 := ClearDirty(old(w.Cells()));
            && Ready(g1, cid)
            && var g2 := WithDirs(g1, AllRows(g1, cid));
            && |surf| == count
            && (forall c :: 0 <= c < count ==> surf[c] == SurfaceOf(g2, cid, pixels, |pixels|, c))
            && SurfacesIn(w.width, w.height, surf)
            && w.Cells() == DensityFrom(LevelAll(g2, surf, rank, SurfaceNum, SurfaceDen, |surf|), w.height - 2, ByType, false)
  {
    ghost var g0 := w.Cells();
    cid, pixels, count := Label(w);
    w.ResetDirtyFlags();
    ghost var g1 := w.Cells();
    assert Ready(g1, cid);
    RowsPass(w, cid);
    ghost var g2 := w.Cells();
    AllRowsMeaning(g1, cid);
    LabelsPlaced(g0, g2, cid, pixels, count);
    surf := CollectSurfaces(w, cid, pixels, count);
    SurfacesPlaced(g2, cid, pixels, surf);
    LevelComponents(w, surf, rank, SurfaceNum, SurfaceDen);
    DensityStep(w, ByType, false);
  }
}
