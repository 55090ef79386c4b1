// `Level::loadFromAsset` of src/loader.cpp: the scan of a level map image
// that places the duck and the checkpoint, collects the structure markers
// and classifies every other pixel, followed by the item list of the level's
// metadata. A scan produces a plan: what each cell receives, where the duck
// and checkpoint go, and which structures and items are made, in order.
module Loader {
  import opened Base
  import opened Pixels
  import opened Assets

  // ---------------------------------------------------------------------
  // Markers

  /** `structure_marker_alpha`: a pixel with this alpha is a marker. */
  const MarkerAlpha: byte := 231

  const DuckMarkerColor: Rgba := Rgba(250, 200, 46, 231)
  const CheckpointMarkerColor: Rgba := Rgba(89, 241, 255, 231)
  const LaserEmitterMarkerColor: Rgba := Rgba(51, 255, 184, 231)
  const PressurePlateMarkerColor: Rgba := Rgba(240, 34, 159, 231)

  /** The case of the marker switch a colour falls in. */
  datatype Marker = DuckMark | CheckpointMark | LaserMark | PlateMark | PoiMark | UnknownMark

  function MarkerOf(cls: Classifier, c: Rgba): Marker
  {
    if c == DuckMarkerColor then DuckMark
    else if c == CheckpointMarkerColor then CheckpointMark
    else if c == LaserEmitterMarkerColor then LaserMark
    else if c == PressurePlateMarkerColor then PlateMark
    else if c == cls.poiMarker then PoiMark
    else UnknownMark
  }

  /** Why a level fails to load. */
  datatype LoadError =
    | MarkerAtBorder(x: int, y: int)
    | MultipleDucks
    | MultipleCheckpoints
    | UnknownMarkerColor(x: int, y: int)
    | MultipleDirectionMarkers(x: int, y: int)
    | NoDuck
    | NoCheckpoint
    | UnknownItem(name: string)

  /** The size of an entity placed by its bottom centre. */
  datatype Size = Size(width: nat, height: nat)

  /** The sizes of the duck's shape and the checkpoint's sprite. */
  datatype Sizes = Sizes(duck: Size, checkpoint: Size)

  /**
    `convertBottomCenterToTopLeft`: the top-left corner of a `w` x `h`
    entity whose bottom row is `y` and whose centre column (the right one
    of the two middle columns when `w` is even) is `x`.
   */
  function TopLeft(x: int, y: int, size: Size): (p: Point)
    ensures p.x + size.width / 2 == x && p.y + size.height - 1 == y
    ensures p.x <= x && (size.width > 0 ==> x < p.x + size.width)
  {
    Point(x - size.width / 2, y - size.height + 1)
  }

  // ---------------------------------------------------------------------
  // Structure directions

  /**
    `constructStructureWithDirection`: the direction a structure marker at
    `(x, y)` faces, from the first POI marker among its east `(x+1, y)`,
    south-east `(x+1, y+1)` and south `(x, y+1)` neighbours, which make it
    face East, South or West; with none of them it faces North.
   */
  function DirectionAt(img: Image, cls: Classifier, x: int, y: int): FacingDirection
    requires img.Valid() && 0 <= x && x + 1 < img.width && 0 <= y && y + 1 < img.height
  {
    if img.At(x + 1, y) == cls.poiMarker then East
    else if img.At(x + 1, y + 1) == cls.poiMarker then South
    else if img.At(x, y + 1) == cls.poiMarker then West
    else North
  }

  /** The offsets `dx[]`, `dy[]` and directions `directions[]` of the direction probe. */
  function ProbeOffset(i: int): (d: Point)
    requires 0 <= i < 3
    ensures 0 <= d.x <= 1 && 0 <= d.y <= 1
  {
    if i == 0 then Point(1, 0) else if i == 1 then Point(1, 1) else Point(0, 1)
  }

  function ProbeDirection(i: int): FacingDirection
    requires 0 <= i < 3
  {
    if i == 0 then East else if i == 1 then South else West
  }

  /**
    The probe loop: the "multiple direction markers" error is checked after
    a marker is found, but the loop stops at the first one, so the error is
    never raised and the result is `DirectionAt`.
   */
  method ProbeDirectionAt(img: Image, cls: Classifier, x: int, y: int) returns (r: Result<FacingDirection, LoadError>)
    requires img.Valid() && 0 <= x && x + 1 < img.width && 0 <= y && y + 1 < img.height
    ensures r == Ok(DirectionAt(img, cls, x, y))
  {
    var dir := North;
    var dirSet := false;
    for i := 0 to 3
      invariant !dirSet && dir == North
      invariant i > 0 ==> img.At(x + 1, y) != cls.poiMarker
      invariant i > 1 ==> img.At(x + 1, y + 1) != cls.poiMarker
      invariant i > 2 ==> img.At(x, y + 1) != cls.poiMarker
    {
      var d := ProbeOffset(i);
      if img.At(x + d.x, y + d.y) == cls.poiMarker {
        dir := ProbeDirection(i);
        if dirSet {
          return Err(MultipleDirectionMarkers(x, y));
        }
        dirSet := true;
        assert dir == DirectionAt(img, cls, x, y);
        break;
      }
    }
    return Ok(dir);
  }

  // ---------------------------------------------------------------------
  // The scan

  /** A structure the scan asks for: a laser emitter with its direction, or a pressure plate. */
  datatype Placed = LaserAt(x: int, y: int, dir: FacingDirection) | PlateAt(x: int, y: int)

  /**
    The scan's state: the duck's and the checkpoint's top-left corners once
    placed (`duck_placed`, `checkpoint_placed`), the structures in marker
    order, and per scanned pixel what its cell receives: the classified type
    and colour of a non-marker pixel, nothing (Air) for a marker.
   */
  datatype Scan = Scan(duck: Option<Point>, checkpoint: Option<Point>, structures: seq<Placed>, cells: seq<Option<TypeAndColor>>)

  const EmptyScan: Scan := Scan(None, None, [], [])

  /** Pixel `i` (row-major) is a marker. */
  predicate IsMarkerAt(img: Image, i: int)
    requires img.Valid() && 0 <= i < img.width * img.height
  {
    img.pixels[i].a == MarkerAlpha
  }

  /** One pixel of the scan, pixel `i` in row-major order. */
  function VisitPixel(st: Scan, img: Image, cls: Classifier, sizes: Sizes, i: int): Result<Scan, LoadError>
    requires img.Valid() && 0 <= i < img.width * img.height
  {
    var p := CellAt(i, img.width, img.height);
    var c := img.pixels[i];
    if c.a != MarkerAlpha then Ok(st.(cells := st.cells + [Some(PixelTypeFromColor(cls, c))]))
    else if p.y + 1 >= img.height || p.x + 1 >= img.width then Err(MarkerAtBorder(p.x, p.y))
    else
      var st' := st.(cells := st.cells + [None]);
      match MarkerOf(cls, c)
      case DuckMark =>
        if st.duck.Some? then Err(MultipleDucks) else Ok(st'.(duck := Some(TopLeft(p.x, p.y, sizes.duck))))
      case CheckpointMark =>
        if st.checkpoint.Some? then Err(MultipleCheckpoints)
        else Ok(st'.(checkpoint := Some(TopLeft(p.x, p.y, sizes.checkpoint))))
      case LaserMark => Ok(st'.(structures := st.structures + [LaserAt(p.x, p.y, DirectionAt(img, cls, p.x, p.y))]))
      case PlateMark => Ok(st'.(structures := st.structures + [PlateAt(p.x, p.y)]))
      case PoiMark => Ok(st')
      case UnknownMark => Err(UnknownMarkerColor(p.x, p.y))
  }

  /** The scan of the first `n` pixels in row-major order; it stops at the first error. */
  function ScanUpTo(img: Image, cls: Classifier, sizes: Sizes, n: nat): Result<Scan, LoadError>
    requires img.Valid() && n <= img.width * img.height
  {
    if n == 0 then Ok(EmptyScan)
    else match ScanUpTo(img, cls, sizes, n - 1)
      case Err(e) => Err(e)
      case Ok(st) => VisitPixel(st, img, cls, sizes, n - 1)
  }

  // ---------------------------------------------------------------------
  // What the scan accepts and produces, stated pixel by pixel

  /** A pixel the scan lets through: not a marker, or a known marker off the last row and column. */
  predicate Accepted(img: Image, cls: Classifier, i: int)
    requires img.Valid() && 0 <= i < img.width * img.height
  {
    var p := CellAt(i, img.width, img.height);
    !IsMarkerAt(img, i)
    || (p.x + 1 < img.width && p.y + 1 < img.height && MarkerOf(cls, img.pixels[i]) != UnknownMark)
  }

  predicate AllAccepted(img: Image, cls: Classifier, n: nat)
    requires img.Valid() && n <= img.width * img.height
  {
    forall i :: 0 <= i < n ==> Accepted(img, cls, i)
  }

  /** Pixel `i` is a marker of kind `m`. */
  predicate MarkerIs(img: Image, cls: Classifier, i: int, m: Marker)
    requires img.Valid() && 0 <= i < img.width * img.height
  {
    IsMarkerAt(img, i) && MarkerOf(cls, img.pixels[i]) == m
  }

  /** The number of markers of kind `m` among the first `n` pixels. */
  function CountMarkers(img: Image, cls: Classifier, m: Marker, n: nat): (k: nat)
    requires img.Valid() && n <= img.width * img.height
    ensures k <= n
  {
    if n == 0 then 0 else CountMarkers(img, cls, m, n - 1) + (if MarkerIs(img, cls, n - 1, m) then 1 else 0)
  }

  /** Where a marker of kind `m` at pixel `i` places its entity, if it has one. */
  function EntityAt(img: Image, size: Size, i: int): Point
    requires img.Valid() && 0 <= i < img.width * img.height
  {
    var p := CellAt(i, img.width, img.height);
    TopLeft(p.x, p.y, size)
  }

  /** The structures the first `n` pixels ask for, in row-major order: an independent filter over the markers. */
  function Placements(img: Image, cls: Classifier, n: nat): seq<Placed>
    requires img.Valid() && n <= img.width * img.height && AllAccepted(img, cls, n)
  {
    if n == 0 then []
    else
      var p := CellAt(n - 1, img.width, img.height);
      assert Accepted(img, cls, n - 1);
      Placements(img, cls, n - 1)
      + if MarkerIs(img, cls, n - 1, LaserMark) then [LaserAt(p.x, p.y, DirectionAt(img, cls, p.x, p.y))]
        else if MarkerIs(img, cls, n - 1, PlateMark) then [PlateAt(p.x, p.y)]
        else []
  }

  /** What the cell of pixel `i` receives: the classification of a non-marker pixel, nothing for a marker. */
  function CellPlan(img: Image, cls: Classifier, i: int): Option<TypeAndColor>
    requires img.Valid() && 0 <= i < img.width * img.height
  {
    if IsMarkerAt(img, i) then None else Some(PixelTypeFromColor(cls, img.pixels[i]))
  }

  /**
    The entity a scan has placed for the marker kind `m` (the duck or the
    checkpoint) is there iff exactly one such marker was seen, and then it
    stands at that marker.
   */
  predicate PlacedBy(img: Image, cls: Classifier, m: Marker, size: Size, n: nat, at: Option<Point>)
    requires img.Valid() && n <= img.width * img.height
  {
    && (at.Some? <==> CountMarkers(img, cls, m, n) == 1)
    && (at.Some? ==> exists i :: 0 <= i < n && MarkerIs(img, cls, i, m) && at.value == EntityAt(img, size, i))
  }

  /**
    The scan of the first `n` pixels succeeds iff every pixel is accepted
    and there is at most one duck marker and at most one checkpoint marker;
    then the duck and checkpoint are placed by their markers, the structures
    are the laser and plate markers in order, and every cell has its plan.
   */
  lemma {:induction false} ScanUpToMeaning(img: Image, cls: Classifier, sizes: Sizes, n: nat)
    requires img.Valid() && n <= img.width * img.height
    ensures ScanUpTo(img, cls, sizes, n).Ok?
            <==> AllAccepted(img, cls, n) && CountMarkers(img, cls, DuckMark, n) <= 1 && CountMarkers(img, cls, CheckpointMark, n) <= 1
    ensures ScanUpTo(img, cls, sizes, n).Ok? ==>
              var st := ScanUpTo(img, cls, sizes, n).value;
              && PlacedBy(img, cls, DuckMark, sizes.duck, n, st.duck)
              && PlacedBy(img, cls, CheckpointMark, sizes.checkpoint, n, st.checkpoint)
              && st.structures == Placements(img, cls, n)
              && |st.cells| == n && forall i :: 0 <= i < n ==> st.cells[i] == CellPlan(img, cls, i)
    decreases n
  {
    if n > 0 {
      ScanUpToMeaning(img, cls, sizes, n - 1);
      var prev := ScanUpTo(img, cls, sizes, n - 1);
      if prev.Ok? {
        ScanStep(img, cls, sizes, n - 1, prev.value);
      } else {
        assert !AllAccepted(img, cls, n) || CountMarkers(img, cls, DuckMark, n - 1) > 1 || CountMarkers(img, cls, CheckpointMark, n - 1) > 1 by {
          if AllAccepted(img, cls, n) {
            assert AllAccepted(img, cls, n - 1);
          }
        }
      }
    }
  }

  /** One step of `ScanUpToMeaning`: the scan of pixel `i` after a good prefix. */
  lemma ScanStep(img: Image, cls: Classifier, sizes: Sizes, i: nat, st: Scan)
    requires img.Valid() && i < img.width * img.height
    requires AllAccepted(img, cls, i) && CountMarkers(img, cls, DuckMark, i) <= 1 && CountMarkers(img, cls, CheckpointMark, i) <= 1
    requires PlacedBy(img, cls, DuckMark, sizes.duck, i, st.duck)
    requires PlacedBy(img, cls, CheckpointMark, sizes.checkpoint, i, st.checkpoint)
    requires st.structures == Placements(img, cls, i)
    requires |st.cells| == i && forall k :: 0 <= k < i ==> st.cells[k] == CellPlan(img, cls, k)
    ensures var r := VisitPixel(st, img, cls, sizes, i);
            && (r.Ok? <==> AllAccepted(img, cls, i + 1) && CountMarkers(img, cls, DuckMark, i + 1) <= 1 && CountMarkers(img, cls, CheckpointMark, i + 1) <= 1)
            && (r.Ok? ==>
                  && PlacedBy(img, cls, DuckMark, sizes.duck, i + 1, r.value.duck)
                  && PlacedBy(img, cls, CheckpointMark, sizes.checkpoint, i + 1, r.value.checkpoint)
                  && r.value.structures == Placements(img, cls, i + 1)
                  && |r.value.cells| == i + 1 && forall k :: 0 <= k < i + 1 ==> r.value.cells[k] == CellPlan(img, cls, k))
  {
    var r := VisitPixel(st, img, cls, sizes, i);
    assert AllAccepted(img, cls, i + 1) <==> Accepted(img, cls, i) by {
      if Accepted(img, cls, i) {
        forall k | 0 <= k < i + 1 ensures Accepted(img, cls, k) {
        }
      }
    }
    PlacedStep(img, cls, DuckMark, sizes.duck, i, st.duck, r);
    PlacedStep(img, cls, CheckpointMark, sizes.checkpoint, i, st.checkpoint, r);
    if r.Ok? {
      assert r.value.cells == st.cells + [CellPlan(img, cls, i)];
    }
  }

  /** How one pixel moves `PlacedBy` along, for a marker kind the scan places. */
  lemma PlacedStep(img: Image, cls: Classifier, m: Marker, size: Size, i: nat, at: Option<Point>, r: Result<Scan, LoadError>)
    requires img.Valid() && i < img.width * img.height && m in {DuckMark, CheckpointMark}
    requires CountMarkers(img, cls, m, i) <= 1 && PlacedBy(img, cls, m, size, i, at)
    requires r.Ok? && MarkerIs(img, cls, i, m) ==> at.None? && (if m == DuckMark then r.value.duck else r.value.checkpoint) == Some(EntityAt(img, size, i))
    requires r.Ok? && !MarkerIs(img, cls, i, m) ==> (if m == DuckMark then r.value.duck else r.value.checkpoint) == at
    ensures r.Ok? ==> PlacedBy(img, cls, m, size, i + 1, if m == DuckMark then r.value.duck else r.value.checkpoint)
  {
    if r.Ok? {
      var at' := if m == DuckMark then r.value.duck else r.value.checkpoint;
      if at'.Some? && !MarkerIs(img, cls, i, m) {
        var k :| 0 <= k < i && MarkerIs(img, cls, k, m) && at.value == EntityAt(img, size, k);
      }
    }
  }

  /** The scan loop of `loadFromAsset`, specified by the row-major scan. */
  method ScanMap(img: Image, cls: Classifier, sizes: Sizes) returns (r: Result<Scan, LoadError>)
    requires img.Valid()
    ensures r == ScanUpTo(img, cls, sizes, img.width * img.height)
  {
    var st := EmptyScan;
    for y := 0 to img.height
      invariant y * img.width <= img.width * img.height
      invariant ScanUpTo(img, cls, sizes, y * img.width) == Ok(st)
    {
      var row := ScanRow(st, img, cls, sizes, y);
      if row.Err? {
        ScanErrorStays(img, cls, sizes, (y + 1) * img.width, img.width * img.height);
        return row;
      }
      st := row.value;
    }
    assert img.height * img.width == img.width * img.height;
    return Ok(st);
  }

  /** One row of the scan loop: the scan up to the end of row `y`. */
  method ScanRow(st: Scan, img: Image, cls: Classifier, sizes: Sizes, y: int) returns (r: Result<Scan, LoadError>)
    requires img.Valid() && 0 <= y < img.height
    requires y * img.width <= img.width * img.height && ScanUpTo(img, cls, sizes, y * img.width) == Ok(st)
    ensures (y + 1) * img.width <= img.width * img.height && r == ScanUpTo(img, cls, sizes, (y + 1) * img.width)
  {
    MulMonotone(img.width, y + 1, img.height);
    assert (y + 1) * img.width == y * img.width + img.width;
    var cur := st;
    for x := 0 to img.width
      invariant ScanUpTo(img, cls, sizes, y * img.width + x) == Ok(cur)
    {
      var i := CellIndex(x, y, img.width, img.height);
      var next := ScanAt(cur, img, cls, sizes, x, y);
      assert ScanUpTo(img, cls, sizes, i + 1) == next;
      if next.Err? {
        ScanErrorStays(img, cls, sizes, i + 1, (y + 1) * img.width);
        return next;
      }
      cur := next.value;
    }
    return Ok(cur);
  }

  /** Once the scan fails, it stays failed with the same error. */
  lemma {:induction false} ScanErrorStays(img: Image, cls: Classifier, sizes: Sizes, n: nat, m: nat)
    requires img.Valid() && n <= m <= img.width * img.height && ScanUpTo(img, cls, sizes, n).Err?
    ensures ScanUpTo(img, cls, sizes, m) == ScanUpTo(img, cls, sizes, n)
    decreases m
  {
    if m > n {
      ScanErrorStays(img, cls, sizes, n, m - 1);
    }
  }

  /** The body of the scan loop for the pixel at `(x, y)`. */
  method ScanAt(st: Scan, img: Image, cls: Classifier, sizes: Sizes, x: int, y: int) returns (r: Result<Scan, LoadError>)
    requires img.Valid() && 0 <= x < img.width && 0 <= y < img.height
    ensures r == VisitPixel(st, img, cls, sizes, CellIndex(x, y, img.width, img.height))
  {
    CellAtIndex(x, y, img.width, img.height);
    var color := img.At(x, y);
    if color.a != MarkerAlpha {
      var ptypeColor := PixelTypeFromColor(cls, color);
      return Ok(st.(cells := st.cells + [Some(ptypeColor)]));
    }
    if y + 1 >= img.height || x + 1 >= img.width {
      return Err(MarkerAtBorder(x, y));
    }
    var st' := st.(cells := st.cells + [None]);
    if color == DuckMarkerColor {
      if st.duck.Some? {
        return Err(MultipleDucks);
      }
      return Ok(st'.(duck := Some(TopLeft(x, y, sizes.duck))));
    } else if color == CheckpointMarkerColor {
      if st.checkpoint.Some? {
        return Err(MultipleCheckpoints);
      }
      return Ok(st'.(checkpoint := Some(TopLeft(x, y, sizes.checkpoint))));
    } else if color == LaserEmitterMarkerColor {
      var dir := ProbeDirectionAt(img, cls, x, y);
      return Ok(st'.(structures := st.structures + [LaserAt(x, y, dir.value)]));
    } else if color == PressurePlateMarkerColor {
      return Ok(st'.(structures := st.structures + [PlateAt(x, y)]));
    } else if color == cls.poiMarker {
      return Ok(st');
    }
    return Err(UnknownMarkerColor(x, y));
  }

  // ---------------------------------------------------------------------
  // Items and the whole load

  /** The items `constructItemByName` knows. */
  datatype ItemKind = WaterBrushItem

  /** `constructItemByName`: only "water_brush" is known. */
  function ItemByName(name: string): (r: Result<ItemKind, LoadError>)
    ensures r.Ok? <==> name == "water_brush"
    ensures r.Err? ==> r.error == UnknownItem(name)
  {
    if name == "water_brush" then Ok(WaterBrushItem) else Err(UnknownItem(name))
  }

  /** A level's metadata entry: an item name and how many of it. */
  datatype ItemEntry = ItemEntry(name: string, count: int)

  /** A loaded level: what each cell receives, where the duck and checkpoint stand, its structures and items. */
  datatype LevelPlan = LevelPlan(
    cells: seq<Option<TypeAndColor>>, duck: Point, checkpoint: Point, structures: seq<Placed>, items: seq<(ItemKind, int)>)

  /** The item loop: each entry in metadata order, failing at the first unknown name. */
  method ConstructItems(entries: seq<ItemEntry>) returns (r: Result<seq<(ItemKind, int)>, LoadError>)
    ensures r.Ok? <==> forall k :: 0 <= k < |entries| ==> entries[k].name == "water_brush"
    ensures r.Ok? ==> |r.value| == |entries| && forall k :: 0 <= k < |entries| ==> r.value[k] == (WaterBrushItem, entries[k].count)
    ensures r.Err? ==> exists k :: 0 <= k < |entries| && r.error == UnknownItem(entries[k].name) && entries[k].name != "water_brush"
  {
    var items: seq<(ItemKind, int)> := [];
    for k := 0 to |entries|
      invariant |items| == k && forall j :: 0 <= j < k ==> entries[j].name == "water_brush" && items[j] == (WaterBrushItem, entries[j].count)
    {
      var item := ItemByName(entries[k].name);
      if item.Err? {
        return Err(item.error);
      }
      items := items + [(item.value, entries[k].count)];
    }
    return Ok(items);
  }

  /** A map the loader accepts: every pixel accepted, and exactly one duck and one checkpoint marker. */
  predicate ValidMap(img: Image, cls: Classifier)
    requires img.Valid()
  {
    && AllAccepted(img, cls, img.width * img.height)
    && CountMarkers(img, cls, DuckMark, img.width * img.height) == 1
    && CountMarkers(img, cls, CheckpointMark, img.width * img.height) == 1
  }

  /**
    `Level::loadFromAsset`: the scan, then a missing duck marker, then a
    missing checkpoint marker is refused; then the items of the metadata.
    The structures come first in the level, then the items.
   */
  method LoadFromAsset(img: Image, cls: Classifier, sizes: Sizes, entries: seq<ItemEntry>) returns (r: Result<LevelPlan, LoadError>)
    requires img.Valid()
    ensures r.Ok? <==> ValidMap(img, cls) && forall k :: 0 <= k < |entries| ==> entries[k].name == "water_brush"
    ensures r.Ok? ==>
              var n := img.width * img.height;
              && (exists i :: 0 <= i < n && MarkerIs(img, cls, i, DuckMark) && r.value.duck == EntityAt(img, sizes.duck, i))
              && (exists i :: 0 <= i < n && MarkerIs(img, cls, i, CheckpointMark) && r.value.checkpoint == EntityAt(img, sizes.checkpoint, i))
              && r.value.structures == Placements(img, cls, n)
              && |r.value.cells| == n && (forall i :: 0 <= i < n ==> r.value.cells[i] == CellPlan(img, cls, i))
              && |r.value.items| == |entries| && forall k :: 0 <= k < |entries| ==> r.value.items[k] == (WaterBrushItem, entries[k].count)
  {
    var scan := ScanMap(img, cls, sizes);
    ScanUpToMeaning(img, cls, sizes, img.width * img.height);
    if scan.Err? {
      return Err(scan.error);
    }
    var st := scan.value;
    if st.duck.None? {
      return Err(NoDuck);
    }
    if st.checkpoint.None? {
      return Err(NoCheckpoint);
    }
    var items := ConstructItems(entries);
    if items.Err? {
      return Err(items.error);
    }
    return Ok(LevelPlan(st.cells, st.duck.value, st.checkpoint.value, st.structures, items.value));
  }
}
