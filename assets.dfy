// src/assets.cpp: images and pixel shapes, the colour classification of
// shape pixels, trimming and rotating images, and the asset manager's two
// keyed caches. Files, textures, sounds and the loaders that read them are
// not modelled; an asset is an opaque handle.
module Assets {
  import opened Base
  import opened ColorPalette
  import opened Pixels

  /** An `sf::Image`: `width` x `height` pixels in row-major order. */
  datatype Image = Image(width: nat, height: nat, pixels: seq<Rgba>)
  {
    predicate Valid() { |pixels| == width * height }

    predicate Contains(x: int, y: int) { 0 <= x < width && 0 <= y < height }

    function At(x: int, y: int): Rgba
      requires Valid() && Contains(x, y)
    {
      pixels[CellIndex(x, y, width, height)]
    }
  }

  const EmptyImage: Image := Image(0, 0, [])

  // ---------------------------------------------------------------------
  // Colour classification (`pixelTypeFromColor`)

  /** `PixelTypeAndColor`. */
  datatype TypeAndColor = TypeAndColor(kind: PixelType, colorIndex: byte)

  /** One `case` key of the classification switch and what it returns. */
  datatype Case = Case(key: Rgba, result: TypeAndColor)

  /**
    `packColorByNameNoAlpha`: the named colour made opaque. The function is
    not part of this model; this is the reading its name gives.
   */
  function NoAlpha(c: Rgba): Rgba { c.(a := 255) }

  function NamedCase(cfg: Config, name: string, kind: PixelType): Case
    requires cfg.Built() && name in GameNames
  {
    Case(ColorOfName(cfg.palette, name), TypeAndColor(kind, cfg.Index(name)))
  }

  /** The switch's cases in source order. */
  function Cases(cfg: Config): (cs: seq<Case>)
    requires cfg.Built()
  {
    [ NamedCase(cfg, "Air", Air),
      Case(ColorOfName(cfg.palette, "POIMarker"), TypeAndColor(Air, cfg.Index("Air"))),
      NamedCase(cfg, "Stone1", Stone), NamedCase(cfg, "Stone2", Stone),
      NamedCase(cfg, "Stone3", Stone), NamedCase(cfg, "Stone4", Stone),
      NamedCase(cfg, "Wood1", Wood), NamedCase(cfg, "Wood2", Wood), NamedCase(cfg, "Wood3", Wood),
      NamedCase(cfg, "Copper1", Copper), NamedCase(cfg, "Copper2", Copper),
      NamedCase(cfg, "Copper3", Copper), NamedCase(cfg, "Copper4", Copper),
      NamedCase(cfg, "Copper5", Copper),
      NamedCase(cfg, "Sand1", Sand), NamedCase(cfg, "Sand2", Sand),
      NamedCase(cfg, "Water", Water),
      Case(NoAlpha(ColorOfName(cfg.palette, "Water")), TypeAndColor(Water, cfg.Index("Water"))),
      NamedCase(cfg, "Oil", Oil),
      Case(NoAlpha(ColorOfName(cfg.palette, "Oil")), TypeAndColor(Oil, cfg.Index("Oil")))
    ]
  }

  /** A C++ `switch` compiles only if its case labels are pairwise distinct. */
  predicate DistinctLabels(cases: seq<Case>)
  {
    forall a, b :: 0 <= a < b < |cases| ==> cases[a].key != cases[b].key
  }

  /** The palettes the game's classification switch compiles against. */
  predicate Buildable(cfg: Config)
  {
    cfg.Built() && DistinctLabels(Cases(cfg))
  }

  /** The result of the first case whose key equals `c`; without one, `{Decoration, 255}`. */
  function Match(cases: seq<Case>, c: Rgba): TypeAndColor
    decreases |cases|
  {
    if |cases| == 0 then TypeAndColor(Decoration, 255)
    else if cases[0].key == c then cases[0].result
    else Match(cases[1..], c)
  }

  lemma {:induction false} MatchCase(cases: seq<Case>, k: nat, c: Rgba)
    requires DistinctLabels(cases) && k < |cases| && cases[k].key == c
    ensures Match(cases, c) == cases[k].result
    decreases |cases|
  {
    if k > 0 {
      assert cases[0].key != c;
      assert DistinctLabels(cases[1..]) by {
        forall a, b | 0 <= a < b < |cases| - 1 ensures cases[1..][a].key != cases[1..][b].key {
          assert cases[1..][a] == cases[a + 1] && cases[1..][b] == cases[b + 1];
        }
      }
      MatchCase(cases[1..], k - 1, c);
    }
  }

  lemma {:induction false} MatchNone(cases: seq<Case>, c: Rgba)
    requires forall k :: 0 <= k < |cases| ==> cases[k].key != c
    ensures Match(cases, c) == TypeAndColor(Decoration, 255)
    decreases |cases|
  {
    if |cases| > 0 {
      assert cases[0].key != c;
      MatchNone(cases[1..], c);
    }
  }

  /**
    What the classification compares shape colours against: the switch's
    cases in order and the POI marker colour.
   */
  datatype Classifier = Classifier(cases: seq<Case>, poiMarker: Rgba)

  function ClassifierOf(cfg: Config): Classifier
    requires cfg.Built()
  {
    Classifier(Cases(cfg), ColorOfName(cfg.palette, "POIMarker"))
  }

  /** `pixelTypeFromColor`. */
  function PixelTypeFromColor(cls: Classifier, c: Rgba): TypeAndColor
  {
    Match(cls.cases, c)
  }

  /**
    Air and the POI marker both classify as Air with Air's index (whatever
    the palette), and the plain and opaque variants of Water and of Oil
    classify alike.
   */
  lemma ClassifyShared(cfg: Config)
    requires Buildable(cfg)
    ensures PixelTypeFromColor(ClassifierOf(cfg), ColorOfName(cfg.palette, "Air")) == TypeAndColor(Air, cfg.Index("Air"))
    ensures PixelTypeFromColor(ClassifierOf(cfg), ColorOfName(cfg.palette, "POIMarker")) == TypeAndColor(Air, cfg.Index("Air"))
    ensures var w := ColorOfName(cfg.palette, "Water");
            PixelTypeFromColor(ClassifierOf(cfg), w) == PixelTypeFromColor(ClassifierOf(cfg), NoAlpha(w)) == TypeAndColor(Water, cfg.Index("Water"))
    ensures var o := ColorOfName(cfg.palette, "Oil");
            PixelTypeFromColor(ClassifierOf(cfg), o) == PixelTypeFromColor(ClassifierOf(cfg), NoAlpha(o)) == TypeAndColor(Oil, cfg.Index("Oil"))
  {
    var cs := Cases(cfg);
    MatchCase(cs, 0, cs[0].key);
    MatchCase(cs, 1, cs[1].key);
    MatchCase(cs, 16, cs[16].key);
    MatchCase(cs, 17, cs[17].key);
    MatchCase(cs, 18, cs[18].key);
    MatchCase(cs, 19, cs[19].key);
  }

  /** Each key classifies as its own case, through the case's own name. */
  lemma ClassifyLabel(cfg: Config, k: nat)
    requires Buildable(cfg) && k < |Cases(cfg)|
    ensures PixelTypeFromColor(ClassifierOf(cfg), Cases(cfg)[k].key) == Cases(cfg)[k].result
  {
    MatchCase(Cases(cfg), k, Cases(cfg)[k].key);
  }

  /** A colour no case names classifies as `{Decoration, 255}`. */
  lemma ClassifyUnknown(cfg: Config, c: Rgba)
    requires cfg.Built()
    requires forall k :: 0 <= k < |Cases(cfg)| ==> Cases(cfg)[k].key != c
    ensures PixelTypeFromColor(ClassifierOf(cfg), c) == TypeAndColor(Decoration, 255)
  {
    MatchNone(Cases(cfg), c);
  }

  // ---------------------------------------------------------------------
  // Pixel shapes

  /** Channel `k` of a colour in memory order: red, green, blue, alpha. */
  function Channel(c: Rgba, k: int): byte
  {
    if k == 0 then c.r else if k == 1 then c.g else if k == 2 then c.b else c.a
  }

  /** The RGBA bytes of an image (`getPixelsPtr`), four per pixel. */
  function Bytes(pixels: seq<Rgba>): (bs: seq<byte>)
    ensures |bs| == 4 * |pixels|
  {
    seq(4 * |pixels|, j requires 0 <= j < 4 * |pixels| => Channel(pixels[j / 4], j % 4))
  }

  lemma BytesAt(pixels: seq<Rgba>, i: nat)
    requires i < |pixels|
    ensures Bytes(pixels)[4 * i] == pixels[i].r && Bytes(pixels)[4 * i + 1] == pixels[i].g
    ensures Bytes(pixels)[4 * i + 2] == pixels[i].b && Bytes(pixels)[4 * i + 3] == pixels[i].a
  {
    DivUnique(4 * i, 4, i, 0);
    DivUnique(4 * i + 1, 4, i, 1);
    DivUnique(4 * i + 2, 4, i, 2);
    DivUnique(4 * i + 3, 4, i, 3);
  }

  /** `PixelShape`: a view of an image's RGBA bytes. */
  datatype PixelShape = PixelShape(width: nat, height: nat, data: seq<byte>)
  {
    predicate Valid() { |data| == width * height * 4 }

    predicate Contains(x: int, y: int) { 0 <= x < width && 0 <= y < height }

    /** `colorOf`: the four bytes at `(y * width + x) * 4`. */
    function ColorOf(x: int, y: int): (c: Rgba)
      requires Valid() && Contains(x, y)
    {
      var i := CellIndex(x, y, width, height) * 4;
      Rgba(data[i], data[i + 1], data[i + 2], data[i + 3])
    }

    /** `isPOIPixel`: exactly the POI marker colour. */
    predicate IsPOIPixel(cls: Classifier, x: int, y: int)
      requires Valid() && Contains(x, y)
    {
      ColorOf(x, y) == cls.poiMarker
    }

    /** `hasPixel`: not fully transparent, and not a POI marker. */
    predicate HasPixel(cls: Classifier, x: int, y: int)
      requires Valid() && Contains(x, y)
    {
      ColorOf(x, y).a != 0 && !IsPOIPixel(cls, x, y)
    }
  }

  /** `PixelShape(img)`. */
  function ShapeOf(img: Image): (s: PixelShape)
    requires img.Valid()
    ensures s.Valid() && s.width == img.width && s.height == img.height
  {
    PixelShape(img.width, img.height, Bytes(img.pixels))
  }

  /** A shape reads back exactly the colours of the image it views. */
  lemma ShapeColorOf(img: Image, x: int, y: int)
    requires img.Valid() && img.Contains(x, y)
    ensures ShapeOf(img).ColorOf(x, y) == img.At(x, y)
  {
    BytesAt(img.pixels, CellIndex(x, y, img.width, img.height));
  }

  /** `hasPixel` holds iff the pixel is not transparent and is not the POI marker colour. */
  lemma HasPixelMeaning(cfg: Config, img: Image, x: int, y: int)
    requires cfg.Built() && img.Valid() && img.Contains(x, y)
    ensures ShapeOf(img).HasPixel(ClassifierOf(cfg), x, y)
            <==> img.At(x, y).a != 0 && img.At(x, y) != ColorOfName(cfg.palette, "POIMarker")
  {
    ShapeColorOf(img, x, y);
  }

  // ---------------------------------------------------------------------
  // trimImage

  predicate Opaque(img: Image, x: int, y: int)
    requires img.Valid() && img.Contains(x, y)
  {
    img.At(x, y).a != 0
  }

  /** The `w` x `h` window of `img` whose top-left corner is `(x0, y0)`. */
  function Crop(img: Image, x0: nat, y0: nat, w: nat, h: nat): (r: Image)
    requires img.Valid() && x0 + w <= img.width && y0 + h <= img.height
    ensures r.Valid() && r.width == w && r.height == h
  {
    Image(w, h, seq(w * h, k requires 0 <= k < w * h =>
      var p := CellAt(k, w, h); img.At(x0 + p.x, y0 + p.y)))
  }

  lemma CropAt(img: Image, x0: nat, y0: nat, w: nat, h: nat, i: int, j: int)
    requires img.Valid() && x0 + w <= img.width && y0 + h <= img.height
    requires 0 <= i < w && 0 <= j < h
    ensures Crop(img, x0, y0, w, h).At(i, j) == img.At(x0 + i, y0 + j)
  {
    CellAtIndex(i, j, w, h);
  }

  /** Column `x` holds a non-transparent pixel. */
  ghost predicate ColumnTouched(img: Image, x: int)
    requires img.Valid()
  {
    exists y :: img.Contains(x, y) && Opaque(img, x, y)
  }

  /** Row `y` holds a non-transparent pixel. */
  ghost predicate RowTouched(img: Image, y: int)
    requires img.Valid()
  {
    exists x :: img.Contains(x, y) && Opaque(img, x, y)
  }

  /**
    `(x0, y0, w, h)` is the smallest box holding every non-transparent pixel:
    all of them lie inside, and each of its four edges touches one.
   */
  ghost predicate IsBoundingBox(img: Image, x0: int, y0: int, w: int, h: int)
    requires img.Valid()
  {
    && 0 <= x0 && 0 <= y0 && 0 < w && 0 < h && x0 + w <= img.width && y0 + h <= img.height
    && (forall x, y :: img.Contains(x, y) && Opaque(img, x, y) ==> x0 <= x < x0 + w && y0 <= y < y0 + h)
    && ColumnTouched(img, x0) && ColumnTouched(img, x0 + w - 1)
    && RowTouched(img, y0) && RowTouched(img, y0 + h - 1)
  }

  /** The bounding box is unique, so the trimmed image is determined by the input. */
  lemma BoundingBoxUnique(img: Image, x0: int, y0: int, w: int, h: int, x1: int, y1: int, w1: int, h1: int)
    requires img.Valid() && IsBoundingBox(img, x0, y0, w, h) && IsBoundingBox(img, x1, y1, w1, h1)
    ensures x0 == x1 && y0 == y1 && w == w1 && h == h1
  {
  }

  /** `p` comes before `(x, y)` in row-major order. */
  predicate Scanned(p: Point, y: int, x: int) { p.y < y || (p.y == y && p.x < x) }

  /** The running extremes of the scan: `xmax < 0` until a non-transparent pixel is seen. */
  datatype Extremes = Extremes(xmin: int, xmax: int, ymin: int, ymax: int)

  /** One opaque pixel seen at each extreme (ghost bookkeeping for the proof). */
  datatype Witnesses = Witnesses(left: Point, right: Point, top: Point, bottom: Point)

  predicate WitnessAt(img: Image, p: Point, y: int, x: int)
    requires img.Valid()
  {
    img.Contains(p.x, p.y) && Scanned(p, y, x) && Opaque(img, p.x, p.y)
  }

  /** Every opaque pixel before `(x, y)` lies within the extremes. */
  ghost predicate ScanBounds(img: Image, y: int, x: int, e: Extremes)
    requires img.Valid()
  {
    forall a, b :: img.Contains(a, b) && Scanned(Point(a, b), y, x) && Opaque(img, a, b) ==>
      e.xmin <= a <= e.xmax && e.ymin <= b <= e.ymax
  }

  /** The extremes are the initial ones, or each is attained by a witness seen before `(x, y)`. */
  ghost predicate ScanWitnessed(img: Image, y: int, x: int, e: Extremes, ws: Witnesses)
    requires img.Valid()
  {
    && (e.xmax < 0 ==> e.xmin == img.width && e.ymin == img.height && e.ymax == -1)
    && (e.xmax >= 0 ==>
          && WitnessAt(img, ws.left, y, x) && ws.left.x == e.xmin
          && WitnessAt(img, ws.right, y, x) && ws.right.x == e.xmax
          && WitnessAt(img, ws.top, y, x) && ws.top.y == e.ymin
          && WitnessAt(img, ws.bottom, y, x) && ws.bottom.y == e.ymax)
  }

  /** What the scan has established after the pixels before `(x, y)`. */
  ghost predicate ScanState(img: Image, y: int, x: int, e: Extremes, ws: Witnesses)
    requires img.Valid()
  {
    ScanBounds(img, y, x, e) && ScanWitnessed(img, y, x, e, ws)
  }

  function Absorb(e: Extremes, x: int, y: int): Extremes
  {
    Extremes(Min(e.xmin, x), Max(e.xmax, x), Min(e.ymin, y), Max(e.ymax, y))
  }

  function AbsorbWitnesses(e: Extremes, ws: Witnesses, x: int, y: int): Witnesses
  {
    var p := Point(x, y);
    Witnesses(if x < e.xmin || e.xmax < 0 then p else ws.left,
              if x > e.xmax then p else ws.right,
              if y < e.ymin || e.xmax < 0 then p else ws.top,
              if y > e.ymax then p else ws.bottom)
  }

  lemma ScanPixel(img: Image, y: int, x: int, e: Extremes, ws: Witnesses)
    requires img.Valid() && img.Contains(x, y) && ScanState(img, y, x, e, ws)
    ensures Opaque(img, x, y) ==> ScanState(img, y, x + 1, Absorb(e, x, y), AbsorbWitnesses(e, ws, x, y))
    ensures !Opaque(img, x, y) ==> ScanState(img, y, x + 1, e, ws)
  {
  }

  lemma ScanRow(img: Image, y: int, e: Extremes, ws: Witnesses)
    requires img.Valid() && ScanState(img, y, img.width, e, ws)
    ensures ScanState(img, y + 1, 0, e, ws)
  {
    assert forall p: Point :: img.Contains(p.x, p.y) ==> (Scanned(p, y, img.width) <==> Scanned(p, y + 1, 0));
  }

  /** After the whole image, the extremes are empty or give the bounding box. */
  lemma ScanComplete(img: Image, e: Extremes, ws: Witnesses)
    requires img.Valid() && ScanState(img, img.height, 0, e, ws)
    ensures e.xmax < e.xmin || e.ymax < e.ymin <==> forall x, y :: img.Contains(x, y) ==> !Opaque(img, x, y)
    ensures !(e.xmax < e.xmin || e.ymax < e.ymin) ==>
              0 <= e.xmin && 0 <= e.ymin && IsBoundingBox(img, e.xmin, e.ymin, e.xmax - e.xmin + 1, e.ymax - e.ymin + 1)
  {
    if e.xmax >= 0 {
      assert Opaque(img, ws.left.x, ws.left.y);
      assert Scanned(ws.left, img.height, 0);
    }
  }

  /** One pixel of the scan: an opaque pixel widens the extremes to include it. */
  method ScanImagePixel(img: Image, y: nat, x: nat, e0: Extremes, ghost ws0: Witnesses)
    returns (e: Extremes, ghost ws: Witnesses)
    requires img.Valid() && img.Contains(x, y) && ScanState(img, y, x, e0, ws0)
    ensures ScanState(img, y, x + 1, e, ws)
    ensures e == if Opaque(img, x, y) then Absorb(e0, x, y) else e0
  {
    ScanPixel(img, y, x, e0, ws0);
    e, ws := e0, ws0;
    if img.At(x, y).a != 0 {
      ws := AbsorbWitnesses(e0, ws0, x, y);
      e := Absorb(e0, x, y);
    }
  }

  /** The inner loop of `trimImage`: row `y`, left to right. */
  method ScanImageRow(img: Image, y: nat, e0: Extremes, ghost ws0: Witnesses) returns (e: Extremes, ghost ws: Witnesses)
    requires img.Valid() && y < img.height && ScanState(img, y, 0, e0, ws0)
    ensures ScanState(img, y, img.width, e, ws)
  {
    e, ws := e0, ws0;
    var x := 0;
    while x < img.width
      invariant 0 <= x <= img.width
      invariant ScanState(img, y, x, e, ws)
    {
      e, ws := ScanImagePixel(img, y, x, e, ws);
      x := x + 1;
    }
  }

  /** The two loops of `trimImage`: every row, top to bottom. */
  method ScanImage(img: Image) returns (e: Extremes, ghost ws: Witnesses)
    requires img.Valid()
    ensures ScanState(img, img.height, 0, e, ws)
  {
    e := Extremes(img.width, -1, img.height, -1);
    ws := Witnesses(Point(0, 0), Point(0, 0), Point(0, 0), Point(0, 0));
    var y := 0;
    while y < img.height
      invariant 0 <= y <= img.height
      invariant ScanState(img, y, 0, e, ws)
    {
      e, ws := ScanImageRow(img, y, e, ws);
      ScanRow(img, y, e, ws);
      y := y + 1;
    }
  }

  /**
    `trimImage`: an empty image when every pixel is transparent, otherwise the
    window of the image over the bounding box of its non-transparent pixels.
   */
  method TrimImage(img: Image) returns (r: Image)
    requires img.Valid()
    ensures r.Valid()
    ensures (forall x, y :: img.Contains(x, y) ==> !Opaque(img, x, y)) <==> r == EmptyImage
    ensures r != EmptyImage ==>
              exists x0: nat, y0: nat :: && x0 + r.width <= img.width && y0 + r.height <= img.height
                                         && IsBoundingBox(img, x0, y0, r.width, r.height)
                                         && r == Crop(img, x0, y0, r.width, r.height)
  {
    var e, ws := ScanImage(img);
    ScanComplete(img, e, ws);
    if e.xmax < e.xmin || e.ymax < e.ymin {
      r := EmptyImage;
    } else {
      var w, h := e.xmax - e.xmin + 1, e.ymax - e.ymin + 1;
      r := Crop(img, e.xmin, e.ymin, w, h);
    }
  }

  // ---------------------------------------------------------------------
  // rotateImageTo (the input faces North)

  /** The target size: unchanged for North and South, transposed for East and West. */
  function RotatedSize(w: nat, h: nat, dir: FacingDirection): (nat, nat)
  {
    if dir == North || dir == South then (w, h) else (h, w)
  }

  /** Where source pixel `(x, y)` of a `w` x `h` image lands. */
  function TargetOf(w: int, h: int, dir: FacingDirection, x: int, y: int): Point
  {
    match dir
    case North => Point(x, y)
    case East => Point(h - 1 - y, x)
    case South => Point(w - 1 - x, h - 1 - y)
    case West => Point(y, w - 1 - x)
  }

  /** The source pixel that lands on `(rx, ry)`. */
  function SourceOf(w: int, h: int, dir: FacingDirection, rx: int, ry: int): Point
  {
    match dir
    case North => Point(rx, ry)
    case East => Point(ry, h - 1 - rx)
    case South => Point(w - 1 - rx, h - 1 - ry)
    case West => Point(w - 1 - ry, rx)
  }

  /**
    Every source pixel lands inside the target, and `SourceOf` inverts
    `TargetOf`, so distinct source pixels land on distinct targets.
   */
  lemma TargetInRange(w: nat, h: nat, dir: FacingDirection, x: int, y: int)
    requires 0 <= x < w && 0 <= y < h
    ensures var t := TargetOf(w, h, dir, x, y); var size := RotatedSize(w, h, dir);
            && 0 <= t.x < size.0 && 0 <= t.y < size.1
            && SourceOf(w, h, dir, t.x, t.y) == Point(x, y)
  {
  }

  lemma SourceInRange(w: nat, h: nat, dir: FacingDirection, rx: int, ry: int)
    requires var size := RotatedSize(w, h, dir); 0 <= rx < size.0 && 0 <= ry < size.1
    ensures var s := SourceOf(w, h, dir, rx, ry);
            0 <= s.x < w && 0 <= s.y < h && TargetOf(w, h, dir, s.x, s.y) == Point(rx, ry)
  {
  }

  lemma TargetInjective(w: nat, h: nat, dir: FacingDirection, x1: int, y1: int, x2: int, y2: int)
    requires 0 <= x1 < w && 0 <= y1 < h && 0 <= x2 < w && 0 <= y2 < h
    requires TargetOf(w, h, dir, x1, y1) == TargetOf(w, h, dir, x2, y2)
    ensures x1 == x2 && y1 == y2
  {
    TargetInRange(w, h, dir, x1, y1);
    TargetInRange(w, h, dir, x2, y2);
  }

  /** The rotated image, pixel by pixel. */
  function Rotated(img: Image, dir: FacingDirection): (r: Image)
    requires img.Valid()
    ensures r.Valid() && (r.width, r.height) == RotatedSize(img.width, img.height, dir)
  {
    var size := RotatedSize(img.width, img.height, dir);
    Image(size.0, size.1, seq(size.0 * size.1, k requires 0 <= k < size.0 * size.1 =>
      var t := CellAt(k, size.0, size.1);
      SourceInRange(img.width, img.height, dir, t.x, t.y);
      var s := SourceOf(img.width, img.height, dir, t.x, t.y);
      img.At(s.x, s.y)))
  }

  /** Each source pixel appears at its target; North is the identity. */
  lemma RotatedAt(img: Image, dir: FacingDirection, x: int, y: int)
    requires img.Valid() && img.Contains(x, y)
    ensures var t := TargetOf(img.width, img.height, dir, x, y);
            Rotated(img, dir).Contains(t.x, t.y) && Rotated(img, dir).At(t.x, t.y) == img.At(x, y)
  {
    var t := TargetOf(img.width, img.height, dir, x, y);
    var size := RotatedSize(img.width, img.height, dir);
    TargetInRange(img.width, img.height, dir, x, y);
    CellAtIndex(t.x, t.y, size.0, size.1);
  }

  lemma RotateNorthIdentity(img: Image)
    requires img.Valid()
    ensures Rotated(img, North) == img
  {
    var r := Rotated(img, North);
    forall k | 0 <= k < |img.pixels| ensures r.pixels[k] == img.pixels[k] {
      var t := CellAt(k, img.width, img.height);
      assert r.pixels[k] == img.At(t.x, t.y);
    }
  }

  /** Target cell `k` has received its pixel once the scan is past the pixel's source. */
  predicate Written(w: nat, h: nat, dir: FacingDirection, k: int, y: int, x: int)
    requires var size := RotatedSize(w, h, dir); 0 <= k < size.0 * size.1
  {
    var size := RotatedSize(w, h, dir);
    var c := CellAt(k, size.0, size.1);
    Scanned(SourceOf(w, h, dir, c.x, c.y), y, x)
  }

  /** Copying source pixel `(x, y)` writes exactly target cell `i`. */
  lemma WrittenStep(w: nat, h: nat, dir: FacingDirection, y: int, x: int, i: int)
    requires 0 <= x < w && 0 <= y < h
    requires var t := TargetOf(w, h, dir, x, y); var size := RotatedSize(w, h, dir);
             0 <= t.x < size.0 && 0 <= t.y < size.1 && i == CellIndex(t.x, t.y, size.0, size.1)
    ensures var size := RotatedSize(w, h, dir);
            forall k :: 0 <= k < size.0 * size.1 ==>
              Written(w, h, dir, k, y, x + 1) == (Written(w, h, dir, k, y, x) || k == i)
  {
    var size := RotatedSize(w, h, dir);
    var t := TargetOf(w, h, dir, x, y);
    TargetInRange(w, h, dir, x, y);
    CellAtIndex(t.x, t.y, size.0, size.1);
    forall k | 0 <= k < size.0 * size.1
      ensures Written(w, h, dir, k, y, x + 1) == (Written(w, h, dir, k, y, x) || k == i)
    {
      var c := CellAt(k, size.0, size.1);
      SourceInRange(w, h, dir, c.x, c.y);
    }
  }

  lemma WrittenRow(w: nat, h: nat, dir: FacingDirection, y: int)
    ensures var size := RotatedSize(w, h, dir);
            forall k :: 0 <= k < size.0 * size.1 ==> Written(w, h, dir, k, y, w) == Written(w, h, dir, k, y + 1, 0)
  {
    var size := RotatedSize(w, h, dir);
    forall k | 0 <= k < size.0 * size.1
      ensures Written(w, h, dir, k, y, w) == Written(w, h, dir, k, y + 1, 0)
    {
      var c := CellAt(k, size.0, size.1);
      SourceInRange(w, h, dir, c.x, c.y);
    }
  }

  lemma WrittenAll(w: nat, h: nat, dir: FacingDirection)
    ensures var size := RotatedSize(w, h, dir);
            forall k :: 0 <= k < size.0 * size.1 ==> Written(w, h, dir, k, h, 0)
  {
    var size := RotatedSize(w, h, dir);
    forall k | 0 <= k < size.0 * size.1 ensures Written(w, h, dir, k, h, 0) {
      var c := CellAt(k, size.0, size.1);
      SourceInRange(w, h, dir, c.x, c.y);
    }
  }

  /** The inner loop of `rotateImageTo`: copies row `y` of the source. */
  method RotateRow(img: Image, dir: FacingDirection, rotated: array<Rgba>, y: nat, ghost goal: seq<Rgba>)
    requires img.Valid() && y < img.height && goal == Rotated(img, dir).pixels
    requires var size := RotatedSize(img.width, img.height, dir); rotated.Length == size.0 * size.1
    requires forall k :: 0 <= k < rotated.Length ==>
               rotated[k] == if Written(img.width, img.height, dir, k, y, 0) then goal[k] else Transparent
    modifies rotated
    ensures forall k :: 0 <= k < rotated.Length ==>
              rotated[k] == if Written(img.width, img.height, dir, k, y + 1, 0) then goal[k] else Transparent
  {
    var w, h := img.width, img.height;
    var size := RotatedSize(w, h, dir);
    var rw, rh := size.0, size.1;
    var x := 0;
    while x < w
      invariant 0 <= x <= w
      invariant forall k :: 0 <= k < rw * rh ==>
                  rotated[k] == if Written(w, h, dir, k, y, x) then goal[k] else Transparent
    {
      var t := TargetOf(w, h, dir, x, y);
      TargetInRange(w, h, dir, x, y);
      RotatedAt(img, dir, x, y);
      var i := CellIndex(t.x, t.y, rw, rh);
      WrittenStep(w, h, dir, y, x, i);
      rotated[i] := img.At(x, y);
      x := x + 1;
    }
    WrittenRow(w, h, dir, y);
  }

  /** `rotateImageTo`: copies every source pixel to its target in a fresh transparent image. */
  method RotateImageTo(img: Image, dir: FacingDirection) returns (r: Image)
    requires img.Valid()
    ensures r == Rotated(img, dir)
  {
    var w, h := img.width, img.height;
    var size := RotatedSize(w, h, dir);
    var rw, rh := size.0, size.1;
    ghost var goal := Rotated(img, dir).pixels;
    var rotated := new Rgba[rw * rh](_ => Transparent);
    var y := 0;
    while y < h
      invariant 0 <= y <= h
      invariant forall k :: 0 <= k < rw * rh ==>
                  rotated[k] == if Written(w, h, dir, k, y, 0) then goal[k] else Transparent
    {
      RotateRow(img, dir, rotated, y, goal);
      y := y + 1;
    }
    WrittenAll(w, h, dir);
    assert rotated[..] == goal;
    r := Image(rw, rh, rotated[..]);
  }

  // ---------------------------------------------------------------------
  // The asset manager

  /** An asset owned by the manager (`void *`). */
  datatype AssetHandle = AssetHandle(id: nat)

  /** A loaded track (`sf::Music *`). */
  datatype MusicHandle = MusicHandle(id: nat)

  datatype MusicCollection = MusicCollection(music: seq<MusicHandle>)

  datatype AssetError = AssetNotFound(id: string) | AssetAlreadyCached(id: string)

  /** `MusicCollection::getRandomMusic`; `draw` is the uniform draw from `[0, size - 1]`. */
  function GetRandomMusic(c: MusicCollection, draw: nat): (r: Option<MusicHandle>)
    requires |c.music| > 1 ==> draw < |c.music|
    ensures |c.music| == 0 <==> r == None
    ensures |c.music| == 1 ==> r == Some(c.music[0])
    ensures r.Some? ==> r.value in c.music
  {
    if |c.music| == 0 then None
    else if |c.music| == 1 then Some(c.music[0])
    else Some(c.music[draw])
  }

  /** `AssetsManager`: the asset cache and the music collections, keyed by id. */
  class AssetsManager {
    var assetCache: map<string, AssetHandle>
    var musicCollections: map<string, MusicCollection>

    constructor ()
      ensures assetCache == map[] && musicCollections == map[]
    {
      assetCache := map[];
      musicCollections := map[];
    }

    /** `_getAssetRaw`: the cached asset, or an error for an unknown id. */
    method GetAssetRaw(id: string) returns (r: Result<AssetHandle, AssetError>)
      ensures id in assetCache <==> r.Ok?
      ensures r.Ok? ==> r.value == assetCache[id]
      ensures r.Err? ==> r.error == AssetNotFound(id)
    {
      if id !in assetCache {
        return Err(AssetNotFound(id));
      }
      return Ok(assetCache[id]);
    }

    /** `_cacheAssetRaw`: refuses an id already present, else stores the asset under it. */
    method CacheAssetRaw(id: string, asset: AssetHandle) returns (r: Result<(), AssetError>)
      modifies this`assetCache
      ensures r.Err? <==> id in old(assetCache)
      ensures r.Err? ==> r.error == AssetAlreadyCached(id) && assetCache == old(assetCache)
      ensures r.Ok? ==> assetCache == old(assetCache)[id := asset]
    {
      if id in assetCache {
        return Err(AssetAlreadyCached(id));
      }
      assetCache := assetCache[id := asset];
      return Ok(());
    }

    /** `getMusicCollection`: creates an empty collection the first time an id is asked for. */
    method GetMusicCollection(id: string) returns (c: MusicCollection)
      modifies this`musicCollections
      ensures id in musicCollections && c == musicCollections[id]
      ensures id in old(musicCollections) ==> musicCollections == old(musicCollections)
      ensures id !in old(musicCollections) ==>
                musicCollections == old(musicCollections)[id := MusicCollection([])]
    {
      if id !in musicCollections {
        musicCollections := musicCollections[id := MusicCollection([])];
      }
      c := musicCollections[id];
    }
  }

  /** A lookup after a successful store returns the stored asset, and only the first store of an id succeeds. */
  method CacheThenGet(m: AssetsManager, id: string, asset: AssetHandle) returns (stored: bool, got: Result<AssetHandle, AssetError>)
    modifies m
    ensures stored <==> id !in old(m.assetCache)
    ensures stored ==> got == Ok(asset)
    ensures !stored ==> got == Ok(old(m.assetCache)[id])
  {
    var put := m.CacheAssetRaw(id, asset);
    stored := put.Ok?;
    got := m.GetAssetRaw(id);
  }
}
