// Drawing the world into an RGBA byte buffer: `PixelWorld::renderToBuffer`
// (src/fallsand/world.cpp), which picks each cell's colour by fire, charge,
// laser and its own colour index and then lets every structure draw over it.
module Rendering {
  import opened Base
  import opened ColorPalette
  import opened Pixels
  import opened Grids
  import opened World
  import opened Assets
  import opened Shapes
  import opened Structures
  import opened ShapeWorld
  import opened Simulation

  /** `render_electric_power_threshold`: a cell this charged is drawn in the "Electric" colour. */
  const RenderPowerThreshold: int := 12

  /** A fire roll: the `uniform_int_distribution(0, 5)` draw an ignited cell takes. */
  predicate RollsOk(rolls: seq<nat>, n: int)
  {
    |rolls| == n && forall i :: 0 <= i < |rolls| ==> rolls[i] <= 5
  }

  /** The colour index a cell is drawn with: fire first, then charge, then its own index. */
  function RenderIndex(t: Tag, roll: nat, cfg: Config): byte
  {
    if t.ignited then
      (if roll == 0 then cfg.Index("Fire1") else if roll <= 4 then cfg.Index("Fire2") else cfg.Index("Fire3"))
    else if t.electricPower >= RenderPowerThreshold then cfg.Index("Electric")
    else t.colorIndex
  }

  /** With a buildable palette, a cell whose own index is in the palette is drawn with an index in it. */
  lemma RenderIndexInPalette(t: Tag, roll: nat, cfg: Config)
    requires cfg.Built() && (t.colorIndex as int) < |cfg.palette|
    ensures (RenderIndex(t, roll, cfg) as int) < |cfg.palette|
  {
    IndexNamed(cfg, "Fire1");
    IndexNamed(cfg, "Fire2");
    IndexNamed(cfg, "Fire3");
    IndexNamed(cfg, "Electric");
  }

  /** Every cell's own colour index names an entry of the palette. */
  predicate ColorsInPalette(g: Grid, cfg: Config)
    requires g.Valid()
  {
    forall i :: 0 <= i < |g.tags| ==> (g.tags[i].colorIndex as int) < |cfg.palette|
  }

  /** The colour of cell `i`: the laser blend of its index under a beam, the palette colour otherwise. */
  function CellColor(g: Grid, cfg: Config, blend: byte -> Rgba, rolls: seq<nat>, i: int): (c: Rgba)
    requires g.Valid() && cfg.Built() && ColorsInPalette(g, cfg) && RollsOk(rolls, |g.tags|) && 0 <= i < |g.tags|
  {
    var idx := RenderIndex(g.tags[i], rolls[i], cfg);
    RenderIndexInPalette(g.tags[i], rolls[i], cfg);
    if g.statics[i].laserActive then blend(idx) else cfg.palette[idx].color
  }

  /** The colours of the first pass of `renderToBuffer`, one per cell. */
  function CellColors(g: Grid, cfg: Config, blend: byte -> Rgba, rolls: seq<nat>): (cs: seq<Rgba>)
    requires g.Valid() && cfg.Built() && ColorsInPalette(g, cfg) && RollsOk(rolls, |g.tags|)
    ensures |cs| == |g.tags| && forall i :: 0 <= i < |cs| ==> cs[i] == CellColor(g, cfg, blend, rolls, i)
  {
    seq(|g.tags|, i requires 0 <= i < |g.tags| => CellColor(g, cfg, blend, rolls, i))
  }

  /**
    The precedence of the first pass: off the beam, an ignited cell shows a
    fire colour (Fire1 for roll 0, Fire2 for rolls 1 to 4, Fire3 for roll 5),
    else a cell charged to the threshold shows "Electric", else its own
    colour; under a beam the same index goes through the laser blend.
   */
  lemma CellColorPrecedence(g: Grid, cfg: Config, blend: byte -> Rgba, rolls: seq<nat>, i: int)
    requires g.Valid() && cfg.Built() && ColorsInPalette(g, cfg) && RollsOk(rolls, |g.tags|) && 0 <= i < |g.tags|
    ensures var t, c := g.tags[i], CellColor(g, cfg, blend, rolls, i);
            var name := if rolls[i] == 0 then "Fire1" else if rolls[i] <= 4 then "Fire2" else "Fire3";
            && (!g.statics[i].laserActive && t.ignited ==> c == ColorOfName(cfg.palette, name))
            && (!g.statics[i].laserActive && !t.ignited && t.electricPower >= RenderPowerThreshold ==>
                  c == ColorOfName(cfg.palette, "Electric"))
            && (!g.statics[i].laserActive && !t.ignited && t.electricPower < RenderPowerThreshold ==>
                  c == cfg.palette[t.colorIndex].color)
            && (g.statics[i].laserActive ==> c == blend(RenderIndex(t, rolls[i], cfg)))
  {
    IndexNamed(cfg, "Fire1");
    IndexNamed(cfg, "Fire2");
    IndexNamed(cfg, "Fire3");
    IndexNamed(cfg, "Electric");
  }

  /** The first `i` colours of `cs` are laid out in `bs`, four bytes per cell in the order r, g, b, a. */
  predicate Laid(bs: seq<byte>, cs: seq<Rgba>, i: int)
  {
    |bs| == 4 * |cs| && 0 <= i <= |cs| &&
    forall k :: 0 <= k < i ==>
      bs[4 * k] == cs[k].r && bs[4 * k + 1] == cs[k].g && bs[4 * k + 2] == cs[k].b && bs[4 * k + 3] == cs[k].a
  }

  /** Writing colour `i` over four bytes, and nothing else, lays out one more colour. */
  lemma LaidStep(bs: seq<byte>, bs': seq<byte>, cs: seq<Rgba>, i: int)
    requires Laid(bs, cs, i) && i < |cs| && |bs'| == |bs|
    requires bs'[4 * i] == cs[i].r && bs'[4 * i + 1] == cs[i].g && bs'[4 * i + 2] == cs[i].b && bs'[4 * i + 3] == cs[i].a
    requires forall j :: 0 <= j < |bs| && !(4 * i <= j < 4 * i + 4) ==> bs'[j] == bs[j]
    ensures Laid(bs', cs, i + 1)
  {
  }

  /** Bytes holding every colour laid out, four per cell, are the bytes of those colours. */
  lemma BytesOfCells(bs: seq<byte>, cs: seq<Rgba>)
    requires Laid(bs, cs, |cs|)
    ensures bs == Bytes(cs)
  {
    forall j | 0 <= j < |bs| ensures bs[j] == Bytes(cs)[j] {
      var k, ch := j / 4, j % 4;
      assert j == 4 * k + ch;
      BytesAt(cs, k);
    }
  }

  /** Byte `ch` of world cell `(a, c)` in a laid-out buffer is that channel of the cell's colour. */
  lemma BytesOfCell(cs: seq<Rgba>, a: int, c: int, ch: int, width: nat, height: nat)
    requires |cs| == width * height && 0 <= a < width && 0 <= c < height && 0 <= ch < 4
    ensures Bytes(cs)[ByteIndex(a, c, ch, width, height)] == Channel(cs[CellIndex(a, c, width, height)], ch)
  {
    BytesAt(cs, CellIndex(a, c, width, height));
  }

  /** The second pass of `renderToBuffer`: the first `n` structures' `customRender`, in list order. */
  function Overlay(bs: seq<byte>, width: nat, height: nat, ss: seq<Structure>, n: nat): (r: seq<byte>)
    requires |bs| == width * height * 4 && AllPlaced(ss, width, height) && n <= |ss|
    ensures |r| == |bs|
    decreases n
  {
    if n == 0 then bs
    else
      var b := ss[n - 1].base;
      RenderBefore(Overlay(bs, width, height, ss, n - 1), width, height, b, b.Width() * b.Height())
  }

  /** World cell `(a, c)` lies under a Decoration cell of structure `s`. */
  predicate Decorates(s: Structure, a: int, c: int)
    requires s.Valid()
  {
    var b := s.base;
    b.shape.Contains(a - b.x, c - b.y) && b.TypeAt(a - b.x, c - b.y).kind == Decoration
  }

  /** After the structures draw, a cell under no Decoration cell of any of them keeps what the first pass wrote. */
  lemma {:induction false} OverlayKeeps(bs: seq<byte>, width: nat, height: nat, ss: seq<Structure>, n: nat,
                                        a: int, c: int, ch: int)
    requires |bs| == width * height * 4 && AllPlaced(ss, width, height) && n <= |ss|
    requires 0 <= a < width && 0 <= c < height && 0 <= ch < 4
    requires forall j :: 0 <= j < n ==> !Decorates(ss[j], a, c)
    ensures Overlay(bs, width, height, ss, n)[ByteIndex(a, c, ch, width, height)] == bs[ByteIndex(a, c, ch, width, height)]
    decreases n
  {
    if n > 0 {
      assert Placed(ss[n - 1], width, height);
      OverlayKeeps(bs, width, height, ss, n - 1, a, c, ch);
      RenderSpecAt(Overlay(bs, width, height, ss, n - 1), width, height, ss[n - 1].base, a, c, ch);
    }
  }

  /**
    A cell under a Decoration cell of structure `j`, and of none after it,
    shows structure `j`'s colour: the last structure in the list to draw a
    cell wins.
   */
  lemma {:induction false} OverlayTop(bs: seq<byte>, width: nat, height: nat, ss: seq<Structure>, n: nat, j: nat,
                                      a: int, c: int, ch: int)
    requires |bs| == width * height * 4 && AllPlaced(ss, width, height) && j < n <= |ss|
    requires 0 <= a < width && 0 <= c < height && 0 <= ch < 4
    requires Decorates(ss[j], a, c) && forall j' :: j < j' < n ==> !Decorates(ss[j'], a, c)
    ensures Overlay(bs, width, height, ss, n)[ByteIndex(a, c, ch, width, height)]
            == Channel(ss[j].base.shape.ColorOf(a - ss[j].base.x, c - ss[j].base.y), ch)
    decreases n
  {
    assert Placed(ss[n - 1], width, height);
    RenderSpecAt(Overlay(bs, width, height, ss, n - 1), width, height, ss[n - 1].base, a, c, ch);
    if j < n - 1 {
      OverlayTop(bs, width, height, ss, n - 1, j, a, c, ch);
    }
  }

  /** `renderToBuffer`: the first pass over the cells, then every structure's `customRender`. */
  function RenderToBuffer(g: Grid, ss: seq<Structure>, cfg: Config, blend: byte -> Rgba, rolls: seq<nat>): (r: seq<byte>)
    requires g.Valid() && cfg.Built() && ColorsInPalette(g, cfg) && RollsOk(rolls, |g.tags|)
    requires AllPlaced(ss, g.width, g.height)
    ensures |r| == g.width * g.height * 4
  {
    Overlay(Bytes(CellColors(g, cfg, blend, rolls)), g.width, g.height, ss, |ss|)
  }

  /**
    What `renderToBuffer` shows for world cell `(a, c)` that no structure
    decorates: the four channels of the colour the first pass chose.
   */
  lemma RenderShowsCell(g: Grid, ss: seq<Structure>, cfg: Config, blend: byte -> Rgba, rolls: seq<nat>, a: int, c: int, ch: int)
    requires g.Valid() && cfg.Built() && ColorsInPalette(g, cfg) && RollsOk(rolls, |g.tags|)
    requires AllPlaced(ss, g.width, g.height) && 0 <= a < g.width && 0 <= c < g.height && 0 <= ch < 4
    requires forall j :: 0 <= j < |ss| ==> !Decorates(ss[j], a, c)
    ensures RenderToBuffer(g, ss, cfg, blend, rolls)[ByteIndex(a, c, ch, g.width, g.height)]
            == Channel(CellColor(g, cfg, blend, rolls, CellIndex(a, c, g.width, g.height)), ch)
  {
    var cs := CellColors(g, cfg, blend, rolls);
    OverlayKeeps(Bytes(cs), g.width, g.height, ss, |ss|, a, c, ch);
    BytesOfCell(cs, a, c, ch, g.width, g.height);
  }

  /** Writes colour `col` into the four bytes of cell `k`. */
  method WriteColorAt(buf: array<byte>, k: nat, col: Rgba)
    requires 4 * k + 3 < buf.Length
    modifies buf
    ensures buf[4 * k] == col.r && buf[4 * k + 1] == col.g && buf[4 * k + 2] == col.b && buf[4 * k + 3] == col.a
    ensures forall j :: 0 <= j < buf.Length && !(4 * k <= j < 4 * k + 4) ==> buf[j] == old(buf[j])
  {
    buf[4 * k] := col.r;
    buf[4 * k + 1] := col.g;
    buf[4 * k + 2] := col.b;
    buf[4 * k + 3] := col.a;
  }

  /** The colour the first loop of `renderToBuffer` picks for cell `i`. */
  method CellColorAt(w: PixelWorld, blend: byte -> Rgba, rolls: seq<nat>, i: nat) returns (col: Rgba)
    requires w.Valid() && w.cfg.Built() && ColorsInPalette(w.Cells(), w.cfg) && RollsOk(rolls, w.width * w.height)
    requires i < w.width * w.height
    ensures col == CellColor(w.Cells(), w.cfg, blend, rolls, i)
  {
    var t := w.tags[i];
    var idx: byte;
    if t.ignited {
      var rd := rolls[i];
      if rd == 0 {
        idx := w.cfg.Index("Fire1");
      } else if rd <= 4 {
        idx := w.cfg.Index("Fire2");
      } else {
        idx := w.cfg.Index("Fire3");
      }
    } else if t.electricPower >= RenderPowerThreshold {
      idx := w.cfg.Index("Electric");
    } else {
      idx := t.colorIndex;
    }
    RenderIndexInPalette(t, rolls[i], w.cfg);
    col := if w.statics[i].laserActive then blend(idx) else w.cfg.palette[idx].color;
  }

  /** The first loop of `renderToBuffer`: every cell's colour, four bytes per cell. */
  method RenderCellsAt(w: PixelWorld, buf: array<byte>, blend: byte -> Rgba, rolls: seq<nat>)
    requires w.Valid() && w.cfg.Built() && ColorsInPalette(w.Cells(), w.cfg) && RollsOk(rolls, w.width * w.height)
    requires buf.Length == w.width * w.height * 4
    modifies buf
    ensures buf[..] == Bytes(CellColors(w.Cells(), w.cfg, blend, rolls))
  {
    ghost var cs := CellColors(w.Cells(), w.cfg, blend, rolls);
    var n := w.width * w.height;
    for i := 0 to n
      invariant Laid(buf[..], cs, i)
    {
      var col := CellColorAt(w, blend, rolls, i);
      ghost var before := buf[..];
      WriteColorAt(buf, i, col);
      LaidStep(before, buf[..], cs, i);
    }
    BytesOfCells(buf[..], cs);
  }

  /** The second loop of `renderToBuffer`: each structure's `customRender`, in list order. */
  method OverlayAt(buf: array<byte>, width: nat, height: nat, ss: seq<Structure>)
    requires buf.Length == width * height * 4 && AllPlaced(ss, width, height)
    modifies buf
    ensures buf[..] == Overlay(old(buf[..]), width, height, ss, |ss|)
  {
    ghost var bs := buf[..];
    for i := 0 to |ss|
      invariant buf[..] == Overlay(bs, width, height, ss, i)
    {
      assert Placed(ss[i], width, height);
      CustomRenderAt(buf, width, height, ss[i].base);
    }
  }

  /**
    `PixelWorld::renderToBuffer`. `blend` is `laserBlendedColorOfIndex`,
    which is not part of this model, and `rolls` are the fire draws.
   */
  method RenderToBufferAt(w: PixelWorld, buf: array<byte>, blend: byte -> Rgba, rolls: seq<nat>)
    requires w.Valid() && w.cfg.Built() && ColorsInPalette(w.Cells(), w.cfg) && RollsOk(rolls, w.width * w.height)
    requires AllPlaced(w.structures, w.width, w.height) && buf.Length == w.width * w.height * 4
    modifies buf
    ensures buf[..] == RenderToBuffer(w.Cells(), w.structures, w.cfg, blend, rolls)
  {
    RenderCellsAt(w, buf, blend, rolls);
    OverlayAt(buf, w.width, w.height, w.structures);
  }
}
