// `Renderer` of src/render.cpp: the RGBA buffer the game uploads to its
// texture. The texture itself (its resize, its upload, the sprite and the
// window it is drawn to) is not part of this model; whether the texture
// resize succeeds comes in as a parameter.
module Renderers {
  import opened Base
  import opened ColorPalette
  import opened Pixels
  import opened Assets
  import opened World
  import opened ShapeWorld
  import opened Rendering

  /** The palette index `uploadFromWorld` draws a cell with: its own, or 0 when that is past the palette. */
  function UploadIndex(t: Tag): (i: nat)
    ensures i < PaletteSize
    ensures (t.colorIndex as int) < PaletteSize ==> i == t.colorIndex as int
    ensures (t.colorIndex as int) >= PaletteSize ==> i == 0
  {
    if (t.colorIndex as int) >= PaletteSize then 0 else t.colorIndex as int
  }

  /** The colours `uploadFromWorld` writes, one per cell in the world's cell order. */
  function UploadColors(tags: seq<Tag>): (cs: seq<Rgba>)
    ensures |cs| == |tags|
    ensures forall i :: 0 <= i < |tags| ==> cs[i] == Colors[UploadIndex(tags[i])].color
  {
    seq(|tags|, i requires 0 <= i < |tags| => ColorOfIndex(UploadIndex(tags[i])))
  }

  /**
    After an upload, byte `ch` of cell `(x, y)`, at `4 * (y * width + x) + ch`,
    holds that channel of the palette colour of the cell's clamped index.
   */
  lemma UploadShowsCell(tags: seq<Tag>, width: nat, height: nat, x: int, y: int, ch: int)
    requires |tags| == width * height && 0 <= x < width && 0 <= y < height && 0 <= ch < 4
    ensures Bytes(UploadColors(tags))[ByteIndex(x, y, ch, width, height)]
            == Channel(Colors[UploadIndex(tags[CellIndex(x, y, width, height)])].color, ch)
  {
    BytesOfCell(UploadColors(tags), x, y, ch, width, height);
  }

  class Renderer {
    var width: nat
    var height: nat
    /** `_scale`: screen pixels per world pixel, used only by the sprite. */
    const scale: int
    /** `_pixels`: four bytes per cell, in the order r, g, b, a. */
    var pixels: array<byte>

    predicate Valid()
      reads this
    {
      pixels.Length == width * height * 4
    }

    /** `Renderer(pixelScale)`: no size yet and an empty buffer. */
    constructor(pixelScale: int)
      ensures Valid() && width == 0 && height == 0 && scale == pixelScale && fresh(pixels)
    {
      width, height, scale := 0, 0, pixelScale;
      pixels := new byte[0];
    }

    /**
      `init`: a size that is not positive is refused and nothing changes;
      otherwise the renderer takes the size and a zeroed buffer, and reports
      whether the texture could be resized.
     */
    method Init(w: int, h: int, textureResized: bool) returns (ok: bool)
      requires Valid()
      modifies this
      ensures Valid()
      ensures w <= 0 || h <= 0 ==> !ok && width == old(width) && height == old(height) && pixels == old(pixels)
      ensures 0 < w && 0 < h ==>
                && ok == textureResized && width == w && height == h && fresh(pixels)
                && pixels[..] == seq(w * h * 4, _ => 0)
    {
      if w <= 0 || h <= 0 {
        return false;
      }
      width, height := w, h;
      pixels := new byte[w * h * 4](_ => 0);
      return textureResized;
    }

    /**
      `uploadFromWorld`: re-initialises on a size change, then writes every
      cell's clamped palette colour into the buffer, row by row.
     */
    method UploadFromWorld(world: PixelWorld, textureResized: bool)
      requires Valid() && world.Valid() && 0 < world.width && 0 < world.height
      modifies this, pixels
      ensures Valid() && width == world.width && height == world.height
      ensures pixels[..] == Bytes(UploadColors(world.tags[..]))
    {
      if world.width != width || world.height != height {
        var _ := Init(world.width, world.height, textureResized);
      }
      FillFromWorld(world);
    }

    /** The loop of `uploadFromWorld`, once the sizes agree: every cell, row by row. */
    method FillFromWorld(world: PixelWorld)
      requires Valid() && world.Valid() && width == world.width && height == world.height
      modifies pixels
      ensures pixels[..] == Bytes(UploadColors(world.tags[..]))
    {
      ghost var cs := UploadColors(world.tags[..]);
      var y := 0;
      while y < height
        invariant 0 <= y <= height && Laid(pixels[..], cs, y * width)
      {
        UploadRow(world, y, cs);
        y := y + 1;
      }
      assert y * width == |cs|;
      BytesOfCells(pixels[..], cs);
    }

    /** One row of `uploadFromWorld`'s loop: the cells of row `y`, left to right. */
    method UploadRow(world: PixelWorld, y: nat, ghost cs: seq<Rgba>)
      requires Valid() && world.Valid() && width == world.width && height == world.height && y < height
      requires cs == UploadColors(world.tags[..]) && Laid(pixels[..], cs, y * width)
      modifies pixels
      ensures Laid(pixels[..], cs, (y + 1) * width)
    {
      var x := 0;
      while x < width
        invariant 0 <= x <= width && Laid(pixels[..], cs, y * width + x)
      {
        var i := CellIndex(x, y, width, height);
        var idx := world.tags[i].colorIndex as nat;
        if idx >= PaletteSize {
          idx := 0;
        }
        var c := ColorOfIndex(idx);
        ghost var before := pixels[..];
        WriteColorAt(pixels, i, c);
        LaidStep(before, pixels[..], cs, i);
        x := x + 1;
      }
      assert (y + 1) * width == y * width + width;
    }
  }
}
