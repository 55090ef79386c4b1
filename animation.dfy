// `PixelAnimationFrames` of src/animation.cpp: a sprite sheet cut into
// equal frames laid side by side. The frames are fixed at construction, so
// the sliced sheet is a value; the texture and the sprite drawn from it are
// not modelled, and a drawn frame is its rectangle with its placement.
module Animations {
  import opened Base

  /** `sf::IntRect`: a corner and a size. */
  datatype Rect = Rect(x: int, y: int, w: int, h: int)

  /** Why a sprite sheet is refused, or a frame index. */
  datatype AnimationError =
    | HeightMismatch(sheetHeight: int, frameHeight: int)
    | WidthNotMultiple(sheetWidth: int, frameWidth: int)
    | FrameOutOfRange(index: int, length: int)

  /** A sliced sprite sheet. */
  datatype Frames = Frames(frameWidth: int, frameHeight: int, length: int, frames: seq<Rect>)

  /** Frame `i` of a sheet sliced into `fw` x `fh` frames. */
  function FrameRect(i: int, fw: int, fh: int): Rect { Rect(i * fw, 0, fw, fh) }

  /**
    The constructor: a sheet whose height is not the frame height, then one
    whose width is not a multiple of the frame width, is refused; otherwise
    the sheet holds `width / fw` frames, pushed left to right.
   */
  method NewFrames(sheetWidth: nat, sheetHeight: nat, fw: int, fh: int) returns (r: Result<Frames, AnimationError>)
    requires fw > 0
    ensures sheetHeight != fh ==> r == Err(HeightMismatch(sheetHeight, fh))
    ensures sheetHeight == fh && sheetWidth % fw != 0 ==> r == Err(WidthNotMultiple(sheetWidth, fw))
    ensures sheetHeight == fh && sheetWidth % fw == 0 ==>
              && r.Ok? && r.value.frameWidth == fw && r.value.frameHeight == fh
              && r.value.length == sheetWidth / fw && |r.value.frames| == r.value.length
              && forall i :: 0 <= i < r.value.length ==> r.value.frames[i] == FrameRect(i, fw, fh)
  {
    if sheetHeight != fh {
      return Err(HeightMismatch(sheetHeight, fh));
    }
    if sheetWidth % fw != 0 {
      return Err(WidthNotMultiple(sheetWidth, fw));
    }
    var length := sheetWidth / fw;
    var frames: seq<Rect> := [];
    for i := 0 to length
      invariant |frames| == i && forall j :: 0 <= j < i ==> frames[j] == FrameRect(j, fw, fh)
    {
      frames := frames + [Rect(i * fw, 0, fw, fh)];
    }
    return Ok(Frames(fw, fh, length, frames));
  }

  /**
    The frames of a sliced sheet tile it: each column `x` of the sheet lies in
    exactly one frame, frame `x / fw`.
   */
  lemma FramesTile(sheetWidth: nat, fw: int, fh: int, x: int, i: int)
    requires fw > 0 && sheetWidth % fw == 0 && 0 <= x < sheetWidth && 0 <= i < sheetWidth / fw
    ensures var f := FrameRect(i, fw, fh); f.x <= x < f.x + f.w <==> i == x / fw
    ensures 0 <= x / fw < sheetWidth / fw
  {
    var q, n := x / fw, sheetWidth / fw;
    DivFloor(x, fw);
    DivFloor(sheetWidth, fw);
    if i < q {
      MulMonotone(fw, i + 1, q);
    } else if i > q {
      MulMonotone(fw, q + 1, i);
    }
    assert i * fw == fw * i;
    if q >= n {
      MulMonotone(fw, n, q);
    }
  }

  /** `x / fw` is the number of whole `fw`-wide steps in `x`. */
  lemma DivFloor(x: int, fw: int)
    requires fw > 0 && x >= 0
    ensures x / fw >= 0 && fw * (x / fw) <= x < fw * (x / fw) + fw
    ensures x % fw == 0 ==> x == fw * (x / fw)
    ensures fw * (x / fw + 1) == fw * (x / fw) + fw
  {
  }

  /** A drawn frame: its rectangle, its position on the target and the scale. */
  datatype Drawn = Drawn(frame: Rect, at: Point, scale: int)

  /**
    `render`: an index outside `[0, length)` is refused; otherwise the frame
    is drawn at `(x * scale, y * scale)`, scaled by `scale`.
   */
  function Render(a: Frames, frameIndex: int, x: int, y: int, scale: int): (r: Result<Drawn, AnimationError>)
    requires |a.frames| == a.length
    ensures r.Err? <==> frameIndex < 0 || frameIndex >= a.length
    ensures r.Err? ==> r.error == FrameOutOfRange(frameIndex, a.length)
    ensures r.Ok? ==> r.value.frame == a.frames[frameIndex] && r.value.at == Point(x * scale, y * scale) && r.value.scale == scale
  {
    if frameIndex < 0 || frameIndex >= a.length then Err(FrameOutOfRange(frameIndex, a.length))
    else Ok(Drawn(a.frames[frameIndex], Point(x * scale, y * scale), scale))
  }
}
