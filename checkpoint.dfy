// `CheckpointArea` and `CheckpointSprite` of src/checkpoint.cpp, with the
// progress counter and two-part sprite they share with the goal area of
// src/goal.cpp. The sprite's textures are not modelled: a sprite is its size,
// and a render is the list of texture slices it draws and where.
module Checkpoints {
  import opened Base
  import opened Assets
  import opened Animations
  import opened Ducks

  // ---------------------------------------------------------------------
  // The progress counter

  /**
    One step of an area's counter capped at `cap`: up by one while the duck
    is inside, down by one otherwise, never leaving `[0, cap]`.
   */
  function Advance(p: int, inside: bool, cap: int): (q: int)
    requires 0 <= p <= cap
    ensures 0 <= q <= cap
    ensures inside ==> p <= q <= p + 1 && (q == p <==> p == cap)
    ensures !inside ==> p - 1 <= q <= p && (q == p <==> p == 0)
  {
    if inside then Min(p + 1, cap) else Max(0, p - 1)
  }

  /** `n` steps of the counter with the duck always inside, or always away. */
  function Run(p: int, n: nat, inside: bool, cap: int): (q: int)
    requires 0 <= p <= cap
    ensures 0 <= q <= cap
    decreases n
  {
    if n == 0 then p else Run(Advance(p, inside, cap), n - 1, inside, cap)
  }

  /** While the duck stays inside, the counter climbs one per step until the cap. */
  lemma {:induction false} RunInside(p: int, n: nat, cap: int)
    requires 0 <= p <= cap
    ensures Run(p, n, true, cap) == Min(p + n, cap)
    decreases n
  {
    if n > 0 {
      RunInside(Advance(p, true, cap), n - 1, cap);
    }
  }

  /** While the duck stays away, the counter falls one per step until zero. */
  lemma {:induction false} RunOutside(p: int, n: nat, cap: int)
    requires 0 <= p <= cap
    ensures Run(p, n, false, cap) == Max(0, p - n)
    decreases n
  {
    if n > 0 {
      RunOutside(Advance(p, false, cap), n - 1, cap);
    }
  }

  // ---------------------------------------------------------------------
  // Where the duck is

  /** The fast AABB check: the duck's `sw` x `sh` box at `(ox, oy)` overlaps the `w` x `h` area at `(x, y)`. */
  predicate BoxesOverlap(ox: int, oy: int, sw: int, sh: int, x: int, y: int, w: int, h: int)
  {
    !(ox + sw <= x || ox >= x + w) && !(oy + sh <= y || oy >= y + h)
  }

  /** World cell `(wx, wy)` lies in the area. */
  predicate InArea(wx: int, wy: int, x: int, y: int, w: int, h: int)
  {
    x <= wx < x + w && y <= wy < y + h
  }

  /** Column `dx` of the duck at `(ox, oy)` has an opaque pixel in the area. */
  predicate ColumnTouches(s: PixelShape, cls: Classifier, ox: int, oy: int, x: int, y: int, w: int, h: int, dx: int)
  {
    exists dy :: 0 <= dy < s.height && DuckPixel(s, cls, dx, dy) && InArea(ox + dx, oy + dy, x, y, w, h)
  }

  /** `_isDuckInside` of a checkpoint: the boxes overlap and some opaque duck pixel is in the area. */
  predicate AnyPixelInside(s: PixelShape, cls: Classifier, ox: int, oy: int, x: int, y: int, w: int, h: int)
  {
    && BoxesOverlap(ox, oy, s.width, s.height, x, y, w, h)
    && exists dx :: 0 <= dx < s.width && ColumnTouches(s, cls, ox, oy, x, y, w, h, dx)
  }

  /**
    The AABB check only saves time: the duck is inside a checkpoint iff some
    opaque pixel of it lies in the area.
   */
  lemma AnyPixelInsideMeaning(s: PixelShape, cls: Classifier, ox: int, oy: int, x: int, y: int, w: int, h: int)
    ensures AnyPixelInside(s, cls, ox, oy, x, y, w, h)
            <==> exists dx, dy :: DuckPixel(s, cls, dx, dy) && InArea(ox + dx, oy + dy, x, y, w, h)
  {
    if exists dx, dy :: DuckPixel(s, cls, dx, dy) && InArea(ox + dx, oy + dy, x, y, w, h) {
      var dx, dy :| DuckPixel(s, cls, dx, dy) && InArea(ox + dx, oy + dy, x, y, w, h);
      assert ColumnTouches(s, cls, ox, oy, x, y, w, h, dx);
    }
  }

  // ---------------------------------------------------------------------
  // The two-part sprite

  /** A slice drawn by a sprite render: from texture 1 or 2, its rectangle and placement. */
  datatype Part = Part(texture: int, drawn: Drawn)

  /** Sprite row `r` is in the slice `part` takes from its texture. */
  predicate Covers(part: Part, r: int)
  {
    part.drawn.frame.y <= r < part.drawn.frame.y + part.drawn.frame.h
  }

  /**
    `render` of the checkpoint and goal sprites, for a `width` x `height`
    sprite at `(x, y)`: the bottom `progress` rows of texture 2 drawn at
    row `y + height - progress`, then the top `height - progress` rows of
    texture 1 drawn at row `y`; each only when it is not empty. Each slice
    is drawn where its rows lie in the sprite, and scaled by `scale`.
   */
  function SpriteParts(width: int, height: int, x: int, y: int, progress: int, scale: int): (parts: seq<Part>)
    requires 0 <= progress <= height
    ensures |parts| == (if progress > 0 then 1 else 0) + (if progress < height then 1 else 0)
    ensures forall i :: 0 <= i < |parts| ==>
              && parts[i].drawn.frame.x == 0 && parts[i].drawn.frame.w == width && parts[i].drawn.frame.h > 0
              && parts[i].drawn.at == Point(x * scale, (y + parts[i].drawn.frame.y) * scale)
              && parts[i].drawn.scale == scale
  {
    (if progress > 0 then [Part(2, Drawn(Rect(0, height - progress, width, progress), Point(x * scale, (y + height - progress) * scale), scale))] else [])
    + (if progress < height then [Part(1, Drawn(Rect(0, 0, width, height - progress), Point(x * scale, y * scale), scale))] else [])
  }

  /**
    The slices tile the sprite: each row is drawn by exactly one slice, from
    texture 2 for the bottom `progress` rows and texture 1 above them.
   */
  lemma SpriteRowsTile(width: int, height: int, x: int, y: int, progress: int, scale: int, r: int)
    requires 0 <= progress <= height && 0 <= r < height
    ensures var parts := SpriteParts(width, height, x, y, progress, scale);
            && (exists i :: 0 <= i < |parts| && Covers(parts[i], r))
            && (forall i :: 0 <= i < |parts| && Covers(parts[i], r) ==> parts[i].texture == if r >= height - progress then 2 else 1)
            && (forall i, j :: 0 <= i < |parts| && 0 <= j < |parts| && Covers(parts[i], r) && Covers(parts[j], r) ==> i == j)
  {
    var parts := SpriteParts(width, height, x, y, progress, scale);
    if r >= height - progress {
      assert Covers(parts[0], r);
    } else {
      assert Covers(parts[|parts| - 1], r);
    }
  }

  // ---------------------------------------------------------------------
  // The checkpoint

  /** `_ticks_per_progress`. */
  const TicksPerProgress: int := 3

  class CheckpointArea {
    const x: int
    const y: int
    /** The sprite's size. */
    const width: nat
    const height: nat
    /** `_progress`, in ticks. */
    var progress: int

    predicate Valid()
      reads this
    {
      0 <= progress <= height * TicksPerProgress
    }

    /** `CheckpointArea(x, y)`: no progress, the size of the sprite. */
    constructor(x: int, y: int, spriteWidth: nat, spriteHeight: nat)
      ensures Valid() && this.x == x && this.y == y && width == spriteWidth && height == spriteHeight && progress == 0
    {
      this.x, this.y, width, height, progress := x, y, spriteWidth, spriteHeight, 0;
    }

    /** The inner loop of `_isDuckInside`: the rows of column `dx`. */
    method ColumnTouchesAt(s: PixelShape, cls: Classifier, ox: int, oy: int, dx: int) returns (b: bool)
      requires s.Valid() && 0 <= dx < s.width
      ensures b == ColumnTouches(s, cls, ox, oy, x, y, width, height, dx)
    {
      for dy := 0 to s.height
        invariant forall k :: 0 <= k < dy ==> !(DuckPixel(s, cls, dx, k) && InArea(ox + dx, oy + k, x, y, width, height))
      {
        if !s.HasPixel(cls, dx, dy) {
          continue;
        }
        var wx := ox + dx;
        var wy := oy + dy;
        if wx >= x && wx < x + width && wy >= y && wy < y + height {
          assert DuckPixel(s, cls, dx, dy);
          return true;
        }
      }
      return false;
    }

    /** `_isDuckInside`: any opaque pixel of the duck, at its rounded position, in the area. */
    method IsDuckInside(duck: DuckEntity, cls: Classifier) returns (b: bool)
      requires duck.shape.Valid()
      ensures b == AnyPixelInside(duck.shape, cls, RoundOf(duck.x), RoundOf(duck.y), x, y, width, height)
    {
      var s := duck.shape;
      var ox, oy := RoundOf(duck.x), RoundOf(duck.y);
      if ox + s.width <= x || ox >= x + width {
        return false;
      }
      if oy + s.height <= y || oy >= y + height {
        return false;
      }
      for dx := 0 to s.width
        invariant forall k :: 0 <= k < dx ==> !ColumnTouches(s, cls, ox, oy, x, y, width, height, k)
      {
        var hit := ColumnTouchesAt(s, cls, ox, oy, dx);
        if hit {
          return true;
        }
      }
      return false;
    }

    /** `step`: the counter advances, capped at three ticks per sprite row. */
    method Step(duck: DuckEntity, cls: Classifier)
      requires Valid() && duck.shape.Valid()
      modifies this
      ensures Valid()
      ensures progress == Advance(old(progress), AnyPixelInside(duck.shape, cls, RoundOf(duck.x), RoundOf(duck.y), x, y, width, height), height * TicksPerProgress)
    {
      var inside := IsDuckInside(duck, cls);
      if inside {
        progress := Min(progress + 1, height * TicksPerProgress);
      } else {
        progress := Max(0, progress - 1);
      }
    }

    /** `resetProgress`. */
    method ResetProgress()
      modifies this
      ensures Valid() && progress == 0
    {
      progress := 0;
    }

    /** `progress()`: whole sprite rows of progress, at most the sprite's height. */
    function Progress(): (r: int)
      requires Valid()
      reads this
      ensures 0 <= r <= height
      ensures r * TicksPerProgress <= progress < r * TicksPerProgress + TicksPerProgress
    {
      progress / TicksPerProgress
    }

    /** `isCompleted`: the counter has reached its cap. */
    function IsCompleted(): (b: bool)
      requires Valid()
      reads this
      ensures b <==> progress == height * TicksPerProgress
      ensures b ==> Progress() == height
    {
      progress >= height * TicksPerProgress
    }

    /** `render`: the two-part sprite at the area, split at `progress()`. */
    function Render(scale: int): (parts: seq<Part>)
      requires Valid()
      reads this
      ensures Progress() > 0 <==> exists i :: 0 <= i < |parts| && parts[i].texture == 2
      ensures Progress() < height <==> exists i :: 0 <= i < |parts| && parts[i].texture == 1
    {
      var parts := SpriteParts(width, height, x, y, Progress(), scale);
      assert Progress() > 0 ==> parts[0].texture == 2;
      assert Progress() < height ==> parts[|parts| - 1].texture == 1;
      parts
    }
  }

  /** A duck that stays inside completes a fresh checkpoint in exactly `3 * height` steps, and not before. */
  lemma CheckpointCompletesAfter(height: nat, n: nat)
    ensures Run(0, n, true, height * TicksPerProgress) == height * TicksPerProgress <==> n >= height * TicksPerProgress
  {
    RunInside(0, n, height * TicksPerProgress);
  }
}
