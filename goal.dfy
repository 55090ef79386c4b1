// `GoalArea` and `GoalSprite` of src/goal.cpp. The counter steps and the
// two-part sprite are those of the checkpoint (`Checkpoints.Advance`
// and `Checkpoints.SpriteParts`), with a cap of one tick per sprite row; the duck is
// inside only when all of it is.
module Goals {
  import opened Base
  import opened Assets
  import opened Ducks
  import opened Checkpoints

  /** Column `dx` of the duck at `(ox, oy)` has all its opaque pixels in the area. */
  predicate ColumnInside(s: PixelShape, cls: Classifier, ox: int, oy: int, x: int, y: int, w: int, h: int, dx: int)
  {
    forall dy :: 0 <= dy < s.height && DuckPixel(s, cls, dx, dy) ==> InArea(ox + dx, oy + dy, x, y, w, h)
  }

  /** `_isDuckInside` of a goal: the boxes overlap and every opaque duck pixel is in the area. */
  predicate AllPixelsInside(s: PixelShape, cls: Classifier, ox: int, oy: int, x: int, y: int, w: int, h: int)
  {
    && BoxesOverlap(ox, oy, s.width, s.height, x, y, w, h)
    && forall dx :: 0 <= dx < s.width ==> ColumnInside(s, cls, ox, oy, x, y, w, h, dx)
  }

  /** The goal test, pixel by pixel: the boxes overlap and no opaque pixel lies outside the area. */
  lemma AllPixelsInsideMeaning(s: PixelShape, cls: Classifier, ox: int, oy: int, x: int, y: int, w: int, h: int)
    ensures AllPixelsInside(s, cls, ox, oy, x, y, w, h)
            <==> && BoxesOverlap(ox, oy, s.width, s.height, x, y, w, h)
                 && forall dx, dy :: DuckPixel(s, cls, dx, dy) ==> InArea(ox + dx, oy + dy, x, y, w, h)
  {
    if AllPixelsInside(s, cls, ox, oy, x, y, w, h) {
      forall dx, dy | DuckPixel(s, cls, dx, dy)
        ensures InArea(ox + dx, oy + dy, x, y, w, h)
      {
        assert ColumnInside(s, cls, ox, oy, x, y, w, h, dx);
      }
    }
  }

  /** A duck wholly inside a goal, with some opaque pixel, is also inside that area in the checkpoint's sense. */
  lemma AllInsideIsAnyInside(s: PixelShape, cls: Classifier, ox: int, oy: int, x: int, y: int, w: int, h: int, dx: int, dy: int)
    requires DuckPixel(s, cls, dx, dy) && AllPixelsInside(s, cls, ox, oy, x, y, w, h)
    ensures AnyPixelInside(s, cls, ox, oy, x, y, w, h)
  {
    assert ColumnInside(s, cls, ox, oy, x, y, w, h, dx);
    assert ColumnTouches(s, cls, ox, oy, x, y, w, h, dx);
  }

  /** The AABB check matters for a duck with no opaque pixel: it is then inside iff the boxes overlap. */
  lemma BlankDuckInside(s: PixelShape, cls: Classifier, ox: int, oy: int, x: int, y: int, w: int, h: int)
    requires forall dx, dy :: !DuckPixel(s, cls, dx, dy)
    ensures AllPixelsInside(s, cls, ox, oy, x, y, w, h) <==> BoxesOverlap(ox, oy, s.width, s.height, x, y, w, h)
  {
    AllPixelsInsideMeaning(s, cls, ox, oy, x, y, w, h);
  }

  class GoalArea {
    const x: int
    const y: int
    /** The sprite's size. */
    const width: nat
    const height: nat
    /** `progress`, one tick per sprite row. */
    var progress: int

    predicate Valid()
      reads this
    {
      0 <= progress <= height
    }

    /** `GoalArea(x, y)`: no progress, the size of the sprite. */
    constructor(x: int, y: int, spriteWidth: nat, spriteHeight: nat)
      ensures Valid() && this.x == x && this.y == y && width == spriteWidth && height == spriteHeight && progress == 0
    {
      this.x, this.y, width, height, progress := x, y, spriteWidth, spriteHeight, 0;
    }

    /** The inner loop of `_isDuckInside`: the rows of column `dx`. */
    method ColumnInsideAt(s: PixelShape, cls: Classifier, ox: int, oy: int, dx: int) returns (b: bool)
      requires s.Valid() && 0 <= dx < s.width
      ensures b == ColumnInside(s, cls, ox, oy, x, y, width, height, dx)
    {
      for dy := 0 to s.height
        invariant forall k :: 0 <= k < dy && DuckPixel(s, cls, dx, k) ==> InArea(ox + dx, oy + k, x, y, width, height)
      {
        if !s.HasPixel(cls, dx, dy) {
          continue;
        }
        var wx := ox + dx;
        var wy := oy + dy;
        if wx < x || wx >= x + width || wy < y || wy >= y + height {
          assert DuckPixel(s, cls, dx, dy);
          return false;
        }
      }
      return true;
    }

    /** `_isDuckInside`: every opaque pixel of the duck, at its rounded position, in the area. */
    method IsDuckInside(duck: DuckEntity, cls: Classifier) returns (b: bool)
      requires duck.shape.Valid()
      ensures b == AllPixelsInside(duck.shape, cls, RoundOf(duck.x), RoundOf(duck.y), x, y, width, height)
    {
      var s := duck.shape;
      var ox, oy := RoundOf(duck.x), RoundOf(duck.y);
      if ox + s.width <= x || ox >= x + width {
        return false;
      }
      if oy + s.height <= y || oy >= y + height {
        return false;
      }
      for dx := 0 to s.width
        invariant forall k :: 0 <= k < dx ==> ColumnInside(s, cls, ox, oy, x, y, width, height, k)
      {
        var fits := ColumnInsideAt(s, cls, ox, oy, dx);
        if !fits {
          return false;
        }
      }
      return true;
    }

    /** `step`: the counter advances, capped at the sprite's height. */
    method Step(duck: DuckEntity, cls: Classifier)
      requires Valid() && duck.shape.Valid()
      modifies this
      ensures Valid()
      ensures progress == Advance(old(progress), AllPixelsInside(duck.shape, cls, RoundOf(duck.x), RoundOf(duck.y), x, y, width, height), height)
    {
      var inside := IsDuckInside(duck, cls);
      if inside {
        progress := Min(progress + 1, height);
      } else {
        progress := Max(progress - 1, 0);
      }
    }

    /** `isCompleted`: the counter has reached the sprite's height. */
    function IsCompleted(): (b: bool)
      requires Valid()
      reads this
      ensures b <==> progress == height
    {
      progress >= height
    }

    /** `render`: the two-part sprite at the area, split at `progress`. */
    function Render(scale: int): (parts: seq<Part>)
      requires Valid()
      reads this
      ensures progress > 0 <==> exists i :: 0 <= i < |parts| && parts[i].texture == 2
      ensures progress < height <==> exists i :: 0 <= i < |parts| && parts[i].texture == 1
    {
      var parts := SpriteParts(width, height, x, y, progress, scale);
      assert progress > 0 ==> parts[0].texture == 2;
      assert progress < height ==> parts[|parts| - 1].texture == 1;
      parts
    }
  }

  /** A duck that stays wholly inside completes a fresh goal in exactly `height` steps, and not before. */
  lemma GoalCompletesAfter(height: nat, n: nat)
    ensures Run(0, n, true, height) == height <==> n >= height
  {
    RunInside(0, n, height);
  }
}
