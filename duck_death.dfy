// src/scenes/duckdeath.cpp: the scene shown when the duck dies. It finds the
// duck sprite's anchor (its leftmost and topmost opaque pixels), plays the
// death animation on a timeline read from JSON, with two sounds on fixed
// ticks, and restarts the level when the timeline has run out or the player
// skips it. Sounds are returned as the list of sounds a step starts; drawing
// is the frame and position handed to the animation's `render`.
module DuckDeaths {
  import opened Base
  import opened Assets
  import opened Animations
  import opened Scenes

  /** `std::numeric_limits<int>::max()`. */
  const IntMax: int := 2147483647

  // ---------------------------------------------------------------------
  // The anchor

  predicate Opaque(img: Image, x: int, y: int)
    requires img.Valid() && img.Contains(x, y)
  {
    img.At(x, y).a != 0
  }

  /** Pixel `(a, b)` comes before `(x, y)` in the scan, which goes column by column. */
  predicate Before(a: int, b: int, x: int, y: int)
  {
    a < x || (a == x && b < y)
  }

  /**
    `(ax, ay)` is the anchor of the scanned part of `img` (the pixels before
    `(x, y)`): the least column and the least row, taken separately, of its
    opaque pixels, each `IntMax` when there are none.
   */
  ghost predicate AnchorSoFar(img: Image, x: int, y: int, ax: int, ay: int)
    requires img.Valid()
  {
    && (forall a, b :: img.Contains(a, b) && Before(a, b, x, y) && Opaque(img, a, b) ==> ax <= a && ay <= b)
    && (ax == IntMax || exists b :: img.Contains(ax, b) && Before(ax, b, x, y) && Opaque(img, ax, b))
    && (ay == IntMax || exists a :: img.Contains(a, ay) && Before(a, ay, x, y) && Opaque(img, a, ay))
    && (ax == IntMax <==> ay == IntMax)
    && (ax == IntMax ==> forall a, b :: img.Contains(a, b) && Before(a, b, x, y) ==> !Opaque(img, a, b))
  }

  /** The anchor of the whole image. */
  ghost predicate IsAnchor(img: Image, ax: int, ay: int)
    requires img.Valid()
  {
    AnchorSoFar(img, img.width, 0, ax, ay)
  }

  /**
    The constructor's anchor loop, over the columns and then the rows of the
    raw duck image. The image's sides fit in an `int`, as an `sf::Image`'s
    do in practice.
   */
  method Anchor(img: Image) returns (ax: int, ay: int)
    requires img.Valid() && img.width <= IntMax && img.height <= IntMax
    ensures IsAnchor(img, ax, ay)
    ensures ax == IntMax <==> forall a, b :: img.Contains(a, b) ==> !Opaque(img, a, b)
    ensures ax != IntMax ==> 0 <= ax < img.width && 0 <= ay < img.height
  {
    ax, ay := IntMax, IntMax;
    var x := 0;
    while x < img.width
      invariant 0 <= x <= img.width
      invariant AnchorSoFar(img, x, 0, ax, ay)
    {
      ax, ay := AnchorColumn(img, x, ax, ay);
      x := x + 1;
    }
    if ax != IntMax {
      var b :| img.Contains(ax, b) && Before(ax, b, img.width, 0) && Opaque(img, ax, b);
      var a :| img.Contains(a, ay) && Before(a, ay, img.width, 0) && Opaque(img, a, ay);
    }
  }

  /** The inner loop: one column of the scan. */
  method AnchorColumn(img: Image, x: int, ax0: int, ay0: int) returns (ax: int, ay: int)
    requires img.Valid() && img.width <= IntMax && img.height <= IntMax && 0 <= x < img.width
    requires AnchorSoFar(img, x, 0, ax0, ay0)
    ensures AnchorSoFar(img, x + 1, 0, ax, ay)
  {
    ax, ay := ax0, ay0;
    var y := 0;
    while y < img.height
      invariant 0 <= y <= img.height
      invariant AnchorSoFar(img, x, y, ax, ay)
    {
      if img.At(x, y).a != 0 {
        ax := Min(ax, x);
        ay := Min(ay, y);
      }
      y := y + 1;
    }
    assert forall a, b :: img.Contains(a, b) && Before(a, b, x + 1, 0) ==> Before(a, b, x, img.height);
    if ax != IntMax {
      var b :| img.Contains(ax, b) && Before(ax, b, x, img.height) && Opaque(img, ax, b);
      assert Before(ax, b, x + 1, 0);
      var a :| img.Contains(a, ay) && Before(a, ay, x, img.height) && Opaque(img, a, ay);
      assert Before(a, ay, x + 1, 0);
    }
  }

  /** The anchor is unique: the scan's result is the only pair with its properties. */
  lemma AnchorUnique(img: Image, ax: int, ay: int, cx: int, cy: int)
    requires img.Valid() && IsAnchor(img, ax, ay) && IsAnchor(img, cx, cy)
    ensures ax == cx && ay == cy
  {
    if ax != IntMax {
      var b :| img.Contains(ax, b) && Before(ax, b, img.width, 0) && Opaque(img, ax, b);
      var a :| img.Contains(a, ay) && Before(a, ay, img.width, 0) && Opaque(img, a, ay);
      assert cx <= ax && cy <= ay;
      assert cx != IntMax;
      var d :| img.Contains(cx, d) && Before(cx, d, img.width, 0) && Opaque(img, cx, d);
      var e :| img.Contains(e, cy) && Before(e, cy, img.width, 0) && Opaque(img, e, cy);
    }
  }

  /** `render`: the animation is drawn at the duck's position less the anchor, so the anchor pixel lands on the duck. */
  function RenderOrigin(duckX: int, duckY: int, ax: int, ay: int): (p: Point)
    ensures p.x + ax == duckX && p.y + ay == duckY
  {
    Point(duckX - ax, duckY - ay)
  }

  // ---------------------------------------------------------------------
  // The timeline

  /** `total-duration` and the `timeline` entries, in ticks. */
  datatype Timeline = Timeline(total: int, animationStart: int, frameDuration: int, separateStart: int, rebornStart: int)

  /** Reading the timeline JSON: `at` throws on the first missing or mistyped entry. */
  function TimelineFromJson(j: Json): (r: Result<Timeline, JsonError>)
    ensures r.Ok? <==>
              && IntAt(j, "total-duration").Ok? && j.JObject? && "timeline" in j.fields
              && var t := j.fields["timeline"];
                 IntAt(t, "animation-start").Ok? && IntAt(t, "animation-frame-duration").Ok?
                 && IntAt(t, "separate-sfx-start").Ok? && IntAt(t, "reborn-sfx-start").Ok?
    ensures r.Ok? ==>
              var t := j.fields["timeline"].fields;
              r.value == Timeline(j.fields["total-duration"].i, t["animation-start"].i, t["animation-frame-duration"].i,
                                  t["separate-sfx-start"].i, t["reborn-sfx-start"].i)
  {
    var total := IntAt(j, "total-duration");
    if total.Err? then Err(total.error) else
    if "timeline" !in j.fields then Err(MissingKey("timeline")) else
    var t := j.fields["timeline"];
    var start := IntAt(t, "animation-start");
    if start.Err? then Err(start.error) else
    var duration := IntAt(t, "animation-frame-duration");
    if duration.Err? then Err(duration.error) else
    var separate := IntAt(t, "separate-sfx-start");
    if separate.Err? then Err(separate.error) else
    var reborn := IntAt(t, "reborn-sfx-start");
    if reborn.Err? then Err(reborn.error) else
    Ok(Timeline(total.value, start.value, duration.value, separate.value, reborn.value))
  }

  datatype Sound = SeparateSound | RebornSound

  /**
    The animation frame after a step that reached `tick`: one on when the
    animation has started and a frame's duration has passed, never past
    the last frame. (A remainder of zero means the same for C++'s `%` and
    Dafny's.)
   */
  function NextFrame(frame: int, tick: int, tl: Timeline, length: int): (r: int)
    requires tl.frameDuration != 0
    ensures tick >= tl.animationStart && tick % tl.frameDuration == 0 ==> r == Min(frame + 1, length - 1)
    ensures !(tick >= tl.animationStart && tick % tl.frameDuration == 0) ==> r == frame
  {
    if tick >= tl.animationStart && tick % tl.frameDuration == 0 then
      if frame + 1 >= length then length - 1 else frame + 1
    else frame
  }

  /** The frame stays a valid index of a non-empty animation, and never goes back. */
  lemma NextFrameInRange(frame: int, tick: int, tl: Timeline, length: int)
    requires tl.frameDuration != 0 && 1 <= length && 0 <= frame < length
    ensures 0 <= NextFrame(frame, tick, tl, length) < length
    ensures frame <= NextFrame(frame, tick, tl, length) <= frame + 1
  {
  }

  /** The sounds a step to `tick` starts: each on its own tick only. */
  function SoundsAt(tick: int, tl: Timeline): (s: seq<Sound>)
    ensures SeparateSound in s <==> tick == tl.separateStart
    ensures RebornSound in s <==> tick == tl.rebornStart
    ensures |s| <= 2
  {
    (if tick == tl.separateStart then [SeparateSound] else []) + (if tick == tl.rebornStart then [RebornSound] else [])
  }

  /** The frame after `n` steps from frame 0 at tick 0, none of them a key press. */
  function FrameAfter(tl: Timeline, length: int, n: nat): int
    requires tl.frameDuration != 0
  {
    if n == 0 then 0 else NextFrame(FrameAfter(tl, length, n - 1), n, tl, length)
  }

  /** Before the animation starts the first frame shows; once it has, the frame only moves forward and never past the last. */
  lemma {:induction false} FrameAfterBounds(tl: Timeline, length: int, n: nat)
    requires tl.frameDuration != 0 && 1 <= length
    ensures 0 <= FrameAfter(tl, length, n) < length
    ensures n < tl.animationStart ==> FrameAfter(tl, length, n) == 0
    ensures n > 0 ==> FrameAfter(tl, length, n - 1) <= FrameAfter(tl, length, n)
  {
    if n > 0 {
      FrameAfterBounds(tl, length, n - 1);
      NextFrameInRange(FrameAfter(tl, length, n - 1), n, tl, length);
    }
  }

  class DuckDeath {
    const duckX: int
    const duckY: int
    const anchorX: int
    const anchorY: int
    const timeline: Timeline
    const animation: Frames
    const scale: int
    /** The level to restart. */
    const level: int
    var tick: int
    var frame: int

    predicate Valid()
      reads this
    {
      && timeline.frameDuration != 0
      && |animation.frames| == animation.length
      && (animation.length >= 1 ==> 0 <= frame < animation.length)
    }

    /** `DuckDeath(...)`: the anchor of the raw duck image; tick and frame at 0. */
    constructor(duckX: int, duckY: int, raw: Image, timeline: Timeline, animation: Frames, scale: int, level: int)
      requires raw.Valid() && raw.width <= IntMax && raw.height <= IntMax
      requires timeline.frameDuration != 0 && |animation.frames| == animation.length
      ensures Valid() && IsAnchor(raw, anchorX, anchorY)
      ensures this.duckX == duckX && this.duckY == duckY && this.timeline == timeline
      ensures this.animation == animation && this.scale == scale && this.level == level
      ensures tick == 0 && frame == 0
    {
      var ax, ay := Anchor(raw);
      this.duckX := duckX;
      this.duckY := duckY;
      anchorX := ax;
      anchorY := ay;
      this.timeline := timeline;
      this.animation := animation;
      this.scale := scale;
      this.level := level;
      tick := 0;
      frame := 0;
    }

    /** `handleEvent`: Space, Enter or R skip to the end of the timeline. */
    method HandleKey(k: KeyPress)
      modifies this
      ensures tick == if k.code in {Space, Enter, KeyR} then timeline.total else old(tick)
      ensures frame == old(frame)
    {
      if k.code == Space || k.code == Enter || k.code == KeyR {
        tick := timeline.total;
      }
    }

    /**
      `step`: one tick on; past the end of the timeline the level restarts
      (and the frame is left alone). Otherwise the sounds due on this tick
      start and the animation moves on.
     */
    method Step() returns (target: Option<Target>, sounds: seq<Sound>)
      requires Valid()
      modifies this
      ensures Valid()
      ensures tick == old(tick) + 1
      ensures target.Some? <==> tick > timeline.total
      ensures target.Some? ==> target.value == ToLevelPlaying(level) && sounds == [] && frame == old(frame)
      ensures target.None? ==> sounds == SoundsAt(tick, timeline) && frame == NextFrame(old(frame), tick, timeline, animation.length)
    {
      tick := tick + 1;
      if tick > timeline.total {
        return Some(ToLevelPlaying(level)), [];
      }
      sounds := [];
      if tick == timeline.separateStart {
        sounds := sounds + [SeparateSound];
      }
      if tick == timeline.rebornStart {
        sounds := sounds + [RebornSound];
      }
      if tick >= timeline.animationStart {
        if tick % timeline.frameDuration == 0 {
          frame := frame + 1;
          if frame >= animation.length {
            frame := animation.length - 1;
          }
        }
      }
      if animation.length >= 1 {
        NextFrameInRange(old(frame), tick, timeline, animation.length);
      }
      target := None;
    }

    /** `render`: the current frame at the render origin; it never fails for a non-empty animation. */
    method Render() returns (r: Result<Drawn, AnimationError>)
      requires Valid()
      ensures r == Animations.Render(animation, frame, RenderOrigin(duckX, duckY, anchorX, anchorY).x, RenderOrigin(duckX, duckY, anchorX, anchorY).y, scale)
      ensures animation.length >= 1 ==> r.Ok?
    {
      var origin := RenderOrigin(duckX, duckY, anchorX, anchorY);
      r := Animations.Render(animation, frame, origin.x, origin.y, scale);
    }
  }
}
