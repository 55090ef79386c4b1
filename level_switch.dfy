// src/scenes/level_switch.cpp: the two scenes between levels. After a level
// is completed the duck walks along a straight line from where it stood to
// the "LEVEL COMPLETED!" banner, one position per step after a pause, and a
// second pause later the level selection comes back. Before a level is
// played a loading screen waits out the music's fade. Drawing, the music
// fade of the loading screen and loading the level are not modelled.
module LevelSwitch {
  import opened Base
  import opened Raster2D
  import opened Scenes

  /** `level_complete_text`, 16 characters. */
  const LevelCompleteText: string := "LEVEL COMPLETED!"
  /** `play_speed`: one position shown per four tiles. */
  const PlaySpeed: int := 4
  /** `pending_duration`, in steps. */
  const PendingDuration: int := 24

  /** The banner: the text, a 3-pixel gap and the duck's texture, as tall as the duck. */
  function BannerSize(charWidth: int, duckWidth: int, duckHeight: int): (int, int)
  {
    (|LevelCompleteText| * charWidth + 3 + duckWidth, duckHeight)
  }

  /** The banner's top-left corner, centred in the level (C++ division). */
  function BannerTopLeft(levelWidth: int, levelHeight: int, bannerWidth: int, bannerHeight: int): (p: Point)
    ensures levelWidth >= bannerWidth ==> 0 <= p.x && 2 * p.x <= levelWidth - bannerWidth <= 2 * p.x + 1
    ensures levelHeight >= bannerHeight ==> 0 <= p.y && 2 * p.y <= levelHeight - bannerHeight <= 2 * p.y + 1
    ensures levelWidth >= bannerWidth ==> p.x + bannerWidth <= levelWidth
    ensures levelHeight >= bannerHeight ==> p.y + bannerHeight <= levelHeight
  {
    Point(TruncDiv(levelWidth - bannerWidth, 2), TruncDiv(levelHeight - bannerHeight, 2))
  }

  /** Every fourth element of `s`, from the first. */
  function EveryFourth(s: seq<Point>): (r: seq<Point>)
    ensures |r| == (|s| + 3) / 4
    ensures forall k :: 0 <= k < |r| ==> 4 * k < |s| && r[k] == s[4 * k]
  {
    seq((|s| + 3) / 4, k requires 0 <= k < (|s| + 3) / 4 => s[4 * k])
  }

  /** `_step_positions`: every fourth tile of the line from the duck to the banner, then the banner's corner. */
  function StepPositions(duck: Point, banner: Point): seq<Point>
  {
    EveryFourth(TilesOnSegment(duck, banner)) + [banner]
  }

  /** The constructor's loop: a frame counter picks every fourth tile. */
  method SampleTiles(tiles: seq<Point>) returns (ps: seq<Point>)
    ensures ps == EveryFourth(tiles)
  {
    ps := [];
    var frame := 0;
    while frame < |tiles|
      invariant 0 <= frame <= |tiles|
      invariant |ps| == (frame + 3) / 4
      invariant forall k :: 0 <= k < |ps| ==> 4 * k < |tiles| && ps[k] == tiles[4 * k]
    {
      if frame % PlaySpeed == 0 {
        ps := ps + [tiles[frame]];
      }
      frame := frame + 1;
    }
  }

  /** Along the line, `j - i` tiles apart are at most `j - i` apart on each axis. */
  lemma {:induction false} TileDrift(start: Point, end: Point, i: nat, j: nat)
    requires i <= j <= SegmentLength(start, end)
    ensures var t := TilesOnSegment(start, end);
            Abs(t[j].x - t[i].x) <= j - i && Abs(t[j].y - t[i].y) <= j - i
    decreases j - i
  {
    if i < j {
      TileDrift(start, end, i, j - 1);
      TilesOnSegmentGeometry(start, end, j - 1);
    }
  }

  /**
    The walk starts at the duck and ends at the banner, has at least two
    positions, and no step moves the duck more than four pixels on either
    axis.
   */
  lemma StepPositionsWalk(duck: Point, banner: Point)
    ensures var ps := StepPositions(duck, banner);
            && |ps| >= 2 && ps[0] == duck && ps[|ps| - 1] == banner
            && forall k :: 0 <= k < |ps| - 1 ==> Abs(ps[k + 1].x - ps[k].x) <= PlaySpeed && Abs(ps[k + 1].y - ps[k].y) <= PlaySpeed
  {
    var tiles := TilesOnSegment(duck, banner);
    var ps := StepPositions(duck, banner);
    var n := |EveryFourth(tiles)|;
    var len := SegmentLength(duck, banner);
    forall k | 0 <= k < |ps| - 1
      ensures Abs(ps[k + 1].x - ps[k].x) <= PlaySpeed && Abs(ps[k + 1].y - ps[k].y) <= PlaySpeed
    {
      assert ps[k] == tiles[4 * k];
      if k + 1 < n {
        assert ps[k + 1] == tiles[4 * (k + 1)];
        TileDrift(duck, banner, 4 * k, 4 * k + 4);
      } else {
        assert k == n - 1;
        assert len - 4 * k < 4;
        TilesOnSegmentGeometry(duck, banner, len);
        TileDrift(duck, banner, 4 * k, len);
      }
    }
  }

  /** The state `step` advances: `_pending_timer`, `_current_step` and `_display_text`. */
  datatype CompleteState = CompleteState(pending: int, current: int, displayText: bool)

  const InitialCompleteState := CompleteState(0, 0, false)

  /**
    One `step` of the level-complete scene with `count` positions: a pause,
    then one position on, the last one showing the text and restarting the
    pause; after the second pause the level selection (the `bool`).
   */
  function AdvanceComplete(s: CompleteState, count: int): (r: (CompleteState, bool))
    ensures s.pending < PendingDuration ==> r == (s.(pending := s.pending + 1), false)
    ensures s.pending >= PendingDuration && s.displayText ==> r == (s, true)
    ensures !r.1 ==> r.0.current == s.current || r.0.current == s.current + 1
  {
    if s.pending < PendingDuration then (s.(pending := s.pending + 1), false)
    else if s.displayText then (s, true)
    else if s.current + 1 < count then
      var next := s.current + 1;
      if next == count - 1 then (CompleteState(0, next, true), false)
      else (s.(current := next), false)
    else (s, false)
  }

  /** `n` steps from the start, as long as none of them changed the scene. */
  function RunComplete(count: int, n: nat): CompleteState
  {
    if n == 0 then InitialCompleteState else AdvanceComplete(RunComplete(count, n - 1), count).0
  }

  /** The state after `n` steps, in closed form: the first pause, the walk, the second pause. */
  function CompleteAt(count: int, n: nat): CompleteState
    requires count >= 2
  {
    if n <= PendingDuration then CompleteState(n, 0, false)
    else if n < PendingDuration + count - 1 then CompleteState(PendingDuration, n - PendingDuration, false)
    else CompleteState(n - (PendingDuration + count - 1), count - 1, true)
  }

  lemma {:induction false} RunCompleteShape(count: int, n: nat)
    requires count >= 2 && n <= 2 * PendingDuration + count - 1
    ensures RunComplete(count, n) == CompleteAt(count, n)
    ensures n < 2 * PendingDuration + count - 1 ==> !AdvanceComplete(RunComplete(count, n), count).1
    decreases n
  {
    if n > 0 {
      RunCompleteShape(count, n - 1);
    }
  }

  /**
    With `count >= 2` positions the scene lasts exactly `48 + count` steps:
    the first `47 + count` do not change the scene, and the next one goes
    back to the level selection.
   */
  lemma LevelCompleteDuration(count: int)
    requires count >= 2
    ensures forall n: nat :: n < 2 * PendingDuration + count - 1 ==> !AdvanceComplete(RunComplete(count, n), count).1
    ensures AdvanceComplete(RunComplete(count, 2 * PendingDuration + count - 1), count).1
  {
    forall n: nat | n < 2 * PendingDuration + count - 1
      ensures !AdvanceComplete(RunComplete(count, n), count).1
    {
      RunCompleteShape(count, n);
    }
    RunCompleteShape(count, 2 * PendingDuration + count - 1);
  }

  class LevelComplete {
    /** `_step_positions`. */
    const positions: seq<Point>
    var pending: int
    var current: int
    var displayText: bool

    predicate Valid()
      reads this
    {
      |positions| >= 1 && 0 <= current < |positions|
    }

    /** `LevelComplete(...)`: the banner's corner, then the walk to it; the timers at 0. */
    constructor(levelWidth: int, levelHeight: int, duckX: int, duckY: int, charWidth: int, duckWidth: int, duckHeight: int)
      ensures Valid()
      ensures var size := BannerSize(charWidth, duckWidth, duckHeight);
              positions == StepPositions(Point(duckX, duckY), BannerTopLeft(levelWidth, levelHeight, size.0, size.1))
      ensures pending == 0 && current == 0 && !displayText
    {
      var size := BannerSize(charWidth, duckWidth, duckHeight);
      var banner := BannerTopLeft(levelWidth, levelHeight, size.0, size.1);
      var sampled := SampleTiles(TilesOnSegment(Point(duckX, duckY), banner));
      positions := sampled + [banner];
      pending := 0;
      current := 0;
      displayText := false;
    }

    /** `step`: one tick of the pauses and the walk; the level selection once the text has been shown for a pause. */
    method Step() returns (target: Option<Target>)
      requires Valid()
      modifies this
      ensures Valid()
      ensures var r := AdvanceComplete(old(CompleteState(pending, current, displayText)), |positions|);
              CompleteState(pending, current, displayText) == r.0 && (target == if r.1 then Some(ToLevelSelect) else None)
    {
      if pending < PendingDuration {
        pending := pending + 1;
        return None;
      }
      if displayText {
        return Some(ToLevelSelect);
      }
      if current + 1 < |positions| {
        current := current + 1;
        if current == |positions| - 1 {
          pending := 0;
          displayText := true;
        }
      }
      target := None;
    }
  }

  class LevelLoading {
    /** `_total_duration`: the music's fade-out, in ticks. */
    const total: int
    /** The level to load. */
    const level: int
    var tick: int

    constructor(total: int, level: int)
      ensures this.total == total && this.level == level && tick == 0
    {
      this.total := total;
      this.level := level;
      tick := 0;
    }

    /** `step`: one tick more, and the level once the fade has run its course. */
    method Step() returns (target: Option<Target>)
      modifies this
      ensures tick == old(tick) + 1
      ensures target == if tick >= total then Some(ToLevelPlaying(level)) else None
    {
      tick := tick + 1;
      if tick >= total {
        return Some(ToLevelPlaying(level));
      }
      return None;
    }
  }
}
