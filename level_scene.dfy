// src/scenes/level.cpp: the scene that plays a level. Its own state is the
// on-screen hint (which one, and how opaque): R and Escape must be pressed
// twice while their hint is visible to restart or quit. Each step fades the
// hint, then checks the level for failure before completion and records a
// completion in the save data. The level itself (the world, the duck and
// the items) is not part of this model: its failure and completion flags
// and the duck's position are inputs, and what the scene asks of its items
// is returned as an action.
module LevelScenes {
  import opened Base
  import opened Scenes
  import opened Ducks

  /** `HintType`. */
  const NoHint: int := 0
  const RestartHint: int := 1
  const QuitHint: int := 2

  const HintFadeSpeed: int := 3
  const HintMaxOpacity: int := 200

  /** `hintTextOf`: the text of hints 1 and 2, and nothing for any other value. */
  function HintTextOf(hint: int): (text: string)
    ensures text != "" <==> hint == RestartHint || hint == QuitHint
    ensures hint == RestartHint ==> text == "Press R again to retry"
    ensures hint == QuitHint ==> text == "Press ESC again to quit"
  {
    if hint == RestartHint then "Press R again to retry"
    else if hint == QuitHint then "Press ESC again to quit"
    else ""
  }

  /** The events the scene reacts to: the mouse wheel, a mouse button at a position, and a key. */
  datatype Event =
    | WheelScrolled(delta: real)
    | MousePressed(leftButton: bool, x: int, y: int)
    | KeyPressed(k: KeyPress)
    | OtherEvent

  /** What the scene asks of its level or its scene manager. */
  datatype Action =
    | NoAction
    | ChangeBrushSize(delta: int)
    | UseActiveItem(x: int, y: int)
    | PrevItem
    | NextItem
    | ChangeTo(target: Target)

  /** The hint after one step: three less opaque, and gone once it reaches 0. */
  function FadeHint(hint: int, opacity: int): (r: (int, int))
    ensures opacity > 0 && opacity - HintFadeSpeed > 0 ==> r == (hint, opacity - HintFadeSpeed)
    ensures opacity > 0 && opacity - HintFadeSpeed <= 0 ==> r == (NoHint, 0)
    ensures opacity <= 0 ==> r == (hint, opacity)
  {
    if opacity > 0 then
      if opacity - HintFadeSpeed <= 0 then (NoHint, 0) else (hint, opacity - HintFadeSpeed)
    else (hint, opacity)
  }

  /** The hint after `n` steps without a key press. */
  function FadeSteps(hint: int, opacity: int, n: nat): (int, int)
    decreases n
  {
    if n == 0 then (hint, opacity)
    else var h := FadeHint(hint, opacity); FadeSteps(h.0, h.1, n - 1)
  }

  /** While the hint is visible, `n` steps lower its opacity by `3n`; it never goes below 0. */
  lemma {:induction false} FadeStepsLinear(hint: int, opacity: int, n: nat)
    requires opacity - HintFadeSpeed * n > 0
    ensures FadeSteps(hint, opacity, n) == (hint, opacity - HintFadeSpeed * n)
    decreases n
  {
    if n > 0 {
      FadeStepsLinear(hint, opacity - HintFadeSpeed, n - 1);
    }
  }

  /** Once the hint has faded out it stays out. */
  lemma {:induction false} FadedStaysOut(hint: int, opacity: int, n: nat)
    requires opacity <= 0
    ensures FadeSteps(hint, opacity, n) == (hint, opacity)
    decreases n
  {
    if n > 0 {
      FadedStaysOut(hint, opacity, n - 1);
    }
  }

  /** An armed hint (opacity 200) is visible for 66 steps and gone, with its type reset, on the 67th. */
  lemma ArmedHintLifetime(hint: int)
    ensures FadeSteps(hint, HintMaxOpacity, 66) == (hint, 2)
    ensures FadeSteps(hint, HintMaxOpacity, 67) == (NoHint, 0)
  {
    FadeStepsLinear(hint, HintMaxOpacity, 66);
    FadeAfter(hint, HintMaxOpacity, 66);
  }

  /** One more step after `n`. */
  lemma {:induction false} FadeAfter(hint: int, opacity: int, n: nat)
    ensures FadeSteps(hint, opacity, n + 1) == FadeHint(FadeSteps(hint, opacity, n).0, FadeSteps(hint, opacity, n).1)
    decreases n
  {
    if n > 0 {
      var h := FadeHint(hint, opacity);
      FadeAfter(h.0, h.1, n - 1);
    }
  }

  /** `_restartLevel` after a failure: the duck is out of the world, so it is shown at the centre. */
  function FailedDuckPosition(levelWidth: int, levelHeight: int, duckWidth: int, duckHeight: int): (p: (int, int))
    ensures levelWidth >= duckWidth ==> 0 <= p.0 && 2 * p.0 <= levelWidth - duckWidth < 2 * p.0 + 2
    ensures levelHeight >= duckHeight ==> 0 <= p.1 && 2 * p.1 <= levelHeight - duckHeight < 2 * p.1 + 2
  {
    (TruncDiv(levelWidth - duckWidth, 2), TruncDiv(levelHeight - duckHeight, 2))
  }

  /** The completed count after completing level `index`: the larger of the two. */
  function RecordCompletion(completed: int, index: int): (r: int)
    ensures r >= completed && r >= index + 1
    ensures r == completed || r == index + 1
  {
    if completed < index + 1 then index + 1 else completed
  }

  /** Completing a level already completed changes nothing, and recording is idempotent. */
  lemma RecordCompletionIdempotent(completed: int, index: int)
    ensures index < completed ==> RecordCompletion(completed, index) == completed
    ensures RecordCompletion(RecordCompletion(completed, index), index) == RecordCompletion(completed, index)
  {
  }

  class LevelPlaying {
    /** The level's size, its duck's size and its index in the level sequence. */
    const width: int
    const height: int
    const duckWidth: int
    const duckHeight: int
    const index: int
    /** `_hint_type` and `_hint_opacity`. */
    var hint: int
    var opacity: int

    predicate Valid()
      reads this
    {
      0 <= opacity <= HintMaxOpacity
    }

    /** `LevelPlaying(level, scale)`: no hint. */
    constructor(width: int, height: int, duckWidth: int, duckHeight: int, index: int)
      ensures Valid()
      ensures this.width == width && this.height == height && this.duckWidth == duckWidth
      ensures this.duckHeight == duckHeight && this.index == index
      ensures hint == NoHint && opacity == 0
    {
      this.width := width;
      this.height := height;
      this.duckWidth := duckWidth;
      this.duckHeight := duckHeight;
      this.index := index;
      hint := NoHint;
      opacity := 0;
    }

    /**
      `handleEvent`: the wheel changes the brush size by one either way, a
      left click uses the active item at the mouse, Up/PageUp/W and
      Down/PageDown/S pick the previous and next item. R restarts (the duck
      dies where it stands) and Escape quits to the level selection, but
      only while their own hint is visible; otherwise the key shows its hint
      at full opacity.
     */
    method HandleEvent(ev: Event, duckX: real, duckY: real) returns (action: Action)
      requires Valid()
      modifies this
      ensures Valid()
      ensures ev.KeyPressed? && ev.k.code == KeyR ==>
                if old(opacity) > 0 && old(hint) == RestartHint
                then action == ChangeTo(ToDuckDeath(RoundOf(duckX), RoundOf(duckY))) && hint == old(hint) && opacity == old(opacity)
                else action == NoAction && hint == RestartHint && opacity == HintMaxOpacity
      ensures ev.KeyPressed? && ev.k.code == Escape ==>
                if old(opacity) > 0 && old(hint) == QuitHint
                then action == ChangeTo(ToLevelSelect) && hint == old(hint) && opacity == old(opacity)
                else action == NoAction && hint == QuitHint && opacity == HintMaxOpacity
      ensures !(ev.KeyPressed? && ev.k.code in {KeyR, Escape}) ==> hint == old(hint) && opacity == old(opacity)
      ensures ev.KeyPressed? && ev.k.code in {Up, PageUp, W} ==> action == PrevItem
      ensures ev.KeyPressed? && ev.k.code in {Down, PageDown, S} ==> action == NextItem
      ensures ev.KeyPressed? && ev.k.code !in {KeyR, Escape, Up, PageUp, W, Down, PageDown, S} ==> action == NoAction
      ensures ev.WheelScrolled? ==> action == if ev.delta > 0.0 then ChangeBrushSize(1) else if ev.delta < 0.0 then ChangeBrushSize(-1) else NoAction
      ensures ev.MousePressed? ==> action == if ev.leftButton then UseActiveItem(ev.x, ev.y) else NoAction
      ensures ev.OtherEvent? ==> action == NoAction
    {
      action := NoAction;
      match ev {
        case WheelScrolled(delta) =>
          if delta > 0.0 {
            action := ChangeBrushSize(1);
          } else if delta < 0.0 {
            action := ChangeBrushSize(-1);
          }
        case MousePressed(leftButton, x, y) =>
          if leftButton {
            action := UseActiveItem(x, y);
          }
        case KeyPressed(k) =>
          match k.code {
            case KeyR =>
              if opacity > 0 && hint == RestartHint {
                return ChangeTo(ToDuckDeath(RoundOf(duckX), RoundOf(duckY)));
              } else {
                hint := RestartHint;
                opacity := HintMaxOpacity;
              }
            case Escape =>
              if opacity > 0 && hint == QuitHint {
                return ChangeTo(ToLevelSelect);
              } else {
                hint := QuitHint;
                opacity := HintMaxOpacity;
              }
            case Up => action := PrevItem;
            case PageUp => action := PrevItem;
            case W => action := PrevItem;
            case Down => action := NextItem;
            case PageDown => action := NextItem;
            case S => action := NextItem;
            case _ =>
          }
        case OtherEvent =>
      }
    }

    /**
      `step`, after the level's own step has reported whether it failed or
      was completed: the hint fades; a failure restarts the level with the
      duck at the centre; otherwise a completion raises the completed count
      to at least this level's index + 1 and shows the level-complete scene
      from the rounded duck position. Returns the scene to change to and the
      completed count to save.
     */
    method Step(failed: bool, completed: bool, duckX: real, duckY: real, savedCompleted: int) returns (target: Option<Target>, newCompleted: int)
      requires Valid()
      modifies this
      ensures Valid()
      ensures (hint, opacity) == FadeHint(old(hint), old(opacity))
      ensures failed ==> target == Some(ToDuckDeath(FailedDuckPosition(width, height, duckWidth, duckHeight).0, FailedDuckPosition(width, height, duckWidth, duckHeight).1))
      ensures !failed && completed ==> target == Some(ToLevelComplete(RoundOf(duckX), RoundOf(duckY)))
      ensures !failed && !completed ==> target == None
      ensures newCompleted == if !failed && completed then RecordCompletion(savedCompleted, index) else savedCompleted
    {
      if opacity > 0 {
        opacity := opacity - HintFadeSpeed;
        if opacity <= 0 {
          opacity := 0;
          hint := NoHint;
        }
      }
      newCompleted := savedCompleted;
      if failed {
        var p := FailedDuckPosition(width, height, duckWidth, duckHeight);
        return Some(ToDuckDeath(p.0, p.1)), newCompleted;
      }
      if completed {
        if newCompleted < index + 1 {
          newCompleted := index + 1;
        }
        return Some(ToLevelComplete(RoundOf(duckX), RoundOf(duckY))), newCompleted;
      }
      target := None;
    }
  }
}
