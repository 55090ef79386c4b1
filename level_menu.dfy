// src/scenes/level_menu.cpp: the level selection menu. Its layout must have
// one more link than buttons; the selection starts at the first level not
// yet completed; Left, Right and Enter move through and start the unlocked
// levels; and the render shows a window of the levels around the selection,
// each locked until the levels before it are completed. The completed count
// is the save data's, passed in; textures and drawing are not modelled: a
// render is the list of buttons and links it draws.
module LevelMenus {
  import opened Base
  import opened Scenes

  /** Why the menu cannot be built, or a level cannot be fetched. */
  datatype MenuError = LinkCountMismatch(links: int, buttons: int) | LevelOutOfRange(index: int)

  /** The constructor's layout check: `links` must be `buttons + 1`. */
  function CheckLayout(buttons: nat, links: nat): (r: Result<(), MenuError>)
    ensures r.Ok? <==> links == buttons + 1
    ensures r.Err? ==> r.error == LinkCountMismatch(links, buttons)
  {
    if links != buttons + 1 then Err(LinkCountMismatch(links, buttons)) else Ok(())
  }

  /**
    The initial selection: the completed count, or the last level when that
    is past the end. The comparison is unsigned, so a negative count also
    selects the last level.
   */
  function InitialSelection(completed: int, levels: nat): (r: int)
    requires levels >= 1
    ensures 0 <= r < levels
    ensures completed >= 0 ==> r == Min(completed, levels - 1)
  {
    if completed < 0 || completed >= levels then levels - 1 else completed
  }

  /** A level is locked iff its index is past the completed count. */
  predicate Locked(level: int, completed: int)
  {
    level > completed
  }

  // ---------------------------------------------------------------------
  // Moving the selection

  /** Left: one level back, stopping at the first. */
  function SelectLeft(selected: int): int
  {
    if selected > 0 then selected - 1 else selected
  }

  /** Right as written: one level on while the next one is unlocked, with no check of the level count. */
  function SelectRightAsWritten(selected: int, completed: int): int
  {
    if selected + 1 <= completed then selected + 1 else selected
  }

  /**
    An input that shows it: once all 3 levels of a sequence are completed
    (finishing the last level, or the cheat code, sets the count to 3), Right
    on the last level selects index 3, which has no level, so Enter (and
    the render, which fetches the selected level) throws.
   */
  lemma RightPastLastLevel()
    ensures SelectRightAsWritten(2, 3) == 3
    ensures SelectedLevel(SelectRightAsWritten(2, 3), 3) == Err(LevelOutOfRange(3))
  {
  }

  /** `levels.at(selected)`: the level at the selection, or `std::out_of_range`. */
  function SelectedLevel(selected: int, levels: nat): (r: Result<int, MenuError>)
    ensures r.Ok? <==> 0 <= selected < levels
  {
    if 0 <= selected < levels then Ok(selected) else Err(LevelOutOfRange(selected))
  }

  /** Right as evidently intended: one level on while it exists and is unlocked. */
  function SelectRight(selected: int, completed: int, levels: nat): int
  {
    if selected + 1 <= completed && selected + 1 < levels then selected + 1 else selected
  }

  /**
    With the intended Right the selection stays on an existing level that is
    unlocked, whatever the completed count, and Left undoes a Right that moved.
   */
  lemma SelectionStaysOnLevels(selected: int, completed: int, levels: nat)
    requires 0 <= selected < levels && selected <= Max(completed, 0)
    ensures 0 <= SelectLeft(selected) < levels && SelectLeft(selected) <= Max(completed, 0)
    ensures 0 <= SelectRight(selected, completed, levels) < levels && SelectRight(selected, completed, levels) <= Max(completed, 0)
    ensures SelectedLevel(SelectRight(selected, completed, levels), levels).Ok?
    ensures SelectRight(selected, completed, levels) != selected ==> SelectLeft(SelectRight(selected, completed, levels)) == selected
  {
  }

  /** The intended Right agrees with the written one except on the last level. */
  lemma RightAgreesBeforeLast(selected: int, completed: int, levels: nat)
    requires selected + 1 < levels
    ensures SelectRight(selected, completed, levels) == SelectRightAsWritten(selected, completed)
  {
  }

  class LevelSelectionMenu {
    /** The number of levels in the level sequence. */
    const levels: nat
    /** `_selected_index`. */
    var selected: int

    /** `LevelSelectionMenu()`: the layout check, then the initial selection. */
    static method New(levels: nat, buttons: nat, links: nat, completed: int) returns (r: Result<LevelSelectionMenu, MenuError>)
      requires levels >= 1
      ensures r.Ok? <==> links == buttons + 1
      ensures r.Err? ==> r.error == LinkCountMismatch(links, buttons)
      ensures r.Ok? ==> fresh(r.value) && r.value.levels == levels && r.value.selected == InitialSelection(completed, levels)
    {
      var check := CheckLayout(buttons, links);
      if check.Err? {
        return Err(check.error);
      }
      var menu := new LevelSelectionMenu.Init(levels, completed);
      return Ok(menu);
    }

    constructor Init(levels: nat, completed: int)
      requires levels >= 1
      ensures this.levels == levels && selected == InitialSelection(completed, levels)
    {
      this.levels := levels;
      var s := completed;
      if s < 0 || s >= levels {
        s := levels - 1;
      }
      selected := s;
    }

    /**
      `handleEvent` for a key press, with the save data's completed count:
      Left/A and Right/D move the selection, Enter/Space on an unlocked
      selection starts its level (through the loading screen unless
      animations are skipped), Escape goes back to the main menu.
     */
    method HandleKey(k: KeyPress, completed: int, skipAnimations: bool) returns (r: Result<Option<Target>, MenuError>)
      modifies this
      ensures selected == match k.code
                          case Left => SelectLeft(old(selected))
                          case A => SelectLeft(old(selected))
                          case Right => SelectRightAsWritten(old(selected), completed)
                          case D => SelectRightAsWritten(old(selected), completed)
                          case _ => old(selected)
      ensures k.code == Escape ==> r == Ok(Some(ToMainMenu))
      ensures k.code in {Enter, Space} ==>
                if selected > completed then r == Ok(None)
                else if !(0 <= selected < levels) then r == Err(LevelOutOfRange(selected))
                else r == Ok(Some(if skipAnimations then ToLevelPlaying(selected) else ToLevelLoading(selected)))
      ensures k.code !in {Escape, Enter, Space} ==> r == Ok(None)
    {
      match k.code {
        case Left =>
          if selected > 0 {
            selected := selected - 1;
          }
        case A =>
          if selected > 0 {
            selected := selected - 1;
          }
        case Right =>
          if selected + 1 <= completed {
            selected := selected + 1;
          }
        case D =>
          if selected + 1 <= completed {
            selected := selected + 1;
          }
        case Enter =>
          r := Start(completed, skipAnimations);
          return;
        case Space =>
          r := Start(completed, skipAnimations);
          return;
        case Escape =>
          return Ok(Some(ToMainMenu));
        case _ =>
      }
      return Ok(None);
    }

    /** Enter: an unlocked selection starts its level, fetched with `levels.at`. */
    method Start(completed: int, skipAnimations: bool) returns (r: Result<Option<Target>, MenuError>)
      ensures selected > completed ==> r == Ok(None)
      ensures selected <= completed ==>
                r == match SelectedLevel(selected, levels)
                     case Err(e) => Err(e)
                     case Ok(level) => Ok(Some(if skipAnimations then ToLevelPlaying(level) else ToLevelLoading(level)))
    {
      if selected <= completed {
        var level := SelectedLevel(selected, levels);
        if level.Err? {
          return Err(level.error);
        }
        if skipAnimations {
          return Ok(Some(ToLevelPlaying(level.value)));
        }
        return Ok(Some(ToLevelLoading(level.value)));
      }
      return Ok(None);
    }
  }

  // ---------------------------------------------------------------------
  // The render window

  /** `ideal_duck_btn_index`: the middle button slot, `(btn - 1) / 2` truncated. */
  function IdealSlot(buttons: nat): (r: int)
    ensures 0 <= r && (buttons >= 1 ==> r < buttons)
  {
    if buttons == 0 then 0 else (buttons - 1) / 2
  }

  /**
    `duck_btn_index`: the slot of the selected level, the middle one unless
    the selection is too close to the first or the last level.
   */
  function DuckSlot(selected: int, buttons: nat, levels: nat): int
  {
    var ideal := IdealSlot(buttons);
    if selected < ideal then selected
    else if selected + (buttons - ideal) > levels then buttons - (levels - selected)
    else ideal
  }

  /** `first_btn_level`: the level shown on the first button. */
  function FirstLevel(selected: int, buttons: nat, levels: nat): int
  {
    selected - DuckSlot(selected, buttons, levels)
  }

  /** A drawn level button: its slot, its level, whether it is locked, and whether it has the selection frame and the duck. */
  datatype ButtonView = ButtonView(slot: int, level: int, locked: bool, selectedFrame: bool)

  /** A drawn link: its slot in the layout's links, and whether it is locked. */
  datatype LinkView = LinkView(slot: int, locked: bool)

  /**
    The button loop of `render` from slot `i`: each slot shows level
    `first + i` until that index is out of range (compared unsigned, so a
    negative index stops the loop as well).
   */
  function Buttons(first: int, i: nat, buttons: nat, levels: nat, selected: int, completed: int): (vs: seq<ButtonView>)
    requires i <= buttons
    ensures |vs| <= buttons - i
    ensures forall k :: 0 <= k < |vs| ==> vs[k] == ButtonView(i + k, first + i + k, Locked(first + i + k, completed), first + i + k == selected)
    decreases buttons - i
  {
    if i == buttons then []
    else
      var level := first + i;
      if level < 0 || level >= levels then []
      else [ButtonView(i, level, Locked(level, completed), level == selected)] + Buttons(first, i + 1, buttons, levels, selected, completed)
  }

  /** The buttons `render` draws, as written. */
  function RenderButtons(selected: int, buttons: nat, levels: nat, completed: int): seq<ButtonView>
  {
    Buttons(FirstLevel(selected, buttons, levels), 0, buttons, levels, selected, completed)
  }

  /**
    The links `render` draws: before each drawn button except level 0's, one
    into it, locked like the button; and after the last slot one more when a
    level follows the window.
   */
  function RenderLinks(selected: int, buttons: nat, levels: nat, completed: int): (ls: seq<LinkView>)
    ensures forall j :: 0 <= j < |ls| ==>
              0 <= ls[j].slot <= buttons
              && (ls[j].locked <==> Locked(FirstLevel(selected, buttons, levels) + ls[j].slot, completed))
  {
    var first := FirstLevel(selected, buttons, levels);
    var bs := Buttons(first, 0, buttons, levels, selected, completed);
    Links(bs, 0) + if 0 <= first + buttons < levels then [LinkView(buttons, Locked(first + buttons, completed))] else []
  }

  function Links(bs: seq<ButtonView>, k: nat): (ls: seq<LinkView>)
    requires k <= |bs|
    ensures forall j :: 0 <= j < |ls| ==> exists m :: k <= m < |bs| && bs[m].level != 0 && ls[j] == LinkView(bs[m].slot, bs[m].locked)
    decreases |bs| - k
  {
    if k == |bs| then []
    else (if bs[k].level != 0 then [LinkView(bs[k].slot, bs[k].locked)] else []) + Links(bs, k + 1)
  }

  /** Fewer than `buttons - i` slots from `i` are drawn exactly when a level index runs out of range. */
  lemma {:induction false} ButtonsFull(first: int, i: nat, buttons: nat, levels: nat, selected: int, completed: int)
    requires i <= buttons && 0 <= first + i && first + buttons <= levels
    ensures |Buttons(first, i, buttons, levels, selected, completed)| == buttons - i
    decreases buttons - i
  {
    if i < buttons {
      ButtonsFull(first, i + 1, buttons, levels, selected, completed);
    }
  }

  /**
    With at least as many levels as buttons, the window is a full run of
    `buttons` existing levels that contains the selection, which is drawn
    with its frame at its slot; each button is locked iff its level is past
    the completed count.
   */
  lemma WindowShowsSelection(selected: int, buttons: nat, levels: nat, completed: int)
    requires 1 <= buttons <= levels && 0 <= selected < levels
    ensures var first := FirstLevel(selected, buttons, levels);
            && 0 <= first && first + buttons <= levels && first <= selected < first + buttons
            && var vs := RenderButtons(selected, buttons, levels, completed);
               && |vs| == buttons
               && vs[selected - first].selectedFrame
               && forall k :: 0 <= k < |vs| ==> (vs[k].selectedFrame <==> k == selected - first) && (vs[k].locked <==> vs[k].level > completed)
  {
    var first := FirstLevel(selected, buttons, levels);
    ButtonsFull(first, 0, buttons, levels, selected, completed);
  }

  /**
    An input that shows the window misplaced: with 5 button slots and only 3
    levels, selecting level 2 puts the first button at level -2, and the
    unsigned range check stops the loop at once, so no button is drawn.
   */
  lemma WindowEmptyWithFewLevels()
    ensures FirstLevel(2, 5, 3) == -2
    ensures RenderButtons(2, 5, 3, 2) == []
  {
  }

  /** The window as evidently intended: never before level 0. */
  function FirstLevelIntended(selected: int, buttons: nat, levels: nat): int
  {
    Max(0, FirstLevel(selected, buttons, levels))
  }

  /** With the intended window, any number of levels shows the selection with its frame. */
  lemma IntendedWindowShowsSelection(selected: int, buttons: nat, levels: nat, completed: int)
    requires 1 <= buttons && 0 <= selected < levels
    ensures var first := FirstLevelIntended(selected, buttons, levels);
            && 0 <= first <= selected < first + buttons
            && var vs := Buttons(first, 0, buttons, levels, selected, completed);
               && |vs| == Min(buttons, levels - first)
               && selected - first < |vs| && vs[selected - first].selectedFrame
  {
    var first := FirstLevelIntended(selected, buttons, levels);
    var vs := Buttons(first, 0, buttons, levels, selected, completed);
    IntendedButtonsCount(first, 0, buttons, levels, selected, completed);
  }

  /** From a non-negative first level, the loop draws every slot that has a level. */
  lemma {:induction false} IntendedButtonsCount(first: int, i: nat, buttons: nat, levels: nat, selected: int, completed: int)
    requires i <= buttons && 0 <= first
    ensures |Buttons(first, i, buttons, levels, selected, completed)| == Max(0, Min(buttons - i, levels - first - i))
    decreases buttons - i
  {
    if i < buttons && first + i < levels {
      IntendedButtonsCount(first, i + 1, buttons, levels, selected, completed);
    }
  }
}
