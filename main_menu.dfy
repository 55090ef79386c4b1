// src/scenes/main_menu.cpp: the main menu's cursor over its four buttons
// and what Enter on each of them starts. Loading the layout and the
// background, and drawing, are not modelled.
module MainMenus {
  import opened Base
  import opened Scenes

  /** `MainMenuButton`: PLAY, SETTINGS, HELP, EXIT, and `BUTTON_COUNT`. */
  const Play: int := 0
  const SettingsButton: int := 1
  const Help: int := 2
  const Exit: int := 3
  const ButtonCount: int := 4

  /** Up: the previous button, from the first to the last. */
  function ButtonUp(i: int): (j: int)
    requires 0 <= i < ButtonCount
    ensures 0 <= j < ButtonCount
    ensures j == (i - 1 + ButtonCount) % ButtonCount
  {
    if i - 1 < 0 then ButtonCount - 1 else i - 1
  }

  /** Down: the next button, from the last to the first. */
  function ButtonDown(i: int): (j: int)
    requires 0 <= i < ButtonCount
    ensures 0 <= j < ButtonCount
    ensures j == (i + 1) % ButtonCount
  {
    if i + 1 >= ButtonCount then 0 else i + 1
  }

  /** Up and Down undo each other, and four presses of either go round to the start. */
  lemma UpDownInverse(i: int)
    requires 0 <= i < ButtonCount
    ensures ButtonDown(ButtonUp(i)) == i && ButtonUp(ButtonDown(i)) == i
    ensures ButtonDown(ButtonDown(ButtonDown(ButtonDown(i)))) == i
    ensures ButtonUp(ButtonUp(ButtonUp(ButtonUp(i)))) == i
  {
  }

  /** What Enter on button `i` starts: the level selection, the settings, the help screen, or leaving the game. */
  function Dispatch(i: int): (t: Target)
    requires 0 <= i < ButtonCount
    ensures t == ExitGame <==> i == Exit
  {
    if i == Play then ToLevelSelect
    else if i == SettingsButton then ToSettings
    else if i == Help then ToHelp
    else ExitGame
  }

  /** Each button starts a different scene. */
  lemma DispatchInjective(i: int, j: int)
    requires 0 <= i < ButtonCount && 0 <= j < ButtonCount
    ensures Dispatch(i) == Dispatch(j) <==> i == j
  {
  }

  class MainMenu {
    /** `_current_button_index`. */
    var index: int

    predicate Valid()
      reads this
    {
      0 <= index < ButtonCount
    }

    /** `MainMenu()`: the cursor on Play. */
    constructor()
      ensures Valid() && index == Play
    {
      index := Play;
    }

    /**
      `handleEvent` for a key press: Up/W and Down/S move the cursor with
      wrap-around, Enter/Space starts the button's scene, Escape leaves the
      game. The source's fallback for a cursor outside the buttons never runs.
     */
    method HandleKey(k: KeyPress) returns (target: Option<Target>)
      requires Valid()
      modifies this
      ensures Valid()
      ensures index == match k.code
                       case Up => ButtonUp(old(index))
                       case W => ButtonUp(old(index))
                       case Down => ButtonDown(old(index))
                       case S => ButtonDown(old(index))
                       case _ => old(index)
      ensures target == match k.code
                        case Enter => Some(Dispatch(old(index)))
                        case Space => Some(Dispatch(old(index)))
                        case Escape => Some(ExitGame)
                        case _ => None
    {
      match k.code {
        case Up =>
          index := index - 1;
          if index < 0 {
            index := ButtonCount - 1;
          }
          return None;
        case W =>
          index := index - 1;
          if index < 0 {
            index := ButtonCount - 1;
          }
          return None;
        case Down =>
          index := index + 1;
          if index >= ButtonCount {
            index := 0;
          }
          return None;
        case S =>
          index := index + 1;
          if index >= ButtonCount {
            index := 0;
          }
          return None;
        case Enter =>
          target := Activate();
        case Space =>
          target := Activate();
        case Escape =>
          return Some(ExitGame);
        case _ =>
          return None;
      }
    }

    /** The switch of Enter over the button under the cursor. */
    method Activate() returns (target: Option<Target>)
      requires Valid()
      ensures target == Some(Dispatch(index))
    {
      if index == Play {
        return Some(ToLevelSelect);
      } else if index == SettingsButton {
        return Some(ToSettings);
      } else if index == Help {
        return Some(ToHelp);
      } else if index == Exit {
        return Some(ExitGame);
      }
      assert false;
    }
  }
}
