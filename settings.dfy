// src/scenes/settings.cpp: the settings menu. Each option reacts to Left,
// Right and Enter by changing the user settings of the save data; the menu
// moves a cursor over the options and watches for the cheat code that
// unlocks every level. The save data is a field of the menu here, where the
// source uses the `SaveData::instance()` singleton; writing it to disk and
// the UI sounds are not modelled.
module Settings {
  import opened Base
  import opened Scenes

  /** The user settings an option can change. */
  datatype UserSettings = UserSettings(scale: int, volume: int, pixelPerfect: bool, skipAnimations: bool, debugHeatRender: bool)

  /** The save data: the number of completed levels and the user settings. */
  datatype SaveData = SaveData(completedLevels: int, user: UserSettings)

  /** The options of the menu, in the order they are listed. */
  datatype OptionKind =
    | ScaleOption | VolumeOption | PixelPerfectOption | SkipAnimationsOption | DebugHeatRenderOption
    | ResetSettingsOption | ResetAllOption | GoBackOption

  /** `max_scale` of the scale option. */
  const MaxScale: int := 12
  /** `VolumnOption::step`. */
  const VolumeStep: int := 5

  /** The menu's options; the debug-heat option only in a build without `NDEBUG`. */
  function Options(debugBuild: bool): (opts: seq<OptionKind>)
    ensures |opts| == if debugBuild then 8 else 7
    ensures opts[|opts| - 1] == GoBackOption && opts[0] == ScaleOption
    ensures DebugHeatRenderOption in opts <==> debugBuild
  {
    [ScaleOption, VolumeOption, PixelPerfectOption, SkipAnimationsOption]
    + (if debugBuild then [DebugHeatRenderOption] else [])
    + [ResetSettingsOption, ResetAllOption, GoBackOption]
  }

  // ---------------------------------------------------------------------
  // The options

  /** `displayText`; the reset-all option says when it waits for its confirmation. */
  function DisplayText(o: OptionKind, armed: bool): string
  {
    match o
    case ScaleOption => "Scale"
    case VolumeOption => "Volumn"
    case PixelPerfectOption => "Pixel Perfect Rendering"
    case SkipAnimationsOption => "Skip Animations"
    case DebugHeatRenderOption => "Debug Heat Render"
    case ResetSettingsOption => "Reset Settings"
    case ResetAllOption => if armed then "Reset All(Again to Confirm)" else "Reset All"
    case GoBackOption => "Back(esc)"
  }

  function OnOff(b: bool): string { if b then "On" else "Off" }

  /** `valueText`: "Auto" or "Nx" for the scale, "Mute" or the number for the volume, "On"/"Off" for toggles, "" otherwise. */
  function ValueText(o: OptionKind, u: UserSettings): (t: string)
    ensures o == ScaleOption ==> (t == "Auto" <==> u.scale == 0)
    ensures o == VolumeOption ==> (t == "Mute" <==> u.volume == 0)
    ensures t == "" <==> o in {ResetSettingsOption, ResetAllOption, GoBackOption}
  {
    match o
    case ScaleOption =>
      if u.scale == 0 then "Auto"
      else
        var t := IntToString(u.scale) + "x";
        assert t[|t| - 1] == 'x';
        t
    case VolumeOption =>
      if u.volume == 0 then "Mute"
      else
        var t := IntToString(u.volume);
        NotMute(u.volume);
        t
    case PixelPerfectOption => OnOff(u.pixelPerfect)
    case SkipAnimationsOption => OnOff(u.skipAnimations)
    case DebugHeatRenderOption => OnOff(u.debugHeatRender)
    case ResetSettingsOption => ""
    case ResetAllOption => ""
    case GoBackOption => ""
  }

  /** The text of a number is never "Mute". */
  lemma NotMute(n: int)
    ensures IntToString(n) != "Mute"
  {
    var t := IntToString(n);
    if n >= 0 {
      assert '0' <= t[0] <= '9';
    } else {
      assert t[0] == '-';
    }
  }

  /** `handleLeft`: the scale down by one while above 0, the volume down by 5 to at least 0, a toggle off. */
  function HandleLeft(o: OptionKind, u: UserSettings): UserSettings
  {
    match o
    case ScaleOption => if u.scale > 0 then u.(scale := u.scale - 1) else u
    case VolumeOption => u.(volume := Max(0, u.volume - VolumeStep))
    case PixelPerfectOption => u.(pixelPerfect := false)
    case SkipAnimationsOption => u.(skipAnimations := false)
    case DebugHeatRenderOption => u.(debugHeatRender := false)
    case _ => u
  }

  /** `handleRight`: the scale up by one while below 12, the volume up by 5 to at most 100, a toggle on. */
  function HandleRight(o: OptionKind, u: UserSettings): UserSettings
  {
    match o
    case ScaleOption => if u.scale < MaxScale then u.(scale := u.scale + 1) else u
    case VolumeOption => u.(volume := Min(100, u.volume + VolumeStep))
    case PixelPerfectOption => u.(pixelPerfect := true)
    case SkipAnimationsOption => u.(skipAnimations := true)
    case DebugHeatRenderOption => u.(debugHeatRender := true)
    case _ => u
  }

  /** The ranges the scale and the volume keep. */
  predicate InRange(u: UserSettings)
  {
    0 <= u.scale <= MaxScale && 0 <= u.volume <= 100
  }

  /** Left and Right keep the scale in `[0, 12]` and the volume in `[0, 100]`. */
  lemma LeftRightInRange(o: OptionKind, u: UserSettings)
    requires InRange(u)
    ensures InRange(HandleLeft(o, u)) && InRange(HandleRight(o, u))
  {
  }

  /** The scale steps by exactly one between its bounds, saturates at them, and Right undoes Left above 0. */
  lemma ScaleSteps(u: UserSettings)
    requires InRange(u)
    ensures HandleLeft(ScaleOption, u).scale == Max(0, u.scale - 1)
    ensures HandleRight(ScaleOption, u).scale == Min(MaxScale, u.scale + 1)
    ensures u.scale > 0 ==> HandleRight(ScaleOption, HandleLeft(ScaleOption, u)) == u
    ensures u.scale < MaxScale ==> HandleLeft(ScaleOption, HandleRight(ScaleOption, u)) == u
  {
  }

  /** The volume saturates at both ends whatever it was, and Left undoes Right on a multiple of 5 below 100. */
  lemma VolumeClamps(u: UserSettings)
    ensures HandleLeft(VolumeOption, u).volume >= 0 && HandleRight(VolumeOption, u).volume <= 100
    ensures u.volume <= 100 ==> HandleLeft(VolumeOption, u).volume <= 100
    ensures u.volume >= 0 ==> HandleRight(VolumeOption, u).volume >= 0
    ensures 0 <= u.volume < 100 && u.volume % VolumeStep == 0 ==> HandleLeft(VolumeOption, HandleRight(VolumeOption, u)) == u
  {
  }

  /** The toggles: Left and Right set the value whatever it was, so pressing one twice is pressing it once. */
  lemma TogglesIdempotent(o: OptionKind, u: UserSettings)
    requires o in {PixelPerfectOption, SkipAnimationsOption, DebugHeatRenderOption}
    ensures HandleLeft(o, HandleLeft(o, u)) == HandleLeft(o, u) && HandleRight(o, HandleRight(o, u)) == HandleRight(o, u)
    ensures HandleLeft(o, HandleRight(o, u)) == HandleLeft(o, u) && HandleRight(o, HandleLeft(o, u)) == HandleRight(o, u)
    ensures ValueText(o, HandleLeft(o, u)) == "Off" && ValueText(o, HandleRight(o, u)) == "On"
  {
  }

  /** What Enter on an option yields: whether to go back, the reset-all confirmation, and the save data. */
  datatype EnterResult = EnterResult(goBack: bool, armed: bool, save: SaveData)

  /**
    `handleEnter`: "Reset Settings" restores the default settings and stays;
    "Reset All" arms on the first press and, once armed, clears the progress
    and the settings and goes back; "Back" goes back; the rest do nothing.
   */
  function HandleEnter(o: OptionKind, armed: bool, save: SaveData, defaults: UserSettings): EnterResult
  {
    match o
    case ResetSettingsOption => EnterResult(false, armed, save.(user := defaults))
    case ResetAllOption => if armed then EnterResult(true, armed, SaveData(0, defaults)) else EnterResult(false, true, save)
    case GoBackOption => EnterResult(true, armed, save)
    case _ => EnterResult(false, armed, save)
  }

  /** Reset All needs two presses: the first only arms it, the second resets everything and goes back. */
  lemma ResetAllConfirmTwice(save: SaveData, defaults: UserSettings)
    ensures var first := HandleEnter(ResetAllOption, false, save, defaults);
            && !first.goBack && first.armed && first.save == save
            && var second := HandleEnter(ResetAllOption, first.armed, first.save, defaults);
               second.goBack && second.save == SaveData(0, defaults)
    ensures forall armed :: HandleEnter(GoBackOption, armed, save, defaults).goBack
    ensures forall o, armed :: HandleEnter(o, armed, save, defaults).goBack <==> o == GoBackOption || (o == ResetAllOption && armed)
  {
  }

  // ---------------------------------------------------------------------
  // The cursor

  /** Up: one option back, stopping at the first. */
  function CursorUp(i: int): int { if i > 0 then i - 1 else i }

  /** Down: one option on, stopping at the last. */
  function CursorDown(i: int, n: int): int { if i + 1 < n then i + 1 else i }

  /** Up and Down keep the cursor on an option and move it by at most one. */
  lemma CursorStaysOnOptions(i: int, n: int)
    requires 0 <= i < n
    ensures 0 <= CursorUp(i) < n && 0 <= CursorDown(i, n) < n
    ensures CursorUp(i) == Max(0, i - 1) && CursorDown(i, n) == Min(n - 1, i + 1)
  {
  }

  /**
    Tab as written: it wraps the cursor forward (or backward with shift),
    and then, having no `break`, runs on into the Up case and moves it back
    by one again.
   */
  function TabAsWritten(i: int, n: int, shift: bool): (j: int)
  {
    var wrapped := if shift then (if i > 0 then i - 1 else n - 1) else (if i + 1 < n then i + 1 else 0);
    CursorUp(wrapped)
  }

  /** Tab as written: forward it never moves the cursor except from the last option to the first. */
  lemma TabDoesNotAdvance(i: int, n: int)
    requires 0 <= i < n
    ensures TabAsWritten(i, n, false) == if i + 1 < n then i else 0
    ensures 0 <= TabAsWritten(i, n, true) < n
  {
  }

  /** An input that shows it: with the menu's 7 options, Tab on the first option leaves the cursor there. */
  lemma TabStuckOnFirst()
    ensures TabAsWritten(0, |Options(false)|, false) == 0
  {
  }

  /** Tab as evidently intended: cycle forward (backward with shift) through the options. */
  function TabIntended(i: int, n: int, shift: bool): (j: int)
    requires 0 <= i < n
    ensures 0 <= j < n
  {
    if shift then (if i > 0 then i - 1 else n - 1) else (if i + 1 < n then i + 1 else 0)
  }

  /** The intended Tab moves to the next option cyclically, and Shift-Tab undoes it. */
  lemma TabIntendedCycles(i: int, n: int)
    requires 0 <= i < n
    ensures TabIntended(i, n, false) == (i + 1) % n
    ensures TabIntended(i, n, true) == (i - 1 + n) % n
    ensures TabIntended(TabIntended(i, n, false), n, true) == i
    ensures TabIntended(TabIntended(i, n, true), n, false) == i
  {
    if i + 1 < n {
      DivUnique(i + 1, n, 0, i + 1);
    } else {
      DivUnique(i + 1, n, 1, 0);
    }
    if i > 0 {
      DivUnique(i - 1 + n, n, 1, i - 1);
    } else {
      DivUnique(i - 1 + n, n, 0, n - 1);
    }
  }

  // ---------------------------------------------------------------------
  // The cheat code

  /** `cheat_code_sequence`. */
  const CheatCode: string := "XYZZY"
  /** `hint_max_opacity` and `hint_fade_speed`. */
  const HintMaxOpacity: int := 200
  const HintFadeSpeed: int := 3

  /** The letter a cheat key types. */
  function CheatLetter(k: Key): (c: char)
    requires k in {KeyX, KeyY, KeyZ}
  {
    if k == KeyX then 'X' else if k == KeyY then 'Y' else 'Z'
  }

  /** The cheat matcher's state: the letters matched so far and the hint's opacity. */
  datatype Cheat = Cheat(step: int, opacity: int)

  /** A cheat key: the step advances when the key is the next letter of the code, and the hint lights up fully. */
  function CheatKey(c: Cheat, letter: char): (r: Cheat)
    requires 0 <= c.step <= |CheatCode|
    ensures 0 <= r.step <= |CheatCode|
    ensures r != c ==> r == Cheat(c.step + 1, HintMaxOpacity)
    ensures r.step == c.step + 1 <==> c.step < |CheatCode| && CheatCode[c.step] == letter
  {
    if c.step < |CheatCode| && CheatCode[c.step] == letter then Cheat(c.step + 1, HintMaxOpacity) else c
  }

  /** The cheat part of `step`: whether the levels unlock now, then the fade, which forgets the letters once the hint is gone. */
  function CheatFades(c: Cheat): (r: Cheat)
    ensures r.opacity == c.opacity - HintFadeSpeed
    ensures r.step == if r.opacity < 0 then 0 else c.step
  {
    var opacity := c.opacity - HintFadeSpeed;
    Cheat(if opacity < 0 then 0 else c.step, opacity)
  }

  /** `step` unlocks all levels on the tick right after the last letter, while the hint is still at full opacity. */
  predicate Unlocks(c: Cheat)
  {
    c.step >= |CheatCode| && c.opacity == HintMaxOpacity
  }

  /** The letters of a word typed in order. */
  function TypeWord(c: Cheat, word: string): (r: Cheat)
    requires 0 <= c.step <= |CheatCode|
    ensures 0 <= r.step <= |CheatCode|
    decreases |word|
  {
    if |word| == 0 then c else TypeWord(CheatKey(c, word[0]), word[1..])
  }

  /**
    Typing the code from the start reaches the end of it with the hint at
    full opacity, so the next `step` unlocks the levels.
   */
  lemma CheatCodeUnlocks(opacity: int)
    ensures Unlocks(TypeWord(Cheat(0, opacity), CheatCode))
  {
    var c0 := Cheat(0, opacity);
    var c1 := CheatKey(c0, 'X');
    var c2 := CheatKey(c1, 'Y');
    var c3 := CheatKey(c2, 'Z');
    var c4 := CheatKey(c3, 'Z');
    var c5 := CheatKey(c4, 'Y');
    assert c5 == Cheat(5, HintMaxOpacity);
    assert CheatCode[1..] == "YZZY" && CheatCode[1..][1..] == "ZZY" && CheatCode[1..][1..][1..] == "ZY";
    assert CheatCode[1..][1..][1..][1..] == "Y" && CheatCode[1..][1..][1..][1..][1..] == "";
  }

  /** A wrong letter changes nothing: the letters matched so far stay matched. */
  lemma WrongLetterKeeps(c: Cheat, letter: char)
    requires 0 <= c.step < |CheatCode| && CheatCode[c.step] != letter
    ensures CheatKey(c, letter) == c
  {
  }

  /** After unlocking, the hint fades and the letters are forgotten after about 67 ticks, unless a letter relights it. */
  lemma CheatForgotten(c: Cheat)
    requires c.opacity < HintFadeSpeed
    ensures CheatFades(c).step == 0
  {
  }

  // ---------------------------------------------------------------------
  // The menu

  class SettingsMenu {
    const options: seq<OptionKind>
    const defaults: UserSettings
    /** `_current_option_index`. */
    var index: int
    /** `_cheat_code_step` and `_cheat_code_hint_opacity`. */
    var cheat: Cheat
    /** `comfirmed` of the reset-all option. */
    var armed: bool
    var save: SaveData

    predicate Valid()
      reads this
    {
      0 <= index < |options| && 0 <= cheat.step <= |CheatCode|
    }

    /** `SettingsMenu()`: the first option, no cheat letters, Reset All not armed. */
    constructor(debugBuild: bool, save: SaveData, defaults: UserSettings)
      ensures Valid() && options == Options(debugBuild) && this.save == save && this.defaults == defaults
      ensures index == 0 && cheat == Cheat(0, 0) && !armed
    {
      options := Options(debugBuild);
      this.defaults := defaults;
      index := 0;
      cheat := Cheat(0, 0);
      armed := false;
      this.save := save;
    }

    /**
      `handleEvent` for a key press: Escape, and Enter on an option that
      asks for it, go back to the main menu; Tab (falling through to Up), Up,
      Down move the cursor; Left and Right go to the option under it; X, Y, Z
      feed the cheat matcher.
     */
    method HandleKey(k: KeyPress) returns (target: Option<Target>)
      requires Valid()
      modifies this
      ensures Valid()
      ensures target.Some? ==> target.value == ToMainMenu
      ensures target.Some? <==> k.code == Escape || (k.code in {Enter, Space} && HandleEnter(options[old(index)], old(armed), old(save), defaults).goBack)
      ensures index == match k.code
                       case Tab => TabAsWritten(old(index), |options|, k.shift)
                       case Up => CursorUp(old(index))
                       case W => CursorUp(old(index))
                       case Down => CursorDown(old(index), |options|)
                       case S => CursorDown(old(index), |options|)
                       case _ => old(index)
      ensures save.user == match k.code
                           case Left => HandleLeft(options[old(index)], old(save).user)
                           case A => HandleLeft(options[old(index)], old(save).user)
                           case Right => HandleRight(options[old(index)], old(save).user)
                           case D => HandleRight(options[old(index)], old(save).user)
                           case Enter => HandleEnter(options[old(index)], old(armed), old(save), defaults).save.user
                           case Space => HandleEnter(options[old(index)], old(armed), old(save), defaults).save.user
                           case _ => old(save).user
      ensures save.completedLevels == if k.code in {Enter, Space} then HandleEnter(options[old(index)], old(armed), old(save), defaults).save.completedLevels else old(save).completedLevels
      ensures armed == if k.code in {Enter, Space} then HandleEnter(options[old(index)], old(armed), old(save), defaults).armed else old(armed)
      ensures cheat == if k.code in {KeyX, KeyY, KeyZ} then CheatKey(old(cheat), CheatLetter(k.code)) else old(cheat)
    {
      target := None;
      var n := |options|;
      match k.code {
      case Escape =>
        return Some(ToMainMenu);
      case Tab =>
        if k.shift {
          index := if index > 0 then index - 1 else n - 1;
        } else {
          index := if index + 1 < n then index + 1 else 0;
        }
        index := if index > 0 then index - 1 else index;
      case Up =>
        index := if index > 0 then index - 1 else index;
      case W =>
        index := if index > 0 then index - 1 else index;
      case Down =>
        index := if index + 1 < n then index + 1 else index;
      case S =>
        index := if index + 1 < n then index + 1 else index;
      case Left =>
        save := save.(user := HandleLeft(options[index], save.user));
      case A =>
        save := save.(user := HandleLeft(options[index], save.user));
      case Right =>
        save := save.(user := HandleRight(options[index], save.user));
      case D =>
        save := save.(user := HandleRight(options[index], save.user));
      case Enter =>
        target := PressEnter();
      case Space =>
        target := PressEnter();
      case KeyX =>
        cheat := CheatKey(cheat, 'X');
      case KeyY =>
        cheat := CheatKey(cheat, 'Y');
      case KeyZ =>
        cheat := CheatKey(cheat, 'Z');
      case _ =>
      }
    }

    /** Enter on the option under the cursor. */
    method PressEnter() returns (target: Option<Target>)
      requires Valid()
      modifies this
      ensures Valid() && index == old(index) && cheat == old(cheat)
      ensures var e := HandleEnter(options[index], old(armed), old(save), defaults);
              armed == e.armed && save == e.save && (target.Some? <==> e.goBack) && (target.Some? ==> target.value == ToMainMenu)
    {
      var e := HandleEnter(options[index], armed, save, defaults);
      armed, save := e.armed, e.save;
      if e.goBack {
        return Some(ToMainMenu);
      }
      return None;
    }

    /**
      `step`: right after the code is complete all `levelCount` levels
      count as completed; then the hint fades, and the letters are forgotten
      once it is gone.
     */
    method Step(levelCount: int)
      requires Valid()
      modifies this
      ensures Valid() && index == old(index) && armed == old(armed) && save.user == old(save).user
      ensures save.completedLevels == if Unlocks(old(cheat)) then levelCount else old(save).completedLevels
      ensures cheat == CheatFades(old(cheat))
    {
      if cheat.step >= |CheatCode| && cheat.opacity == HintMaxOpacity {
        save := save.(completedLevels := levelCount);
      }
      var opacity := cheat.opacity - HintFadeSpeed;
      cheat := Cheat(cheat.step, opacity);
      if cheat.opacity < 0 {
        cheat := cheat.(step := 0);
      }
    }
  }
}
