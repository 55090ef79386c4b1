// src/scenes/scene.cpp: the text descriptors read from UI configuration,
// the automatic window scale, and the scene manager that swaps scenes,
// recreates the window when the size changes and picks background music.
// Windows, drawing and audio playback are not modelled: the window is its
// size and a count of how often it was created, a track is a collection id
// with an index, and a stopped track is recorded in a log.
module Scenes {
  import opened Base

  // ---------------------------------------------------------------------
  // Events and transitions shared by the scenes

  /** The keys the scenes react to; every other key is `OtherKey`. */
  datatype Key =
    | Escape | Tab | Up | W | Down | S | Left | A | Right | D | Enter | Space
    | KeyX | KeyY | KeyZ | KeyR | PageUp | PageDown | OtherKey

  /** A key press, with the state of the shift key. */
  datatype KeyPress = KeyPress(code: Key, shift: bool)

  /** The scene a handler asks the manager to change to, or leaving the game (`std::exit(0)`). */
  datatype Target =
    | ToMainMenu
    | ToLevelSelect
    | ToSettings
    | ToHelp
    | ToLevelLoading(level: int)
    | ToLevelPlaying(level: int)
    | ToDuckDeath(duckX: int, duckY: int)
    | ToLevelComplete(duckX: int, duckY: int)
    | ExitGame

  // ---------------------------------------------------------------------
  // `UITextDescriptor::fromJson`

  /** A JSON value, as far as the descriptors read it. */
  datatype Json = JInt(i: int) | JArray(items: seq<Json>) | JObject(fields: map<string, Json>) | JOther

  /** Why reading JSON throws: `at` on a missing key or index, or a value of the wrong type. */
  datatype JsonError = MissingKey(key: string) | MissingIndex(index: int) | TypeError

  /** A text's position, character size and colour. */
  datatype UITextDescriptor = UITextDescriptor(x: int, y: int, size: int, color: Rgba)

  /** `json.at(key)` converted to an integer. */
  function IntAt(j: Json, key: string): (r: Result<int, JsonError>)
    ensures r.Ok? <==> j.JObject? && key in j.fields && j.fields[key].JInt?
    ensures r.Ok? ==> r.value == j.fields[key].i
  {
    if !j.JObject? then Err(TypeError)
    else if key !in j.fields then Err(MissingKey(key))
    else if !j.fields[key].JInt? then Err(TypeError)
    else Ok(j.fields[key].i)
  }

  /** `json.at(i)` converted to a colour channel: the integer wraps to its low 8 bits. */
  function ChannelAt(j: Json, i: nat): (r: Result<byte, JsonError>)
    ensures r.Ok? <==> j.JArray? && i < |j.items| && j.items[i].JInt?
    ensures r.Ok? ==> r.value as int == j.items[i].i % 256
  {
    if !j.JArray? then Err(TypeError)
    else if i >= |j.items| then Err(MissingIndex(i))
    else if !j.items[i].JInt? then Err(TypeError)
    else Ok((j.items[i].i % 256) as byte)
  }

  /** `j` has the fields `fromJson` reads. */
  predicate IsTextDescriptor(j: Json)
  {
    && j.JObject? && "x" in j.fields && "y" in j.fields && "size" in j.fields && "color" in j.fields
    && j.fields["x"].JInt? && j.fields["y"].JInt? && j.fields["size"].JInt?
    && var c := j.fields["color"]; c.JArray? && |c.items| >= 4 && forall k :: 0 <= k < 4 ==> c.items[k].JInt?
  }

  /** `UITextDescriptor::fromJson`: `x`, `y`, `size`, then the channels `color[0..3]`, failing at the first missing one. */
  function FromJson(j: Json): (r: Result<UITextDescriptor, JsonError>)
    ensures r.Ok? <==> IsTextDescriptor(j)
    ensures r.Ok? ==>
              && r.value.x == j.fields["x"].i && r.value.y == j.fields["y"].i && r.value.size == j.fields["size"].i
              && var c := j.fields["color"].items;
                 r.value.color == Rgba((c[0].i % 256) as byte, (c[1].i % 256) as byte, (c[2].i % 256) as byte, (c[3].i % 256) as byte)
  {
    var x := IntAt(j, "x");
    if x.Err? then Err(x.error) else
    var y := IntAt(j, "y");
    if y.Err? then Err(y.error) else
    var size := IntAt(j, "size");
    if size.Err? then Err(size.error) else
    if "color" !in j.fields then Err(MissingKey("color")) else
    var c := j.fields["color"];
    var r := ChannelAt(c, 0);
    if r.Err? then Err(r.error) else
    var g := ChannelAt(c, 1);
    if g.Err? then Err(g.error) else
    var b := ChannelAt(c, 2);
    if b.Err? then Err(b.error) else
    var a := ChannelAt(c, 3);
    if a.Err? then Err(a.error) else
    Ok(UITextDescriptor(x.value, y.value, size.value, Rgba(r.value, g.value, b.value, a.value)))
  }

  /** The configuration entry a descriptor is written as. */
  function ToJson(d: UITextDescriptor): Json
  {
    JObject(map[
      "x" := JInt(d.x), "y" := JInt(d.y), "size" := JInt(d.size),
      "color" := JArray([JInt(d.color.r as int), JInt(d.color.g as int), JInt(d.color.b as int), JInt(d.color.a as int)])])
  }

  /** Reading back a written descriptor gives it again. */
  lemma FromJsonToJson(d: UITextDescriptor)
    ensures FromJson(ToJson(d)) == Ok(d)
  {
    var j := ToJson(d);
    assert IsTextDescriptor(j);
    var c := j.fields["color"].items;
    assert (c[0].i % 256) as byte == d.color.r && (c[1].i % 256) as byte == d.color.g;
    assert (c[2].i % 256) as byte == d.color.b && (c[3].i % 256) as byte == d.color.a;
  }

  // ---------------------------------------------------------------------
  // `automaticScale`

  /**
    `automaticScale`: a configured scale above zero is kept; otherwise the
    largest scale that leaves one more scale step of room on the desktop of
    size `desktopWidth` x `desktopHeight`, and at least 1. (The unsigned
    `desktop / width - 1` wraps to `UINT_MAX` at zero, which the cast to `int`
    turns back into -1, so the signed formula below is the same.)
   */
  function AutomaticScale(width: int, height: int, configured: int, desktopWidth: nat, desktopHeight: nat): (r: int)
    requires width > 0 && height > 0
    ensures configured > 0 ==> r == configured
    ensures configured <= 0 ==> r >= 1
  {
    if configured > 0 then configured
    else Max(1, Min(desktopWidth / width - 1, desktopHeight / height - 1))
  }

  /** `k` copies of `d` fit in `n` exactly when `k` is at most `n / d`. */
  lemma MulFits(n: nat, d: int, k: nat)
    requires d > 0
    ensures k * d <= n <==> k <= n / d
  {
    var q := n / d;
    if k <= q {
      MulMonotone(d, k, q);
    } else {
      MulMonotone(d, q + 1, k);
    }
  }

  /**
    Without a configured scale, the window at `scale + 1` fits the desktop
    (unless the scale is the floor 1), and at `scale + 2` it does not.
   */
  lemma AutomaticScaleLargest(width: int, height: int, desktopWidth: nat, desktopHeight: nat)
    requires width > 0 && height > 0
    ensures var r := AutomaticScale(width, height, 0, desktopWidth, desktopHeight);
            && (r == 1 || ((r + 1) * width <= desktopWidth && (r + 1) * height <= desktopHeight))
            && ((r + 2) * width > desktopWidth || (r + 2) * height > desktopHeight)
  {
    var r := AutomaticScale(width, height, 0, desktopWidth, desktopHeight);
    var qw, qh := desktopWidth / width, desktopHeight / height;
    assert r + 2 > qw || r + 2 > qh;
    MulFits(desktopWidth, width, r + 1);
    MulFits(desktopHeight, height, r + 1);
    MulFits(desktopWidth, width, r + 2);
    MulFits(desktopHeight, height, r + 2);
  }

  // ---------------------------------------------------------------------
  // Background music

  /** A track of a music collection, by its index in the collection. */
  datatype Track = Track(collection: string, index: nat)

  /** What a scene's `setup` asks of the music: nothing, a collection, or silence. */
  datatype BgmRequest = KeepBgm | SetBgm(id: string) | UnsetBgm

  /** The manager's music: the collection (`_bgm_collection`), the track (`_cur_bgm`), and the tracks stopped so far. */
  datatype Bgm = Bgm(collection: Option<string>, current: Option<Track>, stopped: seq<Track>)

  const NoBgm: Bgm := Bgm(None, None, [])

  /** Stop the current track, if any. */
  function StopCurrent(m: Bgm): (r: Bgm)
    ensures r.current == None && r.collection == m.collection
    ensures r.stopped == m.stopped + (if m.current.Some? then [m.current.value] else [])
  {
    if m.current.Some? then m.(current := None, stopped := m.stopped + [m.current.value]) else m
  }

  /** `setBGMCollection`: nothing for the collection already set; another one stops the current track first. */
  function SetCollection(m: Bgm, id: string): (r: Bgm)
    ensures r.collection == Some(id)
    ensures m.collection == Some(id) ==> r == m
    ensures m.collection != Some(id) ==> r == StopCurrent(m).(collection := Some(id))
  {
    if m.collection.Some? && m.collection.value == id then m else StopCurrent(m).(collection := Some(id))
  }

  /** `unsetBGMCollection`: no collection and no track. */
  function UnsetCollection(m: Bgm): (r: Bgm)
    ensures r.collection == None && r.current == None
    ensures r.stopped == StopCurrent(m).stopped
  {
    StopCurrent(m).(collection := None)
  }

  /** A scene's setup request applied to the music. */
  function ApplyRequest(m: Bgm, req: BgmRequest): Bgm
  {
    match req
    case KeepBgm => m
    case SetBgm(id) => SetCollection(m, id)
    case UnsetBgm => UnsetCollection(m)
  }

  /**
    The music part of `tick`: with a collection of `count` tracks and no
    track playing (none, or the current one has stopped), a track starts:
    the only one, or the random `pick` among several.
   */
  function ChooseTrack(m: Bgm, count: nat, currentStopped: bool, pick: nat): (r: Bgm)
    requires count > 1 ==> pick < count
    ensures r.collection == m.collection && r.stopped == m.stopped
    ensures r.current != m.current ==> m.collection.Some? && count > 0 && (m.current.None? || currentStopped)
    ensures m.collection.Some? && count > 0 && (m.current.None? || currentStopped) ==>
              r.current.Some? && r.current.value.collection == m.collection.value && r.current.value.index < count
  {
    if m.collection.Some? && count > 0 && (m.current.None? || currentStopped) then
      m.(current := Some(Track(m.collection.value, if count == 1 then 0 else pick)))
    else m
  }

  /** Setting the same collection twice is setting it once. */
  lemma SetCollectionIdempotent(m: Bgm, id: string)
    ensures SetCollection(SetCollection(m, id), id) == SetCollection(m, id)
  {
  }

  /** After a change of collection, no track of the old one is playing, and it is the one that was stopped. */
  lemma SetCollectionStops(m: Bgm, id: string)
    requires m.collection != Some(id) && m.current.Some?
    ensures SetCollection(m, id).current.None?
    ensures SetCollection(m, id).stopped == m.stopped + [m.current.value]
  {
  }

  /** A track keeps playing across ticks until it stops or the collection goes away. */
  lemma PlayingTrackKept(m: Bgm, count: nat, pick: nat)
    requires count > 1 ==> pick < count
    requires m.current.Some?
    ensures ChooseTrack(m, count, false, pick) == m
  {
  }

  // ---------------------------------------------------------------------
  // The scene manager

  /** What the manager needs of a scene: its window size and what its `setup` asks of the music. */
  datatype SceneInfo = SceneInfo(width: int, height: int, setup: BgmRequest)

  class SceneManager {
    var scene: SceneInfo
    /** The window's size, and how many windows were created so far. */
    var windowWidth: int
    var windowHeight: int
    var windowsCreated: nat
    /** `_scene_changed`. */
    var sceneChanged: bool
    var bgm: Bgm

    /** The window has the scene's size. */
    predicate Valid()
      reads this
    {
      windowWidth == scene.width && windowHeight == scene.height
    }

    /** `SceneManager(initial)`: a window of the scene's size, no music, then the scene's `setup`. */
    constructor(initial: SceneInfo)
      ensures Valid() && scene == initial && windowsCreated == 1 && !sceneChanged
      ensures bgm == ApplyRequest(NoBgm, initial.setup)
    {
      scene := initial;
      windowWidth, windowHeight := initial.width, initial.height;
      windowsCreated := 1;
      sceneChanged := false;
      bgm := ApplyRequest(NoBgm, initial.setup);
    }

    /** `setBGMCollection`. */
    method SetBGMCollection(id: string)
      modifies this
      ensures bgm == SetCollection(old(bgm), id)
      ensures scene == old(scene) && windowWidth == old(windowWidth) && windowHeight == old(windowHeight)
      ensures windowsCreated == old(windowsCreated) && sceneChanged == old(sceneChanged)
    {
      if bgm.collection.None? || bgm.collection.value != id {
        if bgm.current.Some? {
          bgm := bgm.(current := None, stopped := bgm.stopped + [bgm.current.value]);
        }
        bgm := bgm.(collection := Some(id));
      }
    }

    /** `unsetBGMCollection`. */
    method UnsetBGMCollection()
      modifies this
      ensures bgm == UnsetCollection(old(bgm))
      ensures scene == old(scene) && windowWidth == old(windowWidth) && windowHeight == old(windowHeight)
      ensures windowsCreated == old(windowsCreated) && sceneChanged == old(sceneChanged)
    {
      bgm := bgm.(collection := None);
      if bgm.current.Some? {
        bgm := bgm.(current := None, stopped := bgm.stopped + [bgm.current.value]);
      }
    }

    /**
      `changeScene`: the new scene, a new window exactly when the size
      differs, the scene's `setup`, and the changed flag.
     */
    method ChangeScene(next: SceneInfo)
      requires Valid()
      modifies this
      ensures Valid() && scene == next && sceneChanged
      ensures windowsCreated == old(windowsCreated) + (if next.width != old(scene).width || next.height != old(scene).height then 1 else 0)
      ensures bgm == ApplyRequest(old(bgm), next.setup)
    {
      var oldWidth, oldHeight := scene.width, scene.height;
      scene := next;
      if next.width != oldWidth || next.height != oldHeight {
        windowWidth, windowHeight := next.width, next.height;
        windowsCreated := windowsCreated + 1;
      }
      match next.setup {
        case KeepBgm =>
        case SetBgm(id) => SetBGMCollection(id);
        case UnsetBgm => UnsetBGMCollection();
      }
      sceneChanged := true;
    }

    /**
      `tick`: the flag is cleared and the scene steps, changing scene when
      `change` says so; a tick that changed the scene renders nothing and
      leaves the music alone; otherwise it renders and may start a track.
     */
    method Tick(change: Option<SceneInfo>, count: nat, currentStopped: bool, pick: nat) returns (rendered: bool)
      requires Valid() && (count > 1 ==> pick < count)
      modifies this
      ensures Valid()
      ensures rendered <==> change.None?
      ensures sceneChanged <==> change.Some?
      ensures change.Some? ==> scene == change.value && bgm == ApplyRequest(old(bgm), change.value.setup)
      ensures change.None? ==> scene == old(scene) && windowsCreated == old(windowsCreated) && bgm == ChooseTrack(old(bgm), count, currentStopped, pick)
    {
      sceneChanged := false;
      if change.Some? {
        ChangeScene(change.value);
      }
      if sceneChanged {
        return false;
      }
      if bgm.collection.Some? && count > 0 {
        if bgm.current.None? || currentStopped {
          var index := if count == 1 then 0 else pick;
          bgm := bgm.(current := Some(Track(bgm.collection.value, index)));
        }
      }
      return true;
    }
  }
}
