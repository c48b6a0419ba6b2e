/**
 * The overlay controller `CursorOverlay` (pointer_app.py:35-179) as a
 * state and one function per handler.
 *
 * Each function gives the state after one call of the corresponding
 * method of the source; the class in module `Overlay` is proved to make
 * exactly these changes to its fields. The properties the controller
 * promises (edge detection, player lifecycle, hold-loop restart,
 * idempotent close) are proved here, for single steps and for any
 * sequence of events the event loop can deliver.
 */
module OverlayModel {
  import opened Common
  import opened Sampling
  import opened Players

  const PressedRotation: int := -15
  const RestRotation: int := 0
  /** The hold-loop player's identity; click players are numbered from 1. */
  const LoopId: nat := 0

  datatype Key = Escape | OtherKey(code: int)

  /**
   * Everything an overlay holds. `screenOrigin` is the top-left corner of
   * the bound display (`None`: no display given); `settingsVolume` is the
   * shared `settings['volume']`; `spawned` counts the click players created
   * (the source of fresh identities); `released` lists the players handed to
   * `deleteLater`; `repaints` counts repaint requests (`update()`);
   * `timerActive` is the poll timer and `windowOpen` the window `close()`
   * takes down.
   */
  datatype OverlayState = OverlayState(
    cursorImagePath: string, cursorPos: Point, rotation: int, screenOrigin: Option<Point>,
    mouseDown: bool, settingsVolume: int, hasCloseCallback: bool, closeCalls: nat,
    clickPlayers: seq<Player>, loop: Player, closed: bool, timerActive: bool, windowOpen: bool,
    lastDown: bool, spawned: nat, released: seq<Player>, repaints: nat)

  /**
   * `get_relative_cursor_pos`: the global pointer position translated so
   * that the bound display's top-left corner is the origin; without a bound
   * display the global position itself.
   */
  function RelativePos(global: Point, origin: Option<Point>): (r: Point)
    ensures origin.None? ==> r == global
    ensures origin.Some? ==> r.x + origin.value.x == global.x && r.y + origin.value.y == global.y
  {
    match origin
    case None => global
    case Some(o) => Point(global.x - o.x, global.y - o.y)
  }

  /**
   * `__init__`: the pointer position is read globally (not yet relative to
   * the display), the loop is loaded at the settings volume, the timer runs.
   */
  function Initial(cursorImagePath: string, settingsVolume: int, hasCloseCallback: bool,
                   screenOrigin: Option<Point>, pointerPos: Point): (r: OverlayState)
    ensures r.cursorPos == pointerPos && r.rotation == RestRotation && !r.mouseDown && !r.lastDown
    ensures r.clickPlayers == [] && r.released == [] && r.spawned == 0
    ensures r.loop.id == LoopId && !r.loop.playing && r.loop.volume == settingsVolume && r.loop.starts == 0
    ensures !r.closed && r.timerActive && r.windowOpen && r.closeCalls == 0
  {
    OverlayState(cursorImagePath, pointerPos, RestRotation, screenOrigin, false, settingsVolume,
                 hasCloseCallback, 0, [], Player(LoopId, false, settingsVolume, 0), false, true, true,
                 false, 0, [], 0)
  }

  /**
   * What every reachable state satisfies. Every click player created is
   * either still live or released, never both and never twice; live ones keep their creation order and
   * each is a one-shot that was played once. Closing leaves no live click
   * player, stops the timer and calls back at most once. The rotation and
   * the remembered level both show the pressed state, and the loop only
   * plays while the button is held.
   */
  ghost predicate Consistent(s: OverlayState)
  {
    && Accounted(s.clickPlayers, s.released, s.spawned)
    && s.loop.id == LoopId
    && (s.closed ==> s.clickPlayers == [] && !s.timerActive && !s.windowOpen)
    && s.closeCalls == (if s.closed && s.hasCloseCallback then 1 else 0)
    && s.rotation == (if s.mouseDown then PressedRotation else RestRotation)
    && s.mouseDown == s.lastDown
    && (s.loop.playing ==> s.mouseDown)
  }

  /** A click player as a press creates it: a fresh identity, played once, at the settings volume. */
  function NewClick(id: nat, volume: int): (r: Player)
    ensures r.id == id && r.volume == volume && r.playing && r.starts == 1
  {
    Play(Player(id, false, volume, 0))
  }

  /**
   * `handle_mouse_press`: one new click player is appended after the
   * existing ones, the cursor tilts, the button counts as held, and the hold
   * loop is stopped and played again from the start.
   */
  function AfterPress(s: OverlayState): (r: OverlayState)
    ensures r.clickPlayers == s.clickPlayers + [NewClick(s.spawned + 1, s.settingsVolume)]
    ensures r.spawned == s.spawned + 1 && r.settingsVolume == s.settingsVolume
    ensures r.mouseDown && r.rotation == PressedRotation && r.repaints == s.repaints + 1
    ensures r.loop.playing && r.loop.starts == s.loop.starts + 1 && r.loop.id == s.loop.id && r.loop.volume == s.loop.volume
    ensures r.lastDown == s.lastDown && r.closed == s.closed && r.released == s.released
    ensures r == s.(clickPlayers := r.clickPlayers, spawned := r.spawned, rotation := r.rotation,
                    mouseDown := r.mouseDown, loop := r.loop, repaints := r.repaints)
  {
    s.(clickPlayers := s.clickPlayers + [NewClick(s.spawned + 1, s.settingsVolume)],
       spawned := s.spawned + 1, rotation := PressedRotation, mouseDown := true,
       loop := Play(Stop(s.loop)), repaints := s.repaints + 1)
  }

  /**
   * `handle_mouse_release`: the button no longer counts as held, the loop
   * stops, the cursor straightens; the click players are left to finish.
   */
  function AfterRelease(s: OverlayState): (r: OverlayState)
    ensures !r.mouseDown && r.rotation == RestRotation && r.repaints == s.repaints + 1
    ensures !r.loop.playing && r.loop.starts == s.loop.starts && r.loop.id == s.loop.id && r.loop.volume == s.loop.volume
    ensures r == s.(mouseDown := false, loop := r.loop, rotation := RestRotation, repaints := r.repaints)
  {
    s.(mouseDown := false, loop := Stop(s.loop), rotation := RestRotation, repaints := s.repaints + 1)
  }

  /** The first half of `poll_mouse` (pointer_app.py:114-117): follow the pointer, repainting only on a move. */
  function AfterMove(s: OverlayState, globalPos: Point): (r: OverlayState)
    ensures r.cursorPos == RelativePos(globalPos, s.screenOrigin)
    ensures r.repaints == s.repaints + (if r.cursorPos != s.cursorPos then 1 else 0)
    ensures r == s.(cursorPos := r.cursorPos, repaints := r.repaints)
  {
    var pos := RelativePos(globalPos, s.screenOrigin);
    if pos != s.cursorPos then s.(cursorPos := pos, repaints := s.repaints + 1) else s
  }

  /**
   * The second half of `poll_mouse` (pointer_app.py:118-124): the handler
   * matching the edge between the remembered and the sampled level runs,
   * then the sampled level is remembered.
   */
  function AfterButton(s: OverlayState, leftDown: bool): (r: OverlayState)
    ensures r.lastDown == leftDown
    ensures leftDown == s.lastDown ==> r == s
    ensures leftDown != s.lastDown ==> r.mouseDown == leftDown && r.loop.playing == leftDown
  {
    match Detect(s.lastDown, leftDown)
    case PressEdge => AfterPress(s).(lastDown := leftDown)
    case ReleaseEdge => AfterRelease(s).(lastDown := leftDown)
    case NoEdge => s
  }

  /** Whether a tick gets past the guard of `poll_mouse`. */
  predicate PollRuns(s: OverlayState, visible: bool)
  {
    !s.closed && visible
  }

  /** `poll_mouse`: one timer tick (its effects are stated by `PollEffects`). */
  function AfterPoll(s: OverlayState, leftDown: bool, globalPos: Point, visible: bool): (r: OverlayState)
    ensures !PollRuns(s, visible) ==> r == s
    ensures PollRuns(s, visible) ==> r.lastDown == leftDown && r.cursorPos == RelativePos(globalPos, s.screenOrigin)
  {
    if PollRuns(s, visible) then AfterButton(AfterMove(s, globalPos), leftDown) else s
  }

  /**
   * The button half of a tick: exactly the press handler runs on a
   * false->true change, exactly the release handler on a true->false change,
   * and afterwards the remembered level is the sampled one.
   */
  lemma ButtonEffects(s: OverlayState, leftDown: bool)
    ensures var r := AfterButton(s, leftDown);
      && r.lastDown == leftDown
      && r.cursorPos == s.cursorPos && r.screenOrigin == s.screenOrigin
      && r.hasCloseCallback == s.hasCloseCallback && r.closed == s.closed
      && r.settingsVolume == s.settingsVolume
      && r.spawned == s.spawned + (if leftDown && !s.lastDown then 1 else 0)
      && (leftDown && !s.lastDown ==>
            && r.clickPlayers == s.clickPlayers + [NewClick(s.spawned + 1, s.settingsVolume)]
            && r.rotation == PressedRotation && r.mouseDown
            && r.loop.playing && r.loop.starts == s.loop.starts + 1)
      && (!leftDown && s.lastDown ==>
            && r.clickPlayers == s.clickPlayers
            && r.rotation == RestRotation && !r.mouseDown && !r.loop.playing
            && r.loop.starts == s.loop.starts)
      && (leftDown == s.lastDown ==> r == s)
  {
  }

  /**
   * What one tick does. Closed or hidden, nothing changes; otherwise the
   * cursor follows the pointer, exactly the press handler runs on a
   * false->true change, exactly the release handler on a true->false
   * change, and the sampled level is remembered.
   */
  lemma PollEffects(s: OverlayState, leftDown: bool, globalPos: Point, visible: bool)
    ensures var r := AfterPoll(s, leftDown, globalPos, visible);
      && (!PollRuns(s, visible) ==> r == s)
      && (PollRuns(s, visible) ==>
            && r.lastDown == leftDown && r.closed == s.closed && r.settingsVolume == s.settingsVolume
            && r.cursorPos == RelativePos(globalPos, s.screenOrigin)
            && r.spawned == s.spawned + (if leftDown && !s.lastDown then 1 else 0))
      && (PollRuns(s, visible) && leftDown && !s.lastDown ==>
            && r.clickPlayers == s.clickPlayers + [NewClick(s.spawned + 1, s.settingsVolume)]
            && r.rotation == PressedRotation && r.mouseDown
            && r.loop.playing && r.loop.starts == s.loop.starts + 1)
      && (PollRuns(s, visible) && !leftDown && s.lastDown ==>
            && r.clickPlayers == s.clickPlayers
            && r.rotation == RestRotation && !r.mouseDown && !r.loop.playing
            && r.loop.starts == s.loop.starts)
      && (PollRuns(s, visible) && leftDown == s.lastDown ==>
            r.clickPlayers == s.clickPlayers && r.loop == s.loop && r.mouseDown == s.mouseDown)
  {
    if PollRuns(s, visible) {
      var m := AfterMove(s, globalPos);
      ButtonEffects(m, leftDown);
    }
  }

  /** The part of `PollEffects` that edge counting needs. */
  lemma PollCountsPress(s: OverlayState, leftDown: bool, globalPos: Point, visible: bool)
    requires PollRuns(s, visible)
    ensures AfterPoll(s, leftDown, globalPos, visible).lastDown == leftDown
    ensures AfterPoll(s, leftDown, globalPos, visible).spawned
              == s.spawned + (if Detect(s.lastDown, leftDown) == PressEdge then 1 else 0)
  {
    PollEffects(s, leftDown, globalPos, visible);
  }

  /**
   * `cleanup_click_player`: at end of media the first listed player with
   * that identity leaves the list and is released, having stopped at its
   * end; any other status, or a player no longer listed, changes nothing.
   */
  function AfterClickStatus(s: OverlayState, id: nat, status: MediaStatus): (r: OverlayState)
    ensures status != EndOfMedia || Find(s.clickPlayers, id).None? ==> r == s
    ensures status == EndOfMedia && Find(s.clickPlayers, id).Some? ==>
      && r.clickPlayers == RemoveAt(s.clickPlayers, Find(s.clickPlayers, id).value)
      && r.released == s.released + [Stop(s.clickPlayers[Find(s.clickPlayers, id).value])]
    ensures r == s.(clickPlayers := r.clickPlayers, released := r.released)
  {
    if status == EndOfMedia then
      match Find(s.clickPlayers, id)
      case Some(k) => s.(clickPlayers := RemoveAt(s.clickPlayers, k), released := s.released + [Stop(s.clickPlayers[k])])
      case None => s
    else s
  }

  /**
   * `loop_sound_if_needed`: the loop is stopped and played again exactly
   * when the status is end of media and the button is held at that moment.
   */
  function AfterLoopStatus(s: OverlayState, status: MediaStatus): (r: OverlayState)
    ensures r == s <==> !(status == EndOfMedia && s.mouseDown)
    ensures status == EndOfMedia && s.mouseDown ==>
      r == s.(loop := r.loop) && r.loop.playing && r.loop.starts == s.loop.starts + 1
  {
    if status == EndOfMedia && s.mouseDown then s.(loop := Play(Stop(s.loop))) else s
  }

  /** Every player of `ps` with its volume set to `v`. */
  function WithVolume(ps: seq<Player>, v: int): (r: seq<Player>)
    ensures |r| == |ps|
    ensures forall i :: 0 <= i < |ps| ==> r[i] == ps[i].(volume := v)
  {
    seq(|ps|, i requires 0 <= i < |ps| => ps[i].(volume := v))
  }

  /** `set_volume`: every live click player and the loop get volume `v`; nothing else moves. */
  function AfterSetVolume(s: OverlayState, v: int): (r: OverlayState)
    ensures r.loop.volume == v && forall i :: 0 <= i < |r.clickPlayers| ==> r.clickPlayers[i].volume == v
    ensures |r.clickPlayers| == |s.clickPlayers|
    ensures forall i :: 0 <= i < |s.clickPlayers| ==> r.clickPlayers[i] == s.clickPlayers[i].(volume := v)
    ensures r == s.(clickPlayers := r.clickPlayers, loop := s.loop.(volume := v))
  {
    s.(clickPlayers := WithVolume(s.clickPlayers, v), loop := s.loop.(volume := v))
  }

  /**
   * The main window's volume handler (pointer_app.py:478-483) as it reaches
   * an open overlay: the shared setting changes first, then every voice.
   */
  function AfterVolumeChanged(s: OverlayState, v: int): (r: OverlayState)
    ensures r.settingsVolume == v && r.loop.volume == v
    ensures forall i :: 0 <= i < |r.clickPlayers| ==> r.clickPlayers[i].volume == v
    ensures r == s.(settingsVolume := v, clickPlayers := r.clickPlayers, loop := s.loop.(volume := v))
  {
    AfterSetVolume(s.(settingsVolume := v), v)
  }

  /** `change_cursor`: a new image and a repaint; position, rotation and sound state stay. */
  function AfterChangeCursor(s: OverlayState, imagePath: string): (r: OverlayState)
    ensures r.(cursorImagePath := s.cursorImagePath, repaints := s.repaints) == s
    ensures r.cursorImagePath == imagePath && r.repaints == s.repaints + 1
  {
    s.(cursorImagePath := imagePath, repaints := s.repaints + 1)
  }

  /**
   * `close_overlay`: the first call marks the overlay closed, stops the
   * loop and the timer, stops and releases every live click player, empties
   * the list, invokes the close callback if there is one and closes the
   * window. On a closed overlay it changes nothing.
   */
  function AfterClose(s: OverlayState): (r: OverlayState)
    ensures s.closed ==> r == s
    ensures r.closed
    ensures !s.closed ==> && r.clickPlayers == [] && r.released == s.released + StopAll(s.clickPlayers)
                          && !r.timerActive && !r.windowOpen && !r.loop.playing
                          && r.closeCalls == s.closeCalls + (if s.hasCloseCallback then 1 else 0)
    ensures r == s.(closed := r.closed, loop := r.loop, timerActive := r.timerActive, released := r.released,
                    clickPlayers := r.clickPlayers, closeCalls := r.closeCalls, windowOpen := r.windowOpen)
    ensures r.loop == s.loop.(playing := r.loop.playing)
  {
    if s.closed then s
    else s.(closed := true, loop := Stop(s.loop), timerActive := false,
            released := s.released + StopAll(s.clickPlayers), clickPlayers := [],
            closeCalls := s.closeCalls + (if s.hasCloseCallback then 1 else 0), windowOpen := false)
  }

  /** `keyPressEvent`: Escape closes the overlay; any other key is ignored. */
  function AfterKey(s: OverlayState, key: Key): (r: OverlayState)
    ensures key != Escape ==> r == s
    ensures key == Escape ==> r.closed && (s.closed ==> r == s)
  {
    if key == Escape then AfterClose(s) else s
  }

  /** What the event loop can deliver to an overlay. */
  datatype Event =
    | Tick(leftDown: bool, pointer: Point, visible: bool)
    | ClickStatus(id: nat, status: MediaStatus)
    | LoopStatus(status: MediaStatus)
    | VolumeChanged(volume: int)
    | CursorChanged(imagePath: string)
    | KeyPressed(key: Key)
    | CloseRequested

  /** One delivered event. A closed overlay stays closed, and ticks, keys and close requests leave it unchanged. */
  function Step(s: OverlayState, e: Event): (r: OverlayState)
    ensures s.closed ==> r.closed
    ensures s.closed && (e.Tick? || e.KeyPressed? || e.CloseRequested?) ==> r == s
  {
    match e
    case Tick(l, p, v) => AfterPoll(s, l, p, v)
    case ClickStatus(id, st) => AfterClickStatus(s, id, st)
    case LoopStatus(st) => AfterLoopStatus(s, st)
    case VolumeChanged(v) => AfterVolumeChanged(s, v)
    case CursorChanged(path) => AfterChangeCursor(s, path)
    case KeyPressed(k) => AfterKey(s, k)
    case CloseRequested => AfterClose(s)
  }

  /** The state after the events `es`, in order. */
  function Run(s: OverlayState, es: seq<Event>): (r: OverlayState)
    ensures s.closed ==> r.closed
    decreases |es|
  {
    if es == [] then s else Run(Step(s, es[0]), es[1..])
  }

  /** Running `es` and then `e` is stepping `e` after running `es`. */
  lemma {:induction false} RunSnoc(s: OverlayState, es: seq<Event>, e: Event)
    ensures Run(s, es + [e]) == Step(Run(s, es), e)
    decreases |es|
  {
    if es == [] {
      assert es + [e] == [e];
      assert [e][1..] == [];
    } else {
      assert (es + [e])[0] == es[0];
      assert (es + [e])[1..] == es[1..] + [e];
      RunSnoc(Step(s, es[0]), es[1..], e);
    }
  }

  /** The left-button levels sampled by the ticks of `es` that get past the guard. */
  function SampledLevels(s: OverlayState, es: seq<Event>): (r: seq<bool>)
    ensures |r| <= |es|
    decreases |es|
  {
    if es == [] then []
    else
      var here := if es[0].Tick? && PollRuns(s, es[0].visible) then [es[0].leftDown] else [];
      here + SampledLevels(Step(s, es[0]), es[1..])
  }

  lemma InitialIsConsistent(cursorImagePath: string, settingsVolume: int, hasCloseCallback: bool,
                            screenOrigin: Option<Point>, pointerPos: Point)
    ensures Consistent(Initial(cursorImagePath, settingsVolume, hasCloseCallback, screenOrigin, pointerPos))
  {
  }

  /** Following the pointer keeps the invariant. */
  lemma MovePreservesConsistent(s: OverlayState, globalPos: Point)
    requires Consistent(s)
    ensures Consistent(AfterMove(s, globalPos))
  {
  }

  /** The button half of a tick keeps the invariant: a press appends a fresh, larger identity. */
  lemma ButtonPreservesConsistent(s: OverlayState, leftDown: bool)
    requires Consistent(s) && !s.closed
    ensures Consistent(AfterButton(s, leftDown))
  {
    match Detect(s.lastDown, leftDown)
    case PressEdge =>
      AccountedAppend(s.clickPlayers, s.released, s.spawned, NewClick(s.spawned + 1, s.settingsVolume));
    case ReleaseEdge =>
    case NoEdge =>
  }

  /** A tick keeps the invariant. */
  lemma PollPreservesConsistent(s: OverlayState, leftDown: bool, globalPos: Point, visible: bool)
    requires Consistent(s)
    ensures Consistent(AfterPoll(s, leftDown, globalPos, visible))
  {
    if PollRuns(s, visible) {
      MovePreservesConsistent(s, globalPos);
      ButtonPreservesConsistent(AfterMove(s, globalPos), leftDown);
    }
  }

  /** A click notification keeps the invariant: removal keeps the order of identities. */
  lemma ClickStatusPreservesConsistent(s: OverlayState, id: nat, status: MediaStatus)
    requires Consistent(s)
    ensures Consistent(AfterClickStatus(s, id, status))
  {
    if status == EndOfMedia && Find(s.clickPlayers, id).Some? {
      AccountedRemove(s.clickPlayers, s.released, s.spawned, Find(s.clickPlayers, id).value);
    }
  }

  /** A volume change keeps the invariant: identities, play state and start counts stay. */
  lemma VolumePreservesConsistent(s: OverlayState, v: int)
    requires Consistent(s)
    ensures Consistent(AfterVolumeChanged(s, v))
  {
    var ps := WithVolume(s.clickPlayers, v);
    assert forall i :: 0 <= i < |ps| ==> ps[i].id == s.clickPlayers[i].id;
  }

  /** Closing keeps the invariant: every live click player moves, stopped, to the released log. */
  lemma ClosePreservesConsistent(s: OverlayState)
    requires Consistent(s)
    ensures Consistent(AfterClose(s))
  {
    if !s.closed {
      AccountedReleaseAll(s.clickPlayers, s.released, s.spawned);
    }
  }

  lemma StepPreservesConsistent(s: OverlayState, e: Event)
    requires Consistent(s)
    ensures Consistent(Step(s, e))
  {
    match e
    case Tick(l, p, v) => PollPreservesConsistent(s, l, p, v);
    case ClickStatus(id, st) => ClickStatusPreservesConsistent(s, id, st);
    case LoopStatus(st) =>
    case VolumeChanged(v) => VolumePreservesConsistent(s, v);
    case CursorChanged(path) =>
    case KeyPressed(k) => ClosePreservesConsistent(s);
    case CloseRequested => ClosePreservesConsistent(s);
  }

  /** Every state the event loop can reach from a consistent one is consistent. */
  lemma {:induction false} RunPreservesConsistent(s: OverlayState, es: seq<Event>)
    requires Consistent(s)
    ensures Consistent(Run(s, es))
    decreases |es|
  {
    if es != [] {
      StepPreservesConsistent(s, es[0]);
      RunPreservesConsistent(Step(s, es[0]), es[1..]);
    }
  }

  /** Only a tick that gets past the guard can create a click player or change the remembered level. */
  lemma OtherEventsKeepButton(s: OverlayState, e: Event)
    requires !(e.Tick? && PollRuns(s, e.visible))
    ensures Step(s, e).spawned == s.spawned && Step(s, e).lastDown == s.lastDown
  {
    match e
    case Tick(l, p, v) =>
    case ClickStatus(id, st) =>
    case LoopStatus(st) =>
    case VolumeChanged(v) =>
    case CursorChanged(path) =>
    case KeyPressed(k) =>
    case CloseRequested =>
  }

  lemma StepKeepsBinding(s: OverlayState, e: Event)
    ensures Step(s, e).screenOrigin == s.screenOrigin
    ensures Step(s, e).hasCloseCallback == s.hasCloseCallback
  {
    match e
    case Tick(l, p, v) =>
      if PollRuns(s, v) {
        ButtonEffects(AfterMove(s, p), l);
      }
    case ClickStatus(id, st) =>
    case LoopStatus(st) =>
    case VolumeChanged(v) =>
    case CursorChanged(path) =>
    case KeyPressed(k) =>
    case CloseRequested =>
  }

  /** The display binding and the callback never change. */
  lemma {:induction false} RunKeepsBinding(s: OverlayState, es: seq<Event>)
    ensures Run(s, es).screenOrigin == s.screenOrigin
    ensures Run(s, es).hasCloseCallback == s.hasCloseCallback
    decreases |es|
  {
    if es != [] {
      assert Run(s, es) == Run(Step(s, es[0]), es[1..]);
      StepKeepsBinding(s, es[0]);
      RunKeepsBinding(Step(s, es[0]), es[1..]);
    }
  }

  /**
   * Edge detection over any sequence of events: exactly one click player is
   * created per false->true change among the sampled levels, and the
   * remembered level is the last one sampled.
   */
  lemma {:induction false} RunCountsPresses(s: OverlayState, es: seq<Event>)
    ensures Run(s, es).spawned == s.spawned + Rises(s.lastDown, SampledLevels(s, es))
    ensures Run(s, es).lastDown == Last(s.lastDown, SampledLevels(s, es))
    decreases |es|
  {
    if es != [] {
      var t := Step(s, es[0]);
      assert Run(s, es) == Run(t, es[1..]);
      RunCountsPresses(t, es[1..]);
      if es[0].Tick? && PollRuns(s, es[0].visible) {
        assert SampledLevels(s, es) == [es[0].leftDown] + SampledLevels(t, es[1..]);
        TickCountStep(s, es[0], SampledLevels(t, es[1..]));
      } else {
        assert SampledLevels(s, es) == SampledLevels(t, es[1..]);
        OtherEventsKeepButton(s, es[0]);
      }
    }
  }

  /** One counted tick in front of the samples of the rest of a run. */
  lemma TickCountStep(s: OverlayState, e: Event, rest: seq<bool>)
    requires e.Tick? && PollRuns(s, e.visible)
    ensures Step(s, e).lastDown == e.leftDown
    ensures Rises(s.lastDown, [e.leftDown] + rest) == Step(s, e).spawned - s.spawned + Rises(e.leftDown, rest)
    ensures Last(s.lastDown, [e.leftDown] + rest) == Last(e.leftDown, rest)
  {
    PollCountsPress(s, e.leftDown, e.pointer, e.visible);
    assert ([e.leftDown] + rest)[0] == e.leftDown;
    assert ([e.leftDown] + rest)[1..] == rest;
  }

  /** However many times the overlay is closed, the close callback runs at most once. */
  lemma CallbackAtMostOnce(s: OverlayState, es: seq<Event>)
    requires Consistent(s)
    ensures Run(s, es).closeCalls <= 1
    ensures Run(s, es).closed && s.hasCloseCallback ==> Run(s, es).closeCalls == 1
  {
    RunPreservesConsistent(s, es);
    RunKeepsBinding(s, es);
  }

  /** Closing twice is closing once. */
  lemma CloseIsIdempotent(s: OverlayState)
    ensures AfterClose(AfterClose(s)) == AfterClose(s)
  {
  }

  /**
   * End of media on the loop does not consult `_closed`: if the button was
   * still held when the overlay closed, a loop notification arriving after
   * the close plays the loop again on the closed overlay.
   */
  lemma LoopEndAfterCloseWhileHeldRestarts(s: OverlayState)
    requires Consistent(s) && !s.closed && s.mouseDown
    ensures AfterClose(s).closed && !AfterClose(s).loop.playing
    ensures AfterLoopStatus(AfterClose(s), EndOfMedia).loop.playing
  {
  }

  /** A duplicate or late end-of-media notification for a click player changes nothing. */
  lemma DuplicateClickEndIsNoop(s: OverlayState, id: nat)
    requires Consistent(s)
    ensures AfterClickStatus(AfterClickStatus(s, id, EndOfMedia), id, EndOfMedia) == AfterClickStatus(s, id, EndOfMedia)
  {
    if Find(s.clickPlayers, id).Some? {
      RemoveKeepsIncreasing(s.clickPlayers, Find(s.clickPlayers, id).value);
    }
  }

  /** After Escape the overlay is closed for good: no further key changes anything. */
  lemma EscapeThenAnyKeyIsNoop(s: OverlayState, key: Key)
    ensures AfterKey(AfterKey(s, Escape), key) == AfterKey(s, Escape)
  {
  }

  /** A press after a volume change plays its click at the new volume. */
  lemma PressAfterVolumeChangeUsesNewVolume(s: OverlayState, v: int)
    ensures AfterPress(AfterVolumeChanged(s, v)).clickPlayers[|s.clickPlayers|].volume == v
  {
  }
}
