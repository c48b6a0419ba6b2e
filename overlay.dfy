/**
 * The overlay controller `CursorOverlay` (pointer_app.py:35-179) as an
 * object whose handlers update its fields in place.
 *
 * One overlay window draws the custom cursor. A 10 ms timer polls the
 * pointer; each tick is one call of `Poll` with the sampled pointer
 * position, left-button level and window visibility. Sound notifications
 * from the players are calls of `OnClickStatus` and `OnLoopStatus`.
 *
 * The public handlers (the constructor, `Poll`, the `On…` notifications,
 * `SetVolume`, `ChangeCursor`, `Close`, `KeyPress` and `VolumeChanged`),
 * together with `MovePointer`, `TrackButton`, `HandlePress` and
 * `HandleRelease`, are proved to change the fields exactly as the matching
 * step function of module `OverlayModel` changes the state, and every public
 * handler also keeps that module's invariant. The helpers `SpawnClick`,
 * `RestartLoop`, `MarkClosed`, `ReleaseClickPlayers` and
 * `NotifyAndCloseWindow` each ensure the exact record update they make and
 * nothing about the invariant: `MarkClosed` alone, for instance, leaves live
 * click players on a closed overlay until `ReleaseClickPlayers` runs. The
 * properties of the step functions are proved in `OverlayModel`.
 */
module Overlay {
  import opened Common
  import opened Sampling
  import opened Players
  import opened OverlayModel

  class CursorOverlay {
    var cursorImagePath: string
    var cursorPos: Point
    var rotation: int
    /** The top-left corner of the bound display (`self.screen`); `None` when no display was given. */
    const screenOrigin: Option<Point>
    var mouseDown: bool
    /** `settings['volume']`: the settings object shared with the main window, which writes it. */
    var settingsVolume: int
    /** Whether an `on_close_callback` was given. */
    const hasCloseCallback: bool
    /** How many times the close callback was invoked. */
    var closeCalls: nat
    /** `active_click_players`. */
    var clickPlayers: seq<Player>
    /** `player_loop`. */
    var loop: Player
    /** `_closed`. */
    var closed: bool
    /** Whether `poll_timer` runs. */
    var timerActive: bool
    /** Whether the window is still open (`close()` not yet called). */
    var windowOpen: bool
    /** `_last_mouse_down`. */
    var lastDown: bool
    /** Number of click players created so far; the source of fresh identities. */
    var spawned: nat
    /** Click players handed to `deleteLater`, in order. */
    var released: seq<Player>
    /** Number of repaint requests (`update()`). */
    var repaints: nat

    /** The fields as one state of the functional model. */
    ghost function View(): OverlayState
      reads this
    {
      OverlayState(cursorImagePath, cursorPos, rotation, screenOrigin, mouseDown, settingsVolume,
                   hasCloseCallback, closeCalls, clickPlayers, loop, closed, timerActive, windowOpen,
                   lastDown, spawned, released, repaints)
    }

    ghost predicate Valid()
      reads this
    {
      Consistent(View())
    }

    /** `__init__`: the pointer position is taken globally, the loop is loaded at the settings volume, and the timer starts. */
    constructor (cursorImagePath: string, settingsVolume: int, hasCloseCallback: bool,
                 screenOrigin: Option<Point>, pointerPos: Point)
      ensures Valid()
      ensures View() == Initial(cursorImagePath, settingsVolume, hasCloseCallback, screenOrigin, pointerPos)
    {
      this.cursorImagePath := cursorImagePath;
      this.screenOrigin := screenOrigin;
      this.settingsVolume := settingsVolume;
      this.hasCloseCallback := hasCloseCallback;
      cursorPos := pointerPos;
      rotation := RestRotation;
      mouseDown := false;
      closeCalls := 0;
      clickPlayers := [];
      loop := Player(LoopId, false, settingsVolume, 0);
      closed := false;
      timerActive := true;
      windowOpen := true;
      lastDown := false;
      spawned := 0;
      released := [];
      repaints := 0;
      new;
      InitialIsConsistent(cursorImagePath, settingsVolume, hasCloseCallback, screenOrigin, pointerPos);
    }

    /**
     * `poll_mouse`: one timer tick. The edge it reports is the one whose
     * handler ran: none when closed or hidden, otherwise the change between
     * the remembered and the sampled level.
     */
    method Poll(leftDown: bool, globalPos: Point, visible: bool) returns (edge: Edge)
      requires Valid()
      modifies this
      ensures Valid()
      ensures View() == AfterPoll(old(View()), leftDown, globalPos, visible)
      ensures edge == if PollRuns(old(View()), visible) then Detect(old(lastDown), leftDown) else NoEdge
    {
      ghost var before := View();
      PollPreservesConsistent(before, leftDown, globalPos, visible);
      if closed || !visible {
        return NoEdge;
      }
      MovePointer(globalPos);
      edge := TrackButton(leftDown);
    }

    /** The first half of a tick (pointer_app.py:114-117): follow the pointer, repainting only when it moved. */
    method MovePointer(globalPos: Point)
      modifies this
      ensures View() == AfterMove(old(View()), globalPos)
    {
      var pos := RelativePos(globalPos, screenOrigin);
      if pos != cursorPos {
        cursorPos, repaints := pos, repaints + 1;
      }
    }

    /**
     * The second half of a tick (pointer_app.py:118-124): compare the sampled
     * level with the remembered one, run the matching handler, remember it.
     */
    method TrackButton(leftDown: bool) returns (edge: Edge)
      modifies this
      ensures View() == AfterButton(old(View()), leftDown)
      ensures edge == Detect(old(lastDown), leftDown)
    {
      edge := Detect(lastDown, leftDown);
      if edge == PressEdge {
        HandlePress();
        lastDown := leftDown;
      } else if edge == ReleaseEdge {
        HandleRelease();
        lastDown := leftDown;
      }
    }

    /** `handle_mouse_press`, as `AfterPress` states it. */
    method HandlePress()
      modifies this
      ensures View() == AfterPress(old(View()))
    {
      SpawnClick();
      rotation, repaints, mouseDown := PressedRotation, repaints + 1, true;
      RestartLoop();
    }

    /** pointer_app.py:127-132: a new click player at the settings volume is appended and played. */
    method SpawnClick()
      modifies this
      ensures View() == old(View()).(clickPlayers := old(clickPlayers) + [NewClick(old(spawned) + 1, old(settingsVolume))],
                                     spawned := old(spawned) + 1)
    {
      var player := NewClick(spawned + 1, settingsVolume);
      clickPlayers, spawned := clickPlayers + [player], spawned + 1;
    }

    /** `player_loop.stop()` followed by `player_loop.play()`: the loop starts again from the beginning. */
    method RestartLoop()
      modifies this
      ensures View() == old(View()).(loop := Play(Stop(old(loop))))
    {
      loop := Play(Stop(loop));
    }

    /** `handle_mouse_release`, as `AfterRelease` states it. */
    method HandleRelease()
      modifies this
      ensures View() == AfterRelease(old(View()))
    {
      mouseDown, loop, rotation, repaints := false, Stop(loop), RestRotation, repaints + 1;
    }

    /**
     * `cleanup_click_player`: at end of media the first listed player with
     * that identity leaves the list and is released; afterwards no player
     * with that identity is listed.
     */
    method OnClickStatus(id: nat, status: MediaStatus)
      requires Valid()
      modifies this
      ensures Valid()
      ensures View() == AfterClickStatus(old(View()), id, status)
      ensures status == EndOfMedia ==> Find(clickPlayers, id).None?
    {
      ClickStatusPreservesConsistent(View(), id, status);
      if status == EndOfMedia {
        var k := Find(clickPlayers, id);
        if k.Some? {
          var player := Stop(clickPlayers[k.value]);
          clickPlayers, released := RemoveAt(clickPlayers, k.value), released + [player];
        }
      }
    }

    /** `loop_sound_if_needed`, as `AfterLoopStatus` states it. */
    method OnLoopStatus(status: MediaStatus)
      requires Valid()
      modifies this
      ensures Valid()
      ensures View() == AfterLoopStatus(old(View()), status)
    {
      if status == EndOfMedia && mouseDown {
        RestartLoop();
      }
    }

    /** `set_volume`: the loop over the live click players, then the loop player. */
    method SetVolume(v: int)
      requires Valid()
      modifies this
      ensures Valid()
      ensures View() == AfterSetVolume(old(View()), v)
    {
      var players := clickPlayers;
      var i := 0;
      while i < |players|
        invariant 0 <= i <= |players| == |clickPlayers|
        invariant forall j :: 0 <= j < i ==> players[j] == clickPlayers[j].(volume := v)
        invariant forall j :: i <= j < |players| ==> players[j] == clickPlayers[j]
      {
        players := players[i := players[i].(volume := v)];
        i := i + 1;
      }
      assert players == WithVolume(clickPlayers, v);
      clickPlayers, loop := players, loop.(volume := v);
    }

    /** `change_cursor`, as `AfterChangeCursor` states it. */
    method ChangeCursor(imagePath: string)
      requires Valid()
      modifies this
      ensures Valid()
      ensures View() == AfterChangeCursor(old(View()), imagePath)
    {
      cursorImagePath, repaints := imagePath, repaints + 1;
    }

    /** `close_overlay`, as `AfterClose` states it. */
    method Close()
      requires Valid()
      modifies this
      ensures Valid()
      ensures View() == AfterClose(old(View()))
    {
      if closed {
        return;
      }
      MarkClosed();
      ReleaseClickPlayers();
      NotifyAndCloseWindow();
    }

    /** pointer_app.py:170-172: the overlay counts as closed, and the loop and the poll timer stop. */
    method MarkClosed()
      modifies this
      ensures View() == old(View()).(closed := true, loop := Stop(old(loop)), timerActive := false)
    {
      closed, loop, timerActive := true, Stop(loop), false;
    }

    /** pointer_app.py:177-179: the close callback, if there is one, runs; then the window closes. */
    method NotifyAndCloseWindow()
      modifies this
      ensures View() == old(View()).(closeCalls := old(closeCalls) + (if hasCloseCallback then 1 else 0),
                                     windowOpen := false)
    {
      if hasCloseCallback {
        closeCalls := closeCalls + 1;
      }
      windowOpen := false;
    }

    /**
     * pointer_app.py:173-176: every live click player is stopped and
     * released, in order, and the list is emptied.
     */
    method ReleaseClickPlayers()
      modifies this
      ensures View() == old(View()).(released := old(released) + StopAll(old(clickPlayers)), clickPlayers := [])
    {
      var stopped: seq<Player> := [];
      var i := 0;
      while i < |clickPlayers|
        invariant 0 <= i <= |clickPlayers|
        invariant stopped == StopAll(clickPlayers[..i])
      {
        assert StopAll(clickPlayers[..i + 1]) == StopAll(clickPlayers[..i]) + [Stop(clickPlayers[i])];
        stopped := stopped + [Stop(clickPlayers[i])];
        i := i + 1;
      }
      assert clickPlayers[..i] == clickPlayers;
      released, clickPlayers := released + stopped, [];
    }

    /** `keyPressEvent`, as `AfterKey` states it. */
    method KeyPress(key: Key)
      requires Valid()
      modifies this
      ensures Valid()
      ensures View() == AfterKey(old(View()), key)
    {
      if key == Escape {
        Close();
      }
    }
  }

  /**
   * The main window's volume handler (pointer_app.py:478-483) as it reaches
   * an open overlay: the shared setting changes first, then every voice.
   */
  method VolumeChanged(overlay: CursorOverlay, v: int)
    requires overlay.Valid()
    modifies overlay
    ensures overlay.Valid()
    ensures overlay.View() == AfterVolumeChanged(old(overlay.View()), v)
  {
    overlay.settingsVolume := v;
    overlay.SetVolume(v);
  }
}
