# Pointer overlay: a verified model

Pointer is a desktop tool that draws a large custom cursor in a frameless,
always-on-top window on one display. A knock sound plays on every left-button
press, and a looping "hold" sound plays while the button is held. This project
models the overlay's input and audio state machine, `CursorOverlay`, in Dafny.
It also models the settings merge done at load time and the choice of display.

The modules:

- `Common`: `Option` and an integer `Point`.
- `Sampling`: poll-based edge detection on the sampled left-button level. A
  false->true change is a press and a true->false change is a release. It also
  counts the edges over any sequence of samples.
- `Players`: audio players as value handles `Player(id, playing, volume,
  starts)`. `starts` counts the calls of `play()`. The module also has
  identity lookup and removal in the live list, as Python's
  `in`/`list.remove` do them.
- `Settings`: `load_settings`, over an already parsed JSON object. `None`
  stands for every case in which the source returns the defaults: the file
  is missing or unreadable, it does not parse, or its value is not an
  object (see Left out).
- `Screens`: the `min(selected_screen, len(screens) - 1)` clamp and Python
  list indexing. It holds both the as-written and the corrected display choice
  (see Findings).
- `OverlayModel`: the overlay's whole state as a value, with one step function
  per handler. An `Event` type lists everything the event loop can deliver.
  `Run` folds a sequence of events. The invariant `Consistent` and the
  properties over any run are proved here.
- `Overlay`: the class `CursorOverlay`, whose fields the handlers update in
  place. The public handlers are the constructor, `Poll`, `OnClickStatus`,
  `OnLoopStatus`, `SetVolume`, `ChangeCursor`, `Close`, `KeyPress` and
  `VolumeChanged`. They, together with `MovePointer`, `TrackButton`,
  `HandlePress` and `HandleRelease`, are proved to change the fields exactly
  as the matching step function of `OverlayModel` says. Every public handler
  also keeps `Consistent`. The helpers `SpawnClick`, `RestartLoop`,
  `MarkClosed`, `ReleaseClickPlayers` and `NotifyAndCloseWindow` ensure the
  exact record update they make and nothing about the invariant; `MarkClosed`
  alone, for instance, leaves live click players on a closed overlay until
  `ReleaseClickPlayers` runs.
- `Scenarios`: concrete interaction sequences followed through the model.

Modelling choices:

- One 10 ms timer tick is one `Poll(leftDown, pointer, visible)` call, with
  the sampled level, the global pointer position and `isVisible()` passed in.
- Player status notifications are explicit `OnClickStatus(id, status)` and
  `OnLoopStatus(status)` calls.
- A `QMediaPlayer` object's identity is a number. Click players are numbered
  `1, 2, …` in creation order, and `spawned` counts them. The loop is
  number 0.
- `deleteLater` appends the player to a `released` log.
- `update()` increments `repaints`.
- The close callback increments `closeCalls`.
- `close()` clears `windowOpen`, and `poll_timer.stop()` clears `timerActive`.

## Model

| member | source | states |
|---|---|---|
| Sampling.Detect | pointer_app.py:118-124 | press exactly when the level is down and was up; release exactly when it is up and was down; nothing exactly when unchanged |
| Sampling.RisesSnoc | pointer_app.py:118-124 | one more sample adds a press exactly when it rises from the remembered level |
| Sampling.FallsSnoc | pointer_app.py:118-124 | one more sample adds a release exactly when it falls from the remembered level |
| Sampling.PressesMinusReleases | pointer_app.py:118-124 | presses and releases alternate: presses minus releases equals the change of the remembered level (0 or ±1) |
| Sampling.RepeatedSampleAddsNoEdge | pointer_app.py:118-124 | a poll that sees the same level again adds neither a press nor a release |
| Settings.Defaults | pointer_app.py:18 | exactly the keys `volume` and `selected_screen`, with values 100 and 0 |
| Settings.WithDefaults | pointer_app.py:22-26 | keys are the saved keys plus the default keys; saved values (known or unknown keys) are kept; missing defaults are filled |
| Settings.LoadSettings | pointer_app.py:17-29 | both `volume` and `selected_screen` are present; no readable file gives exactly `{volume:100, selected_screen:0}`; otherwise every saved key keeps its value and only missing defaults are added |
| Settings.CompleteSettingsAreTheirOwnMerge | pointer_app.py:22-26 | an object that already holds both default keys is left unchanged by the merge |
| Settings.MergeIdempotent | pointer_app.py:22-26 | merging the defaults in a second time changes nothing |
| Settings.PartialFileGetsDefaultScreen | pointer_app.py:17-29 | a file holding only `{volume:40}` loads as `{volume:40, selected_screen:0}` |
| Screens.CapAtLast | pointer_app.py:357 | `min(selected, count-1)` for any display count, none included: at most the last index and at most `selected`, and equal to one of them |
| Screens.PyIndex | pointer_app.py:453 | Python indexing succeeds exactly for `-n <= i < n`; negative indices count from the end |
| Screens.PickedScreenAsWritten | pointer_app.py:452-453 | the as-written pick: any display it returns exists, and with no display at all the indexing always raises IndexError; its other properties are in `AsWrittenPicksCappedIndex` and `NegativeSelectionEscapesClamp` |
| Screens.AsWrittenPicksCappedIndex | pointer_app.py:452-453 | for every non-negative saved index the written code picks a display, the requested one or the last |
| Screens.NegativeSelectionEscapesClamp | pointer_app.py:452-453 | as written, with two displays, -1 picks the last display and -3 raises IndexError |
| Screens.ClampScreen | pointer_app.py:452 | corrected clamp: always an existing index; unchanged in range, the last above, the first below |
| Screens.ClampedIndexReadsThatDisplay | pointer_app.py:452-453 | indexing the display list at the corrected index reads exactly that display and never raises |
| Screens.PickAgreesOnNonNegative | pointer_app.py:452-453 | on every index the settings panel can store, the corrected choice equals the written one |
| Players.Play | pointer_app.py:132 | `play()`: the player plays and one more start is counted; identity and volume stay |
| Players.Stop | pointer_app.py:136 | `stop()`: the player no longer plays; identity, volume and start count stay |
| Players.StopAll | pointer_app.py:173-174 | the loop of `player.stop()` calls: the same players in order, each stopped with its identity and start count kept |
| Players.Find | pointer_app.py:141-142 | `None` exactly when no listed player has the identity; otherwise the first position holding it |
| Players.RemoveAt | pointer_app.py:142 | one entry fewer; everything before the position and everything after it keeps its order |
| Players.RemoveKeepsIncreasing | pointer_app.py:139-143 | removal keeps the creation order of identities, and the removed identity is no longer listed |
| Players.AppendKeepsIncreasing | pointer_app.py:131 | appending a player with a fresh, larger identity keeps the creation order |
| OverlayModel.RelativePos | pointer_app.py:101-109 | without a bound display the global position; with one, the position that the display's origin translates back to the global one |
| OverlayModel.Initial | pointer_app.py:36-72 | a new overlay shows the globally read pointer upright and unpressed, has no click players and nothing released, has the loop loaded at the settings volume but not playing, runs its timer and is open |
| OverlayModel.NewClick | pointer_app.py:127-132 | a click player as a press creates it: the given fresh identity, the settings volume, playing, started once |
| OverlayModel.PollRuns | pointer_app.py:112 | definition: the guard of `poll_mouse`, open and visible; what a tick does on each side of it is stated by `AfterPoll` and `PollEffects` |
| OverlayModel.AfterPress | pointer_app.py:126-137 | one new click player, numbered after all earlier ones, at the settings volume and played once, is appended after the unchanged old ones; the cursor tilts to -15 and repaints; the button counts as held; the loop is stopped and played again (one more start, same volume); no other field changes |
| OverlayModel.AfterRelease | pointer_app.py:145-149 | the button no longer counts as held, the loop stops without a new start, the cursor straightens to 0 and repaints; nothing else changes, the click players included |
| OverlayModel.AfterMove | pointer_app.py:113-117 | the cursor is the relative pointer position; one repaint exactly when it moved; nothing else changes |
| OverlayModel.AfterButton | pointer_app.py:118-124 | the sampled level is remembered; an unchanged level changes nothing; a changed level sets held and the loop's playing to the new level |
| OverlayModel.AfterPoll | pointer_app.py:110-124 | a closed or hidden overlay's tick changes nothing; otherwise the sampled level is remembered and the cursor is the relative pointer position |
| OverlayModel.AfterVolumeChanged | pointer_app.py:478-483 | the shared setting, the loop and every live click player get the new volume; nothing else changes |
| OverlayModel.AfterKey | pointer_app.py:163-165 | any key but Escape changes nothing; Escape leaves the overlay closed, and on a closed overlay changes nothing |
| OverlayModel.Step | pointer_app.py:91-179 | a closed overlay stays closed; on a closed overlay ticks, key presses and close requests change nothing |
| OverlayModel.Run | pointer_app.py:91-179 | once closed, an overlay stays closed through any event sequence |
| OverlayModel.SampledLevels | pointer_app.py:110-124 | at most one sampled level per event |
| OverlayModel.VolumePreservesConsistent | pointer_app.py:96-99 | a volume change keeps the invariant |
| OverlayModel.ClosePreservesConsistent | pointer_app.py:167-179 | closing keeps the invariant: the live click players move, stopped, to the released log |
| OverlayModel.EscapeThenAnyKeyIsNoop | pointer_app.py:163-169 | after Escape, no further key changes anything |
| OverlayModel.PressAfterVolumeChangeUsesNewVolume | pointer_app.py:127-129 | a press after a volume change plays its click at the new volume |
| Sampling.Last | pointer_app.py:124 | with no sample the previous level; otherwise one of the sampled levels |
| Sampling.Rises | pointer_app.py:118-121 | at most one press per sample, and none while the level never changes |
| Sampling.Falls | pointer_app.py:118-124 | at most one release per sample, and none while the level never changes |
| Players.AccountedAppend | pointer_app.py:126-132 | appending the next-numbered played player keeps every created player live or released, never both |
| Players.AccountedRemove | pointer_app.py:139-143 | moving one live player, stopped, to the released log keeps the bookkeeping |
| Players.AccountedReleaseAll | pointer_app.py:173-176 | releasing all live players, stopped, keeps the bookkeeping |
| OverlayModel.ButtonEffects | pointer_app.py:118-149 | a false->true change appends exactly one new click player after the unchanged old ones, tilts to -15, sets the button held and plays the loop; a true->false change straightens to 0, stops the loop and leaves the click players; no change does nothing; the level is remembered |
| OverlayModel.PollEffects | pointer_app.py:111-149 | a closed or hidden overlay's tick changes nothing; otherwise the cursor follows, exactly the matching handler runs, and the sampled level is remembered |
| OverlayModel.PollCountsPress | pointer_app.py:111-131 | a tick past the guard remembers the sampled level and creates one click player exactly on a press edge |
| OverlayModel.AfterClickStatus | pointer_app.py:139-143 | only end of media for a listed player removes it (the first with that identity) and releases it, stopped at its end; anything else changes nothing; no other field ever changes |
| OverlayModel.AfterLoopStatus | pointer_app.py:151-154 | the loop restarts (plays again, one more start) exactly when the status is end of media and the button is held; otherwise nothing changes |
| OverlayModel.WithVolume | pointer_app.py:97-98 | same players in the same order, each with the new volume |
| OverlayModel.AfterSetVolume | pointer_app.py:96-99 | every live click player and the loop get the volume; the list's length and identities and everything else stay |
| OverlayModel.AfterChangeCursor | pointer_app.py:91-94 | the image is the new one and exactly one repaint is requested; nothing else changes |
| OverlayModel.AfterClose | pointer_app.py:167-179 | on a closed overlay nothing changes; otherwise it closes, stops the loop and the timer, stops and releases every live click player, empties the list, calls back once if there is a callback, and closes the window; no other field changes |
| OverlayModel.InitialIsConsistent | pointer_app.py:36-72 | a new overlay satisfies the invariant |
| OverlayModel.MovePreservesConsistent | pointer_app.py:114-117 | following the pointer keeps the invariant |
| OverlayModel.ButtonPreservesConsistent | pointer_app.py:118-149 | the press and release handlers keep the invariant: fresh identities stay in creation order and nothing is lost |
| OverlayModel.PollPreservesConsistent | pointer_app.py:111-149 | a tick keeps the invariant |
| OverlayModel.ClickStatusPreservesConsistent | pointer_app.py:139-143 | click cleanup keeps the invariant |
| OverlayModel.StepPreservesConsistent | pointer_app.py:91-179 | every handler keeps the invariant |
| OverlayModel.RunPreservesConsistent | pointer_app.py:91-179 | every state reached by any event sequence satisfies the invariant: every click player ever created is numbered `1 .. spawned` and is either live or released, never both and never twice; live ones are in creation order; a closed overlay has no live click player, no timer and no window and called back at most once; the rotation, the held flag and the remembered level agree, and the loop plays only while held |
| OverlayModel.OtherEventsKeepButton | pointer_app.py:111-124 | only a tick that gets past the guard touches the remembered level or creates a click player |
| OverlayModel.StepKeepsBinding | pointer_app.py:36-58 | no handler changes the bound display or the close callback |
| OverlayModel.RunKeepsBinding | pointer_app.py:36-58 | no event sequence changes the bound display or the close callback |
| OverlayModel.RunSnoc | pointer_app.py:111-179 | running one more event is one more step after the run |
| OverlayModel.RunCountsPresses | pointer_app.py:111-137 | over any event sequence, the click players created equal the false->true changes among the sampled levels, and the remembered level is the last sampled one |
| OverlayModel.TickCountStep | pointer_app.py:111-131 | one counted tick adds its press edge, if any, to the count of the samples after it |
| OverlayModel.CallbackAtMostOnce | pointer_app.py:167-179 | over any event sequence the close callback runs at most once, and exactly once if the overlay ended closed with a callback |
| OverlayModel.CloseIsIdempotent | pointer_app.py:167-169 | closing twice is closing once |
| OverlayModel.LoopEndAfterCloseWhileHeldRestarts | pointer_app.py:151-154 | as written, a loop end of media after a close with the button still held plays the loop again |
| OverlayModel.DuplicateClickEndIsNoop | pointer_app.py:139-143 | a repeated end-of-media notification for a click player changes nothing |
| Scenarios.PressTick | pointer_app.py:118-137 | a tick that sees the button go down appends its click player, tilts and plays the loop |
| Scenarios.ReleaseTick | pointer_app.py:145-149 | a tick that sees the button go up straightens, stops the loop and keeps the click players |
| Scenarios.TwoTicksSampled | pointer_app.py:111-124 | two ticks past the guard sample their two levels, in order |
| Scenarios.PressThenRelease | pointer_app.py:111-149 | press then release in two ticks: one press edge and one release edge, rotation 0 -> -15 -> 0, one click player left to finish |
| Scenarios.HoldRestartsLoopUntilRelease | pointer_app.py:126-154 | while held, two loop ends restart it twice; after the release a third does nothing |
| Scenarios.EndOfFirstWithId | pointer_app.py:139-143 | the end of a player whose identity exceeds that of every player before it takes exactly that player out of the list, whatever follows it |
| Scenarios.HeldLoopEnd | pointer_app.py:151-154 | while the button is held, an end of the loop plays it again and changes nothing else |
| Scenarios.ReleasedLoopEnd | pointer_app.py:151-154 | with the button up, an end of the loop changes nothing |
| Scenarios.HoldTwice | pointer_app.py:126-154 | a press and two loop ends while held leave the loop playing with three starts and the overlay open with the button held |
| Scenarios.DoubleClick | pointer_app.py:126-137 | press, release, press gives two click players with consecutive identities after the old ones |
| Scenarios.TwoClickEnds | pointer_app.py:139-143 | each of two click players leaves at its own end of media |
| Scenarios.DoubleClickVoicesEndIndependently | pointer_app.py:126-143 | a double click gives two coexisting click players, each removed independently at its own end |
| Overlay.CursorOverlay.constructor | pointer_app.py:36-72 | the fields are the initial state, which satisfies the invariant |
| Overlay.CursorOverlay.Poll | pointer_app.py:111-124 | the fields change as `AfterPoll` says, the invariant is kept, and the reported edge is the one whose handler ran |
| Overlay.CursorOverlay.MovePointer | pointer_app.py:114-117 | the fields change as `AfterMove` says |
| Overlay.CursorOverlay.TrackButton | pointer_app.py:118-124 | the fields change as `AfterButton` says, and the compared edge is returned |
| Overlay.CursorOverlay.HandlePress | pointer_app.py:126-137 | the fields change as `AfterPress` says |
| Overlay.CursorOverlay.SpawnClick | pointer_app.py:127-132 | one new click player at the settings volume is appended and played |
| Overlay.CursorOverlay.RestartLoop | pointer_app.py:136-137 | the loop is stopped and played again |
| Overlay.CursorOverlay.HandleRelease | pointer_app.py:145-149 | the fields change as `AfterRelease` says |
| Overlay.CursorOverlay.OnClickStatus | pointer_app.py:139-143 | the fields change as `AfterClickStatus` says, the invariant is kept, and after end of media the identity is no longer listed |
| Overlay.CursorOverlay.OnLoopStatus | pointer_app.py:151-154 | the fields change as `AfterLoopStatus` says and the invariant is kept |
| Overlay.CursorOverlay.SetVolume | pointer_app.py:96-99 | the loop over the players makes the fields change as `AfterSetVolume` says; the invariant is kept |
| Overlay.CursorOverlay.ChangeCursor | pointer_app.py:91-94 | the fields change as `AfterChangeCursor` says and the invariant is kept |
| Overlay.CursorOverlay.Close | pointer_app.py:167-179 | the fields change as `AfterClose` says and the invariant is kept |
| Overlay.CursorOverlay.MarkClosed | pointer_app.py:170-172 | marked closed, with the loop and the timer stopped |
| Overlay.CursorOverlay.ReleaseClickPlayers | pointer_app.py:173-176 | every live click player is stopped and released in order, and the list is emptied |
| Overlay.CursorOverlay.NotifyAndCloseWindow | pointer_app.py:177-179 | the callback count goes up by one exactly when there is a callback, and the window closes |
| Overlay.CursorOverlay.KeyPress | pointer_app.py:163-165 | Escape closes, as `AfterClose` says; any other key changes nothing |
| Overlay.VolumeChanged | pointer_app.py:478-483 | the shared setting and then every voice get the new volume, as `AfterVolumeChanged` says |

## Left out

- Qt window and painting machinery are left out: window flags, `setup_screen`/`showFullScreen`, the icon and `paintEvent`'s translate and rotate. They are UI plumbing over a library that is not modelled. `repaints` stands for the repaint requests.
- `update_cursor_image` is left out: pixmap loading, the 0.4 scale, rounding and the mirror transform are floating point and image work. `change_cursor` is modelled only through the stored image path.
- Players are not real audio. `QMediaPlayer` decoding, timing and `setVolume`'s own clamping to 0-100 are not modelled. Volumes are passed through unchanged, and players are value handles identified by number.
- `deleteLater` is modelled only as the append to the `released` log. Object destruction and aliasing between handles are not modelled.
- The 10 ms `QTimer` is not modelled. A tick is one `Poll` call, and `timerActive` only records whether the timer still runs.
- Qt's global state (`QCursor.pos()`, `mouseButtons()`, `isVisible()`) arrives as parameters of `Poll`.
- The bound display is represented only by its origin, the top-left corner of its geometry, read once at construction (see the `RelativePos` line below).
- File I/O and JSON are not modelled: `os.path.exists`, `open`, `json.load` and `save_settings`'s `json.dump`. `LoadSettings` receives the parsed object or `None`.
- Non-integer JSON values such as strings, floats and nested objects are not modelled. Settings values are integers, the kind the volume and screen handlers store. `save_settings` (pointer_app.py:31-33, called at 481 and 487) writes the whole loaded object back, so unknown keys of any type survive a save; the model keeps unknown integer keys only.
- `Settings.LoadSettings`: a file whose JSON is not an object (`[]`, `7` or `null`) makes the key test or the key assignment raise, which pointer_app.py:27 catches, so the defaults are returned. The model covers this with `None`. A top-level list or string that already contains both key names passes both tests and is returned unchanged by the source. `LoadSettings` takes only objects, so that case is not modelled.
- `Screens.ClampScreen` requires at least one display, because the corrected choice must name an existing one. The as-written pick covers no display at all: `PickedScreenAsWritten` is then `None`, the IndexError at pointer_app.py:453.
- `OverlayModel.RelativePos` and `Overlay.CursorOverlay.Poll`: the source reads `self.screen.geometry()` again on every tick (pointer_app.py:104-106). The model fixes the display origin at construction (`screenOrigin`, a `const`, kept by `RunKeepsBinding`). A display that moves while the overlay is open is not modelled.
- `on_cursor_change` is never called from the overlay, so it is not modelled.
- The `PointerApp` window is not modelled: layout, styles, the link button, the theme, and `start_pointer`/`toggle_pointer`/`on_screen_changed` restart wiring. Of it, only the display choice (`Screens`) and the volume handler (`Overlay.VolumeChanged`) are modelled.
- build.py is not part of this model.
- `Overlay.CursorOverlay.Close`: the fields change together after the loop over the click players, not one at a time as the source's statements do. No other code can observe the difference, because the program is single-threaded.
- `OverlayModel.LoopEndAfterCloseWhileHeldRestarts`: `loop_sound_if_needed` does not check `_closed`. This is modelled as written. No finding is claimed, because it needs Qt to deliver an end-of-media after `stop()`, and whether that happens is not modelled.

## Findings

| source | as written | input that shows it | evidently intended | confidence | as-written member | corrected member |
|---|---|---|---|---|---|---|
| pointer_app.py:452-453 | `screens[min(self.settings['selected_screen'], len(screens) - 1)]` caps only from above | a settings file with `"selected_screen": -1` and two displays binds the overlay to the last display; `-3` raises IndexError | the saved index is clamped into `0 .. len(screens) - 1` | not executed | Screens.NegativeSelectionEscapesClamp | Screens.ClampScreen |
