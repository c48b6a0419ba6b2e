/**
 * Concrete interaction sequences for the overlay, each followed through
 * the functional model from any open, consistent state with the button up.
 */
module Scenarios {
  import opened Common
  import opened Sampling
  import opened Players
  import opened OverlayModel

  /** Literal sequences extended by one element. */
  lemma AppendToSingleton<T>(a: T, next: T)
    ensures [a] + [next] == [a, next]
  {
  }

  lemma AppendToPair<T>(a: T, b: T, next: T)
    ensures [a, b] + [next] == [a, b, next]
  {
  }

  lemma AppendToTriple<T>(a: T, b: T, c: T, next: T)
    ensures [a, b, c] + [next] == [a, b, c, next]
  {
  }

  lemma AppendToQuadruple<T>(a: T, b: T, c: T, d: T, next: T)
    ensures [a, b, c, d] + [next] == [a, b, c, d, next]
  {
  }

  lemma AppendTwo<T>(xs: seq<T>, a: T, b: T)
    ensures xs + [a] + [b] == xs + [a, b]
  {
  }

  /** A tick that samples the button down on an open, visible overlay whose button was up. */
  lemma PressTick(s: OverlayState, p: Point)
    requires !s.closed && !s.lastDown
    ensures var t := Step(s, Tick(true, p, true));
      && t.clickPlayers == s.clickPlayers + [NewClick(s.spawned + 1, s.settingsVolume)]
      && t.spawned == s.spawned + 1 && t.settingsVolume == s.settingsVolume
      && t.lastDown && !t.closed && t.mouseDown && t.rotation == PressedRotation
      && t.loop.playing && t.loop.starts == s.loop.starts + 1
  {
    PollEffects(s, true, p, true);
  }

  /** A tick that samples the button up on an open, visible overlay whose button was down. */
  lemma ReleaseTick(s: OverlayState, q: Point)
    requires !s.closed && s.lastDown
    ensures var t := Step(s, Tick(false, q, true));
      && t.clickPlayers == s.clickPlayers && t.spawned == s.spawned && t.settingsVolume == s.settingsVolume
      && !t.lastDown && !t.closed && !t.mouseDown && t.rotation == RestRotation
      && !t.loop.playing && t.loop.starts == s.loop.starts
  {
    PollEffects(s, false, q, true);
  }

  /** Two ticks that get past the guard sample their two levels. */
  lemma TwoTicksSampled(s: OverlayState, p: Point, q: Point, a: bool, b: bool)
    requires !s.closed
    ensures SampledLevels(s, [Tick(a, p, true), Tick(b, q, true)]) == [a, b]
  {
    var e1, e2 := Tick(a, p, true), Tick(b, q, true);
    var t := Step(s, e1);
    PollEffects(s, a, p, true);
    assert [e2][1..] == [];
    assert SampledLevels(t, [e2]) == [b] + SampledLevels(Step(t, e2), []);
    assert [e1, e2][1..] == [e2];
    assert SampledLevels(s, [e1, e2]) == [a] + SampledLevels(t, [e2]);
  }

  /**
   * A press seen by one tick and its release seen by the next: one press
   * edge and one release edge fire, the cursor tilts and straightens
   * again, and the single click player created is left to finish.
   */
  lemma PressThenRelease(s: OverlayState, p: Point, q: Point)
    requires Consistent(s) && !s.closed && !s.lastDown
    ensures var es := [Tick(true, p, true), Tick(false, q, true)];
      && Rises(s.lastDown, SampledLevels(s, es)) == 1
      && Falls(s.lastDown, SampledLevels(s, es)) == 1
      && s.rotation == RestRotation
      && Run(s, [Tick(true, p, true)]).rotation == PressedRotation
      && Run(s, es).rotation == RestRotation
      && Run(s, es).clickPlayers == s.clickPlayers + [NewClick(s.spawned + 1, s.settingsVolume)]
      && !Run(s, es).mouseDown && !Run(s, es).loop.playing
  {
    var e1, e2 := Tick(true, p, true), Tick(false, q, true);
    PressTick(s, p);
    var m := Step(s, e1);
    ReleaseTick(m, q);
    RunSnoc(s, [], e1);
    assert [] + [e1] == [e1];
    RunSnoc(s, [e1], e2);
    AppendToSingleton(e1, e2);
    TwoTicksSampled(s, p, q, true, false);
    assert Rises(false, [true]) == 1;
    assert Falls(true, [false]) == 1;
  }

  /** While the button is held, each end of media of the loop plays it again and changes nothing else. */
  lemma HeldLoopEnd(m: OverlayState)
    requires m.mouseDown
    ensures var t := Step(m, LoopStatus(EndOfMedia));
      t == m.(loop := t.loop) && t.loop.playing && t.loop.starts == m.loop.starts + 1
  {
  }

  /** Once the button is up, an end of media of the loop changes nothing. */
  lemma ReleasedLoopEnd(m: OverlayState)
    requires !m.mouseDown
    ensures Step(m, LoopStatus(EndOfMedia)) == m
  {
  }

  /** Press, then two ends of the loop while held. */
  lemma HoldTwice(s: OverlayState, p: Point)
    requires !s.closed && !s.lastDown
    ensures var held := Run(s, [Tick(true, p, true), LoopStatus(EndOfMedia), LoopStatus(EndOfMedia)]);
      && held.loop.playing && held.loop.starts == s.loop.starts + 3
      && held.lastDown && !held.closed
  {
    var press, end := Tick(true, p, true), LoopStatus(EndOfMedia);
    PressTick(s, p);
    var m1 := Step(s, press);
    HeldLoopEnd(m1);
    var m2 := Step(m1, end);
    HeldLoopEnd(m2);
    var m3 := Step(m2, end);
    assert [press, end, end][1..] == [end, end];
    assert [end, end][1..] == [end];
    assert [end][1..] == [];
    assert Run(s, [press, end, end]) == Run(m1, [end, end]) == Run(m2, [end]) == Run(m3, []);
  }

  /**
   * Holding the button while the hold loop reaches its end twice restarts
   * it twice; once released, a further end of media does not restart it.
   */
  lemma HoldRestartsLoopUntilRelease(s: OverlayState, p: Point, q: Point)
    requires !s.closed && !s.lastDown
    ensures var press, end, release := Tick(true, p, true), LoopStatus(EndOfMedia), Tick(false, q, true);
      var held := Run(s, [press, end, end]);
      var released := Run(s, [press, end, end, release]);
      && held.loop.playing && held.loop.starts == s.loop.starts + 3
      && !released.loop.playing && released.loop.starts == held.loop.starts
      && Run(s, [press, end, end, release, end]) == released
  {
    var press, end, release := Tick(true, p, true), LoopStatus(EndOfMedia), Tick(false, q, true);
    HoldTwice(s, p);
    var held := Run(s, [press, end, end]);
    ReleaseTick(held, q);
    var released := Step(held, release);
    ReleasedLoopEnd(released);
    RunSnoc(s, [press, end, end], release);
    AppendToTriple(press, end, end, release);
    AppendToQuadruple(press, end, end, release, end);
    RunSnoc(s, [press, end, end, release], end);
  }

  /**
   * The end of media of a player whose identity exceeds that of every
   * player listed before it takes exactly that player out of the list,
   * whatever is listed after it.
   */
  lemma EndOfFirstWithId(ps: seq<Player>, a: Player, tail: seq<Player>)
    requires forall k :: 0 <= k < |ps| ==> ps[k].id < a.id
    ensures Find(ps + [a] + tail, a.id) == Some(|ps|)
    ensures RemoveAt(ps + [a] + tail, |ps|) == ps + tail
  {
    var all := ps + [a] + tail;
    assert all[|ps|] == a;
    assert forall k :: 0 <= k < |ps| ==> all[k].id != a.id by {
      forall k | 0 <= k < |ps| ensures all[k].id != a.id {
        assert all[k] == ps[k];
      }
    }
    assert all[..|ps|] == ps;
    assert all[|ps| + 1..] == tail;
  }

  /** Press, release, press: two click players, the later one with the larger identity. */
  lemma DoubleClick(s: OverlayState, p: Point)
    requires !s.closed && !s.lastDown
    ensures var down, up := Tick(true, p, true), Tick(false, p, true);
      Run(s, [down, up, down]).clickPlayers
        == s.clickPlayers + [NewClick(s.spawned + 1, s.settingsVolume)] + [NewClick(s.spawned + 2, s.settingsVolume)]
  {
    var down, up := Tick(true, p, true), Tick(false, p, true);
    PressTick(s, p);
    var m1 := Step(s, down);
    ReleaseTick(m1, p);
    var m2 := Step(m1, up);
    PressTick(m2, p);
    RunSnoc(s, [], down);
    assert [] + [down] == [down];
    RunSnoc(s, [down], up);
    AppendToSingleton(down, up);
    AppendToPair(down, up, down);
    RunSnoc(s, [down, up], down);
  }

  /** The two end-of-media notifications, first then second, each take out their own player. */
  lemma TwoClickEnds(m: OverlayState, ps: seq<Player>, first: Player, second: Player)
    requires m.clickPlayers == ps + [first] + [second]
    requires forall k :: 0 <= k < |ps| ==> ps[k].id < first.id < second.id
    ensures Step(m, ClickStatus(first.id, EndOfMedia)).clickPlayers == ps + [second]
    ensures Step(Step(m, ClickStatus(first.id, EndOfMedia)), ClickStatus(second.id, EndOfMedia)).clickPlayers == ps
  {
    EndOfFirstWithId(ps, first, [second]);
    var m4 := Step(m, ClickStatus(first.id, EndOfMedia));
    assert m4.clickPlayers == ps + [second];
    EndOfFirstWithId(ps, second, []);
    assert ps + [second] + [] == ps + [second];
    assert ps + [] == ps;
  }

  /** Two presses before the first click sound ends: the two players coexist and each leaves on its own end of media. */
  lemma DoubleClickVoicesEndIndependently(s: OverlayState, p: Point)
    requires !s.closed && !s.lastDown
    requires forall k :: 0 <= k < |s.clickPlayers| ==> s.clickPlayers[k].id <= s.spawned
    ensures var down, up := Tick(true, p, true), Tick(false, p, true);
      var first, second := NewClick(s.spawned + 1, s.settingsVolume), NewClick(s.spawned + 2, s.settingsVolume);
      var clicked := [down, up, down];
      && first.id != second.id
      && Run(s, clicked).clickPlayers == s.clickPlayers + [first, second]
      && Run(s, clicked + [ClickStatus(first.id, EndOfMedia)]).clickPlayers == s.clickPlayers + [second]
      && Run(s, clicked + [ClickStatus(first.id, EndOfMedia), ClickStatus(second.id, EndOfMedia)]).clickPlayers
           == s.clickPlayers
  {
    var down, up := Tick(true, p, true), Tick(false, p, true);
    var first, second := NewClick(s.spawned + 1, s.settingsVolume), NewClick(s.spawned + 2, s.settingsVolume);
    var clicked := [down, up, down];
    var end1, end2 := ClickStatus(first.id, EndOfMedia), ClickStatus(second.id, EndOfMedia);
    DoubleClick(s, p);
    AppendTwo(s.clickPlayers, first, second);
    var m := Run(s, clicked);
    assert m.clickPlayers == s.clickPlayers + [first] + [second];
    TwoClickEnds(m, s.clickPlayers, first, second);
    RunSnoc(s, clicked, end1);
    RunSnoc(s, clicked + [end1], end2);
    AppendTwo(clicked, end1, end2);
  }
}
