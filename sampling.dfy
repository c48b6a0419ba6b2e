/**
 * Edge detection over sampled left-button levels.
 *
 * The overlay does not receive button events; every poll it samples the
 * current level and compares it with the level of the previous poll
 * (pointer_app.py:118-124). This module states what one comparison yields
 * and counts, over a whole sequence of samples, how many press and release
 * edges fire.
 */
module Sampling {

  /** What one poll reports after comparing the new level with the previous one. */
  datatype Edge = NoEdge | PressEdge | ReleaseEdge

  /** The comparison made on every poll: a false->true change is a press, true->false a release. */
  function Detect(last: bool, level: bool): (e: Edge)
    ensures e == PressEdge <==> level && !last
    ensures e == ReleaseEdge <==> !level && last
    ensures e == NoEdge <==> level == last
  {
    if level && !last then PressEdge
    else if !level && last then ReleaseEdge
    else NoEdge
  }

  /** The level remembered after sampling `s`, starting from `prev`. */
  function Last(prev: bool, s: seq<bool>): (r: bool)
    ensures s == [] ==> r == prev
    ensures s != [] ==> r in s
  {
    if s == [] then prev else s[|s| - 1]
  }

  /** Number of press edges fired while sampling `s` after level `prev`. */
  function Rises(prev: bool, s: seq<bool>): (r: nat)
    ensures r <= |s|
    ensures (forall i :: 0 <= i < |s| ==> s[i] == prev) ==> r == 0
    decreases |s|
  {
    if s == [] then 0
    else (if Detect(prev, s[0]) == PressEdge then 1 else 0) + Rises(s[0], s[1..])
  }

  /** Number of release edges fired while sampling `s` after level `prev`. */
  function Falls(prev: bool, s: seq<bool>): (r: nat)
    ensures r <= |s|
    ensures (forall i :: 0 <= i < |s| ==> s[i] == prev) ==> r == 0
    decreases |s|
  {
    if s == [] then 0
    else (if Detect(prev, s[0]) == ReleaseEdge then 1 else 0) + Falls(s[0], s[1..])
  }

  /** A level as a number: 1 for held, 0 for up. */
  function Bit(b: bool): (r: int)
    ensures r == 1 <==> b
    ensures r == 0 <==> !b
  {
    if b then 1 else 0
  }

  /** One more sample adds a press exactly when it rises from the remembered level. */
  lemma {:induction false} RisesSnoc(prev: bool, s: seq<bool>, x: bool)
    ensures Rises(prev, s + [x]) == Rises(prev, s) + (if Detect(Last(prev, s), x) == PressEdge then 1 else 0)
    decreases |s|
  {
    if s == [] {
      assert s + [x] == [x];
      assert [x][1..] == [];
    } else {
      assert (s + [x])[0] == s[0];
      assert (s + [x])[1..] == s[1..] + [x];
      RisesSnoc(s[0], s[1..], x);
    }
  }

  /** One more sample adds a release exactly when it falls from the remembered level. */
  lemma {:induction false} FallsSnoc(prev: bool, s: seq<bool>, x: bool)
    ensures Falls(prev, s + [x]) == Falls(prev, s) + (if Detect(Last(prev, s), x) == ReleaseEdge then 1 else 0)
    decreases |s|
  {
    if s == [] {
      assert s + [x] == [x];
      assert [x][1..] == [];
    } else {
      assert (s + [x])[0] == s[0];
      assert (s + [x])[1..] == s[1..] + [x];
      FallsSnoc(s[0], s[1..], x);
    }
  }

  /**
   * Presses and releases alternate: their difference is exactly how the
   * remembered level changed, so at any time presses - releases is 1 while
   * the button is held and 0 otherwise (starting from "up").
   */
  lemma {:induction false} PressesMinusReleases(prev: bool, s: seq<bool>)
    ensures Rises(prev, s) - Falls(prev, s) == Bit(Last(prev, s)) - Bit(prev)
    decreases |s|
  {
    if s != [] {
      PressesMinusReleases(s[0], s[1..]);
      assert Last(s[0], s[1..]) == Last(prev, s);
    }
  }

  /**
   * Sampling faster never invents edges: repeating any sample (a poll that
   * sees the same level twice) leaves both counts unchanged.
   */
  lemma {:induction false} RepeatedSampleAddsNoEdge(prev: bool, s: seq<bool>, i: nat)
    requires i < |s|
    ensures Rises(prev, s[..i] + [s[i]] + s[i..]) == Rises(prev, s)
    ensures Falls(prev, s[..i] + [s[i]] + s[i..]) == Falls(prev, s)
    decreases |s|
  {
    var t := s[..i] + [s[i]] + s[i..];
    if i == 0 {
      assert t == [s[0]] + s;
      assert t[0] == s[0] && t[1..] == s;
    } else {
      var u := s[1..];
      assert t[0] == s[0];
      assert t[1..] == u[..i - 1] + [u[i - 1]] + u[i - 1..];
      RepeatedSampleAddsNoEdge(s[0], u, i - 1);
    }
  }
}
