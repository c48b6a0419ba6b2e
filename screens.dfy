/**
 * Choosing the display the overlay appears on (pointer_app.py:357 and
 * pointer_app.py:451-453): the saved `selected_screen` is capped at the last
 * display, and the list of displays is then indexed with Python's rules.
 */
module Screens {
  import opened Common

  /**
   * `min(selected, count - 1)`: an index past the last display is capped at
   * the last one. With no display at all the cap is -1.
   */
  function CapAtLast(selected: int, count: nat): (r: int)
    ensures r <= count - 1 && r <= selected
    ensures r == selected || r == count - 1
  {
    if selected < count - 1 then selected else count - 1
  }

  /**
   * Python's `xs[i]` on a list of length `n`: the position it reads, or
   * `None` where it raises IndexError. Negative indices count from the end.
   */
  function PyIndex(i: int, n: nat): (r: Option<nat>)
    ensures r.Some? <==> 0 <= i + n && i < n
    ensures r.Some? ==> r.value < n
    ensures r.Some? && i >= 0 ==> r.value == i
    ensures r.Some? && i < 0 ==> r.value == n + i
  {
    if 0 <= i < n then Some(i)
    else if 0 <= i + n && i < 0 then Some(n + i)
    else None
  }

  /**
   * The display `start_pointer` picks as written: `screens[min(selected, count - 1)]`,
   * with `None` where the indexing raises IndexError.
   */
  function PickedScreenAsWritten(selected: int, count: nat): (r: Option<nat>)
    ensures r.Some? ==> r.value < count
    ensures count == 0 ==> r.None?
  {
    PyIndex(CapAtLast(selected, count), count)
  }

  /** For every non-negative saved index the written code picks a display, the capped one. */
  lemma AsWrittenPicksCappedIndex(selected: int, count: nat)
    requires count >= 1 && selected >= 0
    ensures PickedScreenAsWritten(selected, count).Some?
    ensures PickedScreenAsWritten(selected, count).value == if selected < count then selected else count - 1
  {
  }

  /**
   * A negative saved index is not clamped: with two displays, -1 selects the
   * last display instead of the first, and -3 raises IndexError.
   */
  lemma NegativeSelectionEscapesClamp()
    ensures PickedScreenAsWritten(-1, 2) == Some(1)
    ensures PickedScreenAsWritten(-3, 2) == None
  {
  }

  /** The clamp as intended: every saved index lands on an existing display. */
  function ClampScreen(selected: int, count: nat): (r: nat)
    requires count >= 1
    ensures r < count
    ensures 0 <= selected < count ==> r == selected
    ensures selected >= count ==> r == count - 1
    ensures selected < 0 ==> r == 0
  {
    if selected < 0 then 0 else if selected < count then selected else count - 1
  }

  /** Indexing the display list at the clamped index reads exactly that display and never raises. */
  lemma ClampedIndexReadsThatDisplay(selected: int, count: nat)
    requires count >= 1
    ensures PyIndex(ClampScreen(selected, count), count) == Some(ClampScreen(selected, count))
  {
  }

  /** On every index the settings panel itself can store, the corrected pick agrees with the written one. */
  lemma {:induction false} PickAgreesOnNonNegative(selected: int, count: nat)
    requires count >= 1 && selected >= 0
    ensures PickedScreenAsWritten(selected, count) == Some(ClampScreen(selected, count))
  {
    AsWrittenPicksCappedIndex(selected, count);
  }
}
