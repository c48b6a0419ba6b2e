/**
 * Sound voices as abstract handles.
 *
 * A `QMediaPlayer` is reduced to what the overlay can observe and change:
 * an identity, whether it is playing, the volume last given to it and how
 * many times `play()` was called on it. Playback itself is not modelled;
 * the player's status notifications become explicit calls on the overlay.
 */
module Players {
  import opened Common

  /** The media statuses a player reports (the toolkit's `QMediaPlayer.MediaStatus`). */
  datatype MediaStatus =
    | UnknownMediaStatus | NoMedia | LoadingMedia | LoadedMedia | StalledMedia
    | BufferingMedia | BufferedMedia | EndOfMedia | InvalidMedia

  datatype Player = Player(id: nat, playing: bool, volume: int, starts: nat)

  /** `play()`: the player plays, and one more start is counted. */
  function Play(p: Player): (r: Player)
    ensures r.playing && r.starts == p.starts + 1 && r.id == p.id && r.volume == p.volume
  {
    p.(playing := true, starts := p.starts + 1)
  }

  /** `stop()`: the player no longer plays; identity, volume and start count stay. */
  function Stop(p: Player): (r: Player)
    ensures !r.playing && r.starts == p.starts && r.id == p.id && r.volume == p.volume
  {
    p.(playing := false)
  }

  /**
   * Identities strictly increase along the list. Players are created with
   * ever larger identities and appended, so the live list keeps this order;
   * in particular no identity occurs twice.
   */
  ghost predicate IncreasingIds(ps: seq<Player>)
  {
    forall i, j :: 0 <= i < j < |ps| ==> ps[i].id < ps[j].id
  }

  /** Every player of `ps`, stopped. */
  function StopAll(ps: seq<Player>): (r: seq<Player>)
    ensures |r| == |ps|
    ensures forall k :: 0 <= k < |ps| ==> !r[k].playing && r[k].id == ps[k].id && r[k].starts == ps[k].starts
  {
    seq(|ps|, k requires 0 <= k < |ps| => Stop(ps[k]))
  }

  /**
   * Python's `p in players` followed by `players.remove(p)` on identities:
   * the position of the first player with identity `id`, if any.
   */
  function Find(ps: seq<Player>, id: nat): (r: Option<nat>)
    ensures r.None? <==> forall k :: 0 <= k < |ps| ==> ps[k].id != id
    ensures r.Some? ==> r.value < |ps| && ps[r.value].id == id
    ensures r.Some? ==> forall k :: 0 <= k < r.value ==> ps[k].id != id
  {
    if ps == [] then None
    else if ps[0].id == id then Some(0)
    else match Find(ps[1..], id)
      case None => None
      case Some(k) => Some(k + 1)
  }

  /** The list with entry `i` taken out; everything else keeps its order. */
  function RemoveAt(ps: seq<Player>, i: nat): (r: seq<Player>)
    requires i < |ps|
    ensures |r| + 1 == |ps|
    ensures forall k :: 0 <= k < i ==> r[k] == ps[k]
    ensures forall k :: i <= k < |r| ==> r[k] == ps[k + 1]
  {
    ps[..i] + ps[i + 1..]
  }

  /**
   * Taking a player out keeps the order of identities, and afterwards no
   * remaining player has the removed player's identity.
   */
  lemma RemoveKeepsIncreasing(ps: seq<Player>, i: nat)
    requires i < |ps| && IncreasingIds(ps)
    ensures IncreasingIds(RemoveAt(ps, i))
    ensures Find(RemoveAt(ps, i), ps[i].id).None?
  {
  }

  /** Appending a player with a larger identity than all keeps the order. */
  lemma AppendKeepsIncreasing(ps: seq<Player>, p: Player)
    requires IncreasingIds(ps)
    requires forall k :: 0 <= k < |ps| ==> ps[k].id < p.id
    ensures IncreasingIds(ps + [p])
  {
  }

  /**
   * The bookkeeping of click players: of the `spawned` players numbered
   * `1 .. spawned`, each is either live or released, never both and never
   * twice. Live ones keep their creation order and are one-shots played once.
   */
  ghost predicate Accounted(live: seq<Player>, released: seq<Player>, spawned: nat)
  {
    && |live| + |released| == spawned
    && (forall i :: 0 <= i < |live| ==> 1 <= live[i].id <= spawned && live[i].playing && live[i].starts == 1)
    && IncreasingIds(live)
    && (forall i :: 0 <= i < |released| ==> 1 <= released[i].id <= spawned)
    && (forall i, j :: 0 <= i < j < |released| ==> released[i].id != released[j].id)
    && (forall i, j :: 0 <= i < |released| && 0 <= j < |live| ==> released[i].id != live[j].id)
  }

  /** Creating the next player and appending it keeps the bookkeeping. */
  lemma AccountedAppend(live: seq<Player>, released: seq<Player>, spawned: nat, p: Player)
    requires Accounted(live, released, spawned)
    requires p.id == spawned + 1 && p.playing && p.starts == 1
    ensures Accounted(live + [p], released, spawned + 1)
  {
    AppendKeepsIncreasing(live, p);
    var l := live + [p];
    assert forall j :: 0 <= j < |live| ==> l[j] == live[j];
  }

  /** Moving one live player, stopped, to the released log keeps the bookkeeping. */
  lemma AccountedRemove(live: seq<Player>, released: seq<Player>, spawned: nat, k: nat)
    requires Accounted(live, released, spawned) && k < |live|
    ensures Accounted(RemoveAt(live, k), released + [Stop(live[k])], spawned)
  {
    RemoveKeepsIncreasing(live, k);
    var l, r := RemoveAt(live, k), released + [Stop(live[k])];
    assert forall j :: 0 <= j < |l| ==> l[j] == live[if j < k then j else j + 1];
    assert forall i :: 0 <= i < |released| ==> r[i] == released[i];
    assert r[|released|].id == live[k].id;
    forall i, j | 0 <= i < |r| && 0 <= j < |l|
      ensures r[i].id != l[j].id
    {
      if i == |released| {
        var j' := if j < k then j else j + 1;
        assert l[j] == live[j'] && j' != k;
      }
    }
  }

  /** Releasing every live player, stopped, keeps the bookkeeping. */
  lemma AccountedReleaseAll(live: seq<Player>, released: seq<Player>, spawned: nat)
    requires Accounted(live, released, spawned)
    ensures Accounted([], released + StopAll(live), spawned)
  {
    var r := released + StopAll(live);
    assert forall i :: 0 <= i < |released| ==> r[i] == released[i];
    assert forall i :: |released| <= i < |r| ==> r[i].id == live[i - |released|].id;
  }
}
