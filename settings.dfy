/**
 * The settings store (pointer_app.py:17-33).
 *
 * The settings are a JSON object read from a file beside the program. The
 * file system and the JSON parser are not modelled: the caller passes the
 * parsed object, or `None` for every case in which the source falls back
 * to the defaults: the file is missing, cannot be read or does not parse,
 * or the parsed value is not an object that the key test and the key
 * assignment accept. Values are modelled as integers, the kind that the
 * volume and screen handlers store; unknown keys of other kinds are kept
 * by the source but not represented here.
 */
module Settings {
  import opened Common

  type Settings = map<string, int>

  const VolumeKey: string := "volume"
  const SelectedScreenKey: string := "selected_screen"

  /** The built-in defaults (pointer_app.py:18). */
  function Defaults(): (r: Settings)
    ensures r.Keys == {VolumeKey, SelectedScreenKey}
    ensures r[VolumeKey] == 100 && r[SelectedScreenKey] == 0
  {
    map[VolumeKey := 100, SelectedScreenKey := 0]
  }

  /** The order in which the default keys are visited (the dict literal's insertion order). */
  const DefaultKeys: seq<string> := [VolumeKey, SelectedScreenKey]

  /** A saved object with every default key added that it lacks. */
  function WithDefaults(saved: Settings): (r: Settings)
    ensures r.Keys == saved.Keys + Defaults().Keys
    ensures forall k :: k in saved ==> r[k] == saved[k]
    ensures forall k :: k in Defaults() && k !in saved ==> r[k] == Defaults()[k]
  {
    map k | k in saved.Keys + Defaults().Keys :: if k in saved then saved[k] else Defaults()[k]
  }

  /**
   * `load_settings`: with no readable object the defaults; otherwise the
   * saved object, keeping every key it has (known or not), with each missing
   * default key filled in one at a time.
   */
  method LoadSettings(saved: Option<Settings>) returns (r: Settings)
    ensures VolumeKey in r && SelectedScreenKey in r
    ensures saved.None? ==> r == Defaults()
    ensures saved.Some? ==> r.Keys == saved.value.Keys + Defaults().Keys
    ensures saved.Some? ==> forall k :: k in saved.value ==> r[k] == saved.value[k]
    ensures saved.Some? ==> forall k :: k in Defaults() && k !in saved.value ==> r[k] == Defaults()[k]
    ensures saved.Some? ==> r == WithDefaults(saved.value)
  {
    var defaults := Defaults();
    if saved.None? {
      return defaults;
    }
    r := saved.value;
    var i := 0;
    while i < |DefaultKeys|
      invariant 0 <= i <= |DefaultKeys|
      invariant r.Keys == saved.value.Keys + set j | 0 <= j < i :: DefaultKeys[j]
      invariant forall k :: k in saved.value ==> r[k] == saved.value[k]
      invariant forall j :: 0 <= j < i && DefaultKeys[j] !in saved.value ==> r[DefaultKeys[j]] == defaults[DefaultKeys[j]]
    {
      var key := DefaultKeys[i];
      if key !in r {
        r := r[key := defaults[key]];
      }
      i := i + 1;
    }
    assert DefaultKeys[0] in r && DefaultKeys[1] in r by {
      assert 0 < i && 1 < i;
    }
    assert forall k :: k in Defaults() ==> k == DefaultKeys[0] || k == DefaultKeys[1];
  }

  /**
   * An object that already holds both default keys is its own merge, so
   * loading a file written from loaded settings adds nothing.
   */
  lemma {:induction false} CompleteSettingsAreTheirOwnMerge(s: Settings)
    requires VolumeKey in s && SelectedScreenKey in s
    ensures WithDefaults(s) == s
  {
    assert Defaults().Keys == {VolumeKey, SelectedScreenKey};
    assert WithDefaults(s).Keys == s.Keys;
  }

  /** Merging is idempotent, so reloading never changes the settings further. */
  lemma MergeIdempotent(saved: Settings)
    ensures WithDefaults(WithDefaults(saved)) == WithDefaults(saved)
  {
    CompleteSettingsAreTheirOwnMerge(WithDefaults(saved));
  }

  /** A partial file with only a volume keeps it and gets the default screen. */
  lemma PartialFileGetsDefaultScreen()
    ensures WithDefaults(map[VolumeKey := 40]) == map[VolumeKey := 40, SelectedScreenKey := 0]
  {
    var m := map[VolumeKey := 40, SelectedScreenKey := 0];
    assert WithDefaults(map[VolumeKey := 40]).Keys == m.Keys;
  }
}
