/** The `localStorage` keys the screens share, as an abstract store of
    records (JSON encoding is not modelled): `randomizerSettings`, written
    by setup.js and read by randomizer.js, and `participants`, written by
    script.js. */
module Settings {
  import opened Wrappers
  import opened Roster

  /** The settings object. `participants` None stands for a record that
      lacks the field (or holds `null`). */
  datatype Record = Record(mode: Option<string>, preselectedId: Option<int>, participants: Option<seq<Participant>>)

  /** One slot per key; None is a key that was never written. */
  datatype Store = Store(settings: Option<Record>, savedParticipants: Option<seq<Participant>>)

  const EmptyStore := Store(None, None)

  /** The mode string that turns on preset selection. */
  const RiggedMode: string := "rigged"

  /** JavaScript truthiness of a mode: `null` and `""` are falsy. */
  predicate ModeChosen(mode: Option<string>) {
    mode.Some? && mode.value != ""
  }

  /** `saveSettings` in setup.js: the record holds exactly the current mode,
      preselected id and roster; the other key is untouched. */
  function SaveSettings(store: Store, mode: Option<string>, preselected: Option<int>, ps: seq<Participant>)
    : (r: Store)
    ensures r.settings.Some?
    ensures r.settings.value.mode == mode && r.settings.value.preselectedId == preselected
    ensures r.settings.value.participants == Some(ps)
    ensures r.savedParticipants == store.savedParticipants
  {
    store.(settings := Some(Record(mode, preselected, Some(ps))))
  }

  /** `saveParticipants` in script.js: overwrites the `participants` key only. */
  function SaveParticipants(store: Store, ps: seq<Participant>): (r: Store)
    ensures r.savedParticipants == Some(ps) && r.settings == store.settings
  {
    store.(savedParticipants := Some(ps))
  }

  /** What the selection screen's globals hold after `loadSettings`. */
  datatype Loaded = Loaded(mode: Option<string>, preselectedId: Option<int>, participants: seq<Participant>)

  /** `loadSettings` in randomizer.js: with no record the globals keep their
      initial null/null/[]; a record missing its participants reads as []. */
  function LoadSettings(store: Store): (l: Loaded)
    ensures store.settings.None? ==> l == Loaded(None, None, [])
    ensures store.settings.Some? ==>
      && l.mode == store.settings.value.mode
      && l.preselectedId == store.settings.value.preselectedId
      && l.participants == store.settings.value.participants.GetOr([])
  {
    match store.settings
    case None => Loaded(None, None, [])
    case Some(rec) => Loaded(rec.mode, rec.preselectedId, rec.participants.GetOr([]))
  }

  /** Saving then loading hands the selection screen exactly the mode,
      preselected id and roster (in order) that setup held. */
  lemma {:induction false} SaveLoadRoundTrip(store: Store, mode: Option<string>, preselected: Option<int>,
                                             ps: seq<Participant>)
    ensures LoadSettings(SaveSettings(store, mode, preselected, ps)) == Loaded(mode, preselected, ps)
  {
    var s := SaveSettings(store, mode, preselected, ps);
    assert s.settings == Some(Record(mode, preselected, Some(ps)));
  }

  /** The roster that script.js saves under its own key never reaches the
      selection screen. */
  lemma SavedParticipantsIgnored(store: Store, ps: seq<Participant>)
    ensures LoadSettings(SaveParticipants(store, ps)) == LoadSettings(store)
  {
  }
}
