/** setup.js: choosing the mode on the mode cards, choosing the rigged
    target in the dropdown, the continue button's enable rule, and the
    settings record written when continuing. */
module SetupScreen {
  import opened Wrappers
  import opened JsText
  import opened Roster
  import opened Outcome
  import Settings

  /** The setup screen's state. `cardModes` is the `data-mode` of each mode
      card in page order (fixed by the page markup); `cardSelected` says which
      cards carry the `selected` class. `shownOption` is the dropdown option
      the page displays (0 is the placeholder); the script never resets it,
      so it can disagree with `preselected` once a mode change has dropped
      the preselection. */
  datatype Setup = Setup(
    participants: seq<Participant>,
    cardModes: seq<string>,
    cardSelected: seq<bool>,
    mode: Option<string>,
    preselected: Option<int>,
    continueDisabled: bool,
    shownOption: nat)

  /** `updateContinueButton`: the button is enabled exactly when a mode is
      chosen and, if that mode is rigged, a truthy id is preselected. */
  function ContinueDisabled(mode: Option<string>, preselected: Option<int>): (d: bool)
    ensures !d <==> Settings.ModeChosen(mode) && (mode == Some(Settings.RiggedMode) ==> Truthy(preselected))
    ensures mode.None? ==> d
  {
    if mode == Some(Settings.RiggedMode) then !Truthy(preselected) else !Settings.ModeChosen(mode)
  }

  /** What the static page markup fixes before any script runs: the mode of
      each card in page order, the cards that already carry the `selected`
      class, and whether the continue button starts disabled. */
  datatype Markup = Markup(cardModes: seq<string>, selectedCards: set<nat>, continueDisabled: bool)

  /** The page after `init`: the folder roster, no mode and no preselection,
      and the freshly filled dropdown showing its placeholder.
      `init` touches neither the cards' classes nor the continue button, so
      both start as the markup sets them. */
  function Init(markup: Markup): (s: Setup)
    ensures s.participants == SeedRoster(TeamPictures)
    ensures s.mode.None? && s.preselected.None?
    ensures s.cardModes == markup.cardModes && |s.cardSelected| == |markup.cardModes|
    ensures forall i :: 0 <= i < |markup.cardModes| ==> (s.cardSelected[i] <==> i in markup.selectedCards)
    ensures s.continueDisabled == markup.continueDisabled
    ensures s.shownOption == 0
  {
    Setup(SeedRoster(TeamPictures), markup.cardModes,
          seq(|markup.cardModes|, i => i in markup.selectedCards), None, None,
          markup.continueDisabled, 0)
  }

  /** `selectMode(m)`: the mode becomes m, exactly the cards whose mode is m
      are marked, any mode other than rigged drops the preselection, and the
      continue button is recomputed. */
  function SelectMode(s: Setup, m: string): (r: Setup)
    ensures r.mode == Some(m)
    ensures |r.cardSelected| == |s.cardModes|
    ensures forall i :: 0 <= i < |s.cardModes| ==> (r.cardSelected[i] <==> s.cardModes[i] == m)
    ensures m != Settings.RiggedMode ==> r.preselected.None?
    ensures m == Settings.RiggedMode ==> r.preselected == s.preselected
    ensures r.continueDisabled <==> (m == Settings.RiggedMode && !Truthy(r.preselected)) || (m != Settings.RiggedMode && m == "")
    ensures r.participants == s.participants && r.cardModes == s.cardModes
    ensures r.shownOption == s.shownOption
  {
    var preselected := if m == Settings.RiggedMode then s.preselected else None;
    s.(mode := Some(m),
       cardSelected := seq(|s.cardModes|, i requires 0 <= i < |s.cardModes| => s.cardModes[i] == m),
       preselected := preselected,
       continueDisabled := ContinueDisabled(Some(m), preselected))
  }

  /** The dropdown change handler's reading of a value: empty is `null`,
      anything else goes through `parseInt`. The empty test does not change
      the outcome: `parseInt("")` is NaN, which is no id either, so the
      handler agrees with the bare `parseInt` of script.js on every value. */
  function DropdownValue(v: string): (id: Option<int>)
    ensures v == "" ==> id.None?
    ensures id == ParseInt(v)
  {
    if v == "" then None else ParseInt(v)
  }

  /** The user picks option k of the dropdown: the preselection becomes the
      id of participant k-1, or nothing for the placeholder, and the continue
      button is recomputed. The dropdown now shows option k. */
  function ChooseOption(s: Setup, k: nat): (r: Setup)
    requires k <= |s.participants|
    ensures k == 0 ==> r.preselected.None?
    ensures k > 0 ==> r.preselected == Some(s.participants[k - 1].id)
    ensures r.continueDisabled == ContinueDisabled(s.mode, r.preselected)
    ensures r.mode == s.mode && r.participants == s.participants
    ensures r.cardModes == s.cardModes && r.cardSelected == s.cardSelected
    ensures r.shownOption == k
  {
    var preselected := DropdownValue(OptionValues(s.participants)[k]);
    Setup(s.participants, s.cardModes, s.cardSelected, s.mode, preselected,
          ContinueDisabled(s.mode, preselected), k)
  }

  /** What pressing continue does. */
  datatype ContinueResult =
    | Alerted(message: string)         // rigged without a preselection: nothing saved
    | Proceeded(store: Settings.Store) // settings saved, page moves to the selection screen

  /** The continue click handler. Its own guard only checks rigged mode;
      clicks on a disabled button never reach it. */
  function Continue(s: Setup, store: Settings.Store): (r: ContinueResult)
    ensures r.Alerted? <==> s.mode == Some(Settings.RiggedMode) && !Truthy(s.preselected)
    ensures r.Proceeded? ==>
      Settings.LoadSettings(r.store) == Settings.Loaded(s.mode, s.preselected, s.participants)
    ensures r.Proceeded? ==> r.store.savedParticipants == store.savedParticipants
  {
    if s.mode == Some(Settings.RiggedMode) && !Truthy(s.preselected) then
      Alerted("Please select a participant for preset selection")
    else
      var saved := Settings.SaveSettings(store, s.mode, s.preselected, s.participants);
      Settings.SaveLoadRoundTrip(store, s.mode, s.preselected, s.participants);
      Proceeded(saved)
  }

  /** An enabled continue button always saves: the handler's guard never
      rejects a click the enable rule lets through. The converse fails only
      for a button the markup left enabled before any mode was chosen. */
  lemma EnabledContinueProceeds(s: Setup, store: Settings.Store)
    requires !ContinueDisabled(s.mode, s.preselected)
    ensures Continue(s, store).Proceeded?
  {
  }

  // ----- Reachable states -------------------------------------------------

  /** The user's actions on the setup screen. */
  datatype Event = ClickCard(index: nat) | PickOption(k: nat)

  /** One action; a click on a card that does not exist, or a pick of an
      option that does not exist, cannot happen and changes nothing. The
      browser fires `change` only when the picked option differs from the
      one shown, so re-picking the shown option runs no handler. */
  function Apply(s: Setup, e: Event): (r: Setup)
    ensures e.PickOption? && e.k == s.shownOption ==> r == s
  {
    match e
    case ClickCard(i) => if i < |s.cardModes| then SelectMode(s, s.cardModes[i]) else s
    case PickOption(k) =>
      if k <= |s.participants| && k != s.shownOption then ChooseOption(s, k) else s
  }

  function Run(s: Setup, events: seq<Event>): Setup
    decreases |events|
  {
    if |events| == 0 then s else Run(Apply(s, events[0]), events[1..])
  }

  /** The preselection, when set, names a participant on the roster. */
  predicate PreselectionOnRoster(s: Setup) {
    s.preselected.None? || exists p :: p in s.participants && p.id == s.preselected.value
  }

  /** After any sequence of actions from the initial page, the roster is
      still the folder roster and any preselection names one of its
      participants. */
  lemma {:induction false} RunKeepsPreselectionOnRoster(s: Setup, events: seq<Event>)
    requires PreselectionOnRoster(s)
    ensures PreselectionOnRoster(Run(s, events))
    ensures Run(s, events).participants == s.participants
    decreases |events|
  {
    if |events| > 0 {
      var t := Apply(s, events[0]);
      match events[0] {
        case ClickCard(i) =>
        case PickOption(k) =>
          if 0 < k <= |s.participants| {
            assert s.participants[k - 1] in s.participants;
          }
      }
      RunKeepsPreselectionOnRoster(t, events[1..]);
    }
  }

  /** The dropdown keeps showing a pick whose preselection a mode change
      dropped: after rigged, participant k, another mode and rigged again,
      option k is still shown, nothing is preselected and continue is
      disabled, and picking k once more fires no `change`, so the page
      stays stuck until the user picks some other option first. */
  lemma StaleDropdownSwallowsRepick(s: Setup, rigged: nat, other: nat, k: nat)
    requires rigged < |s.cardModes| && s.cardModes[rigged] == Settings.RiggedMode
    requires other < |s.cardModes| && s.cardModes[other] != Settings.RiggedMode
    requires 0 < k <= |s.participants| && k != s.shownOption
    ensures var t := Run(s, [ClickCard(rigged), PickOption(k), ClickCard(other), ClickCard(rigged)]);
      && t.shownOption == k && t.preselected.None? && t.continueDisabled
      && Run(t, [PickOption(k)]) == t
  {
    var s1 := Apply(s, ClickCard(rigged));
    var s2 := Apply(s1, PickOption(k));
    var s3 := Apply(s2, ClickCard(other));
    var s4 := Apply(s3, ClickCard(rigged));
    assert Run(s, [ClickCard(rigged), PickOption(k), ClickCard(other), ClickCard(rigged)]) == s4 by {
      assert Run(s4, []) == s4;
      assert Run(s3, [ClickCard(rigged)]) == s4;
      assert [PickOption(k), ClickCard(other), ClickCard(rigged)][1..] == [ClickCard(other), ClickCard(rigged)];
      assert Run(s2, [ClickCard(other), ClickCard(rigged)]) == s4;
      assert Run(s1, [PickOption(k), ClickCard(other), ClickCard(rigged)]) == s4;
    }
    assert Run(s4, [PickOption(k)]) == Apply(s4, PickOption(k));
  }

  /** Settings saved from a reachable setup page in rigged mode always carry
      a truthy id that names a participant of the saved roster. */
  lemma RiggedSettingsNameAParticipant(markup: Markup, events: seq<Event>,
                                       store: Settings.Store)
    ensures var s := Run(Init(markup), events);
      var r := Continue(s, store);
      r.Proceeded? && s.mode == Some(Settings.RiggedMode) ==>
        var l := Settings.LoadSettings(r.store);
        && Truthy(l.preselectedId)
        && exists p :: p in l.participants && p.id == l.preselectedId.value
  {
    RunKeepsPreselectionOnRoster(Init(markup), events);
  }
}
