/** The two-page flow: settings chosen on setup.html are saved, read back
    by randomizer.html, and decide the winner there. */
module Flow {
  import opened Wrappers
  import opened Roster
  import opened Outcome
  import Settings
  import SetupScreen
  import SelectionScreen

  /** Rigged mode end to end: whatever the user did on the setup page,
      if continue saved rigged settings then the selection page opens, and
      its first select starts a run whose winner is never `undefined`: it
      is the folder participant at position id - 1 for the preselected id. */
  lemma RiggedFlowPicksPreselected(markup: SetupScreen.Markup, events: seq<SetupScreen.Event>,
                                   store: Settings.Store, r: Draw, coin: Draw, pick: Draw, now: real)
    ensures var s := SetupScreen.Run(SetupScreen.Init(markup), events);
      var c := SetupScreen.Continue(s, store);
      c.Proceeded? && s.mode == Some(Settings.RiggedMode) ==>
        && SelectionScreen.Init(c.store).Ready?
        && var x := SelectionScreen.Start(SelectionScreen.Init(c.store).screen, r, coin, pick, now);
        && x.alert.None?
        && |x.screen.loops| == 1 && x.screen.loops[0].anim.Some?
        && 1 <= s.preselected.value <= |TeamPictures|
        && x.screen.loops[0].anim.value.winner == SeedRoster(TeamPictures)[s.preselected.value - 1]
  {
    var s := SetupScreen.Run(SetupScreen.Init(markup), events);
    var c := SetupScreen.Continue(s, store);
    if c.Proceeded? && s.mode == Some(Settings.RiggedMode) {
      SetupScreen.RunKeepsPreselectionOnRoster(SetupScreen.Init(markup), events);
      var id := s.preselected.value;
      var ps := SeedRoster(TeamPictures);
      var q :| q in ps && q.id == id;
      SeedIdsDistinct(TeamPictures);
      SeedLookup(TeamPictures, id);
    }
  }

  /** Random mode end to end: the run's winner is the participant the
      draw `r` indexes in the roster setup saved. */
  lemma RandomFlowPicksByDraw(markup: SetupScreen.Markup, events: seq<SetupScreen.Event>,
                              store: Settings.Store, r: Draw, coin: Draw, pick: Draw, now: real)
    ensures var s := SetupScreen.Run(SetupScreen.Init(markup), events);
      var c := SetupScreen.Continue(s, store);
      c.Proceeded? && Settings.ModeChosen(s.mode) && s.mode != Some(Settings.RiggedMode) ==>
        && SelectionScreen.Init(c.store).Ready?
        && var x := SelectionScreen.Start(SelectionScreen.Init(c.store).screen, r, coin, pick, now);
        && x.alert.None?
        && |x.screen.loops| == 1 && x.screen.loops[0].anim.Some?
        && x.screen.loops[0].anim.value.winner == SeedRoster(TeamPictures)[RandomIndex(r, |TeamPictures|)]
  {
    var s := SetupScreen.Run(SetupScreen.Init(markup), events);
    SetupScreen.RunKeepsPreselectionOnRoster(SetupScreen.Init(markup), events);
  }
}
