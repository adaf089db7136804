/** script.js: the single-page version, with roster editing, the mode
    radios and dropdown, and the interval animation of 50 ticks. As on the
    selection screen, the browser's timers are explicit state: the running
    intervals (with their handles) and the pending 500 ms reveals. */
module LegacyScreen {
  import opened Wrappers
  import opened JsText
  import opened Roster
  import opened Outcome
  import opened Timers
  import Settings

  const EnterNameAlert: string := "Please enter a name"
  const NoPreselectionAlert: string := "Please select a participant for preset selection"

  /** Ticks in one run (`totalIterations`). */
  const TotalIterations: nat := 50
  /** A tick may highlight the winner only when the counter before it is
      above `totalIterations * 0.7`, which evaluates to exactly 35. */
  const HighlightAfter: nat := 35
  /** A highlighting tick needs a draw above this. */
  const HighlightOdds: real := 0.3

  /** One `setInterval` of `animateSelection`: its handle, the closure's
      `iteration` counter and winner (None is `undefined`), the parsed id of
      each item and which items carry the highlight. */
  datatype Ticker = Ticker(
    id: nat,
    iteration: nat,
    winner: Option<Participant>,
    itemIds: seq<Option<int>>,
    highlighted: seq<bool>)

  /** What one tick did: the ticker's new state, whether it reached the
      `clearInterval(animationInterval)` call, and the participant whose
      reveal it scheduled, if any. */
  datatype TickOutcome = TickOutcome(ticker: Ticker, clears: bool, shows: Option<Participant>)

  /** One run of the interval callback with highlight draw `coin`. After
      tick 35 a draw above 0.3 leaves exactly the winner's items lit; the
      tick that brings the counter to 50 clears the global interval, lights
      exactly the winner's items and schedules the reveal. With an
      `undefined` winner the callback throws where it reads the winner's id:
      at a highlighting tick before counting, and at the last tick after
      clearing the interval, so no reveal is ever scheduled. */
  function Tick(t: Ticker, coin: Draw): (o: TickOutcome)
    requires |t.highlighted| == |t.itemIds|
    ensures o.ticker.id == t.id && o.ticker.winner == t.winner && o.ticker.itemIds == t.itemIds
    ensures |o.ticker.highlighted| == |t.itemIds|
    ensures t.winner.Some? ==>
      && o.ticker.iteration == t.iteration + 1
      && (o.clears <==> t.iteration + 1 >= TotalIterations)
      && (o.shows.Some? <==> o.clears)
      && (o.shows.Some? ==> o.shows == t.winner)
      && (o.clears || (t.iteration > HighlightAfter && coin > HighlightOdds) ==>
            forall i :: 0 <= i < |t.itemIds| ==> (o.ticker.highlighted[i] <==> t.itemIds[i] == Some(t.winner.value.id)))
      && (!o.clears && !(t.iteration > HighlightAfter && coin > HighlightOdds) ==>
            o.ticker.highlighted == t.highlighted)
    ensures t.winner.None? ==> o.shows.None?
    ensures t.winner.None? && t.iteration > HighlightAfter && coin > HighlightOdds ==> o.ticker == t && !o.clears
  {
    var highlighting := t.iteration > HighlightAfter && coin > HighlightOdds;
    match t.winner
    case Some(w) =>
      var lit := if highlighting then LightOnly(t.itemIds, w.id) else t.highlighted;
      var n := t.iteration + 1;
      if n >= TotalIterations then
        TickOutcome(t.(iteration := n, highlighted := LightOnly(t.itemIds, w.id)), true, Some(w))
      else
        TickOutcome(t.(iteration := n, highlighted := lit), false, None)
    case None =>
      if highlighting then TickOutcome(t, false, None)
      else
        var n := t.iteration + 1;
        if n >= TotalIterations then
          // the final loop clears the first item's highlight before it throws
          var h := if |t.highlighted| > 0 then t.highlighted[0 := false] else t.highlighted;
          TickOutcome(t.(iteration := n, highlighted := h), true, None)
        else TickOutcome(t.(iteration := n), false, None)
  }

  // ----- Page state -------------------------------------------------------

  /** The page's globals and the parts of the page the logic reads:
      the two text fields, the checked mode radio's value, the dropdown's
      value (`choice`), the select button, the result, the `participants`
      key of the store, and the timers. `stored` is the global
      `animationInterval`; `nextTimer` the handle the browser hands out
      next. */
  datatype Page = Page(
    participants: seq<Participant>,
    nameField: string,
    imageField: string,
    modeValue: string,
    riggedShown: bool,
    choice: string,
    isSelecting: bool,
    selectDisabled: bool,
    areaActive: bool,
    shown: Option<Participant>,
    store: Settings.Store,
    tickers: seq<Ticker>,
    nextTimer: nat,
    stored: Option<nat>,
    pending: seq<Participant>)

  /** `updateUI`: the dropdown is rebuilt (so its value falls back to the
      placeholder) and the select button's state recomputed. */
  function UpdateUI(p: Page): (r: Page)
    ensures r.choice == "" && (r.selectDisabled <==> |p.participants| == 0 || p.isSelecting)
    ensures r.participants == p.participants && r.isSelecting == p.isSelecting
  {
    p.(choice := "", selectDisabled := |p.participants| == 0 || p.isSelecting)
  }

  /** `init`: the folder roster, the fields as the markup leaves them, the
      mode radio checked by the markup, then `updateUI`. The stored
      `participants` key is not read. */
  function Init(store: Settings.Store, checkedMode: string, riggedShownInMarkup: bool): (p: Page)
    ensures p.participants == SeedRoster(TeamPictures) && |p.participants| == 24
    ensures p.choice == "" && !p.isSelecting && !p.selectDisabled && p.shown.None?
    ensures p.tickers == [] && p.pending == [] && p.stored.None? && p.store == store
  {
    UpdateUI(Page(SeedRoster(TeamPictures), "", "", checkedMode, riggedShownInMarkup, "", false, false,
                  false, None, store, [], 1, None, []))
  }

  /** The page after an event, and the alert it raised, if any. */
  datatype Reaction = Reaction(page: Page, alert: Option<string>)

  /** `addParticipant` with clock reading `now`: a name that trims to
      nothing raises an alert and changes nothing; otherwise the entry is
      appended, the fields are emptied, the roster is saved and the page
      refreshed. A running selection, its intervals and pending reveals are
      left alone. */
  function Add(p: Page, now: int): (x: Reaction)
    ensures x.alert.Some? <==> AllSpace(p.nameField)
    ensures x.alert.Some? ==> x.alert.value == EnterNameAlert && x.page == p
    ensures x.alert.None? ==>
      && Some(x.page.participants) == AddParticipant(p.participants, p.nameField, p.imageField, now)
      && x.page.nameField == "" && x.page.imageField == ""
      && x.page.store == Settings.SaveParticipants(p.store, x.page.participants)
      && x.page.choice == ""
      && (x.page.selectDisabled <==> p.isSelecting)
    ensures x.alert.None? ==>
      x.page == p.(participants := x.page.participants, nameField := "", imageField := "",
                   store := x.page.store, choice := "", selectDisabled := x.page.selectDisabled)
  {
    match AddParticipant(p.participants, p.nameField, p.imageField, now)
    case None => Reaction(p, Some(EnterNameAlert))
    case Some(ps) =>
      var q := p.(participants := ps, nameField := "", imageField := "",
                  store := Settings.SaveParticipants(p.store, ps));
      Reaction(UpdateUI(q), None)
  }

  /** `removeParticipant(id)` from a card's remove button: filter, save,
      refresh. Nothing stops a removal while a run is going, and the run
      goes on untouched. */
  function Remove(p: Page, id: int): (r: Page)
    ensures r.participants == RemoveParticipant(p.participants, id)
    ensures r.store == Settings.SaveParticipants(p.store, r.participants)
    ensures r.choice == "" && (r.selectDisabled <==> |r.participants| == 0 || p.isSelecting)
    ensures r == p.(participants := r.participants, store := r.store, choice := "",
                    selectDisabled := r.selectDisabled)
  {
    var ps := RemoveParticipant(p.participants, id);
    UpdateUI(p.(participants := ps, store := Settings.SaveParticipants(p.store, ps)))
  }

  /** `handleModeChange` after the user checks the radio with value `v`:
      the rigged options are shown exactly for the rigged value, and nothing
      else changes. */
  function ChooseMode(p: Page, v: string): (r: Page)
    ensures r.modeValue == v && (r.riggedShown <==> v == Settings.RiggedMode)
    ensures r == p.(modeValue := r.modeValue, riggedShown := r.riggedShown)
  {
    p.(modeValue := v, riggedShown := v == Settings.RiggedMode)
  }

  /** The user picks option k of the dropdown. The dropdown has no change
      handler, so only its value changes. */
  function PickOption(p: Page, k: nat): (r: Page)
    requires k <= |p.participants|
    ensures k == 0 ==> r.choice == ""
    ensures k > 0 ==> ParseInt(r.choice) == Some(p.participants[k - 1].id)
    ensures r == p.(choice := r.choice)
  {
    p.(choice := OptionValues(p.participants)[k])
  }

  /** `startSelection`: the shared decision, with the preselected id read
      by `parseInt` from the dropdown, then a new interval whose handle is
      stored in `animationInterval`. */
  function Start(p: Page, r: Draw): (x: Reaction)
    ensures var d := DecideStart(p.participants, p.modeValue == Settings.RiggedMode, ParseInt(p.choice), p.isSelecting, r);
      && (x.alert.Some? <==> d.NoPreselection?)
      && (x.alert.Some? ==> x.alert.value == NoPreselectionAlert)
      && (!d.Begin? ==> x.page == p)
      && (d.Begin? ==>
            && x.page.isSelecting && x.page.selectDisabled && x.page.areaActive && x.page.shown.None?
            && x.page.tickers == p.tickers + [NewTicker(p.nextTimer, d.winner, p.participants)]
            && x.page.stored == Some(p.nextTimer) && x.page.nextTimer == p.nextTimer + 1
            && x.page.pending == p.pending && x.page.participants == p.participants)
  {
    var d := DecideStart(p.participants, p.modeValue == Settings.RiggedMode, ParseInt(p.choice), p.isSelecting, r);
    match d
    case Ignored => Reaction(p, None)
    case NoPreselection => Reaction(p, Some(NoPreselectionAlert))
    case Begin(w) =>
      Reaction(p.(isSelecting := true, selectDisabled := true, shown := None, areaActive := true,
                  tickers := p.tickers + [NewTicker(p.nextTimer, w, p.participants)],
                  stored := Some(p.nextTimer), nextTimer := p.nextTimer + 1), None)
  }

  /** A fresh interval: counter 0, every highlight removed. */
  function NewTicker(id: nat, winner: Option<Participant>, ps: seq<Participant>): (t: Ticker)
    ensures t.id == id && t.iteration == 0 && t.winner == winner
    ensures |t.itemIds| == |ps| && forall i :: 0 <= i < |ps| ==> t.itemIds[i] == Some(ps[i].id)
    ensures |t.highlighted| == |ps| && forall i :: 0 <= i < |ps| ==> !t.highlighted[i]
  {
    Ticker(id, 0, winner, ItemIds(ps), seq(|ps|, i => false))
  }

  predicate TickersShaped(tickers: seq<Ticker>) {
    forall t :: t in tickers ==> |t.highlighted| == |t.itemIds|
  }

  /** The k-th running interval ticks. When the tick reaches the
      `clearInterval(animationInterval)` call, the interval stopped is the
      one whose handle the global holds, which need not be this one. */
  function FireInterval(p: Page, k: nat, coin: Draw): (r: Page)
    requires k < |p.tickers| && TickersShaped(p.tickers)
    ensures var o := Tick(p.tickers[k], coin);
      && (!o.clears || p.stored.None? ==> r.tickers == p.tickers[k := o.ticker])
      && (o.clears && p.stored.Some? ==> r.tickers == Cancel(p.tickers[k := o.ticker], (t: Ticker) => t.id, p.stored.value))
      && r.pending == p.pending + (if o.shows.Some? then [o.shows.value] else [])
    ensures r.stored == p.stored && r.isSelecting == p.isSelecting && r.shown == p.shown
    ensures r.participants == p.participants && r.choice == p.choice && r.selectDisabled == p.selectDisabled
  {
    assert p.tickers[k] in p.tickers;
    var o := Tick(p.tickers[k], coin);
    var tickers := p.tickers[k := o.ticker];
    p.(tickers := if o.clears && p.stored.Some? then Cancel(tickers, (t: Ticker) => t.id, p.stored.value) else tickers,
       pending := p.pending + if o.shows.Some? then [o.shows.value] else [])
  }

  /** A pending reveal fires: `showResult`. The select button is enabled
      without looking at the roster. */
  function FireReveal(p: Page, k: nat): (r: Page)
    requires k < |p.pending|
    ensures r.shown == Some(p.pending[k]) && !r.isSelecting && !r.selectDisabled && !r.areaActive
    ensures r.pending == RemoveAt(p.pending, k) && r.tickers == p.tickers && r.stored == p.stored
    ensures r.participants == p.participants && r.choice == p.choice
  {
    p.(pending := RemoveAt(p.pending, k), areaActive := false, shown := Some(p.pending[k]),
       isSelecting := false, selectDisabled := false)
  }

  /** `resetSelection`: stop the interval the global holds (if truthy) and
      clear it; pending reveals are not touched. */
  function Reset(p: Page): (r: Page)
    ensures r.shown.None? && !r.areaActive && !r.isSelecting && r.stored.None?
    ensures r.selectDisabled <==> |p.participants| == 0
    ensures r.pending == p.pending && r.participants == p.participants && r.choice == p.choice
    ensures forall t :: t in r.tickers <==> t in p.tickers && (p.stored.Some? && p.stored.value != 0 ==> t.id != p.stored.value)
  {
    var tickers := if p.stored.Some? && p.stored.value != 0 then Cancel(p.tickers, (t: Ticker) => t.id, p.stored.value) else p.tickers;
    p.(shown := None, areaActive := false, tickers := tickers, stored := None,
       isSelecting := false, selectDisabled := |p.participants| == 0)
  }

  // ----- Reachable pages --------------------------------------------------

  datatype Event =
    | EditFields(name: string, image: string)
    | PressAdd(now: int)
    | PressRemove(id: int)
    | CheckMode(value: string)
    | ChooseOption(k: nat)
    | PressSelect(r: Draw)
    | IntervalTick(k: nat, coin: Draw)
    | RevealTimeout(k: nat)
    | PressReset

  function Step(p: Page, e: Event): Page
  {
    match e
    case EditFields(name, image) => p.(nameField := name, imageField := image)
    case PressAdd(now) => Add(p, now).page
    case PressRemove(id) => Remove(p, id)
    case CheckMode(v) => ChooseMode(p, v)
    case ChooseOption(k) => if k <= |p.participants| then PickOption(p, k) else p
    case PressSelect(r) => Start(p, r).page
    case IntervalTick(k, coin) => if k < |p.tickers| && TickersShaped(p.tickers) then FireInterval(p, k, coin) else p
    case RevealTimeout(k) => if k < |p.pending| then FireReveal(p, k) else p
    case PressReset => Reset(p)
  }

  function Run(p: Page, events: seq<Event>): Page
    decreases |events|
  {
    if |events| == 0 then p else Run(Step(p, events[0]), events[1..])
  }

  /** The dropdown holds the placeholder or the id of someone on the
      roster: every roster change rebuilds it. */
  predicate ChoiceOnRoster(p: Page) {
    p.choice == "" || exists q :: q in p.participants && ParseInt(p.choice) == Some(q.id)
  }

  /** What every reachable page satisfies. The select button can be
      enabled over an empty roster (a reveal enables it unconditionally),
      so only one direction of the enable rule survives. */
  predicate WellFormed(p: Page) {
    && p.nextTimer >= 1
    && (forall t :: t in p.tickers ==> 1 <= t.id < p.nextTimer)
    && (p.stored.Some? ==> 1 <= p.stored.value < p.nextTimer)
    && (p.isSelecting ==> p.selectDisabled)
    && (p.selectDisabled ==> |p.participants| == 0 || p.isSelecting)
    && ChoiceOnRoster(p)
    && TickersShaped(p.tickers)
    && (forall t :: t in p.tickers ==> t.winner.Some?)
  }

  lemma InitWellFormed(store: Settings.Store, checkedMode: string, riggedShown: bool)
    ensures WellFormed(Init(store, checkedMode, riggedShown))
  {
  }

  /** In this page a rigged start never looks up an id that is missing:
      the dropdown only offers roster ids. */
  lemma StartWellFormed(p: Page, r: Draw)
    requires WellFormed(p)
    ensures WellFormed(Start(p, r).page)
  {
    var d := DecideStart(p.participants, p.modeValue == Settings.RiggedMode, ParseInt(p.choice), p.isSelecting, r);
    if d.Begin? {
      if p.modeValue == Settings.RiggedMode {
        assert p.choice != "" by {
          assert ParseInt("") == None by { assert AllSpace(""); }
        }
        var q :| q in p.participants && ParseInt(p.choice) == Some(q.id);
        assert d.winner.Some?;
      }
      var t := NewTicker(p.nextTimer, d.winner, p.participants);
      assert forall u :: u in p.tickers + [t] <==> u in p.tickers || u == t;
    }
  }

  lemma FireIntervalWellFormed(p: Page, k: nat, coin: Draw)
    requires WellFormed(p) && k < |p.tickers|
    ensures WellFormed(FireInterval(p, k, coin))
  {
    var o := Tick(p.tickers[k], coin);
    assert p.tickers[k] in p.tickers;
    var tickers := p.tickers[k := o.ticker];
    forall t | t in tickers ensures 1 <= t.id < p.nextTimer && t.winner.Some? && |t.highlighted| == |t.itemIds| {
      var i :| 0 <= i < |tickers| && tickers[i] == t;
      if i != k { assert t == p.tickers[i] && p.tickers[i] in p.tickers; }
    }
  }

  lemma AddWellFormed(p: Page, now: int)
    requires WellFormed(p)
    ensures WellFormed(Add(p, now).page)
  {
  }

  lemma RemoveWellFormed(p: Page, id: int)
    requires WellFormed(p)
    ensures WellFormed(Remove(p, id))
  {
  }

  lemma FireRevealWellFormed(p: Page, k: nat)
    requires WellFormed(p) && k < |p.pending|
    ensures WellFormed(FireReveal(p, k))
  {
  }

  lemma ResetWellFormed(p: Page)
    requires WellFormed(p)
    ensures WellFormed(Reset(p))
  {
  }

  lemma StepWellFormed(p: Page, e: Event)
    requires WellFormed(p)
    ensures WellFormed(Step(p, e))
  {
    match e
    case EditFields(name, image) =>
    case PressAdd(now) => AddWellFormed(p, now);
    case PressRemove(id) => RemoveWellFormed(p, id);
    case CheckMode(v) =>
    case ChooseOption(k) =>
      if 0 < k <= |p.participants| {
        assert p.participants[k - 1] in p.participants;
      }
    case PressSelect(r) => StartWellFormed(p, r);
    case IntervalTick(k, coin) => if k < |p.tickers| { FireIntervalWellFormed(p, k, coin); }
    case RevealTimeout(k) => if k < |p.pending| { FireRevealWellFormed(p, k); }
    case PressReset => ResetWellFormed(p);
  }

  /** Every page reachable from the initial one is well formed: in
      particular every running interval has a real winner, so the
      `undefined` paths of `Tick` never run here. */
  lemma {:induction false} RunWellFormed(p: Page, events: seq<Event>)
    requires WellFormed(p)
    ensures WellFormed(Run(p, events))
    decreases |events|
  {
    if |events| > 0 {
      StepWellFormed(p, events[0]);
      RunWellFormed(Step(p, events[0]), events[1..]);
    }
  }

  // ----- One undisturbed run ----------------------------------------------

  /** The only interval fires once per draw, for as long as it runs. */
  function TickAlone(p: Page, coins: seq<Draw>): Page
    requires TickersShaped(p.tickers)
    decreases |coins|
  {
    if |coins| == 0 || |p.tickers| == 0 then p
    else
      var q := FireInterval(p, 0, coins[0]);
      if TickersShaped(q.tickers) then TickAlone(q, coins[1..]) else q
  }

  /** A run that nothing else disturbs: its interval is the only one and
      is the one the global holds. From counter i, after n more ticks with
      i + n below 50 it is still running with counter i + n and nothing is
      revealed yet, and no item is lit while the counter has not passed 36;
      the tick that reaches 50 stops it and schedules exactly one reveal of
      the winner. */
  lemma {:induction false} TickAloneCounts(p: Page, coins: seq<Draw>)
    requires |p.tickers| == 1 && p.tickers[0].winner.Some? && TickersShaped(p.tickers)
    requires p.stored == Some(p.tickers[0].id)
    requires p.tickers[0].iteration < TotalIterations
    requires p.tickers[0].iteration + |coins| <= TotalIterations
    requires p.tickers[0].iteration <= HighlightAfter + 1 ==> forall i :: 0 <= i < |p.tickers[0].highlighted| ==> !p.tickers[0].highlighted[i]
    ensures var q := TickAlone(p, coins);
      var n := p.tickers[0].iteration + |coins|;
      && (n < TotalIterations ==>
            && |q.tickers| == 1 && q.tickers[0].iteration == n && q.pending == p.pending
            && q.tickers[0].id == p.tickers[0].id && q.tickers[0].winner == p.tickers[0].winner
            && (n <= HighlightAfter + 1 ==> forall i :: 0 <= i < |q.tickers[0].highlighted| ==> !q.tickers[0].highlighted[i]))
      && (n == TotalIterations ==>
            q.tickers == [] && q.pending == p.pending + [p.tickers[0].winner.value])
    decreases |coins|
  {
    if |coins| > 0 {
      var t := p.tickers[0];
      var o := Tick(t, coins[0]);
      var q := FireInterval(p, 0, coins[0]);
      if o.clears {
        assert q.tickers == Cancel([o.ticker], (u: Ticker) => u.id, t.id);
        assert q.tickers == [];
        assert coins[1..] == [] ;
      } else {
        assert q.tickers == [o.ticker];
        TickAloneCounts(q, coins[1..]);
      }
    }
  }

  /** Started from a quiet page, a run ticks exactly 50 times and then
      schedules exactly one reveal, of the winner the start decided on. */
  lemma ExactlyFiftyTicks(p: Page, r: Draw, coins: seq<Draw>)
    requires WellFormed(p) && p.tickers == []
    requires |coins| == TotalIterations
    ensures var q := Start(p, r).page;
      q.tickers != [] ==>
        && |q.tickers| == 1
        && (forall j :: 0 <= j < TotalIterations ==> |TickAlone(q, coins[..j]).tickers| == 1)
        && TickAlone(q, coins).tickers == []
        && TickAlone(q, coins).pending == p.pending + [q.tickers[0].winner.value]
  {
    StartWellFormed(p, r);
    var q := Start(p, r).page;
    if q.tickers != [] {
      assert q.tickers[0] in q.tickers;
      forall j | 0 <= j < TotalIterations ensures |TickAlone(q, coins[..j]).tickers| == 1 {
        TickAloneCounts(q, coins[..j]);
      }
      TickAloneCounts(q, coins);
    }
  }

  // ----- Reset and the stale reveal ---------------------------------------

  /** Reset while a run ticks stops it: unlike the selection screen, the
      global always holds the running interval's handle. */
  lemma ResetStopsRun(p: Page, r: Draw)
    requires WellFormed(p) && p.tickers == []
    ensures Start(p, r).page.tickers != [] ==> Reset(Start(p, r).page).tickers == []
  {
    var q := Start(p, r).page;
    if q.tickers != [] {
      assert q.tickers == [NewTicker(p.nextTimer, q.tickers[0].winner, p.participants)];
    }
  }

  /** Reset does not cancel a reveal already scheduled. */
  lemma RevealSurvivesReset(p: Page, k: nat)
    requires k < |p.pending|
    ensures Reset(p).pending == p.pending
    ensures FireReveal(Reset(p), k).shown == Some(p.pending[k])
  {
  }

  /** An interval that is not the one the global holds never stops: from
      its 50th tick on, each tick stops the global's interval instead of
      itself and schedules one more reveal. */
  lemma OrphanNeverStops(p: Page, k: nat, coin: Draw)
    requires k < |p.tickers| && TickersShaped(p.tickers)
    requires p.tickers[k].winner.Some? && p.tickers[k].iteration + 1 >= TotalIterations
    requires p.stored.Some? ==> p.stored.value != p.tickers[k].id
    ensures var q := FireInterval(p, k, coin);
      && (exists t :: t in q.tickers && t.id == p.tickers[k].id && t.iteration == p.tickers[k].iteration + 1)
      && q.pending == p.pending + [p.tickers[k].winner.value]
  {
    var o := Tick(p.tickers[k], coin);
    var tickers := p.tickers[k := o.ticker];
    assert tickers[k] == o.ticker;
    assert o.ticker in tickers;
  }

  /** Select on an idle page in random mode always starts a run. */
  lemma RandomStartBegins(p: Page, r: Draw)
    requires !p.isSelecting && |p.participants| > 0 && p.modeValue != Settings.RiggedMode
    ensures var q := Start(p, r).page;
      && q.tickers == p.tickers + [NewTicker(p.nextTimer, Some(p.participants[RandomIndex(r, |p.participants|)]), p.participants)]
      && q.stored == Some(p.nextTimer) && q.nextTimer == p.nextTimer + 1
      && q.isSelecting && q.pending == p.pending && q.participants == p.participants
      && q.modeValue == p.modeValue
  {
  }

  /** A run left to finish and then reset leaves a quiet page with its
      reveal still pending. */
  lemma FinishedThenReset(p: Page, r: Draw, coins: seq<Draw>)
    requires WellFormed(p) && p.tickers == [] && p.pending == [] && !p.isSelecting
    requires |p.participants| > 0 && p.modeValue != Settings.RiggedMode
    requires |coins| == TotalIterations
    ensures var s := Reset(TickAlone(Start(p, r).page, coins));
      && s.tickers == [] && |s.pending| == 1 && !s.isSelecting
      && s.participants == p.participants && s.modeValue == p.modeValue
  {
    RandomStartBegins(p, r);
    var s1 := Start(p, r).page;
    ExactlyFiftyTicks(p, r, coins);
    assert s1.tickers != [];
    TickAlonePreserves(s1, coins);
  }

  /** With a stale reveal pending on a quiet page: a start, then the stale
      reveal, then another start leaves two intervals running, and the
      global holds only the newer one's handle. */
  lemma StaleRevealAllowsSecondRun(s: Page, r2: Draw, r3: Draw)
    requires s.tickers == [] && |s.pending| == 1 && !s.isSelecting
    requires |s.participants| > 0 && s.modeValue != Settings.RiggedMode
    ensures var s4 := Start(s, r2).page;
      && |s4.pending| == 1
      && var s5 := FireReveal(s4, 0);
      && |s5.pending| == 0 && |s5.tickers| == 1 && !s5.isSelecting
      && var s6 := Start(s5, r3).page;
      && |s6.tickers| == 2 && s6.stored == Some(s6.tickers[1].id)
      && s6.tickers[0].id != s6.tickers[1].id && s6.tickers[0].iteration == 0
  {
    RandomStartBegins(s, r2);
    var s4 := Start(s, r2).page;
    RandomStartBegins(FireReveal(s4, 0), r3);
  }

  /** How an interval gets orphaned. From a quiet page: a run is started
      and ticks to its end, so its reveal is pending; reset; a second run
      starts; the first run's reveal fires, which marks the page idle while
      the second interval is still running; a third start then replaces the
      global handle. The second interval keeps running under a handle
      nobody holds (see `OrphanNeverStops`). */
  lemma OrphanedBySecondStart(p: Page, r1: Draw, r2: Draw, r3: Draw, coins: seq<Draw>)
    requires WellFormed(p) && p.tickers == [] && p.pending == [] && !p.isSelecting
    requires |p.participants| > 0 && p.modeValue != Settings.RiggedMode
    requires |coins| == TotalIterations
    ensures var s3 := Reset(TickAlone(Start(p, r1).page, coins));
      && var s4 := Start(s3, r2).page;
      && |s4.pending| == 1
      && var s6 := Start(FireReveal(s4, 0), r3).page;
      && |s6.tickers| == 2 && s6.stored == Some(s6.tickers[1].id)
      && s6.tickers[0].id != s6.tickers[1].id && s6.tickers[0].iteration == 0
  {
    FinishedThenReset(p, r1, coins);
    StaleRevealAllowsSecondRun(Reset(TickAlone(Start(p, r1).page, coins)), r2, r3);
  }

  /** Ticking leaves the roster, the mode and the timer counter alone. */
  lemma {:induction false} TickAlonePreserves(p: Page, coins: seq<Draw>)
    requires TickersShaped(p.tickers)
    ensures var q := TickAlone(p, coins);
      q.participants == p.participants && q.modeValue == p.modeValue && q.nextTimer == p.nextTimer
    decreases |coins|
  {
    if |coins| > 0 && |p.tickers| > 0 {
      var q := FireInterval(p, 0, coins[0]);
      if TickersShaped(q.tickers) {
        TickAlonePreserves(q, coins[1..]);
      }
    }
  }
}
