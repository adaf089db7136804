/** randomizer.js: the selection screen as an event-driven state machine.
    The browser's scheduler is explicit state: the pending
    `requestAnimationFrame` callbacks (each with the handle the browser
    returned) and the pending 800 ms reveal timeouts. An event is a button
    press or one of those callbacks firing, in whatever order the browser
    picks. */
module SelectionScreen {
  import opened Wrappers
  import opened Roster
  import opened Outcome
  import opened Suspense
  import opened Timers
  import Settings

  const PresetSubtitle: string := "Preset Selection Mode"
  const RandomSubtitle: string := "Random Selection Mode"
  const NoPreselectionAlert: string := "No participant selected for preset selection"

  /** A pending animation-frame callback and the handle it was requested
      under. `anim` None is a run whose winner is `undefined` (a rigged id
      that matched nobody): its callback throws on reading the winner's id. */
  datatype Loop = Loop(frameId: nat, anim: Option<Anim>)

  /** The handle `cancelAnimationFrame` matches a pending callback by. */
  function FrameHandle(l: Loop): nat {
    l.frameId
  }

  /** The page's globals and what the page shows, plus the pending
      callbacks. `stored` is the global `animationInterval`; `nextFrame` is
      the handle the browser hands out next; `shown` is the participant in
      the visible result section, None while it is hidden. */
  datatype Screen = Screen(
    participants: seq<Participant>,
    mode: Option<string>,
    preselected: Option<int>,
    subtitle: string,
    isSelecting: bool,
    selectDisabled: bool,
    areaActive: bool,
    shown: Option<Participant>,
    loops: seq<Loop>,
    nextFrame: nat,
    stored: Option<nat>,
    pending: seq<Participant>)

  predicate Rigged(s: Screen) {
    s.mode == Some(Settings.RiggedMode)
  }

  // ----- Loading ----------------------------------------------------------

  datatype Opened = Redirect | Ready(screen: Screen)

  /** `init`: load the settings; with no truthy mode go back to setup,
      otherwise show the mode's subtitle and enable the select button when
      the roster is not empty. */
  function Init(store: Settings.Store): (o: Opened)
    ensures var l := Settings.LoadSettings(store);
      && (o.Redirect? <==> !Settings.ModeChosen(l.mode))
      && (o.Ready? ==>
            && o.screen.participants == l.participants
            && o.screen.mode == l.mode && o.screen.preselected == l.preselectedId
            && (o.screen.subtitle == PresetSubtitle <==> l.mode == Some(Settings.RiggedMode))
            && (o.screen.selectDisabled <==> |l.participants| == 0)
            && !o.screen.isSelecting && o.screen.shown.None?
            && o.screen.loops == [] && o.screen.pending == [] && o.screen.stored.None?)
  {
    var l := Settings.LoadSettings(store);
    if !Settings.ModeChosen(l.mode) then Redirect
    else
      var subtitle := if l.mode == Some(Settings.RiggedMode) then PresetSubtitle else RandomSubtitle;
      Ready(Screen(l.participants, l.mode, l.preselectedId, subtitle, false, |l.participants| == 0,
                   false, None, [], 1, None, []))
  }

  // ----- Pressing select --------------------------------------------------

  /** The screen after an event, and the alert it raised, if any. */
  datatype Reaction = Reaction(screen: Screen, alert: Option<string>)

  /** `requestAnimationFrame(animate)`: a new pending callback under a fresh
      handle. */
  function RequestFrame(s: Screen, anim: Option<Anim>): (r: Screen)
    ensures r.loops == s.loops + [Loop(s.nextFrame, anim)] && r.nextFrame == s.nextFrame + 1
  {
    s.(loops := s.loops + [Loop(s.nextFrame, anim)], nextFrame := s.nextFrame + 1)
  }

  /** `startSelection` followed by `animateSelection`. `r` is the draw for
      the random index, `coin` and `pick` the draws for the decoy, `now` the
      start time. A winner that is `undefined` throws inside
      `animateSelection` when the decoy branch is taken (reading its id at
      the filter), so no frame is requested and `animationInterval` keeps
      its old value; otherwise the first frame is requested and its handle
      stored. */
  function Start(s: Screen, r: Draw, coin: Draw, pick: Draw, now: real): (x: Reaction)
    ensures var d := DecideStart(s.participants, Rigged(s), s.preselected, s.isSelecting, r);
      && (x.alert.Some? <==> d.NoPreselection?)
      && (x.alert.Some? ==> x.alert.value == NoPreselectionAlert)
      && (!d.Begin? ==> x.screen == s)
      && (d.Begin? ==>
            && x.screen.isSelecting && x.screen.selectDisabled && x.screen.areaActive
            && x.screen.shown.None? && x.screen.pending == s.pending
            && x.screen.participants == s.participants
            && (d.winner.None? && |s.participants| > 2 && coin > 0.5 ==>
                  x.screen.loops == s.loops && x.screen.stored == s.stored)
            && (d.winner.None? && !(|s.participants| > 2 && coin > 0.5) ==>
                  x.screen.loops == s.loops + [Loop(s.nextFrame, None)]
                  && x.screen.stored == Some(s.nextFrame))
            && (d.winner.Some? ==>
                  x.screen.loops ==
                    s.loops + [Loop(s.nextFrame, Some(StartAnim(s.participants, d.winner.value, coin, pick, now)))]
                  && x.screen.stored == Some(s.nextFrame)))
  {
    match DecideStart(s.participants, Rigged(s), s.preselected, s.isSelecting, r)
    case Ignored => Reaction(s, None)
    case NoPreselection => Reaction(s, Some(NoPreselectionAlert))
    case Begin(w) =>
      var busy := s.(isSelecting := true, selectDisabled := true, shown := None, areaActive := true);
      match w
      case None =>
        if |s.participants| > 2 && coin > 0.5 then Reaction(busy, None)
        else Reaction(RequestFrame(busy, None).(stored := Some(s.nextFrame)), None)
      case Some(p) =>
        var anim := StartAnim(s.participants, p, coin, pick, now);
        Reaction(RequestFrame(busy, Some(anim)).(stored := Some(s.nextFrame)), None)
  }

  // ----- Callbacks --------------------------------------------------------

  /** Every pending run's state is one `Frame` accepts. */
  predicate AnimsValid(loops: seq<Loop>) {
    forall l :: l in loops && l.anim.Some? ==> Valid(l.anim.value)
  }

  /** The k-th pending animation-frame callback runs at time `now`. It is
      used up; a run that continues requests its next frame under a fresh
      handle (kept only in the closure, never in `animationInterval`), and
      a run that finishes sets the 800 ms reveal for its winner. A run with
      an `undefined` winner throws and schedules nothing. */
  function FireFrame(s: Screen, k: nat, now: real): (r: Screen)
    requires k < |s.loops| && AnimsValid(s.loops)
    ensures var l := s.loops[k];
      && (l.anim.None? ==> r.loops == RemoveAt(s.loops, k) && r.pending == s.pending)
      && (l.anim.Some? && Frame(l.anim.value, now).Continue? ==>
            && r.loops == RemoveAt(s.loops, k) + [Loop(s.nextFrame, Some(Frame(l.anim.value, now).anim))]
            && r.pending == s.pending)
      && (l.anim.Some? && Frame(l.anim.value, now).Finish? ==>
            r.loops == RemoveAt(s.loops, k) && r.pending == s.pending + [l.anim.value.winner])
    ensures |r.loops| + |r.pending| <= |s.loops| + |s.pending|
    ensures r.stored == s.stored && r.isSelecting == s.isSelecting && r.shown == s.shown
    ensures r.selectDisabled == s.selectDisabled && r.participants == s.participants
  {
    var l := s.loops[k];
    var rest := RemoveAt(s.loops, k);
    match l.anim
    case None => s.(loops := rest)
    case Some(a) =>
      assert l in s.loops;
      match Frame(a, now)
      case Continue(b) => RequestFrame(s.(loops := rest), Some(b))
      case Finish(b) => s.(loops := rest, pending := s.pending + [a.winner])
  }

  /** The k-th pending reveal fires: `showResult` hides the animation area,
      shows the participant and re-enables the select button. */
  function FireReveal(s: Screen, k: nat): (r: Screen)
    requires k < |s.pending|
    ensures r.shown == Some(s.pending[k]) && !r.isSelecting && !r.selectDisabled && !r.areaActive
    ensures r.pending == RemoveAt(s.pending, k) && r.loops == s.loops && r.stored == s.stored
    ensures r.participants == s.participants
  {
    s.(pending := RemoveAt(s.pending, k), areaActive := false, shown := Some(s.pending[k]),
       isSelecting := false, selectDisabled := false)
  }

  // ----- Pressing reset ---------------------------------------------------

  /** `resetSelection`: hide the result and the area, cancel the frame
      whose handle `animationInterval` holds (if it is truthy) and clear
      it, and re-enable select unless the roster is empty. Pending reveals
      are not touched. */
  function Reset(s: Screen): (r: Screen)
    ensures r.shown.None? && !r.areaActive && !r.isSelecting && r.stored.None?
    ensures r.selectDisabled <==> |s.participants| == 0
    ensures r.pending == s.pending && r.participants == s.participants
    ensures forall l :: l in r.loops <==> l in s.loops && (s.stored.Some? && s.stored.value != 0 ==> l.frameId != s.stored.value)
  {
    var loops := if s.stored.Some? && s.stored.value != 0 then Cancel(s.loops, FrameHandle, s.stored.value) else s.loops;
    s.(shown := None, areaActive := false, loops := loops, stored := None,
       isSelecting := false, selectDisabled := |s.participants| == 0)
  }

  // ----- Reachable screens ------------------------------------------------

  datatype Event =
    | PressSelect(r: Draw, coin: Draw, pick: Draw, now: real)
    | AnimationFrame(k: nat, now: real)
    | RevealTimeout(k: nat)
    | PressReset

  /** One event; a callback index with nothing pending there is no event
      and changes nothing. */
  function Step(s: Screen, e: Event): Screen
  {
    match e
    case PressSelect(r, coin, pick, now) => Start(s, r, coin, pick, now).screen
    case AnimationFrame(k, now) => if k < |s.loops| && AnimsValid(s.loops) then FireFrame(s, k, now) else s
    case RevealTimeout(k) => if k < |s.pending| then FireReveal(s, k) else s
    case PressReset => Reset(s)
  }

  function Run(s: Screen, events: seq<Event>): Screen
    decreases |events|
  {
    if |events| == 0 then s else Run(Step(s, events[0]), events[1..])
  }

  /** A participant a run may reveal: one on the roster, and in rigged
      mode one carrying the preselected id. */
  predicate Eligible(s: Screen, p: Participant) {
    p in s.participants && (Rigged(s) ==> s.preselected == Some(p.id))
  }

  /** What every reachable screen satisfies. */
  predicate WellFormed(s: Screen) {
    && s.nextFrame >= 1
    && (forall l :: l in s.loops ==> 1 <= l.frameId < s.nextFrame)
    && (s.stored.Some? ==> 1 <= s.stored.value < s.nextFrame)
    && (s.selectDisabled <==> |s.participants| == 0 || s.isSelecting)
    && (|s.loops| > 0 || |s.pending| > 0 ==> |s.participants| > 0)
    && AnimsValid(s.loops)
    && (forall l :: l in s.loops && l.anim.Some? ==> Eligible(s, l.anim.value.winner))
    && (forall p :: p in s.pending ==> Eligible(s, p))
    && (s.shown.Some? ==> Eligible(s, s.shown.value))
  }

  lemma InitWellFormed(store: Settings.Store)
    ensures Init(store).Ready? ==> WellFormed(Init(store).screen)
  {
  }

  lemma StartWellFormed(s: Screen, r: Draw, coin: Draw, pick: Draw, now: real)
    requires WellFormed(s)
    ensures WellFormed(Start(s, r, coin, pick, now).screen)
  {
    var d := DecideStart(s.participants, Rigged(s), s.preselected, s.isSelecting, r);
    var t := Start(s, r, coin, pick, now).screen;
    if d.Begin? {
      StartKeepsSettings(s, r, coin, pick, now);
      var anim: Option<Anim> := if d.winner.Some? then Some(StartAnim(s.participants, d.winner.value, coin, pick, now)) else None;
      if d.winner.Some? {
        WinnerEligible(s, r);
      }
      if t.loops != s.loops {
        LoopsExtended(s, t, Loop(s.nextFrame, anim));
      }
      BusyWellFormed(s, t);
    }
  }

  /** Select leaves the settings alone and allocates at most one handle. */
  lemma StartKeepsSettings(s: Screen, r: Draw, coin: Draw, pick: Draw, now: real)
    ensures var t := Start(s, r, coin, pick, now).screen;
      && t.mode == s.mode && t.preselected == s.preselected
      && (t.loops == s.loops ==> t.nextFrame == s.nextFrame)
      && (t.loops != s.loops ==> t.nextFrame == s.nextFrame + 1)
  {
  }

  /** A screen that has just become busy keeps the invariant once its
      loops do. */
  lemma BusyWellFormed(s: Screen, t: Screen)
    requires WellFormed(s) && |s.participants| > 0
    requires t.participants == s.participants && t.mode == s.mode && t.preselected == s.preselected
    requires t.isSelecting && t.selectDisabled && t.shown.None? && t.pending == s.pending
    requires t.nextFrame >= s.nextFrame && (t.stored.Some? ==> 1 <= t.stored.value < t.nextFrame)
    requires forall m :: m in t.loops ==> 1 <= m.frameId < t.nextFrame
    requires AnimsValid(t.loops)
    requires forall m :: m in t.loops && m.anim.Some? ==> Eligible(t, m.anim.value.winner)
    ensures WellFormed(t)
  {
  }

  /** The winner a start decides on is one the run may reveal. */
  lemma WinnerEligible(s: Screen, r: Draw)
    requires var d := DecideStart(s.participants, Rigged(s), s.preselected, s.isSelecting, r);
      d.Begin? && d.winner.Some?
    ensures Eligible(s, DecideStart(s.participants, Rigged(s), s.preselected, s.isSelecting, r).winner.value)
  {
    if !Rigged(s) {
      var i := RandomIndex(r, |s.participants|);
      assert s.participants[i] in s.participants;
    }
  }

  /** A screen whose loops gain one fresh, eligible run keeps its loop
      invariants. */
  lemma LoopsExtended(s: Screen, t: Screen, l: Loop)
    requires WellFormed(s)
    requires t.loops == s.loops + [l] && t.nextFrame == s.nextFrame + 1 && l.frameId == s.nextFrame
    requires t.participants == s.participants && t.mode == s.mode && t.preselected == s.preselected
    requires l.anim.Some? ==> Valid(l.anim.value) && Eligible(s, l.anim.value.winner)
    ensures forall m :: m in t.loops ==> 1 <= m.frameId < t.nextFrame
    ensures AnimsValid(t.loops)
    ensures forall m :: m in t.loops && m.anim.Some? ==> Eligible(t, m.anim.value.winner)
  {
  }

  lemma FireFrameWellFormed(s: Screen, k: nat, now: real)
    requires WellFormed(s) && k < |s.loops|
    ensures WellFormed(FireFrame(s, k, now))
  {
    var t := FireFrame(s, k, now);
    var l := s.loops[k];
    var u := s.(loops := RemoveAt(s.loops, k));
    DropLoopWellFormed(s, k);
    if l.anim.Some? {
      assert l in s.loops;
      var o := Frame(l.anim.value, now);
      if o.Continue? {
        LoopsExtended(u, t, Loop(s.nextFrame, Some(o.anim)));
      }
    }
  }

  /** Using up one frame callback keeps the invariant. */
  lemma DropLoopWellFormed(s: Screen, k: nat)
    requires WellFormed(s) && k < |s.loops|
    ensures WellFormed(s.(loops := RemoveAt(s.loops, k)))
  {
    RemoveAtMembers(s.loops, k);
  }

  /** Using up one reveal callback keeps the invariant. */
  lemma FireRevealWellFormed(s: Screen, k: nat)
    requires WellFormed(s) && k < |s.pending|
    ensures WellFormed(FireReveal(s, k))
  {
    RemoveAtMembers(s.pending, k);
    assert s.pending[k] in s.pending;
  }

  lemma ResetWellFormed(s: Screen)
    requires WellFormed(s)
    ensures WellFormed(Reset(s))
  {
  }

  lemma StepWellFormed(s: Screen, e: Event)
    requires WellFormed(s)
    ensures WellFormed(Step(s, e))
    ensures Step(s, e).participants == s.participants
    ensures Step(s, e).mode == s.mode && Step(s, e).preselected == s.preselected
  {
    match e
    case PressSelect(r, coin, pick, now) => StartWellFormed(s, r, coin, pick, now);
    case AnimationFrame(k, now) => if k < |s.loops| { FireFrameWellFormed(s, k, now); }
    case RevealTimeout(k) =>
      if k < |s.pending| { FireRevealWellFormed(s, k); }
    case PressReset => ResetWellFormed(s);
  }

  /** Whatever order the browser runs the callbacks in and however the
      user presses select and reset, every reachable screen is well formed:
      in particular the participant on show is always on the roster and, in
      rigged mode, always carries the preselected id. */
  lemma {:induction false} RunWellFormed(s: Screen, events: seq<Event>)
    requires WellFormed(s)
    ensures WellFormed(Run(s, events))
    ensures Run(s, events).participants == s.participants
    ensures Run(s, events).mode == s.mode && Run(s, events).preselected == s.preselected
    decreases |events|
  {
    if |events| > 0 {
      StepWellFormed(s, events[0]);
      RunWellFormed(Step(s, events[0]), events[1..]);
    }
  }

  lemma ShownIsEligible(store: Settings.Store, events: seq<Event>)
    requires Init(store).Ready?
    ensures var s := Run(Init(store).screen, events);
      s.shown.Some? ==>
        && s.shown.value in s.participants
        && (s.mode == Some(Settings.RiggedMode) ==> s.preselected == Some(s.shown.value.id))
  {
    InitWellFormed(store);
    RunWellFormed(Init(store).screen, events);
  }

  // ----- Traces -----------------------------------------------------------

  /** Reset does not stop a run that is about to reveal: a pending reveal
      survives it and, when it fires, shows its participant and marks the
      screen idle again. */
  lemma RevealSurvivesReset(s: Screen, k: nat)
    requires k < |s.pending|
    ensures Reset(s).pending == s.pending
    ensures FireReveal(Reset(s), k).shown == Some(s.pending[k])
    ensures !FireReveal(Reset(s), k).isSelecting
  {
  }

  /** Reset right after select cancels the run: `animationInterval` still
      holds the first frame's handle. */
  lemma ResetBeforeFirstFrameCancels(s: Screen, r: Draw, coin: Draw, pick: Draw, now: real)
    requires WellFormed(s) && s.loops == []
    ensures Start(s, r, coin, pick, now).screen.loops != [] ==> Reset(Start(s, r, coin, pick, now).screen).loops == []
  {
    var t := Start(s, r, coin, pick, now).screen;
    if t.loops != [] {
      assert t.loops == [Loop(s.nextFrame, t.loops[0].anim)] && t.stored == Some(s.nextFrame);
      assert Reset(t).loops == Cancel(t.loops, FrameHandle, s.nextFrame);
    }
  }

  /** Reset after the first frame does not cancel the run: each frame
      requests its successor under a new handle, but only the first handle
      was stored, so reset cancels a callback that has already run. */
  lemma ResetAfterFirstFrameMisses(s: Screen, r: Draw, coin: Draw, pick: Draw, t0: real, t1: real)
    requires WellFormed(s) && s.loops == [] && !s.isSelecting && |s.participants| > 0
    requires !Rigged(s) && t1 - t0 < Duration
    ensures var started := Start(s, r, coin, pick, t0).screen;
      && |started.loops| == 1
      && var framed := FireFrame(started, 0, t1);
      && |framed.loops| == 1 && framed.loops[0].frameId == s.nextFrame + 1
      && Reset(framed).loops == framed.loops
  {
    var started := Start(s, r, coin, pick, t0).screen;
    assert started.stored == Some(s.nextFrame);
    var a := started.loops[0].anim.value;
    assert a.start == t0;
    var framed := FireFrame(started, 0, t1);
    assert framed.loops == [Loop(s.nextFrame + 1, Some(Frame(a, t1).anim))];
  }
}
