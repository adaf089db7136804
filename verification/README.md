# Participant randomizer: a Dafny model of its selection logic

The randomizer is a browser app that picks one participant from a roster and
shows a suspense animation before revealing them. It has two modes: in random
mode the winner is drawn uniformly, and in rigged ("preset") mode the winner is
fixed in advance. The app ships in two variants:

- **Two-page variant.** On `setup.html` (setup.js) the user chooses the mode and
  the rigged target. The settings are saved to `localStorage`, and
  `randomizer.html` (randomizer.js) reads them back and runs a five-second,
  three-phase animation driven by `requestAnimationFrame`.
- **Single-page variant** (script.js). Roster editing, mode choice and a 50-tick
  `setInterval` animation all live on one page.

This project models the logic under the DOM code of both variants, as pure
functions over immutable records. It proves what that logic guarantees, and
also what it does not.

| module | file | models |
|---|---|---|
| `JsText` | js_text.dfy | JavaScript's `String.prototype.trim`, radix-less `parseInt`, number-to-string in a template literal, and the regex `/\.[^/.]+$/` that cuts a file extension |
| `Roster` | roster.dfy | participant records; add, remove-by-id, find-by-id; the 24-photo seed roster; the ids written into items and dropdown options |
| `Outcome` | outcome.dfy | the start decision shared by both variants: the guards, the rigged lookup, and the index `floor(r*N)` |
| `Suspense` | suspense.dfy | the control logic of `animateSelection` in randomizer.js: the progress clock, the phases, the candidate list, spotlight cycling, highlights, the position clamp and the stop rule |
| `Settings` | settings.dfy | the two `localStorage` keys as an abstract store, and the settings round trip |
| `SetupScreen` | setup_screen.dfy | setup.js: mode cards, the dropdown, the continue-button rule, the continue handler |
| `Timers` | timers.dfy | pending browser callbacks: removal when one fires, cancellation by handle |
| `SelectionScreen` | selection_screen.dfy | randomizer.js as a state machine over button presses, frame callbacks and reveal timeouts |
| `LegacyScreen` | legacy_screen.dfy | script.js as a state machine, including the 50-tick interval |
| `Flow` | flow.dfy | setup → saved settings → selection screen, end to end |

Randomness (`Math.random()`), clocks (`performance.now()`, `Date.now()`) and the
browser's choice of which callback runs next are all inputs:

- a draw is a real in [0, 1);
- a time is a real number of milliseconds;
- an event sequence may interleave the pending callbacks in any order.

`null`, `undefined` and `NaN` ids are `None`. An id is falsy when it is `None` or 0.

## Guarantees the code does not keep

The model follows the code, so it proves the following gaps instead of
hiding them.

- **Reset does not cancel frames after the first.**
  - In randomizer.js, `animationInterval` receives only the first frame's handle
    (randomizer.js:330-331). Each later frame is requested under a new handle
    that is never stored.
  - So reset cancels the run only before its first frame
    (`SelectionScreen.ResetBeforeFirstFrameCancels`). After that it cancels a
    callback that has already run, and the animation goes on
    (`SelectionScreen.ResetAfterFirstFrameMisses`).
- **Reset does not cancel a pending reveal.** Neither variant ever cancels the
  reveal timeout. After reset, the reveal still fires and shows its participant
  (`SelectionScreen.RevealSurvivesReset`, `LegacyScreen.RevealSurvivesReset`).
- **Two runs can be active at once.** In script.js, a stale reveal from a
  finished run can mark the page idle while a newer run is still ticking. A
  second start then leaves two intervals running, and the global handle
  points only at the newer one (`LegacyScreen.OrphanedBySecondStart`).
- **One run can fire more than one reveal.** The tick that reaches 50 calls
  `clearInterval` on the global handle, not on its own (script.js:202). In the
  situation above, the older interval therefore stops the newer one and keeps
  ticking. From then on it schedules one more reveal on every tick
  (`LegacyScreen.OrphanNeverStops`). When nothing disturbs it, a run ticks
  exactly 50 times and schedules exactly one reveal
  (`LegacyScreen.ExactlyFiftyTicks`).

- **A dropped preselection can stay on show.** setup.js clears
  `preselectedParticipantId` when another mode is chosen (setup.js:58-61) but
  leaves the dropdown showing its option. Back in rigged mode the page shows
  a participant, nothing is preselected, and continue is disabled. Picking the
  shown participant again fires no `change`, so the user has to pick another
  option first (`SetupScreen.StaleDropdownSwallowsRepick`).

Other consequences of the code that the model keeps:

- In script.js a reveal re-enables the select button without looking at the
  roster. A roster emptied during a run therefore leaves the button enabled
  over an empty roster, and `startSelection`'s own guard is what stops a start
  (`LegacyScreen.WellFormed` keeps only one direction of the enable rule).
- In randomizer.js, a rigged id that matches nobody gives an `undefined`
  winner. The run then throws:
  - when the decoy branch is taken, while building the candidates;
  - otherwise, in its first frame.

  In both cases no reveal is ever scheduled. Through the normal setup flow
  this cannot happen (`Flow.RiggedFlowPicksPreselected`), and in script.js the
  dropdown only ever offers roster ids (`LegacyScreen.StartWellFormed`).

## Model

| member | source | states |
|---|---|---|
| JsText.Trim | script.js:49-50 | the trimmed text is a contiguous slice of the input, with only blanks (ECMAScript WhiteSpace and LineTerminator) cut from either end, and with no blank at either end |
| JsText.TrimEmptyIff | script.js:49-55 | a field trims to the empty string exactly when it consists only of blanks, which is when `!name` rejects it |
| JsText.TrimIdempotent | script.js:49-50 | trimming twice gives the same result as trimming once |
| JsText.ParseInt | script.js:121 | `parseInt` of text that is empty or all blank is NaN |
| JsText.IntToString | setup.js:125 | an id is written as a minus sign exactly when it is negative, followed by decimal digits with no leading zero (except for 0 itself) whose value is the id's magnitude |
| JsText.ParseIntToString | randomizer.js:97-144 | an integer id written into HTML by a template literal parses back to the same id, negative ids included |
| JsText.StripExtension | setup.js:104-106 | the result is unchanged exactly when the name ends in no `.ext` (an extension without `.` or `/`); otherwise it is the prefix before the last such suffix |
| JsText.StripExtensionOfSplit | script.js:289-291 | for a base name and an extension without `.` or `/`, stripping `base.ext` gives back exactly `base` |
| Roster.AddParticipant | script.js:48-63 | rejected exactly when the name field is all blank; otherwise the old roster is kept as a prefix and exactly one entry is appended, with the clock reading as id, the trimmed nonempty name, and no image exactly when the image field is blank |
| Roster.RemoveParticipant | script.js:72-73 | an entry survives exactly when its id differs from the removed one; the roster never grows and is untouched when no entry carries the id |
| Roster.RemoveConcat | script.js:73 | removal distributes over concatenation, so the survivors keep their original order |
| Roster.RemoveIdempotent | script.js:73 | removing an id a second time changes nothing |
| Roster.IdLabels | setup.js:124-125 | one nonempty label per participant, and each parses back to that participant's id |
| Roster.OptionValues | setup.js:123-126 | the dropdown's first value is the empty placeholder, and option k parses to the id of participant k-1 |
| Roster.FirstIndexOf | randomizer.js:72 | the index of the first entry carrying the id; none exactly when no entry carries it |
| Roster.FindById | randomizer.js:72 | a found participant is on the roster and carries the id; nothing is found exactly when the id is null/NaN or carried by no entry |
| Roster.FindByIdIsFirst | randomizer.js:72 | when ids collide, the lookup returns the first entry carrying the id |
| Roster.SeedRoster | setup.js:108-115 | one entry per file, in file order, with entry i getting id i+1, the file name without its extension, and `TeamPictures/` plus the file name as image |
| Roster.SeedIdsDistinct | script.js:294-301 | seeded ids are pairwise distinct and lie in 1..N |
| Roster.SeedLookup | script.js:297 | in a seeded roster, id k in 1..N finds the entry at position k-1, and every other id finds nothing |
| Roster.SeedNames | setup.js:104-115 | when every file is a name, a dot and an extension without `.` or `/`, each seeded participant is named exactly that name |
| Roster.TeamRoster | setup.js:77-115 | the folder roster has 24 entries, named Branden … Zeb, with "Nicole.JPG" giving "Nicole" and "De'Andre.jpeg" giving "De'Andre" |
| Outcome.RandomIndex | randomizer.js:75-76 | `floor(r*N)` is a valid index for every draw in [0, 1) and every N ≥ 1 |
| Outcome.RandomIndexInterval | randomizer.js:75 | index i is drawn exactly when the draw lies in [i/N, (i+1)/N), so each entry is equally likely |
| Outcome.DecideStart | randomizer.js:62-77 | ignored exactly when the roster is empty or a run is going; aborted exactly in rigged mode with a falsy id; rigged mode returns the lookup of that id (none exactly when nobody carries it); random mode returns the entry at `floor(r*N)` |
| Outcome.RiggedIgnoresDraw | randomizer.js:67-72 | in rigged mode the decision does not depend on the draw |
| Outcome.RiggedExample | randomizer.js:72 | roster Alice(1), Bob(2), Cara(3) rigged on id 2 always picks Bob |
| Outcome.ItemIds | randomizer.js:157-159 | each animated item's parsed `data-id` is its participant's id |
| Outcome.LightOnly | script.js:189-195 | an item is lit exactly when its id is the target's |
| Suspense.Progress | randomizer.js:172-173 | progress never exceeds 1, equals 1 exactly when the full 5000 ms have passed, is otherwise elapsed/5000, and is negative only for a negative elapsed time |
| Suspense.StageOf | randomizer.js:178-193 | phase 1 exactly below 0.4, phase 2 exactly in [0.4, 0.8), phase 3 from 0.8; the running phase's fraction maps its slice of progress linearly onto [0, 1], earlier phases read 1 and later phases 0 |
| Suspense.LocalFractionsBounded | randomizer.js:178-193 | every phase fraction is at most 1, and all are at least 0 exactly when the elapsed time is not negative |
| Suspense.PhaseMonotone | randomizer.js:171-193 | a later frame is never in an earlier phase |
| Suspense.OtherLabels | randomizer.js:143-145 | a label is in the result exactly when it is an item label whose parsed id differs from the winner's |
| Suspense.OtherLabelsConcat | randomizer.js:143-145 | the filter splits over concatenation, so it keeps the surviving labels in item order, repeats included, which is what the decoy index at randomizer.js:147 reads |
| Suspense.OtherLabelsSingle | randomizer.js:143-145 | a single label survives exactly when its parsed id is not the winner's |
| Suspense.Candidates | randomizer.js:139-154 | the winner comes first, the list has 1 or 2 entries, and a second entry is a roster participant whose id differs from the winner's; there is a second entry exactly when N > 2, the coin exceeds 0.5 and someone with another id exists |
| Suspense.OthersOf | randomizer.js:143-145 | the participants whose id is not the winner's, and only they |
| Suspense.OtherLabelsOfRoster | randomizer.js:143-145 | filtering the items' labels gives, in order, the labels of the non-winners in roster order |
| Suspense.CandidatesDecoy | randomizer.js:146-153 | the decoy is the participant the lookup finds for entry `floor(pick*n)` of the n non-winners, and exactly that entry when ids are distinct |
| Suspense.DecoyUniform | randomizer.js:147 | with distinct ids, N > 2 and a coin above 0.5, non-winner j of n is the decoy exactly for picks in [j/n, (j+1)/n), so every non-winner is equally likely |
| Suspense.StartAnim | randomizer.js:131-169 | the run starts valid, with no item highlighted, index 0, last switch time 0, and each item's parsed id |
| Suspense.NextIndex | randomizer.js:215-220 | a spotlight switch moves one step along the list, cyclically |
| Suspense.Frame | randomizer.js:171-327 | keeps the run valid; finishes exactly when 5000 ms have passed; phase 1 clears all highlights; phase 2 switches the spotlight only after more than 800 ms and lights exactly the current candidate's items; phase 3 resets the spotlight to the winner and lights exactly the winner's items |
| Suspense.FinalFrameShowsWinner | randomizer.js:306-321 | on the finishing frame the spotlight is on the winner and exactly the winner's items are lit |
| Suspense.SpotlightStaysOnCandidates | randomizer.js:210-227 | the spotlight only ever shows the winner or the decoy |
| Suspense.ClampAxis | randomizer.js:300-301 | the clamped coordinate is never negative, never beyond a nonnegative limit, and unchanged when already in range |
| Suspense.ClampPosition | randomizer.js:300-301 | the clamped position lies inside [0, width-150] × [0, height-100] when the area can hold an item, and a position already inside is unchanged |
| Suspense.ClampIdempotent | randomizer.js:300-301 | clamping an already clamped position changes nothing |
| Settings.SaveSettings | setup.js:129-136 | the record holds exactly the current mode, preselected id and roster; the other key is untouched |
| Settings.SaveParticipants | script.js:305-307 | only the `participants` key changes |
| Settings.LoadSettings | randomizer.js:40-48 | with no record the globals keep null/null/[]; otherwise they take the record's fields, and a missing roster reads as [] |
| Settings.SaveLoadRoundTrip | setup.js:129-136 | loading what setup saved gives back exactly its mode, preselected id and roster, in order |
| Settings.SavedParticipantsIgnored | randomizer.js:41 | what script.js saves never changes what the selection screen loads |
| SetupScreen.Init | setup.js:13-17 | the page starts with the folder roster, no mode, no preselection and the dropdown on its placeholder; `init` touches neither the cards nor the continue button, so both start as the markup sets them |
| SetupScreen.ContinueDisabled | setup.js:66-73 | the continue button is enabled exactly when a mode is chosen and, in rigged mode, a truthy id is preselected; with no mode it is always disabled |
| SetupScreen.SelectMode | setup.js:43-64 | sets the mode; a card is marked exactly when its mode is the chosen one; any non-rigged mode drops the preselection; continue is disabled exactly for rigged mode without a truthy id, or for an empty mode |
| SetupScreen.DropdownValue | setup.js:27-30 | the empty value is null, and on every value the handler agrees with a bare `parseInt` |
| SetupScreen.ChooseOption | setup.js:27-30 | picking option k sets the preselection to the id of participant k-1 (none for the placeholder), recomputes continue and leaves option k shown |
| SetupScreen.Apply | setup.js:27-30 | re-picking the option already shown fires no `change` and changes nothing |
| SetupScreen.StaleDropdownSwallowsRepick | setup.js:27-61 | after rigged, option k, another mode and rigged again, option k is still shown while nothing is preselected and continue is disabled, and picking k again changes nothing |
| SetupScreen.Continue | setup.js:32-39 | alerts without saving exactly in rigged mode without a truthy id; otherwise the store it writes loads back as the page's mode, id and roster, and the other key is untouched |
| SetupScreen.EnabledContinueProceeds | setup.js:66-73 | a click on an enabled continue button always saves |
| SetupScreen.RunKeepsPreselectionOnRoster | setup.js:27-30 | after any sequence of clicks and picks, the roster is unchanged and any preselection is the id of a roster participant |
| SetupScreen.RiggedSettingsNameAParticipant | setup.js:128-136 | rigged settings saved from a reachable page carry a truthy id of a participant in the saved roster |
| Timers.Cancel | randomizer.js:360 | cancelling a handle drops exactly the callbacks registered under it and keeps all others; it changes nothing when no callback carries the handle and leaves nothing when all do |
| Timers.CancelConcat | randomizer.js:360 | cancelling splits over concatenation, so the surviving callbacks keep their order |
| Timers.CancelSingle | randomizer.js:360 | a single callback survives exactly when its handle differs from the cancelled one |
| SelectionScreen.Init | randomizer.js:19-28 | redirects exactly when the loaded mode is falsy; otherwise the page is idle, the subtitle says preset exactly in rigged mode, and select is disabled exactly for an empty roster |
| SelectionScreen.Start | randomizer.js:62-91 | alerts exactly when the decision aborts and is a no-op unless it begins; a begun run marks the page busy and requests one frame whose handle is stored, unless an `undefined` winner throws in the decoy branch, in which case nothing is requested and the stored handle is untouched |
| SelectionScreen.FireFrame | randomizer.js:306-327 | a frame callback is used up; a continuing run requests exactly one successor under a fresh handle that is not stored; a finishing run schedules exactly one reveal of its winner; pending work never grows |
| SelectionScreen.FireReveal | randomizer.js:335-352 | the reveal shows its participant and marks the page idle with select enabled |
| SelectionScreen.Reset | randomizer.js:355-365 | hides the result, marks the page idle, clears the stored handle and cancels exactly the callback it named; select is enabled exactly for a nonempty roster; pending reveals stay |
| SelectionScreen.InitWellFormed | randomizer.js:19-28 | the page as loaded satisfies the screen invariant |
| SelectionScreen.StepWellFormed | randomizer.js:58 | every press and every callback preserves the invariant: select disabled exactly for an empty roster or a running selection, fresh handles, valid runs, and every pending or shown winner on the roster (with the preselected id in rigged mode) |
| SelectionScreen.RunWellFormed | randomizer.js:58 | the invariant holds after any interleaving of presses and callbacks, and the roster, mode and preselection never change |
| SelectionScreen.ShownIsEligible | randomizer.js:72-76 | whatever happens, the revealed participant is on the roster, and in rigged mode carries the preselected id |
| SelectionScreen.RevealSurvivesReset | randomizer.js:324-326 | a reveal pending at reset still fires afterwards and shows its participant |
| SelectionScreen.ResetBeforeFirstFrameCancels | randomizer.js:359-362 | reset before the first frame cancels the run |
| SelectionScreen.ResetAfterFirstFrameMisses | randomizer.js:330-331 | after the first frame, reset leaves the run's next frame pending |
| LegacyScreen.Tick | script.js:176-222 | each tick counts up by one; only a tick past 35 with a draw above 0.3 changes the highlights, and then lights exactly the winner; the tick that reaches 50 clears the global interval, lights exactly the winner and schedules exactly one reveal of the winner; an `undefined` winner never schedules a reveal |
| LegacyScreen.UpdateUI | script.js:79-101 | the dropdown falls back to the placeholder, and select is disabled exactly for an empty roster or a running selection |
| LegacyScreen.Init | script.js:23-27 | the page starts idle with the 24-entry folder roster and select enabled |
| LegacyScreen.Add | script.js:48-69 | alerts and changes nothing exactly when the name is blank; otherwise the roster is `Roster.AddParticipant`'s, the fields are emptied, the roster is saved and the dropdown reset, and nothing else changes, a running selection included |
| LegacyScreen.Remove | script.js:72-76 | the roster is filtered and saved and the dropdown reset; nothing else changes, so a running animation and its pending reveal go on |
| LegacyScreen.ChooseMode | script.js:104-111 | the rigged options are shown exactly for the rigged radio, and nothing else changes |
| LegacyScreen.PickOption | script.js:96-97 | option k holds the id of participant k-1, the placeholder none; only the dropdown's value changes |
| LegacyScreen.Start | script.js:114-145 | the shared decision, with the id read by `parseInt` from the dropdown; a begun run adds one fresh interval, stores its handle and marks the page busy |
| LegacyScreen.NewTicker | script.js:167-174 | a new interval starts at count 0 with no item lit |
| LegacyScreen.FireInterval | script.js:199-202 | the ticking interval advances; when it reaches the clear call, the interval stopped is the one the global handle names; a reveal is appended exactly when the tick scheduled one |
| LegacyScreen.FireReveal | script.js:226-243 | the reveal shows its participant and enables select without looking at the roster |
| LegacyScreen.Reset | script.js:246-256 | stops exactly the interval the global handle names, clears it, marks the page idle, and leaves pending reveals |
| LegacyScreen.StartWellFormed | script.js:120-126 | a rigged start from a reachable page always finds its participant, because the dropdown only holds roster ids |
| LegacyScreen.RunWellFormed | script.js:100 | after any events, a busy page has select disabled, a disabled select means an empty roster or a run, the dropdown names a roster id or nothing, and every interval has a real winner |
| LegacyScreen.TickAloneCounts | script.js:168-222 | an undisturbed run keeps counting with nothing revealed and no item lit through count 36, and the tick that reaches 50 stops it and schedules exactly one reveal of its winner |
| LegacyScreen.ExactlyFiftyTicks | script.js:168-222 | a started run is still going after each of its first 49 ticks, and after the 50th it has stopped with exactly one reveal of its winner scheduled |
| LegacyScreen.ResetStopsRun | script.js:250-253 | reset during a run stops its interval |
| LegacyScreen.RevealSurvivesReset | script.js:218-220 | a reveal pending at reset still fires afterwards |
| LegacyScreen.StaleRevealAllowsSecondRun | script.js:241-242 | a stale reveal fired during a run marks the page idle, so another start makes two intervals run, with only the newer handle stored |
| LegacyScreen.OrphanedBySecondStart | script.js:176 | from a quiet page: finish, reset, start, stale reveal, start leaves an interval whose handle nobody holds |
| LegacyScreen.OrphanNeverStops | script.js:199-202 | an interval whose handle is not the global one keeps running past 50 and schedules one more reveal on every tick |
| Flow.RiggedFlowPicksPreselected | randomizer.js:67-72 | rigged settings saved by the setup page open the selection page, and its first run's winner is never `undefined`: it is the folder participant at position id-1 |
| Flow.RandomFlowPicksByDraw | randomizer.js:74-76 | random settings saved by the setup page open the selection page, and its first run's winner is the folder participant at `floor(r*24)` |

## Left out

- DOM rendering. This covers `innerHTML` templates, CSS classes other than the
  highlight, images and their `onerror` fallbacks, monogram badges, opacity,
  scale, the subtitle element's styling, and the back button's and `init`'s
  navigation to `setup.html`. The redirect appears only as `SelectionScreen.Init`
  returning `Redirect`.
- JSON encoding of the store. `localStorage` is a record of two optional slots.
- Motion physics and easing in randomizer.js: velocities, bounces, damping,
  centring, pulsing, fading, and the three easing functions
  (randomizer.js:113-123, 196-208, 236-297). These are floating-point visuals
  that feed no decision. Only the final position clamp is modelled.
- The random item positions of script.js (script.js:160-161, 178-183) and its
  final centring and fading (script.js:204-215), except the highlight changes.
- Timer delays. Frames, interval ticks and reveals are events in any order, so
  the model allows more interleavings than a browser does. It does not model
  the 800 ms and 500 ms reveal delays, the 40 ms tick period, or the ordering
  of rAF timestamps. Every invariant therefore holds for the browser too.
- Handle values. The browser hands out positive handles; the model counts them
  up from 1.
- Uncaught exceptions from an `undefined` winner are modelled as the callback
  stopping where it throws. The console error is not modelled.
- JsText.IntToString: writes every integer in plain decimal. JavaScript
  switches to exponent form from 1e21, far above any id these pages create;
  ids are whole numbers (`Date.now()` or position + 1).
- Roster.AddParticipant: takes the clock reading as the id and claims nothing
  about uniqueness. Two adds in the same millisecond give equal ids, and the
  lookup then returns the first (`Roster.FindByIdIsFirst`).
- script.js's commented-out load from `localStorage` (script.js:313-319) is not
  code and is not modelled; the page always seeds from the folder list.
- The mode radios of script.js are assumed to have one checked in the markup.
  `LegacyScreen.Init` takes the checked radio's value as a string. If none is
  checked, reading `.value` of the missing radio throws (script.js:105, 117),
  and that path is not modelled.
- The markup's initial display of setup.js's rigged panel is not modelled, so
  the model lets the user pick in the dropdown in any mode, including while the
  panel is hidden. This adds behaviours and removes none.
- A mode card without a `data-mode` attribute (an `undefined` mode) is not
  modelled: card modes are strings.
