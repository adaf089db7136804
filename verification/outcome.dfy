/** How a run picks its winner, shared by randomizer.js and script.js:
    the guard at the top of `startSelection`, the rigged-mode lookup and
    the uniform random draw. */
module Outcome {
  import opened Wrappers
  import opened JsText
  import opened Roster

  /** A value of `Math.random()`: a real in [0, 1). */
  type Draw = r: real | 0.0 <= r < 1.0

  /** `Math.floor(Math.random() * n)`: an index into a list of n entries. */
  function RandomIndex(r: Draw, n: nat): (i: nat)
    requires n >= 1
    ensures i < n
  {
    ScaledDrawBelow(r, n);
    (r * n as real).Floor
  }

  lemma ScaledDrawBelow(r: Draw, n: nat)
    requires n >= 1
    ensures 0.0 <= r * n as real < n as real
  {
    assert (1.0 - r) * (n as real) > 0.0;
  }

  /** Index i is drawn exactly when the draw lies in [i/n, (i+1)/n): every
      index owns an interval of width 1/n, so a uniform draw picks each
      entry with probability 1/n. */
  lemma RandomIndexInterval(r: Draw, n: nat, i: nat)
    requires n >= 1
    ensures RandomIndex(r, n) == i <==> (i as real) / (n as real) <= r < ((i + 1) as real) / (n as real)
  {
    var nr := n as real;
    DivAtMost(i as real, nr, r);
    BelowDiv(r, (i + 1) as real, nr);
  }

  /** For a positive divisor, a / d <= r exactly when a <= r * d. */
  lemma DivAtMost(a: real, d: real, r: real)
    requires d > 0.0
    ensures a / d <= r <==> a <= r * d
  {
    var q := a / d;
    assert q * d == a;
    if q <= r {
      assert (r - q) * d >= 0.0;
    } else {
      assert (q - r) * d > 0.0;
    }
  }

  /** For a positive divisor, r < b / d exactly when r * d < b. */
  lemma BelowDiv(r: real, b: real, d: real)
    requires d > 0.0
    ensures r < b / d <==> r * d < b
  {
    var q := b / d;
    assert q * d == b;
    if r < q {
      assert (q - r) * d > 0.0;
    } else {
      assert (r - q) * d >= 0.0;
    }
  }

  /** JavaScript truthiness of an id: `null`, `NaN` (both None) and 0 are
      falsy. */
  predicate Truthy(id: Option<int>) {
    id.Some? && id.value != 0
  }

  /** What `startSelection` decides before any animation starts. */
  datatype StartDecision =
    | Ignored                              // empty roster, or a run is already going
    | NoPreselection                       // rigged mode without a usable id: alert and stop
    | Begin(winner: Option<Participant>)   // run starts; None is the `undefined` of a failed lookup

  /** The decision part of `startSelection`: the empty-roster/already-running
      guard, then in rigged mode the truthiness check and the lookup of the
      first participant with the preselected id, otherwise a uniform draw. */
  function DecideStart(roster: seq<Participant>, rigged: bool, preselected: Option<int>,
                       selecting: bool, r: Draw): (d: StartDecision)
    ensures d.Ignored? <==> |roster| == 0 || selecting
    ensures d.NoPreselection? <==> |roster| > 0 && !selecting && rigged && !Truthy(preselected)
    ensures d.Begin? && rigged ==> Truthy(preselected)
    ensures d.Begin? && rigged && d.winner.Some? ==> d.winner.value in roster && preselected == Some(d.winner.value.id)
    ensures d.Begin? && rigged ==> (d.winner.None? <==> forall p :: p in roster ==> p.id != preselected.value)
    ensures d.Begin? && !rigged ==> d.winner == Some(roster[RandomIndex(r, |roster|)])
  {
    if |roster| == 0 || selecting then Ignored
    else if rigged then
      if !Truthy(preselected) then NoPreselection
      else Begin(FindById(roster, preselected))
    else Begin(Some(roster[RandomIndex(r, |roster|)]))
  }

  /** Rigged mode is deterministic: whatever the draw, the winner is the
      first participant carrying the preselected id. With roster
      Alice(1), Bob(2), Cara(3) and id 2 the winner is always Bob. */
  lemma RiggedIgnoresDraw(roster: seq<Participant>, id: int, r1: Draw, r2: Draw)
    requires |roster| > 0 && id != 0
    ensures DecideStart(roster, true, Some(id), false, r1) == DecideStart(roster, true, Some(id), false, r2)
    ensures DecideStart(roster, true, Some(id), false, r1) == Begin(FindById(roster, Some(id)))
  {
  }

  /** The three-person example: rigged on id 2 reveals Bob. */
  lemma RiggedExample(r: Draw)
    ensures
      var alice := Participant(1, "Alice", None);
      var bob := Participant(2, "Bob", None);
      var cara := Participant(3, "Cara", None);
      DecideStart([alice, bob, cara], true, Some(2), false, r) == Begin(Some(bob))
  {
    var roster := [Participant(1, "Alice", None), Participant(2, "Bob", None), Participant(3, "Cara", None)];
    FindByIdIsFirst(roster, 1);
  }

  // ----- Animated items ---------------------------------------------------

  /** `parseInt(item.dataset.id)` for the item made from each participant:
      the id written into the item reads back as that participant's id. */
  function ItemIds(ps: seq<Participant>): (ids: seq<Option<int>>)
    ensures |ids| == |ps|
    ensures forall i :: 0 <= i < |ps| ==> ids[i] == Some(ps[i].id)
  {
    var labels := IdLabels(ps);
    seq(|ps|, i requires 0 <= i < |ps| => ParseInt(labels[i]))
  }

  /** Which items carry the highlight when the items with `target`'s id
      are lit and all others are cleared. */
  function LightOnly(ids: seq<Option<int>>, target: int): (h: seq<bool>)
    ensures |h| == |ids|
    ensures forall i :: 0 <= i < |ids| ==> (h[i] <==> ids[i] == Some(target))
  {
    seq(|ids|, i requires 0 <= i < |ids| => ids[i] == Some(target))
  }
}
