/** The control logic of `animateSelection` in randomizer.js: the
    candidate list built before the first frame, the progress clock, the
    three-phase classification, the spotlight cycling, which items carry the
    highlight after each frame, the position clamp and the stop rule. The
    motion itself (velocities, easing, pulsing, fading) is not modelled. */
module Suspense {
  import opened Wrappers
  import opened JsText
  import opened Roster
  import opened Outcome

  /** Total length of a run in ms (`duration`). */
  const Duration: real := 5000.0
  /** A spotlight switch needs strictly more than this many ms since the last. */
  const SwitchInterval: real := 800.0

  // ----- Clock and phases -------------------------------------------------

  /** `Math.min(elapsed / duration, 1)`. It reaches 1 exactly when the full
      duration has passed and is negative only for a negative elapsed time. */
  function Progress(elapsed: real): (p: real)
    ensures p <= 1.0
    ensures p == 1.0 <==> elapsed >= Duration
    ensures p < 1.0 ==> p * Duration == elapsed
    ensures 0.0 <= p <==> 0.0 <= elapsed
  {
    var q := elapsed / Duration;
    if q < 1.0 then q else 1.0
  }

  datatype Phase = Chaos | Spotlight | Finale

  /** A phase with the three local fractions of the source
      (`phase1Progress`, `phase2Progress`, `phase3Progress`). */
  datatype Stage = Stage(phase: Phase, local1: real, local2: real, local3: real)

  /** Phase 1 below 40 %, phase 2 from 40 % to below 80 %, phase 3 from 80 %.
      The running phase's fraction maps its slice of progress linearly onto
      [0, 1]; earlier phases read 1 and later ones 0. */
  function StageOf(p: real): (s: Stage)
    ensures s.phase == Chaos <==> p < 0.4
    ensures s.phase == Spotlight <==> 0.4 <= p < 0.8
    ensures s.phase == Finale <==> 0.8 <= p
    ensures s.phase == Chaos ==> 0.4 * s.local1 == p && s.local2 == 0.0 && s.local3 == 0.0
    ensures s.phase == Spotlight ==> s.local1 == 1.0 && 0.4 + 0.4 * s.local2 == p && s.local3 == 0.0
    ensures s.phase == Finale ==> s.local1 == 1.0 && s.local2 == 1.0 && 0.8 + 0.2 * s.local3 == p
  {
    if p < 0.4 then Stage(Chaos, p / 0.4, 0.0, 0.0)
    else if p < 0.8 then Stage(Spotlight, 1.0, (p - 0.4) / 0.4, 0.0)
    else Stage(Finale, 1.0, 1.0, (p - 0.8) / 0.2)
  }

  /** Every local fraction lies in [0, 1] once the elapsed time is not
      negative; a negative elapsed time (a frame stamped before the start)
      gives a negative phase-1 fraction. */
  lemma LocalFractionsBounded(elapsed: real)
    ensures var s := StageOf(Progress(elapsed));
      && s.local1 <= 1.0 && s.local2 <= 1.0 && s.local3 <= 1.0
      && (0.0 <= elapsed <==> 0.0 <= s.local1 && 0.0 <= s.local2 && 0.0 <= s.local3)
  {
  }

  /** The phase of a frame at time `now` of a run that started at `start`. */
  function PhaseAt(start: real, now: real): Phase
  {
    StageOf(Progress(now - start)).phase
  }

  /** Phases follow each other in time: a later frame is never in an
      earlier phase. */
  lemma PhaseMonotone(start: real, t1: real, t2: real)
    requires t1 <= t2
    ensures PhaseAt(start, t1) == Finale ==> PhaseAt(start, t2) == Finale
    ensures PhaseAt(start, t1) == Spotlight ==> PhaseAt(start, t2) != Chaos
  {
    var p1 := Progress(t1 - start);
    var p2 := Progress(t2 - start);
    assert p1 <= p2;
  }

  // ----- Candidates -------------------------------------------------------

  /** `items.filter(item => parseInt(item.dataset.id) !== selectedParticipant.id)`. */
  function OtherLabels(labels: seq<string>, winnerId: int): (r: seq<string>)
    ensures forall x :: x in r <==> x in labels && ParseInt(x) != Some(winnerId)
  {
    if |labels| == 0 then []
    else
      assert forall x :: x in labels <==> x == labels[0] || x in labels[1..];
      (if ParseInt(labels[0]) != Some(winnerId) then [labels[0]] else [])
        + OtherLabels(labels[1..], winnerId)
  }

  /** The filter keeps order and repeats: on a concatenation it is the
      concatenation of the two filtered halves. */
  lemma {:induction false} OtherLabelsConcat(a: seq<string>, b: seq<string>, winnerId: int)
    ensures OtherLabels(a + b, winnerId) == OtherLabels(a, winnerId) + OtherLabels(b, winnerId)
    decreases |a|
  {
    if |a| == 0 {
      assert a + b == b;
    } else {
      assert (a + b)[0] == a[0] && (a + b)[1..] == a[1..] + b;
      OtherLabelsConcat(a[1..], b, winnerId);
    }
  }

  /** A single label is kept exactly when its id is not the winner's. */
  lemma OtherLabelsSingle(x: string, winnerId: int)
    ensures OtherLabels([x], winnerId) == if ParseInt(x) != Some(winnerId) then [x] else []
  {
    assert [x][1..] == [];
  }

  /** The spotlight list: the winner first, then, when there are more than
      two items and the coin comes up above 0.5, one decoy drawn uniformly
      from the items whose id differs from the winner's. */
  function Candidates(ps: seq<Participant>, winner: Participant, coin: Draw, pick: Draw)
    : (c: seq<Participant>)
    ensures 1 <= |c| <= 2 && c[0] == winner
    ensures |c| == 2 ==> c[1] in ps && c[1].id != winner.id
    ensures |c| == 2 <==> |ps| > 2 && coin > 0.5 && exists p :: p in ps && p.id != winner.id
  {
    if |ps| > 2 && coin > 0.5 then
      var labels := IdLabels(ps);
      var others := OtherLabels(labels, winner.id);
      OthersNonEmpty(ps, labels, winner.id);
      if |others| > 0 then
        var chosen := others[RandomIndex(pick, |others|)];
        DecoyResolves(ps, labels, chosen);
        match FindById(ps, ParseInt(chosen))
        case Some(d) => [winner, d]
        case None => [winner]
      else [winner]
    else [winner]
  }

  lemma OthersNonEmpty(ps: seq<Participant>, labels: seq<string>, winnerId: int)
    requires |labels| == |ps|
    requires forall i :: 0 <= i < |ps| ==> ParseInt(labels[i]) == Some(ps[i].id)
    ensures |OtherLabels(labels, winnerId)| > 0 <==> exists p :: p in ps && p.id != winnerId
  {
    var others := OtherLabels(labels, winnerId);
    if p :| p in ps && p.id != winnerId {
      var i :| 0 <= i < |ps| && ps[i] == p;
      assert labels[i] in others;
    }
    if |others| > 0 {
      assert others[0] in labels;
      var i :| 0 <= i < |labels| && labels[i] == others[0];
      assert ps[i] in ps && ps[i].id != winnerId;
    }
  }

  lemma DecoyResolves(ps: seq<Participant>, labels: seq<string>, chosen: string)
    requires |labels| == |ps|
    requires forall i :: 0 <= i < |ps| ==> ParseInt(labels[i]) == Some(ps[i].id)
    requires chosen in labels
    ensures FindById(ps, ParseInt(chosen)).Some?
  {
    var i :| 0 <= i < |labels| && labels[i] == chosen;
    assert ps[i] in ps;
  }

  /** The participants whose items `otherItems` holds: everyone whose id
      is not the winner's, in roster order. */
  function OthersOf(ps: seq<Participant>, winnerId: int): (r: seq<Participant>)
    ensures forall p :: p in r <==> p in ps && p.id != winnerId
  {
    if |ps| == 0 then []
    else
      assert forall p :: p in ps <==> p == ps[0] || p in ps[1..];
      (if ps[0].id != winnerId then [ps[0]] else []) + OthersOf(ps[1..], winnerId)
  }

  lemma IdLabelsConcat(a: seq<Participant>, b: seq<Participant>)
    ensures IdLabels(a + b) == IdLabels(a) + IdLabels(b)
  {
    forall i | 0 <= i < |a + b|
      ensures IdLabels(a + b)[i] == (IdLabels(a) + IdLabels(b))[i]
    {
      if i < |a| {
        assert (a + b)[i] == a[i];
      } else {
        assert (a + b)[i] == b[i - |a|];
      }
    }
  }

  /** Filtering the items' labels is filtering the roster: the labels kept
      are, in order, those of the non-winners. */
  lemma {:induction false} OtherLabelsOfRoster(ps: seq<Participant>, winnerId: int)
    ensures OtherLabels(IdLabels(ps), winnerId) == IdLabels(OthersOf(ps, winnerId))
    decreases |ps|
  {
    if |ps| > 0 {
      var head := [ps[0]];
      assert ps == head + ps[1..];
      IdLabelsConcat(head, ps[1..]);
      var l := IdLabels(head)[0];
      assert IdLabels(head) == [l];
      ParseIntToString(ps[0].id);
      OtherLabelsConcat([l], IdLabels(ps[1..]), winnerId);
      OtherLabelsSingle(l, winnerId);
      OtherLabelsOfRoster(ps[1..], winnerId);
      var kept := if ps[0].id != winnerId then head else [];
      IdLabelsConcat(kept, OthersOf(ps[1..], winnerId));
      assert IdLabels(kept) == OtherLabels([l], winnerId);
    }
  }

  lemma {:induction false} OthersDistinct(ps: seq<Participant>, winnerId: int)
    requires DistinctIds(ps)
    ensures DistinctIds(OthersOf(ps, winnerId))
    decreases |ps|
  {
    if |ps| > 0 {
      assert DistinctIds(ps[1..]);
      OthersDistinct(ps[1..], winnerId);
      var rest := OthersOf(ps[1..], winnerId);
      assert forall p :: p in rest ==> p in ps[1..];
      forall q | q in rest ensures q.id != ps[0].id {
        var j :| 0 <= j < |ps[1..]| && ps[1..][j] == q;
        assert ps[j + 1] == q;
      }
    }
  }

  /** The decoy is `otherItems[floor(pick * n)]` looked up by id: with the
      item list in roster order that is entry floor(pick * n) of the
      non-winners, or the first participant carrying its id. */
  lemma CandidatesDecoy(ps: seq<Participant>, winner: Participant, coin: Draw, pick: Draw)
    ensures var others := OthersOf(ps, winner.id);
      var c := Candidates(ps, winner, coin, pick);
      |c| == 2 ==>
        && |others| > 0
        && c[1] == FindById(ps, Some(others[RandomIndex(pick, |others|)].id)).value
        && (DistinctIds(ps) ==> c[1] == others[RandomIndex(pick, |others|)])
  {
    var others := OthersOf(ps, winner.id);
    var c := Candidates(ps, winner, coin, pick);
    if |c| == 2 {
      OtherLabelsOfRoster(ps, winner.id);
      var labels := IdLabels(ps);
      var n := |OtherLabels(labels, winner.id)|;
      assert n == |others|;
      var j := RandomIndex(pick, n);
      assert OtherLabels(labels, winner.id)[j] == IdLabels(others)[j];
      assert ParseInt(IdLabels(others)[j]) == Some(others[j].id);
      if DistinctIds(ps) {
        assert others[j] in ps;
        var k :| 0 <= k < |ps| && ps[k] == others[j];
        FindByIdIsFirst(ps, k);
      }
    }
  }

  /** Every non-winner is equally likely as the decoy: with distinct ids,
      a drama draw above 0.5 on more than two items makes entry j of the n
      non-winners the decoy exactly for picks in [j/n, (j+1)/n). */
  lemma DecoyUniform(ps: seq<Participant>, winner: Participant, coin: Draw, pick: Draw, j: nat)
    requires DistinctIds(ps) && |ps| > 2 && coin > 0.5
    requires j < |OthersOf(ps, winner.id)|
    ensures var n := |OthersOf(ps, winner.id)|;
      (Candidates(ps, winner, coin, pick) == [winner, OthersOf(ps, winner.id)[j]]
       <==> (j as real) / (n as real) <= pick < ((j + 1) as real) / (n as real))
  {
    var others := OthersOf(ps, winner.id);
    var n := |others|;
    var c := Candidates(ps, winner, coin, pick);
    assert others[0] in ps && others[0].id != winner.id;
    assert |c| == 2;
    CandidatesDecoy(ps, winner, coin, pick);
    OthersDistinct(ps, winner.id);
    var i := RandomIndex(pick, n);
    assert c == [winner, others[i]];
    assert others[i] == others[j] <==> i == j;
    RandomIndexInterval(pick, n, j);
  }

  // ----- Frame state ------------------------------------------------------

  /** The closure state of one run: when it started, the winner, the
      spotlight list with `currentCandidateIndex` and
      `lastCandidateSwitchTime`, the parsed id of each item and which items
      carry the `highlight` class. */
  datatype Anim = Anim(
    start: real,
    winner: Participant,
    candidates: seq<Participant>,
    index: nat,
    lastSwitch: real,
    itemIds: seq<Option<int>>,
    highlighted: seq<bool>)

  predicate Valid(a: Anim) {
    && 1 <= |a.candidates| <= 2 && a.candidates[0] == a.winner
    && a.index < |a.candidates|
    && |a.highlighted| == |a.itemIds|
  }

  /** The state `animateSelection` sets up before the first frame: every
      highlight removed, index 0 and a last switch time of 0 (not the start
      time, so the first phase-2 frame switches at once). */
  function StartAnim(ps: seq<Participant>, winner: Participant, coin: Draw, pick: Draw, now: real)
    : (a: Anim)
    ensures Valid(a)
    ensures a.start == now && a.winner == winner && a.index == 0 && a.lastSwitch == 0.0
    ensures a.candidates == Candidates(ps, winner, coin, pick)
    ensures |a.itemIds| == |ps| && forall i :: 0 <= i < |ps| ==> a.itemIds[i] == Some(ps[i].id)
    ensures forall i :: 0 <= i < |a.highlighted| ==> !a.highlighted[i]
  {
    Anim(now, winner, Candidates(ps, winner, coin, pick), 0, 0.0, ItemIds(ps), seq(|ps|, i => false))
  }

  /** The spotlight index after a switch: one step along the list,
      wrapping round to the winner at the start. */
  function NextIndex(index: nat, count: nat): (r: nat)
    requires index < count
    ensures r == (index + 1) % count
  {
    if index < count - 1 then index + 1 else 0
  }

  /** What one frame did: asked for another frame, or made the final
      placement and set the reveal timer. */
  datatype FrameOutcome = Continue(anim: Anim) | Finish(anim: Anim)

  /** One call of `animate(now)`. Phase 1 clears every highlight. Phase 2
      moves the spotlight on when more than 800 ms passed since the last
      switch and lights the items of the current candidate. Phase 3 forces
      the spotlight back to the winner and lights the winner's items. The run
      finishes on the frame whose progress reaches 1. */
  function Frame(a: Anim, now: real): (o: FrameOutcome)
    requires Valid(a)
    ensures Valid(o.anim)
    ensures o.Finish? <==> now - a.start >= Duration
    ensures o.anim.start == a.start && o.anim.winner == a.winner
    ensures o.anim.candidates == a.candidates && o.anim.itemIds == a.itemIds
    ensures PhaseAt(a.start, now) == Chaos ==>
      && o.anim.index == a.index && o.anim.lastSwitch == a.lastSwitch
      && forall i :: 0 <= i < |a.itemIds| ==> !o.anim.highlighted[i]
    ensures PhaseAt(a.start, now) == Spotlight ==>
      && (now - a.lastSwitch > SwitchInterval ==>
            o.anim.index == NextIndex(a.index, |a.candidates|) && o.anim.lastSwitch == now)
      && (now - a.lastSwitch <= SwitchInterval ==>
            o.anim.index == a.index && o.anim.lastSwitch == a.lastSwitch)
      && forall i :: 0 <= i < |a.itemIds| ==>
           (o.anim.highlighted[i] <==> a.itemIds[i] == Some(a.candidates[o.anim.index].id))
    ensures PhaseAt(a.start, now) == Finale ==>
      && o.anim.index == 0 && a.candidates[o.anim.index] == a.winner
      && forall i :: 0 <= i < |a.itemIds| ==> (o.anim.highlighted[i] <==> a.itemIds[i] == Some(a.winner.id))
  {
    var progress := Progress(now - a.start);
    var phase := StageOf(progress).phase;
    var a' :=
      match phase
      case Chaos =>
        a.(highlighted := seq(|a.itemIds|, i => false))
      case Spotlight =>
        var switching := now - a.lastSwitch > SwitchInterval;
        var index := if switching then NextIndex(a.index, |a.candidates|) else a.index;
        a.(index := index,
           lastSwitch := if switching then now else a.lastSwitch,
           highlighted := LightOnly(a.itemIds, a.candidates[index].id))
      case Finale =>
        a.(index := 0, highlighted := LightOnly(a.itemIds, a.winner.id));
    if progress < 1.0 then Continue(a') else Finish(a')
  }

  /** The final frame leaves exactly the winner's items highlighted, and the
      spotlight on the winner. */
  lemma FinalFrameShowsWinner(a: Anim, now: real)
    requires Valid(a) && Frame(a, now).Finish?
    ensures var b := Frame(a, now).anim;
      && b.candidates[b.index] == a.winner
      && forall i :: 0 <= i < |a.itemIds| ==> (b.highlighted[i] <==> a.itemIds[i] == Some(a.winner.id))
  {
    assert Progress(now - a.start) == 1.0;
  }

  /** The spotlight only ever shows the winner or the decoy, so no third
      participant is ever highlighted as a candidate. */
  lemma SpotlightStaysOnCandidates(a: Anim, now: real)
    requires Valid(a)
    ensures var b := Frame(a, now).anim;
      b.candidates[b.index] == a.winner || (|a.candidates| == 2 && b.candidates[b.index] == a.candidates[1])
  {
  }

  // ----- Position clamp ---------------------------------------------------

  /** Width and height of an animated item, in px, as the clamp assumes. */
  const ItemWidth: real := 150.0
  const ItemHeight: real := 100.0

  /** `Math.max(0, Math.min(limit, v))`. */
  function ClampAxis(v: real, limit: real): (r: real)
    ensures 0.0 <= r
    ensures 0.0 <= limit ==> r <= limit
    ensures 0.0 <= v <= limit ==> r == v
    ensures limit < 0.0 ==> r == 0.0
  {
    var m := if limit < v then limit else v;
    if 0.0 < m then m else 0.0
  }

  /** The clamp applied to each item at the end of every frame: inside
      [0, width - 150] x [0, height - 100] whenever the area is at least one
      item in size. */
  function ClampPosition(width: real, height: real, x: real, y: real): (r: (real, real))
    ensures width >= ItemWidth ==> 0.0 <= r.0 <= width - ItemWidth
    ensures height >= ItemHeight ==> 0.0 <= r.1 <= height - ItemHeight
    ensures 0.0 <= x <= width - ItemWidth && 0.0 <= y <= height - ItemHeight ==> r == (x, y)
  {
    (ClampAxis(x, width - ItemWidth), ClampAxis(y, height - ItemHeight))
  }

  /** Clamping a clamped position changes nothing. */
  lemma ClampIdempotent(width: real, height: real, x: real, y: real)
    ensures var r := ClampPosition(width, height, x, y);
      ClampPosition(width, height, r.0, r.1) == r
  {
  }
}
