/** The participant list and the operations script.js and setup.js perform
    on it: adding from the two text fields, removing by id, looking up by id
    and seeding from the fixed photo-folder listing. */
module Roster {
  import opened Wrappers
  import opened JsText

  /** One roster entry. `id` is a JavaScript number: `Date.now()` for an
      entry added by hand, position + 1 for a seeded one. `imageUrl` None is
      the source's `null`. */
  datatype Participant = Participant(id: int, name: string, imageUrl: Option<string>)

  /** `addParticipant`: trim both fields; a name that trims to nothing is
      rejected (None) and the roster is left alone; otherwise exactly one
      participant, stamped with the clock reading `now`, is appended. An image
      field that trims to nothing stores no image. */
  function AddParticipant(roster: seq<Participant>, nameField: string, imageField: string, now: int)
    : (r: Option<seq<Participant>>)
    ensures r.None? <==> AllSpace(nameField)
    ensures r.Some? ==> |r.value| == |roster| + 1 && r.value[..|roster|] == roster
    ensures r.Some? ==>
      var p := r.value[|roster|];
      && p.id == now
      && p.name == Trim(nameField) && p.name != []
      && (p.imageUrl.None? <==> AllSpace(imageField))
      && (p.imageUrl.Some? ==> p.imageUrl.value == Trim(imageField))
  {
    TrimEmptyIff(nameField);
    TrimEmptyIff(imageField);
    var name := Trim(nameField);
    var url := Trim(imageField);
    if name == [] then None
    else
      var p := Participant(now, name, if url == [] then None else Some(url));
      assert (roster + [p])[..|roster|] == roster;
      Some(roster + [p])
  }

  /** `removeParticipant(id)`: `participants.filter(p => p.id !== id)`. */
  function RemoveParticipant(roster: seq<Participant>, id: int): (r: seq<Participant>)
    ensures forall p :: p in r <==> p in roster && p.id != id
    ensures |r| <= |roster|
    ensures (forall p :: p in roster ==> p.id != id) ==> r == roster
  {
    if |roster| == 0 then []
    else
      var rest := RemoveParticipant(roster[1..], id);
      assert forall p :: p in roster <==> p == roster[0] || p in roster[1..];
      if roster[0].id == id then rest
      else
        assert roster == [roster[0]] + roster[1..];
        [roster[0]] + rest
  }

  /** Removal works entry by entry: filtering a concatenation filters each
      part and keeps them in order. With the membership clause above this
      pins the result down to the order-preserving filter. */
  lemma {:induction false} RemoveConcat(a: seq<Participant>, b: seq<Participant>, id: int)
    ensures RemoveParticipant(a + b, id) == RemoveParticipant(a, id) + RemoveParticipant(b, id)
    decreases |a|
  {
    if |a| > 0 {
      assert (a + b)[1..] == a[1..] + b;
      RemoveConcat(a[1..], b, id);
    } else {
      assert a + b == b;
    }
  }

  /** Removing the same id twice is the same as removing it once. */
  lemma RemoveIdempotent(roster: seq<Participant>, id: int)
    ensures RemoveParticipant(RemoveParticipant(roster, id), id) == RemoveParticipant(roster, id)
  {
  }

  /** Each participant's id as written into HTML by a template literal:
      the `data-id` of an animated item and the `value` of a dropdown option.
      Each label parses back to its participant's id and none is empty. */
  function IdLabels(ps: seq<Participant>): (labels: seq<string>)
    ensures |labels| == |ps|
    ensures forall i :: 0 <= i < |ps| ==> ParseInt(labels[i]) == Some(ps[i].id)
    ensures forall i :: 0 <= i < |ps| ==> labels[i] != []
  {
    var labels := seq(|ps|, i requires 0 <= i < |ps| => IntToString(ps[i].id));
    LabelsParseBack(ps, labels);
    labels
  }

  lemma LabelsParseBack(ps: seq<Participant>, labels: seq<string>)
    requires |labels| == |ps|
    requires forall i :: 0 <= i < |ps| ==> labels[i] == IntToString(ps[i].id)
    ensures forall i :: 0 <= i < |ps| ==> ParseInt(labels[i]) == Some(ps[i].id)
    ensures forall i :: 0 <= i < |ps| ==> labels[i] != []
  {
    forall i | 0 <= i < |ps| ensures ParseInt(labels[i]) == Some(ps[i].id) && labels[i] != [] {
      ParseIntToString(ps[i].id);
    }
  }

  /** The option values of a participant dropdown: the empty placeholder,
      then each participant's id. */
  function OptionValues(ps: seq<Participant>): (vs: seq<string>)
    ensures |vs| == |ps| + 1 && vs[0] == ""
    ensures forall k :: 1 <= k <= |ps| ==> vs[k] != [] && ParseInt(vs[k]) == Some(ps[k - 1].id)
  {
    [""] + IdLabels(ps)
  }

  /** Index of the first entry whose id is `id`, the way `Array.prototype.find`
      scans. */
  function FirstIndexOf(roster: seq<Participant>, id: int): (r: Option<nat>)
    ensures r.Some? ==> r.value < |roster| && roster[r.value].id == id
    ensures r.Some? ==> forall j :: 0 <= j < r.value ==> roster[j].id != id
    ensures r.None? <==> forall j :: 0 <= j < |roster| ==> roster[j].id != id
  {
    if |roster| == 0 then None
    else if roster[0].id == id then Some(0)
    else
      match FirstIndexOf(roster[1..], id)
      case Some(k) => Some(k + 1)
      case None => None
  }

  /** `participants.find(p => p.id === id)` where `id` may be `null` or
      `NaN` (None), neither of which equals any number. */
  function FindById(roster: seq<Participant>, id: Option<int>): (r: Option<Participant>)
    ensures r.Some? ==> r.value in roster && id == Some(r.value.id)
    ensures r.None? <==> (id.None? || forall p :: p in roster ==> p.id != id.value)
  {
    match id
    case None => None
    case Some(x) =>
      match FirstIndexOf(roster, x)
      case Some(k) => Some(roster[k])
      case None => None
  }

  /** The lookup returns the first entry carrying the id, even when ids
      collide. */
  /** No two entries share an id, as in a seeded roster. */
  predicate DistinctIds(ps: seq<Participant>) {
    forall i, j :: 0 <= i < j < |ps| ==> ps[i].id != ps[j].id
  }

  lemma FindByIdIsFirst(roster: seq<Participant>, k: nat)
    requires k < |roster|
    requires forall j :: 0 <= j < k ==> roster[j].id != roster[k].id
    ensures FindById(roster, Some(roster[k].id)) == Some(roster[k])
  {
    assert FirstIndexOf(roster, roster[k].id).Some?;
  }

  // ----- Seeding from the photo folder -----------------------------------

  /** The photo file names hard-coded in both script.js and setup.js. */
  const TeamPictures: seq<string> := [
    "Branden.jpeg", "Chavis.jpeg", "David.jpg", "De'Andre.jpeg", "Destin.jpg",
    "Doug.png", "Hayley.jpg", "James.png", "Karla.jpg", "Kelvin.png",
    "Kim.jpg", "Mandi.png", "Nicole.JPG", "Ren.jpeg", "Rich.jpg",
    "Sergio.png", "Sharon.png", "Sondrea.jpg", "Steven.jpg", "Toby.jpg",
    "Tom.jpg", "Troy.jpg", "Tyler.jpg", "Zeb.jpeg"
  ]

  /** `loadParticipantsFromFolder`: one participant per file, in order,
      numbered from 1, named after the file without its extension and pointing
      at the file inside TeamPictures/. */
  function SeedRoster(files: seq<string>): (r: seq<Participant>)
    ensures |r| == |files|
    ensures forall i :: 0 <= i < |r| ==> r[i].id == i + 1
    ensures forall i :: 0 <= i < |r| ==> r[i].name == StripExtension(files[i])
    ensures forall i :: 0 <= i < |r| ==> r[i].imageUrl == Some("TeamPictures/" + files[i])
  {
    seq(|files|, i requires 0 <= i < |files| =>
      Participant(i + 1, StripExtension(files[i]), Some("TeamPictures/" + files[i])))
  }

  /** Seeded ids are pairwise distinct and run from 1 to the number of files. */
  lemma SeedIdsDistinct(files: seq<string>)
    ensures forall i, j :: 0 <= i < j < |files| ==> SeedRoster(files)[i].id != SeedRoster(files)[j].id
    ensures forall p :: p in SeedRoster(files) ==> 1 <= p.id <= |files|
  {
  }

  /** Every id 1..N of a seeded roster looks up the entry at position id-1;
      every other id finds nothing. */
  lemma SeedLookup(files: seq<string>, id: int)
    ensures 1 <= id <= |files| ==> FindById(SeedRoster(files), Some(id)) == Some(SeedRoster(files)[id - 1])
    ensures !(1 <= id <= |files|) ==> FindById(SeedRoster(files), Some(id)).None?
  {
    var r := SeedRoster(files);
    SeedIdsDistinct(files);
    if 1 <= id <= |files| {
      FindByIdIsFirst(r, id - 1);
    }
  }

  /** The names the seeded roster shows, one per photo. */
  const TeamNames: seq<string> := [
    "Branden", "Chavis", "David", "De'Andre", "Destin",
    "Doug", "Hayley", "James", "Karla", "Kelvin",
    "Kim", "Mandi", "Nicole", "Ren", "Rich",
    "Sergio", "Sharon", "Sondrea", "Steven", "Toby",
    "Tom", "Troy", "Tyler", "Zeb"
  ]

  const TeamExtensions: seq<string> := [
    "jpeg", "jpeg", "jpg", "jpeg", "jpg",
    "png", "jpg", "png", "jpg", "png",
    "jpg", "png", "JPG", "jpeg", "jpg",
    "png", "png", "jpg", "jpg", "jpg",
    "jpg", "jpg", "jpg", "jpeg"
  ]

  /** Seeding from files that each split into a name, a dot and an
      extension names every participant after the part before the dot. */
  lemma SeedNames(files: seq<string>, names: seq<string>, exts: seq<string>)
    requires |files| == |names| == |exts|
    requires forall i :: 0 <= i < |files| ==> files[i] == names[i] + "." + exts[i]
    requires forall i :: 0 <= i < |exts| ==> IsExtension(exts[i])
    ensures forall i :: 0 <= i < |files| ==> SeedRoster(files)[i].name == names[i]
  {
    forall i | 0 <= i < |files| ensures StripExtension(files[i]) == names[i] {
      StripExtensionOfSplit(names[i], exts[i]);
    }
  }

  /** The first twelve photo file names split into name, dot, extension. */
  lemma TeamPicturesSplitLow()
    ensures forall i :: 0 <= i < 12 ==> TeamPictures[i] == TeamNames[i] + "." + TeamExtensions[i]
  {
  }

  /** The last twelve photo file names split into name, dot, extension. */
  lemma TeamPicturesSplitHigh()
    ensures forall i :: 12 <= i < 24 ==> TeamPictures[i] == TeamNames[i] + "." + TeamExtensions[i]
  {
  }

  /** Every photo carries an extension the pattern accepts. */
  lemma TeamExtensionsValid()
    ensures forall i :: 0 <= i < |TeamExtensions| ==> IsExtension(TeamExtensions[i])
  {
  }

  /** The folder roster has 24 entries, ids 1 to 24, and each name is the
      file name with its extension cut off ("Nicole.JPG" gives "Nicole",
      "De'Andre.jpeg" gives "De'Andre"). */
  lemma TeamRoster()
    ensures |SeedRoster(TeamPictures)| == 24
    ensures forall i :: 0 <= i < 24 ==> SeedRoster(TeamPictures)[i].name == TeamNames[i]
  {
    TeamPicturesSplitLow();
    TeamPicturesSplitHigh();
    TeamExtensionsValid();
    SeedNames(TeamPictures, TeamNames, TeamExtensions);
  }
}
