/**
 What one batch leaves in the engine's memory, told from its detections alone: which tracks are kept, what each
 of them holds afterwards, and which jobs leave.
 */
module TrackMemory {
  import opened Wrappers
  import opened Text
  import opened Plates
  import opened Voting
  import opened EntryEngine

  // ---------------------------------------------------------------- a frame's own of one track

  function PlateRead(d: Detection): string {
    if d.attributes.None? || d.attributes.value.plate.None? then "" else NormalizePlate(d.attributes.value.plate.value)
  }

  /** The detection belongs to the track of this key: by its track id, or for want of one by its plate. */
  predicate IsReadOf(camera: string, d: Detection, key: string) {
    && d.attributes.Some?
    && match d.trackId
       case Some(track) => key == camera + "|" + track
       case None => PlateRead(d) != "" && key == camera + "|plate:" + PlateRead(d)
  }

  function ReadsOf(camera: string, ds: seq<Detection>, key: string): (own: seq<Detection>)
    ensures forall d :: d in own <==> d in ds && IsReadOf(camera, d, key)
  {
    if ds == [] then []
    else
      var n := |ds| - 1;
      ReadsOf(camera, ds[..n], key) + if IsReadOf(camera, ds[n], key) then [ds[n]] else []
  }

  /** The track as the frame's first read of it finds it, opened under the given uid if there is none. */
  function Before(live: Tracks, frame: Frame, key: string, first: Detection, uid: nat): Track {
    if key in live then live[key]
    else Track(frame.camera, frame.site, first.trackId, "unknown", map[], map[], ObservedAttrs(None, None, None, None),
               frame.now, false, "{}", "worker", "system", uid)
  }

  // ---------------------------------------------------------------- what the own say

  function LastSaid(own: seq<Detection>, said: Detection -> Option<string>, before: string): string {
    if own == [] then before
    else
      var n := |own| - 1;
      match said(own[n])
      case Some(text) => text
      case None => LastSaid(own[..n], said, before)
  }

  function SaidSource(d: Detection): Option<string> {
    if d.attributes.Some? then d.attributes.value.source else None
  }

  function SaidVersions(d: Detection): Option<string> {
    if d.attributes.Some? then d.attributes.value.modelVersions else None
  }

  /** Only the two directions a gate knows are taken over. */
  function SaidDirection(d: Detection): Option<string> {
    match d.attributes
    case Some(a) => if a.direction == Some("inbound") || a.direction == Some("outbound") then a.direction else None
    case None => None
  }

  /** Who fed the read: a kernel producer before an API key, and the system when neither is named. */
  function SaidProducer(d: Detection): Option<string> {
    match d.attributes
    case None => None
    case Some(a) =>
      match a.provenance
      case None => None
      case Some(Provenance(Some(producer), _)) => Some("kernel:" + producer)
      case Some(Provenance(None, Some(key))) => Some("apikey:" + key)
      case Some(Provenance(None, None)) => Some("system")
  }

  function SaidType(d: Detection): Option<string> {
    match d.attributes
    case None => None
    case Some(a) => match a.vehicleType case Some(_) => a.vehicleType case None => d.caption
  }

  function SaidColor(d: Detection): Option<string> { if d.attributes.Some? then d.attributes.value.color else None }

  function SaidMake(d: Detection): Option<string> { if d.attributes.Some? then d.attributes.value.make else None }

  function SaidModel(d: Detection): Option<string> { if d.attributes.Some? then d.attributes.value.model else None }

  function PlateSureness(d: Detection): real {
    match d.attributes
    case None => 0.0
    case Some(a) => match a.plateConfidence case Some(c) => if c > 0.0 then c else 0.0 case None => 0.0
  }

  function Sureness(d: Detection): real {
    match d.confidence
    case Some(c) => if c > 0.0 then c else 0.0
    case None => PlateSureness(d)
  }

  predicate Offers(own: seq<Detection>, said: Detection -> Option<string>, i: nat) {
    i < |own| && said(own[i]).Some? && !IsBlank(said(own[i]).value)
  }

  /** Of the earlier observation and all the offers of the frame the surest is kept, of equally sure ones the first. */
  ghost predicate IsSurest(own: seq<Detection>, said: Detection -> Option<string>, before: Option<Observation>, after: Option<Observation>) {
    || (after == before && forall i: nat :: Offers(own, said, i) ==> before.Some? && Sureness(own[i]) <= before.value.confidence)
    || (exists i: nat :: IsFirstSurest(own, said, before, after, i))
  }

  ghost predicate IsFirstSurest(own: seq<Detection>, said: Detection -> Option<string>, before: Option<Observation>, after: Option<Observation>, i: nat) {
    && Offers(own, said, i) && after.Some? && IsCore(said(own[i]).value, after.value.text)
    && after.value.confidence == Sureness(own[i])
    && (before.Some? ==> before.value.confidence < Sureness(own[i]))
    && (forall j :: 0 <= j < i && Offers(own, said, j) ==> Sureness(own[j]) < Sureness(own[i]))
    && (forall j :: i < j < |own| && Offers(own, said, j) ==> Sureness(own[j]) <= Sureness(own[i]))
  }

  /** The frame's first read of a plate; it alone votes. */
  predicate IsFirst(own: seq<Detection>, plate: string, i: nat) {
    i < |own| && plate != "" && PlateRead(own[i]) == plate && forall j :: 0 <= j < i ==> PlateRead(own[j]) != plate
  }

  /** A read of a camera's own engine is worth the whole threshold, any other one vote. */
  function Worth(d: Detection, minVotes: nat): nat {
    if SaidSource(d) == Some("camera_native") && minVotes > 1 then minVotes else 1
  }

  function Standing(votes: Votes, plate: string): PlateVote {
    if plate in votes then votes[plate] else PlateVote(0, 0.0)
  }

  ghost predicate PlateIsCounted(before: Track, own: seq<Detection>, plate: string, minVotes: nat, after: Track) {
    if exists i: nat :: IsFirst(own, plate, i) then
      exists i: nat :: IsFirst(own, plate, i) && IsCountedBy(before, own[i], plate, minVotes, after)
    else
      && (plate in after.votes <==> plate in before.votes) && Standing(after.votes, plate) == Standing(before.votes, plate)
      && (plate in after.rawByNorm <==> plate in before.rawByNorm)
      && (plate in before.rawByNorm ==> after.rawByNorm[plate] == before.rawByNorm[plate])
  }

  ghost predicate IsCountedBy(before: Track, d: Detection, plate: string, minVotes: nat, after: Track) {
    var was, w := Standing(before.votes, plate), Worth(d, minVotes);
    && plate in after.votes
    && after.votes[plate] == PlateVote(was.count + w, was.confSum + PlateSureness(d) * w as real)
    && plate in after.rawByNorm && d.attributes.Some? && d.attributes.value.plate == Some(after.rawByNorm[plate])
  }

  /** What a track holds once the frame's reads of it are taken in. */
  ghost predicate Remembers(before: Track, frame: Frame, own: seq<Detection>, minVotes: nat, after: Track) {
    && after.lastSeen == frame.now
    && (after.camera, after.site, after.track, after.uid, after.committed)
       == (before.camera, before.site, before.track, before.uid, before.committed)
    && after.source == LastSaid(own, SaidSource, before.source)
    && after.producedBy == LastSaid(own, SaidProducer, before.producedBy)
    && after.direction == LastSaid(own, SaidDirection, before.direction)
    && after.modelVersions == LastSaid(own, SaidVersions, before.modelVersions)
    && Observed(own, before.attrs, after.attrs)
    && forall plate :: PlateIsCounted(before, own, plate, minVotes, after)
  }

  ghost predicate Observed(own: seq<Detection>, before: ObservedAttrs, after: ObservedAttrs) {
    && IsSurest(own, SaidType, before.vehicleType, after.vehicleType)
    && IsSurest(own, SaidColor, before.color, after.color)
    && IsSurest(own, SaidMake, before.make, after.make)
    && IsSurest(own, SaidModel, before.model, after.model)
  }

  // ---------------------------------------------------------------- the vote loop, one track at a time

  predicate FirstTime(own: seq<Detection>, n: nat)
    requires n < |own|
  {
    PlateRead(own[n]) != "" && forall j :: 0 <= j < n ==> PlateRead(own[j]) != PlateRead(own[n])
  }

  function Refreshes(t: Track, frame: Frame, own: seq<Detection>, minVotes: nat): (after: Track)
    requires forall d :: d in own ==> d.attributes.Some?
    ensures after.uid == t.uid
  {
    if own == [] then t
    else
      var n := |own| - 1;
      Refreshed(Refreshes(t, frame, own[..n], minVotes), frame, own[n], own[n].attributes.value, FirstTime(own, n), minVotes)
  }

  ghost predicate HasPlateRead(own: seq<Detection>, plate: string) {
    exists i :: 0 <= i < |own| && PlateRead(own[i]) == plate
  }

  /** The loop over the whole frame, seen at one key. */
  ghost predicate Projects(start: Sweep, frame: Frame, own: seq<Detection>, minVotes: nat, key: string, end: Sweep)
    requires forall d :: d in own ==> d.attributes.Some?
  {
    && (key in end.live <==> key in start.live || own != [])
    && (own == [] && key in start.live ==> end.live[key] == start.live[key])
    && (own != [] ==>
          end.live[key] == Refreshes(Before(start.live, frame, key, own[0], end.live[key].uid), frame, own, minVotes))
    && (forall plate :: (key, plate) in end.voted <==> plate != "" && HasPlateRead(own, plate))
  }

  lemma ReadMeansKey(frame: Frame, d: Detection, key: string)
    ensures IsReadOf(frame.camera, d, key) <==> !Skipped(d) && KeyOf(frame, d) == key
    ensures d.attributes.Some? ==> PlateOf(d.attributes.value) == PlateRead(d)
  {
    if d.attributes.Some? && d.trackId.None? {
      assert frame.camera + "|" + ("plate:" + PlateRead(d)) == frame.camera + "|plate:" + PlateRead(d);
    }
  }

  lemma {:induction false} LoopProjects(start: Sweep, frame: Frame, ds: seq<Detection>, minVotes: nat, key: string)
    requires start.voted == {}
    ensures Projects(start, frame, ReadsOf(frame.camera, ds, key), minVotes, key, AbsorbAll(start, frame, ds, minVotes))
  {
    if ds != [] {
      var n := |ds| - 1;
      LoopProjects(start, frame, ds[..n], minVotes, key);
      var mid, own := AbsorbAll(start, frame, ds[..n], minVotes), ReadsOf(frame.camera, ds[..n], key);
      ReadMeansKey(frame, ds[n], key);
      if IsReadOf(frame.camera, ds[n], key) {
        OneMoreRead(start, frame, own, minVotes, key, mid, ds[n]);
      } else {
        OtherRead(start, frame, own, minVotes, key, mid, ds[n]);
      }
    }
  }

  lemma OtherRead(start: Sweep, frame: Frame, own: seq<Detection>, minVotes: nat, key: string, mid: Sweep, d: Detection)
    requires forall x :: x in own ==> x.attributes.Some?
    requires Projects(start, frame, own, minVotes, key, mid) && (Skipped(d) || KeyOf(frame, d) != key)
    ensures Projects(start, frame, own + [], minVotes, key, Absorb(mid, frame, d, minVotes))
  {
    assert own + [] == own;
  }

  lemma RefreshKeepsUid(t: Track, frame: Frame, d: Detection, a: Attributes, counts: bool, minVotes: nat)
    ensures Refreshed(t, frame, d, a, counts, minVotes).uid == t.uid
  {
  }

  lemma MorePlates(own: seq<Detection>, d: Detection)
    ensures forall plate :: HasPlateRead(own + [d], plate) <==> HasPlateRead(own, plate) || plate == PlateRead(d)
  {
    var more := own + [d];
    assert more[|own|] == d;
    forall plate | HasPlateRead(own, plate) ensures HasPlateRead(more, plate) {
      var i :| 0 <= i < |own| && PlateRead(own[i]) == plate;
      assert PlateRead(more[i]) == plate;
    }
  }

  lemma OneMoreRead(start: Sweep, frame: Frame, own: seq<Detection>, minVotes: nat, key: string, mid: Sweep, d: Detection)
    requires forall x :: x in own ==> x.attributes.Some?
    requires Projects(start, frame, own, minVotes, key, mid) && !Skipped(d) && KeyOf(frame, d) == key
    requires PlateOf(d.attributes.value) == PlateRead(d)
    ensures Projects(start, frame, own + [d], minVotes, key, Absorb(mid, frame, d, minVotes))
  {
    var more, end, t := own + [d], Absorb(mid, frame, d, minVotes), TrackFor(mid, frame, d);
    var first := FirstTime(more, |own|);
    MorePlates(own, d);
    assert more[..|own|] == own && more[|own|] == d;
    assert own != [] ==> more[0] == own[0];
    hide PlateRead, PlateOf, KeyOf;
    assert Counts(mid, frame, d) == first by {
      assert HasPlateRead(own, PlateRead(d)) <==> exists j :: 0 <= j < |own| && PlateRead(own[j]) == PlateRead(d);
    }
    RefreshKeepsUid(t, frame, d, d.attributes.value, first, minVotes);
    hide Refreshed;
    assert end.live[key] == Refreshed(t, frame, d, d.attributes.value, first, minVotes);
    assert t == Refreshes(Before(start.live, frame, key, more[0], end.live[key].uid), frame, own, minVotes);
  }

  // ---------------------------------------------------------------- what the reads leave behind

  lemma {:induction false} WordsAreLastSaid(t: Track, frame: Frame, own: seq<Detection>, minVotes: nat)
    requires forall d :: d in own ==> d.attributes.Some?
    ensures var after := Refreshes(t, frame, own, minVotes);
      && (after.camera, after.site, after.track, after.uid, after.committed) == (t.camera, t.site, t.track, t.uid, t.committed)
      && after.source == LastSaid(own, SaidSource, t.source)
      && after.producedBy == LastSaid(own, SaidProducer, t.producedBy)
      && after.direction == LastSaid(own, SaidDirection, t.direction)
      && after.modelVersions == LastSaid(own, SaidVersions, t.modelVersions)
      && (own != [] ==> after.lastSeen == frame.now)
  {
    if own != [] {
      WordsAreLastSaid(t, frame, own[..|own| - 1], minVotes);
    }
  }

  lemma OffersStay(own: seq<Detection>, d: Detection, said: Detection -> Option<string>)
    ensures forall i: nat :: i < |own| ==> (Offers(own + [d], said, i) <==> Offers(own, said, i))
    ensures Offers(own + [d], said, |own|) <==> said(d).Some? && !IsBlank(said(d).value)
  {
    assert forall i: nat :: i < |own| ==> (own + [d])[i] == own[i];
  }

  lemma SurestStep(own: seq<Detection>, d: Detection, said: Detection -> Option<string>,
                   before: Option<Observation>, mid: Option<Observation>)
    requires IsSurest(own, said, before, mid)
    ensures IsSurest(own + [d], said, before, Observe(mid, said(d), Sureness(d)))
  {
    var more, after := own + [d], Observe(mid, said(d), Sureness(d));
    OffersStay(own, d, said);
    if said(d).Some? { BlankIsTrimmedAway(said(d).value); }
    hide IsBlank, IsCore, Trim, Sureness, Offers;
    assert forall i: nat :: i < |own| ==> more[i] == own[i];
    assert more[|own|] == d;
    if after == mid {
      if !(mid == before && forall i: nat :: Offers(own, said, i) ==> before.Some? && Sureness(own[i]) <= before.value.confidence) {
        var i: nat :| IsFirstSurest(own, said, before, mid, i);
        OfferInRange(own, said, i);
        assert IsFirstSurest(more, said, before, after, i) by { StillSurest(own, d, said, before, mid, i); }
      } else {
        KeptIsSurest(own, d, said, before);
      }
    } else {
      NewIsSurest(own, d, said, before, mid);
    }
  }

  lemma OfferInRange(own: seq<Detection>, said: Detection -> Option<string>, i: nat)
    requires Offers(own, said, i)
    ensures i < |own|
  {
  }

  lemma StillSurest(own: seq<Detection>, d: Detection, said: Detection -> Option<string>,
                    before: Option<Observation>, mid: Option<Observation>, i: nat)
    requires IsFirstSurest(own, said, before, mid, i)
    requires Observe(mid, said(d), Sureness(d)) == mid
    ensures IsFirstSurest(own + [d], said, before, mid, i)
  {
    OffersStay(own, d, said);
    if said(d).Some? { BlankIsTrimmedAway(said(d).value); }
    hide IsBlank, IsCore, Trim, Sureness;
    var more := own + [d];
    assert forall j: nat :: j < |own| ==> more[j] == own[j];
  }

  lemma KeptIsSurest(own: seq<Detection>, d: Detection, said: Detection -> Option<string>, before: Option<Observation>)
    requires forall i: nat :: Offers(own, said, i) ==> before.Some? && Sureness(own[i]) <= before.value.confidence
    requires Observe(before, said(d), Sureness(d)) == before
    ensures IsSurest(own + [d], said, before, before)
  {
    OffersStay(own, d, said);
    if said(d).Some? { BlankIsTrimmedAway(said(d).value); }
    hide IsBlank, IsCore, Trim, Sureness;
    var more := own + [d];
    assert forall j: nat :: j < |own| ==> more[j] == own[j];
    assert more[|own|] == d;
  }

  lemma NewIsSurest(own: seq<Detection>, d: Detection, said: Detection -> Option<string>,
                    before: Option<Observation>, mid: Option<Observation>)
    requires IsSurest(own, said, before, mid) && Observe(mid, said(d), Sureness(d)) != mid
    ensures IsFirstSurest(own + [d], said, before, Observe(mid, said(d), Sureness(d)), |own|)
  {
    OffersStay(own, d, said);
    if said(d).Some? { BlankIsTrimmedAway(said(d).value); }
    hide IsBlank, IsCore, Trim, Sureness;
    var more := own + [d];
    assert forall j: nat :: j < |own| ==> more[j] == own[j];
    assert more[|own|] == d;
  }

  lemma {:induction false} SurestIsKept(t: Track, frame: Frame, own: seq<Detection>, minVotes: nat)
    requires forall d :: d in own ==> d.attributes.Some?
    ensures Observed(own, t.attrs, Refreshes(t, frame, own, minVotes).attrs)
  {
    if own != [] {
      var n := |own| - 1;
      SurestIsKept(t, frame, own[..n], minVotes);
      var mid, d := Refreshes(t, frame, own[..n], minVotes).attrs, own[n];
      assert own == own[..n] + [d];
      SurestStep(own[..n], d, SaidType, t.attrs.vehicleType, mid.vehicleType);
      SurestStep(own[..n], d, SaidColor, t.attrs.color, mid.color);
      SurestStep(own[..n], d, SaidMake, t.attrs.make, mid.make);
      SurestStep(own[..n], d, SaidModel, t.attrs.model, mid.model);
      hide IsSurest, Observe;
      ObservesWhatIsSaid(mid, d);
    }
  }

  lemma ObservesWhatIsSaid(mid: ObservedAttrs, d: Detection)
    requires d.attributes.Some?
    ensures ObserveAll(mid, d, d.attributes.value)
         == ObservedAttrs(Observe(mid.vehicleType, SaidType(d), Sureness(d)), Observe(mid.color, SaidColor(d), Sureness(d)),
                          Observe(mid.make, SaidMake(d), Sureness(d)), Observe(mid.model, SaidModel(d), Sureness(d)))
  {
    hide Observe;
  }

  lemma FirstsStay(own: seq<Detection>, d: Detection, plate: string)
    ensures forall i: nat :: i < |own| ==> (IsFirst(own + [d], plate, i) <==> IsFirst(own, plate, i))
    ensures IsFirst(own + [d], plate, |own|) <==> PlateRead(d) == plate && FirstTime(own + [d], |own|)
  {
    assert forall i: nat :: i < |own| ==> (own + [d])[i] == own[i];
    hide PlateRead;
  }

  lemma NoEarlierFirst(own: seq<Detection>, d: Detection, plate: string)
    requires FirstTime(own + [d], |own|) && PlateRead(d) == plate
    ensures forall i: nat :: !IsFirst(own, plate, i)
  {
    var more := own + [d];
    hide PlateRead;
    assert more[|own|] == d;
    forall i: nat | i < |own| ensures PlateRead(own[i]) != plate { assert more[i] == own[i]; }
  }

  lemma NothingIsCounted(t: Track, minVotes: nat, plate: string)
    ensures PlateIsCounted(t, [], plate, minVotes, t)
  {
  }

  lemma LastRefresh(t: Track, frame: Frame, own: seq<Detection>, d: Detection, minVotes: nat)
    requires forall x :: x in own + [d] ==> x.attributes.Some?
    requires d.attributes.Some? && forall x :: x in own ==> x.attributes.Some?
    ensures Refreshes(t, frame, own + [d], minVotes)
         == Refreshed(Refreshes(t, frame, own, minVotes), frame, d, d.attributes.value, FirstTime(own + [d], |own|), minVotes)
  {
    hide Refreshed, FirstTime;
    assert (own + [d])[..|own|] == own && (own + [d])[|own|] == d;
  }

  lemma {:induction false} PlatesAreCounted(t: Track, frame: Frame, own: seq<Detection>, minVotes: nat, plate: string)
    requires forall d :: d in own ==> d.attributes.Some?
    ensures PlateIsCounted(t, own, plate, minVotes, Refreshes(t, frame, own, minVotes))
  {
    if own == [] {
      NothingIsCounted(t, minVotes, plate);
    } else {
      hide PlateIsCounted, Refreshed, FirstTime, PlateRead;
      var n := |own| - 1;
      var init, d := own[..n], own[n];
      assert own == init + [d];
      PlatesAreCounted(t, frame, init, minVotes, plate);
      LastRefresh(t, frame, init, d, minVotes);
      hide Refreshes;
      PlateStep(t, frame, init, d, minVotes, plate, Refreshes(t, frame, init, minVotes));
    }
  }

  ghost predicate SameAtPlate(a: Track, b: Track, plate: string) {
    && (plate in a.votes <==> plate in b.votes) && Standing(a.votes, plate) == Standing(b.votes, plate)
    && (plate in a.rawByNorm <==> plate in b.rawByNorm)
    && (plate in a.rawByNorm ==> a.rawByNorm[plate] == b.rawByNorm[plate])
  }

  lemma RefreshCounts(mid: Track, frame: Frame, d: Detection, counts: bool, minVotes: nat, plate: string)
    requires d.attributes.Some? && (counts ==> PlateRead(d) != "")
    ensures var after := Refreshed(mid, frame, d, d.attributes.value, counts, minVotes);
      if counts && PlateRead(d) == plate then IsCountedBy(mid, d, plate, minVotes, after) else SameAtPlate(after, mid, plate)
  {
    hide NormalizePlate;
  }

  lemma CountedFrom(t: Track, mid: Track, after: Track, d: Detection, plate: string, minVotes: nat)
    ensures Standing(t.votes, plate) == Standing(mid.votes, plate) ==>
              (IsCountedBy(mid, d, plate, minVotes, after) <==> IsCountedBy(t, d, plate, minVotes, after))
    ensures SameAtPlate(after, mid, plate) && IsCountedBy(t, d, plate, minVotes, mid) ==> IsCountedBy(t, d, plate, minVotes, after)
  {
    hide PlateSureness, Worth;
  }

  lemma PlateStep(t: Track, frame: Frame, own: seq<Detection>, d: Detection, minVotes: nat, plate: string, mid: Track)
    requires d.attributes.Some? && PlateIsCounted(t, own, plate, minVotes, mid)
    ensures PlateIsCounted(t, own + [d], plate, minVotes,
                           Refreshed(mid, frame, d, d.attributes.value, FirstTime(own + [d], |own|), minVotes))
  {
    var more, first := own + [d], FirstTime(own + [d], |own|);
    var after := Refreshed(mid, frame, d, d.attributes.value, first, minVotes);
    FirstsStay(own, d, plate);
    assert more[|own|] == d && forall i: nat :: i < |own| ==> more[i] == own[i];
    RefreshCounts(mid, frame, d, first, minVotes, plate);
    hide Refreshed, PlateRead, IsCountedBy;
    if first && PlateRead(d) == plate {
      assert forall i: nat :: !IsFirst(own, plate, i) by { NoEarlierFirst(own, d, plate); }
      CountedFrom(t, mid, after, d, plate, minVotes);
      assert IsFirst(more, plate, |own|) && IsCountedBy(t, more[|own|], plate, minVotes, after);
    } else if i: nat :| IsFirst(own, plate, i) {
      var j: nat :| IsFirst(own, plate, j) && IsCountedBy(t, own[j], plate, minVotes, mid);
      CountedFrom(t, mid, after, own[j], plate, minVotes);
      assert IsFirst(more, plate, j) && IsCountedBy(t, more[j], plate, minVotes, after);
    }
  }

  // ---------------------------------------------------------------- one batch

  /** The winning plate has the votes. */
  ghost predicate Reached(votes: Votes, minVotes: nat) {
    exists plate :: IsWinner(votes, plate) && minVotes <= votes[plate].count
  }

  /**
   One track across a batch. It is in memory afterwards if the frame read it, or if its last read is at most thirty
   seconds old; it holds what the frame's reads of it say, and is committed once its plate has the votes.
   */
  ghost predicate IsRemembered(was: Tracks, frame: Frame, key: string, minVotes: nat, live: Tracks) {
    var own := ReadsOf(frame.camera, frame.detections, key);
    && (key in live <==> own != [] || (key in was && frame.now - 30_000 <= was[key].lastSeen))
    && (key in live ==>
          var t := live[key];
          var before := if own == [] then was[key] else Before(was, frame, key, own[0], t.uid);
          && (if own == [] then t == before.(committed := t.committed)
              else Remembers(before, frame, own, minVotes, t.(committed := before.committed)))
          && (t.committed <==> before.committed || Reached(t.votes, minVotes)))
  }

  predicate Tells(told: Option<string>, seen: Option<Observation>) {
    match seen
    case Some(o) => told == Some(o.text)
    case None => told.None?
  }

  /** The job is the track's own: its winner's standing, the text it was read as, and what was observed with it. */
  ghost predicate JobTells(job: CommitJob, t: Track, minVotes: nat) {
    && (job.uid, job.camera, job.site, job.track) == (t.uid, t.camera, t.site, t.track)
    && (job.direction, job.modelVersions, job.source, job.producedBy) == (t.direction, t.modelVersions, t.source, t.producedBy)
    && IsWinner(t.votes, job.plateNorm) && job.votes == t.votes[job.plateNorm].count
    && job.plateRaw == (if job.plateNorm in t.rawByNorm then t.rawByNorm[job.plateNorm] else job.plateNorm)
    && (job.votes > 0 ==> job.plateConf * job.votes as real == t.votes[job.plateNorm].confSum)
    && Tells(job.vehicleType, t.attrs.vehicleType) && Tells(job.color, t.attrs.color)
    && Tells(job.make, t.attrs.make) && Tells(job.model, t.attrs.model)
    && (job.actuate <==> minVotes <= job.votes)
  }

  /** One job for each track that is committed now or leaves uncommitted with a vote, and none for any other. */
  ghost predicate JobsTell(was: Tracks, jobs: seq<CommitJob>, minVotes: nat, live: Tracks) {
    && DistinctKeys(jobs)
    && (forall i :: 0 <= i < |jobs| ==>
          var k := jobs[i].key;
          && (k in was ==> !was[k].committed)
          && if k in live then live[k].committed && JobTells(jobs[i], live[k], minVotes)
             else k in was && JobTells(jobs[i], was[k], minVotes))
    && (forall k :: k in live && live[k].committed && !(k in was && was[k].committed) ==> HasJob(jobs, k))
    && (forall k :: k in was && k !in live && !was[k].committed && was[k].votes != map[] ==> HasJob(jobs, k))
  }

  /** After the vote loop, before anything is committed or dropped. */
  ghost predicate IsSwept(was: Tracks, frame: Frame, key: string, minVotes: nat, swept: Tracks) {
    var own := ReadsOf(frame.camera, frame.detections, key);
    && (key in swept <==> key in was || own != [])
    && (key in swept && own == [] ==> swept[key] == was[key])
    && (own != [] ==> Remembers(Before(was, frame, key, own[0], swept[key].uid), frame, own, minVotes, swept[key]))
  }

  lemma SweptAtKey(was: Tracks, nextUid: nat, frame: Frame, minVotes: nat, key: string)
    ensures IsSwept(was, frame, key, minVotes, Voted(was, nextUid, frame, minVotes).live)
  {
    var start, own := Sweep(was, nextUid, {}, []), ReadsOf(frame.camera, frame.detections, key);
    LoopProjects(start, frame, frame.detections, minVotes, key);
    var swept := Voted(was, nextUid, frame, minVotes).live;
    if own != [] {
      var before := Before(was, frame, key, own[0], swept[key].uid);
      WordsAreLastSaid(before, frame, own, minVotes);
      SurestIsKept(before, frame, own, minVotes);
      forall plate ensures PlateIsCounted(before, own, plate, minVotes, swept[key]) {
        PlatesAreCounted(before, frame, own, minVotes, plate);
      }
      hide Observed, PlateIsCounted, Refreshes;
    }
  }

  lemma SettledAtKey(was: Tracks, frame: Frame, minVotes: nat, key: string, swept: Tracks)
    requires IsSwept(was, frame, key, minVotes, swept)
    ensures IsRemembered(was, frame, key, minVotes, Settled(swept, minVotes, frame.now))
  {
    var own := ReadsOf(frame.camera, frame.detections, key);
    if key in swept {
      if own != [] { assert swept[key].lastSeen == frame.now; }
      ReadyIsReached(swept[key], minVotes);
      assert Marked(swept[key], minVotes).(committed := swept[key].committed) == swept[key];
      hide Remembers, Reached;
    }
  }

  lemma ReadyIsReached(t: Track, minVotes: nat)
    ensures Ready(t, minVotes) <==> !t.committed && Reached(t.votes, minVotes)
  {
    if t.votes != map[] {
      var plate := WinnerExists(t.votes);
    }
  }

  lemma JobTellsTrack(job: CommitJob, key: string, t: Track, actuate: bool, minVotes: nat)
    requires IsJobOf(job, key, t, actuate) && (actuate <==> minVotes <= job.votes)
    ensures JobTells(job, t, minVotes) && job.key == key
  {
    var v := t.votes[job.plateNorm];
    if v.count > 0 { assert v.confSum / v.count as real * v.count as real == v.confSum; }
  }

  /** What the vote loop does to flags and membership, and that only what it did not read can be stale. */
  ghost predicate FlagsKept(was: Tracks, swept: Tracks, now: Instant) {
    && (forall k :: k in was ==> k in swept && was[k].committed == swept[k].committed)
    && (forall k :: k in swept && k !in was ==> !swept[k].committed)
    && (forall k :: k in swept && Stale(swept[k], now) ==> k in was && swept[k] == was[k])
  }

  lemma FlagsAreKept(was: Tracks, frame: Frame, minVotes: nat, swept: Tracks)
    requires forall key :: IsSwept(was, frame, key, minVotes, swept)
    ensures FlagsKept(was, swept, frame.now)
  {
    hide IsSwept;
    forall k | k in was ensures k in swept && was[k].committed == swept[k].committed {
      SweptKeepsFlag(was, frame, k, minVotes, swept);
    }
    forall k | k in swept
      ensures k !in was ==> !swept[k].committed
      ensures Stale(swept[k], frame.now) ==> k in was && swept[k] == was[k]
    {
      SweptKeepsFlag(was, frame, k, minVotes, swept);
    }
  }

  lemma JobsAreTold(was: Tracks, now: Instant, jobs: seq<CommitJob>, minVotes: nat, swept: Tracks)
    requires FlagsKept(was, swept, now) && JobsOf(jobs, swept, minVotes, now)
    ensures JobsTell(was, jobs, minVotes, Settled(swept, minVotes, now))
  {
    hide JobTells, FlagsKept, JobsOf, Settled;
    forall i | 0 <= i < |jobs| {
      JobIsTold(was, now, jobs, minVotes, swept, i);
    }
    forall k | k in swept {
      DueIsTold(was, now, jobs, minVotes, swept, k);
    }
    KeysCome(was, now, jobs, minVotes, swept);
  }

  lemma KeysCome(was: Tracks, now: Instant, jobs: seq<CommitJob>, minVotes: nat, swept: Tracks)
    requires FlagsKept(was, swept, now) && JobsOf(jobs, swept, minVotes, now)
    ensures DistinctKeys(jobs)
    ensures forall k :: k in was || k in Settled(swept, minVotes, now) ==> k in swept
  {
  }

  lemma JobIsTold(was: Tracks, now: Instant, jobs: seq<CommitJob>, minVotes: nat, swept: Tracks, i: nat)
    requires FlagsKept(was, swept, now) && JobsOf(jobs, swept, minVotes, now) && i < |jobs|
    ensures var live := Settled(swept, minVotes, now);
      var k := jobs[i].key;
      && (k in was ==> !was[k].committed)
      && if k in live then live[k].committed && JobTells(jobs[i], live[k], minVotes)
         else k in was && JobTells(jobs[i], was[k], minVotes)
  {
    var k := jobs[i].key;
    assert k in swept && !swept[k].committed;
    JobTellsTrack(jobs[i], k, swept[k], Ready(swept[k], minVotes), minVotes);
    FlagIsNotTold(jobs[i], swept[k], minVotes);
    hide JobTells;
  }

  lemma FlagIsNotTold(job: CommitJob, t: Track, minVotes: nat)
    requires JobTells(job, t, minVotes)
    ensures JobTells(job, t.(committed := true), minVotes)
  {
  }

  lemma DueIsTold(was: Tracks, now: Instant, jobs: seq<CommitJob>, minVotes: nat, swept: Tracks, k: string)
    requires FlagsKept(was, swept, now) && JobsOf(jobs, swept, minVotes, now) && k in swept
    ensures var live := Settled(swept, minVotes, now);
      && (k in live && live[k].committed && !(k in was && was[k].committed) ==> HasJob(jobs, k))
      && (k in was && k !in live && !was[k].committed && was[k].votes != map[] ==> HasJob(jobs, k))
  {
    var live := Settled(swept, minVotes, now);
    if k in live && live[k].committed && !(k in was && was[k].committed) {
      assert Due(swept[k], minVotes, now);
    }
    if k in was && k !in live && !was[k].committed && was[k].votes != map[] {
      assert Due(swept[k], minVotes, now);
    }
  }

  lemma SweptKeepsFlag(was: Tracks, frame: Frame, key: string, minVotes: nat, swept: Tracks)
    requires IsSwept(was, frame, key, minVotes, swept)
    ensures key in was ==> key in swept && was[key].committed == swept[key].committed
    ensures key in swept && key !in was ==> !swept[key].committed
    ensures key in swept && Stale(swept[key], frame.now) ==> key in was && swept[key] == was[key]
  {
  }

  /** The locked section of `process`, told without its own functions. */
  method ProcessRemembers(engine: AnprEngine, frame: Frame) returns (jobs: seq<CommitJob>)
    modifies engine
    ensures forall key :: IsRemembered(old(engine.state), frame, key, engine.minVotes, engine.state)
    ensures JobsTell(old(engine.state), jobs, engine.minVotes, engine.state)
  {
    ghost var was, minVotes := engine.state, engine.minVotes;
    ghost var swept := Voted(was, engine.nextUid, frame, minVotes).live;
    forall key ensures IsSwept(was, frame, key, minVotes, swept) {
      SweptAtKey(was, engine.nextUid, frame, minVotes, key);
    }
    jobs := engine.Process(frame);
    hide IsSwept, IsRemembered, Settled, Voted, JobsOf, JobsTell;
    forall key ensures IsRemembered(was, frame, key, minVotes, engine.state) {
      SettledAtKey(was, frame, minVotes, key, swept);
    }
    FlagsAreKept(was, frame, minVotes, swept);
    JobsAreTold(was, frame.now, jobs, minVotes, swept);
  }
}
