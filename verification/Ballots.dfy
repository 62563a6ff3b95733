/**
 What one batch's vote loop does to the live tracks, against the history of accepted votes: uids stay
 unique, every count is the tally of the ballots cast for it, and a frame casts one ballot per track and plate.
 */
module Ballots {
  import opened Voting
  import opened CameraIds
  import opened EntryEngine

  function BallotWeight(b: Ballot, minVotes: nat): nat {
    if b.native && 1 < minVotes then minVotes else 1
  }

  predicate IsFor(b: Ballot, uid: nat, plate: string) { b.uid == uid && b.plate == plate }

  function Tally(ballots: seq<Ballot>, uid: nat, plate: string, minVotes: nat): nat {
    if ballots == [] then 0
    else
      var n := |ballots| - 1;
      Tally(ballots[..n], uid, plate, minVotes)
      + if IsFor(ballots[n], uid, plate) then BallotWeight(ballots[n], minVotes) else 0
  }

  /** The batches that voted for a plate on a track. */
  function Voters(ballots: seq<Ballot>, uid: nat, plate: string): set<nat> {
    set i | 0 <= i < |ballots| && IsFor(ballots[i], uid, plate) :: ballots[i].batch
  }

  ghost predicate HasNative(ballots: seq<Ballot>, uid: nat, plate: string) {
    exists i :: 0 <= i < |ballots| && IsFor(ballots[i], uid, plate) && ballots[i].native
  }

  ghost predicate HasBallot(ballots: seq<Ballot>, uid: nat) {
    exists i :: 0 <= i < |ballots| && ballots[i].uid == uid
  }

  ghost predicate OneVotePerFrame(ballots: seq<Ballot>) {
    forall i, j :: 0 <= i < j < |ballots| ==>
      !(ballots[i].batch == ballots[j].batch && IsFor(ballots[j], ballots[i].uid, ballots[i].plate))
  }

  lemma TallyAdd(ballots: seq<Ballot>, b: Ballot, uid: nat, plate: string, minVotes: nat)
    ensures Tally(ballots + [b], uid, plate, minVotes)
         == Tally(ballots, uid, plate, minVotes) + if IsFor(b, uid, plate) then BallotWeight(b, minVotes) else 0
  {
    assert (ballots + [b])[..|ballots|] == ballots;
  }

  lemma {:induction false} TallyGrows(ballots: seq<Ballot>, more: seq<Ballot>, uid: nat, plate: string, minVotes: nat)
    ensures Tally(ballots, uid, plate, minVotes) <= Tally(ballots + more, uid, plate, minVotes)
    ensures (forall i :: 0 <= i < |more| ==> more[i].uid != uid)
      ==> Tally(ballots + more, uid, plate, minVotes) == Tally(ballots, uid, plate, minVotes)
  {
    if more == [] {
      assert ballots + more == ballots;
    } else {
      var n := |more| - 1;
      TallyGrows(ballots, more[..n], uid, plate, minVotes);
      TallyAdd(ballots + more[..n], more[n], uid, plate, minVotes);
      assert ballots + more == ballots + more[..n] + [more[n]];
    }
  }

  lemma VotersAdd(ballots: seq<Ballot>, b: Ballot, uid: nat, plate: string)
    ensures Voters(ballots + [b], uid, plate) == Voters(ballots, uid, plate) + if IsFor(b, uid, plate) then {b.batch} else {}
  {
    var more := ballots + [b];
    forall x | x in Voters(ballots, uid, plate) ensures x in Voters(more, uid, plate) {
      var i :| 0 <= i < |ballots| && IsFor(ballots[i], uid, plate) && ballots[i].batch == x;
      assert more[i] == ballots[i];
    }
    if IsFor(b, uid, plate) { assert more[|ballots|] == b; }
  }

  lemma NativeStays(ballots: seq<Ballot>, b: Ballot, uid: nat, plate: string)
    ensures HasNative(ballots, uid, plate) || (IsFor(b, uid, plate) && b.native) <==> HasNative(ballots + [b], uid, plate)
  {
    var more := ballots + [b];
    if HasNative(ballots, uid, plate) {
      var i :| 0 <= i < |ballots| && IsFor(ballots[i], uid, plate) && ballots[i].native;
      assert more[i] == ballots[i];
    }
    if IsFor(b, uid, plate) && b.native { assert more[|ballots|] == b; }
  }

  /** A tally over the threshold is a native read, or that many separate frames. */
  lemma {:induction false} TallyMeansFrames(ballots: seq<Ballot>, uid: nat, plate: string, minVotes: nat)
    requires OneVotePerFrame(ballots)
    ensures HasNative(ballots, uid, plate) || Tally(ballots, uid, plate, minVotes) == |Voters(ballots, uid, plate)|
  {
    if ballots != [] {
      var n := |ballots| - 1;
      var init, b := ballots[..n], ballots[n];
      assert ballots == init + [b];
      TallyMeansFrames(init, uid, plate, minVotes);
      NativeStays(init, b, uid, plate);
      VotersAdd(init, b, uid, plate);
      if IsFor(b, uid, plate) {
        assert b.batch !in Voters(init, uid, plate);
      }
    }
  }

  lemma {:induction false} NoBallotNoTally(ballots: seq<Ballot>, uid: nat, plate: string, minVotes: nat)
    requires forall i :: 0 <= i < |ballots| ==> ballots[i].uid != uid
    ensures Tally(ballots, uid, plate, minVotes) == 0
  {
    if ballots != [] { NoBallotNoTally(ballots[..|ballots| - 1], uid, plate, minVotes); }
  }

  // ---------------------------------------------------------------- the invariant of the live map

  ghost predicate UidsUnique(live: Tracks, nextUid: nat) {
    && (forall k :: k in live ==> live[k].uid < nextUid)
    && (forall k, l :: k in live && l in live && live[k].uid == live[l].uid ==> k == l)
  }

  /** A ballot belongs to the key it was cast under, for as long as its track instance lives and after. */
  ghost predicate BallotsKeyed(live: Tracks, nextUid: nat, ballots: seq<Ballot>) {
    && (forall i :: 0 <= i < |ballots| ==> ballots[i].uid < nextUid)
    && OneKeyPerUid(ballots)
    && (forall i, k :: 0 <= i < |ballots| && k in live && ballots[i].uid == live[k].uid ==> ballots[i].key == k)
  }

  ghost predicate OneKeyPerUid(ballots: seq<Ballot>) {
    forall i, j :: 0 <= i < j < |ballots| && ballots[i].uid == ballots[j].uid ==> ballots[i].key == ballots[j].key
  }

  /** Each plate's count is the tally of the ballots cast for it, and only voted plates are listed. */
  ghost predicate CountsAgree(votes: Votes, uid: nat, ballots: seq<Ballot>, minVotes: nat) {
    && (forall p :: p in votes ==> 0 < votes[p].count)
    && (forall p :: Tally(ballots, uid, p, minVotes) == if p in votes then votes[p].count else 0)
  }

  ghost predicate CountsKept(live: Tracks, ballots: seq<Ballot>, minVotes: nat) {
    forall k :: k in live ==> CountsAgree(live[k].votes, live[k].uid, ballots, minVotes)
  }

  /** The bookkeeping that the vote loop keeps after each detection, `past` being the earlier batches' ballots. */
  ghost predicate SweepInv(s: Sweep, past: seq<Ballot>, batch: nat, minVotes: nat) {
    && UidsUnique(s.live, s.nextUid)
    && BallotsKeyed(s.live, s.nextUid, past + s.cast)
    && CountsKept(s.live, past + s.cast, minVotes)
    && OneVotePerFrame(past + s.cast)
    && (forall i :: 0 <= i < |past| ==> past[i].batch < batch)
    && CastIsLive(s, batch)
  }

  ghost predicate CastIsLive(s: Sweep, batch: nat) {
    forall i :: 0 <= i < |s.cast| ==>
      && s.cast[i].batch == batch && (s.cast[i].key, s.cast[i].plate) in s.voted
      && s.cast[i].key in s.live && s.live[s.cast[i].key].uid == s.cast[i].uid
  }

  /** What the loop leaves alone: known tracks keep uid and flag, new ones are young and uncommitted. */
  ghost predicate Extends(before: Tracks, since: nat, s: Sweep) {
    && since <= s.nextUid
    && (forall k :: k in before ==> SameInstance(before, s.live, k))
    && (forall k :: k in s.live && k !in before ==> since <= s.live[k].uid && !s.live[k].committed)
  }

  ghost predicate SameInstance(a: Tracks, b: Tracks, k: string) {
    && k in a && k in b
    && a[k].uid == b[k].uid && a[k].committed == b[k].committed && a[k].camera == b[k].camera
  }

  /** One absorbed detection, reduced to what the bookkeeping depends on. */
  ghost predicate Shaped(s: Sweep, s': Sweep, frame: Frame, key: string, plate: string, native: bool, minVotes: nat) {
    && s'.live.Keys == s.live.Keys + {key}
    && (forall k :: k in s.live && k != key ==> s'.live[k] == s.live[k])
    && s'.nextUid == (if key in s.live then s.nextUid else s.nextUid + 1)
    && (key in s.live ==> SameInstance(s.live, s'.live, key))
    && (key !in s.live ==> s'.live[key].uid == s.nextUid && !s'.live[key].committed && s'.live[key].camera == frame.camera)
    && var votes := if key in s.live then s.live[key].votes else map[];
       if plate != "" && (key, plate) !in s.voted then
         && s'.voted == s.voted + {(key, plate)}
         && VoteAdded(votes, s'.live[key].votes, plate, if native && 1 < minVotes then minVotes else 1)
         && s'.cast == s.cast + [Ballot(frame.batch, frame.camera, key, s'.live[key].uid, plate, native)]
       else
         s.voted <= s'.voted && s'.live[key].votes == votes && s'.cast == s.cast
  }

  ghost predicate VoteAdded(votes: Votes, votes': Votes, plate: string, weight: nat) {
    && votes'.Keys == votes.Keys + {plate}
    && (forall p :: p in votes && p != plate ==> votes'[p] == votes[p])
    && votes'[plate].count == weight + if plate in votes then votes[plate].count else 0
  }

  lemma AbsorbIsShaped(s: Sweep, frame: Frame, d: Detection, minVotes: nat)
    requires !Skipped(d)
    ensures Shaped(s, Absorb(s, frame, d, minVotes), frame, KeyOf(frame, d), PlateOf(d.attributes.value),
                   IsNative(d.attributes.value), minVotes)
  {
  }

  lemma CountsOfNewTrack(uid: nat, ballots: seq<Ballot>, minVotes: nat)
    requires forall i :: 0 <= i < |ballots| ==> ballots[i].uid < uid
    ensures CountsAgree(map[], uid, ballots, minVotes)
  {
    forall p ensures Tally(ballots, uid, p, minVotes) == 0 { NoBallotNoTally(ballots, uid, p, minVotes); }
  }

  lemma CountsOfOther(votes: Votes, uid: nat, ballots: seq<Ballot>, b: Ballot, minVotes: nat)
    requires CountsAgree(votes, uid, ballots, minVotes) && b.uid != uid
    ensures CountsAgree(votes, uid, ballots + [b], minVotes)
  {
    forall p ensures Tally(ballots + [b], uid, p, minVotes) == Tally(ballots, uid, p, minVotes) {
      TallyAdd(ballots, b, uid, p, minVotes);
    }
  }

  lemma CountsOfVoted(votes: Votes, votes': Votes, ballots: seq<Ballot>, b: Ballot, minVotes: nat)
    requires CountsAgree(votes, b.uid, ballots, minVotes)
    requires VoteAdded(votes, votes', b.plate, BallotWeight(b, minVotes))
    ensures CountsAgree(votes', b.uid, ballots + [b], minVotes)
  {
    forall p ensures Tally(ballots + [b], b.uid, p, minVotes) == if p in votes' then votes'[p].count else 0 {
      TallyAdd(ballots, b, b.uid, p, minVotes);
    }
  }

  lemma ShapedKeepsCounts(s: Sweep, s': Sweep, frame: Frame, key: string, plate: string, native: bool, minVotes: nat, past: seq<Ballot>)
    requires CountsKept(s.live, past + s.cast, minVotes) && UidsUnique(s.live, s.nextUid)
    requires forall i :: 0 <= i < |past + s.cast| ==> (past + s.cast)[i].uid < s.nextUid
    requires Shaped(s, s', frame, key, plate, native, minVotes)
    ensures CountsKept(s'.live, past + s'.cast, minVotes)
  {
    var all := past + s.cast;
    var uid := s'.live[key].uid;
    var votes := if key in s.live then s.live[key].votes else map[];
    if key !in s.live { CountsOfNewTrack(uid, all, minVotes); }
    assert CountsAgree(votes, uid, all, minVotes);
    if plate != "" && (key, plate) !in s.voted {
      var b := s'.cast[|s.cast|];
      assert past + s'.cast == all + [b];
      CountsOfVoted(votes, s'.live[key].votes, all, b, minVotes);
      forall k | k in s'.live && k != key
        ensures CountsAgree(s'.live[k].votes, s'.live[k].uid, all + [b], minVotes)
      {
        CountsOfOther(s.live[k].votes, s.live[k].uid, all, b, minVotes);
      }
    }
  }

  lemma KeyedGrows(live: Tracks, nextUid: nat, live': Tracks, nextUid': nat, ballots: seq<Ballot>)
    requires BallotsKeyed(live, nextUid, ballots) && nextUid <= nextUid'
    requires forall k :: k in live' ==> (k in live && live[k].uid == live'[k].uid) || nextUid <= live'[k].uid
    ensures BallotsKeyed(live', nextUid', ballots)
  {
  }

  lemma KeyedAdd(live: Tracks, nextUid: nat, ballots: seq<Ballot>, b: Ballot)
    requires BallotsKeyed(live, nextUid, ballots) && UidsUnique(live, nextUid)
    requires b.key in live && live[b.key].uid == b.uid
    ensures BallotsKeyed(live, nextUid, ballots + [b])
  {
  }

  lemma ShapedKeepsKeys(s: Sweep, s': Sweep, frame: Frame, key: string, plate: string, native: bool, minVotes: nat, past: seq<Ballot>)
    requires UidsUnique(s.live, s.nextUid) && BallotsKeyed(s.live, s.nextUid, past + s.cast)
    requires Shaped(s, s', frame, key, plate, native, minVotes)
    ensures UidsUnique(s'.live, s'.nextUid)
    ensures BallotsKeyed(s'.live, s'.nextUid, past + s'.cast)
  {
    var all := past + s.cast;
    assert UidsUnique(s'.live, s'.nextUid);
    hide BallotsKeyed, UidsUnique;
    KeyedGrows(s.live, s.nextUid, s'.live, s'.nextUid, all);
    if plate != "" && (key, plate) !in s.voted {
      KeyedAdd(s'.live, s'.nextUid, all, s'.cast[|s.cast|]);
      assert past + s'.cast == all + [s'.cast[|s.cast|]];
    }
  }

  lemma ShapedKeepsFrames(s: Sweep, s': Sweep, frame: Frame, key: string, plate: string, native: bool, minVotes: nat, past: seq<Ballot>)
    requires UidsUnique(s.live, s.nextUid) && CastIsLive(s, frame.batch) && OneVotePerFrame(past + s.cast)
    requires forall i :: 0 <= i < |past| ==> past[i].batch < frame.batch
    requires Shaped(s, s', frame, key, plate, native, minVotes)
    ensures CastIsLive(s', frame.batch)
    ensures OneVotePerFrame(past + s'.cast)
  {
    var all := past + s.cast;
    if plate != "" && (key, plate) !in s.voted {
      var b := s'.cast[|s.cast|];
      assert past + s'.cast == all + [b];
      forall i | 0 <= i < |all|
        ensures !(all[i].batch == b.batch && IsFor(b, all[i].uid, all[i].plate))
      {
        if |past| <= i { assert all[i] == s.cast[i - |past|]; } else { assert all[i] == past[i]; }
      }
    }
  }

  lemma {:induction false} AbsorbAllKeeps(s: Sweep, frame: Frame, ds: seq<Detection>, minVotes: nat, past: seq<Ballot>)
    requires SweepInv(s, past, frame.batch, minVotes)
    ensures SweepInv(AbsorbAll(s, frame, ds, minVotes), past, frame.batch, minVotes)
    ensures Extends(s.live, s.nextUid, AbsorbAll(s, frame, ds, minVotes))
  {
    if ds != [] {
      var init, d := ds[..|ds| - 1], ds[|ds| - 1];
      AbsorbAllKeeps(s, frame, init, minVotes, past);
      var mid, end := AbsorbAll(s, frame, init, minVotes), AbsorbAll(s, frame, ds, minVotes);
      if !Skipped(d) {
        AbsorbIsShaped(mid, frame, d, minVotes);
        var key, plate, native := KeyOf(frame, d), PlateOf(d.attributes.value), IsNative(d.attributes.value);
        ShapedKeepsCounts(mid, end, frame, key, plate, native, minVotes, past);
        ShapedKeepsKeys(mid, end, frame, key, plate, native, minVotes, past);
        ShapedKeepsFrames(mid, end, frame, key, plate, native, minVotes, past);
        ShapedExtends(s.live, s.nextUid, mid, end, frame, key, plate, native, minVotes);
      }
    }
  }

  ghost predicate HasVote(cast: seq<Ballot>, key: string, plate: string) {
    exists i :: 0 <= i < |cast| && cast[i].key == key && cast[i].plate == plate
  }

  ghost predicate VotedIsCast(s: Sweep) {
    forall key, plate :: (key, plate) in s.voted ==> HasVote(s.cast, key, plate)
  }

  /** No plate read is dropped: each one of the frame, however often it repeats, has its ballot. */
  lemma {:induction false} EveryReadVotes(s: Sweep, frame: Frame, ds: seq<Detection>, minVotes: nat)
    requires VotedIsCast(s)
    ensures var s' := AbsorbAll(s, frame, ds, minVotes);
      && VotedIsCast(s') && s.voted <= s'.voted
      && forall i :: 0 <= i < |ds| && !Skipped(ds[i]) && PlateOf(ds[i].attributes.value) != "" ==>
           HasVote(s'.cast, KeyOf(frame, ds[i]), PlateOf(ds[i].attributes.value))
  {
    if ds != [] {
      var init, d := ds[..|ds| - 1], ds[|ds| - 1];
      EveryReadVotes(s, frame, init, minVotes);
      var mid, end := AbsorbAll(s, frame, init, minVotes), AbsorbAll(s, frame, ds, minVotes);
      forall key, plate | HasVote(mid.cast, key, plate) ensures HasVote(end.cast, key, plate) {
        var i :| 0 <= i < |mid.cast| && mid.cast[i].key == key && mid.cast[i].plate == plate;
        assert end.cast[i] == mid.cast[i];
      }
      if !Skipped(d) && Counts(mid, frame, d) {
        assert end.cast[|mid.cast|].key == KeyOf(frame, d);
      }
      forall i | 0 <= i < |ds| && !Skipped(ds[i]) && PlateOf(ds[i].attributes.value) != ""
        ensures HasVote(end.cast, KeyOf(frame, ds[i]), PlateOf(ds[i].attributes.value))
      {
        if i < |init| {
          assert init[i] == ds[i];
        }
      }
    }
  }

  lemma ShapedExtends(before: Tracks, since: nat, s: Sweep, s': Sweep, frame: Frame, key: string, plate: string, native: bool, minVotes: nat)
    requires Extends(before, since, s) && Shaped(s, s', frame, key, plate, native, minVotes)
    ensures Extends(before, since, s')
  {
    forall k | k in before ensures SameInstance(before, s'.live, k) {
      assert SameInstance(before, s.live, k);
    }
  }

  /** Which camera a key names. */
  ghost predicate KeyNames(key: string, camera: string) {
    exists sub :: key == TrackKey(camera, sub)
  }

  ghost predicate CamerasNamed(live: Tracks, ballots: seq<Ballot>) {
    && (forall i :: 0 <= i < |ballots| ==> KeyNames(ballots[i].key, ballots[i].camera))
    && (forall k :: k in live ==> KeyNames(k, live[k].camera))
  }

  lemma {:induction false} AbsorbAllNames(s: Sweep, frame: Frame, ds: seq<Detection>, minVotes: nat)
    requires CamerasNamed(s.live, s.cast) && forall i :: 0 <= i < |s.cast| ==> s.cast[i].camera == frame.camera
    ensures var s' := AbsorbAll(s, frame, ds, minVotes);
      CamerasNamed(s'.live, s'.cast) && forall i :: 0 <= i < |s'.cast| ==> s'.cast[i].camera == frame.camera
  {
    if ds != [] {
      var init, d := ds[..|ds| - 1], ds[|ds| - 1];
      AbsorbAllNames(s, frame, init, minVotes);
      var mid, end := AbsorbAll(s, frame, init, minVotes), AbsorbAll(s, frame, ds, minVotes);
      if !Skipped(d) {
        AbsorbIsShaped(mid, frame, d, minVotes);
        assert KeyNames(KeyOf(frame, d), frame.camera) by {
          assert KeyOf(frame, d) == TrackKey(frame.camera, SubKey(d, PlateOf(d.attributes.value)));
        }
        ShapedNames(mid, end, frame, KeyOf(frame, d), PlateOf(d.attributes.value), IsNative(d.attributes.value), minVotes);
      }
    }
  }

  lemma ShapedNames(s: Sweep, s': Sweep, frame: Frame, key: string, plate: string, native: bool, minVotes: nat)
    requires CamerasNamed(s.live, s.cast) && forall i :: 0 <= i < |s.cast| ==> s.cast[i].camera == frame.camera
    requires Shaped(s, s', frame, key, plate, native, minVotes) && KeyNames(key, frame.camera)
    ensures CamerasNamed(s'.live, s'.cast) && forall i :: 0 <= i < |s'.cast| ==> s'.cast[i].camera == frame.camera
  {
    assert forall k :: k in s'.live ==> k == key || k in s.live;
  }

  /** Of two ids read as arbitrary text, some key names both exactly if one is the other up to a bar. */
  lemma SharedKeyIff(a: string, b: string)
    ensures (exists key :: KeyNames(key, a) && KeyNames(key, b)) <==> a == b || a + "|" <= b || b + "|" <= a
  {
    if key :| KeyNames(key, a) && KeyNames(key, b) {
      if |a| <= |b| {
        PrefixOfKey(key, a, b);
      } else {
        PrefixOfKey(key, b, a);
      }
    }
    if a == b || a + "|" <= b {
      KeyOfLonger(a, b);
    } else if b + "|" <= a {
      KeyOfLonger(b, a);
    }
  }

  lemma PrefixOfKey(key: string, a: string, b: string)
    requires KeyNames(key, a) && KeyNames(key, b) && |a| <= |b|
    ensures a == b || a + "|" <= b
  {
    var s :| key == TrackKey(a, s);
    var t :| key == TrackKey(b, t);
    assert key[..|a|] == a && key[..|b|] == b && key[|a|] == '|';
    if |a| < |b| {
      assert b[..|a| + 1] == key[..|a| + 1] == a + "|";
    }
  }

  lemma KeyOfLonger(a: string, b: string)
    requires a == b || a + "|" <= b
    ensures exists key :: KeyNames(key, a) && KeyNames(key, b)
  {
    var key := TrackKey(b, "");
    assert KeyNames(key, b);
    if a != b {
      assert key == TrackKey(a, b[|a| + 1..] + "|");
    }
    assert KeyNames(key, a);
  }

  /** The ids the kernel mints have no bar, so a key names one camera. */
  lemma KeyDeterminesCamera(key: string, a: string, b: string)
    requires KeyNames(key, a) && KeyNames(key, b) && IsCameraId(a) && IsCameraId(b)
    ensures a == b
  {
    SharedKeyIff(a, b);
    if a + "|" <= b {
      BarIsNoId(a, b);
    } else if b + "|" <= a {
      BarIsNoId(b, a);
    }
  }

  lemma BarIsNoId(a: string, b: string)
    requires a + "|" <= b
    ensures !IsCameraId(b)
  {
    assert b[|a|] == '|';
  }

  /** Every live track and every ballot is of a camera with a minted id. */
  ghost predicate MintedCameras(live: Tracks, ballots: seq<Ballot>) {
    && (forall k :: k in live ==> IsCameraId(live[k].camera))
    && (forall i :: 0 <= i < |ballots| ==> IsCameraId(ballots[i].camera))
  }

  lemma {:induction false} AbsorbAllMinted(s: Sweep, frame: Frame, ds: seq<Detection>, minVotes: nat)
    requires MintedCameras(s.live, s.cast) && IsCameraId(frame.camera)
    ensures MintedCameras(AbsorbAll(s, frame, ds, minVotes).live, AbsorbAll(s, frame, ds, minVotes).cast)
  {
    if ds != [] {
      hide IsCameraId;
      AbsorbAllMinted(s, frame, ds[..|ds| - 1], minVotes);
      var mid, d := AbsorbAll(s, frame, ds[..|ds| - 1], minVotes), ds[|ds| - 1];
      if !Skipped(d) {
        AbsorbIsShaped(mid, frame, d, minVotes);
      }
    }
  }
}
