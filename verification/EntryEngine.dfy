/**
 The ANPR entry engine: one locked section per batch that votes, commits the tracks whose winning
 plate reached the threshold and prunes the stale ones, and one locked section after a failed insert
 that lets a still-live track try again.
 */
module EntryEngine {
  import opened Wrappers
  import opened Text
  import opened Plates
  import opened Voting

  /** Milliseconds of server time. */
  type Instant = int

  const STATE_TTL: Instant := 30_000

  datatype Provenance = Provenance(producer: Option<string>, key: Option<string>)

  /** The fields of a detection's JSON attributes that the engine reads, each absent when missing or mistyped. */
  datatype Attributes = Attributes(
    plate: Option<string>, plateConfidence: Option<real>, source: Option<string>,
    provenance: Option<Provenance>, vehicleType: Option<string>, color: Option<string>,
    make: Option<string>, model: Option<string>, direction: Option<string>, modelVersions: Option<string>)

  datatype Detection = Detection(
    caption: Option<string>, confidence: Option<real>, trackId: Option<string>, attributes: Option<Attributes>)

  /** One batch is one sampled frame of one camera. */
  datatype Frame = Frame(batch: nat, now: Instant, camera: string, site: Option<string>, detections: seq<Detection>)

  datatype Observation = Observation(text: string, confidence: real)

  datatype ObservedAttrs = ObservedAttrs(
    vehicleType: Option<Observation>, color: Option<Observation>, make: Option<Observation>, model: Option<Observation>)

  datatype Track = Track(
    camera: string, site: Option<string>, track: Option<string>, direction: string, votes: Votes,
    rawByNorm: map<string, string>, attrs: ObservedAttrs, lastSeen: Instant, committed: bool,
    modelVersions: string, source: string, producedBy: string, uid: nat)

  type Tracks = map<string, Track>

  datatype CommitJob = CommitJob(
    key: string, uid: nat, camera: string, site: Option<string>, track: Option<string>, direction: string,
    plateNorm: string, plateRaw: string, plateConf: real, vehicleType: Option<string>, color: Option<string>,
    make: Option<string>, model: Option<string>, modelVersions: string, votes: nat, actuate: bool,
    source: string, producedBy: string)

  /** History: one accepted vote. The engine does not store it; the counts it keeps must agree with it. */
  datatype Ballot = Ballot(batch: nat, camera: string, key: string, uid: nat, plate: string, native: bool)

  // ---------------------------------------------------------------- one detection

  function TrackKey(camera: string, sub: string): string { camera + "|" + sub }

  function PlateOf(a: Attributes): string {
    match a.plate
    case Some(p) => NormalizePlate(p)
    case None => ""
  }

  function SubKey(d: Detection, norm: string): string { d.trackId.GetOr("plate:" + norm) }

  function ProducerLabel(p: Provenance): string {
    if p.producer.Some? then "kernel:" + p.producer.value
    else if p.key.Some? then "apikey:" + p.key.value
    else "system"
  }

  function Positive(x: real): real { if x < 0.0 then 0.0 else x }

  /** Keep the highest-confidence observation; a blank value is no observation. */
  function Observe(slot: Option<Observation>, val: Option<string>, conf: real): Option<Observation> {
    if val.None? || Trim(val.value) == "" then slot
    else if slot.Some? && conf <= slot.value.confidence then slot
    else Some(Observation(Trim(val.value), conf))
  }

  function ObserveAll(seen: ObservedAttrs, d: Detection, a: Attributes): ObservedAttrs {
    var conf := Positive(d.confidence.GetOr(a.plateConfidence.GetOr(0.0)));
    ObservedAttrs(
      Observe(seen.vehicleType, if a.vehicleType.Some? then a.vehicleType else d.caption, conf),
      Observe(seen.color, a.color, conf),
      Observe(seen.make, a.make, conf),
      Observe(seen.model, a.model, conf))
  }

  function NewTrack(frame: Frame, track: Option<string>, uid: nat): Track {
    Track(frame.camera, frame.site, track, "unknown", map[], map[], ObservedAttrs(None, None, None, None),
          frame.now, false, "{}", "worker", "system", uid)
  }

  predicate IsNative(a: Attributes) { a.source == Some("camera_native") }

  function Weight(a: Attributes, minVotes: nat): nat {
    if IsNative(a) then if minVotes < 1 then 1 else minVotes else 1
  }

  function AddVote(votes: Votes, norm: string, a: Attributes, minVotes: nat): Votes {
    var v := if norm in votes then votes[norm] else PlateVote(0, 0.0);
    var w := Weight(a, minVotes);
    votes[norm := PlateVote(v.count + w, v.confSum + Positive(a.plateConfidence.GetOr(0.0)) * w as real)]
  }

  /** The track after one of its detections; `counts` says whether the read is the frame's first for this plate. */
  function Refreshed(t: Track, frame: Frame, d: Detection, a: Attributes, counts: bool, minVotes: nat): Track {
    var norm := PlateOf(a);
    t.(lastSeen := frame.now,
       source := a.source.GetOr(t.source),
       producedBy := if a.provenance.Some? then ProducerLabel(a.provenance.value) else t.producedBy,
       votes := if counts then AddVote(t.votes, norm, a, minVotes) else t.votes,
       rawByNorm := if counts && a.plate.Some? then t.rawByNorm[norm := a.plate.value] else t.rawByNorm,
       attrs := ObserveAll(t.attrs, d, a),
       direction := if a.direction.Some? && a.direction.value in ["inbound", "outbound"] then a.direction.value else t.direction,
       modelVersions := a.modelVersions.GetOr(t.modelVersions))
  }

  /** What the vote loop has accumulated: the map, the uid counter, this frame's voters, the ballots cast. */
  datatype Sweep = Sweep(live: Tracks, nextUid: nat, voted: set<(string, string)>, cast: seq<Ballot>)

  predicate Skipped(d: Detection) {
    d.attributes.None? || (d.trackId.None? && PlateOf(d.attributes.value) == "")
  }

  function KeyOf(frame: Frame, d: Detection): string
    requires !Skipped(d)
  {
    TrackKey(frame.camera, SubKey(d, PlateOf(d.attributes.value)))
  }

  function TrackFor(s: Sweep, frame: Frame, d: Detection): Track
    requires !Skipped(d)
  {
    var key := KeyOf(frame, d);
    if key in s.live then s.live[key] else NewTrack(frame, d.trackId, s.nextUid)
  }

  predicate Counts(s: Sweep, frame: Frame, d: Detection)
    requires !Skipped(d)
  {
    var norm := PlateOf(d.attributes.value);
    norm != "" && (KeyOf(frame, d), norm) !in s.voted
  }

  function Absorb(s: Sweep, frame: Frame, d: Detection, minVotes: nat): Sweep {
    if Skipped(d) then s
    else
      var a := d.attributes.value;
      var norm := PlateOf(a);
      var key := KeyOf(frame, d);
      var t := TrackFor(s, frame, d);
      var counts := Counts(s, frame, d);
      Sweep(s.live[key := Refreshed(t, frame, d, a, counts, minVotes)],
            if key in s.live then s.nextUid else s.nextUid + 1,
            if norm == "" then s.voted else s.voted + {(key, norm)},
            if counts then s.cast + [Ballot(frame.batch, frame.camera, key, t.uid, norm, IsNative(a))] else s.cast)
  }

  function AbsorbAll(s: Sweep, frame: Frame, ds: seq<Detection>, minVotes: nat): Sweep {
    if ds == [] then s
    else Absorb(AbsorbAll(s, frame, ds[..|ds| - 1], minVotes), frame, ds[|ds| - 1], minVotes)
  }

  function Voted(live: Tracks, nextUid: nat, frame: Frame, minVotes: nat): Sweep {
    AbsorbAll(Sweep(live, nextUid, {}, []), frame, frame.detections, minVotes)
  }

  // ---------------------------------------------------------------- threshold scan and prune

  ghost predicate Ready(t: Track, minVotes: nat) {
    !t.committed && t.votes != map[] && minVotes <= LeadCount(t.votes)
  }

  predicate Stale(t: Track, now: Instant) { t.lastSeen < now - STATE_TTL }

  /** The tracks one batch builds a commit job for: over the threshold, or leaving with a vote. */
  ghost predicate Due(t: Track, minVotes: nat, now: Instant) {
    Ready(t, minVotes) || (Stale(t, now) && !t.committed && t.votes != map[])
  }

  function JobFrom(key: string, t: Track, plate: string, v: PlateVote, actuate: bool): CommitJob {
    CommitJob(
      key, t.uid, t.camera, t.site, t.track, t.direction, plate,
      if plate in t.rawByNorm then t.rawByNorm[plate] else plate,
      Average(v), TextOf(t.attrs.vehicleType), TextOf(t.attrs.color), TextOf(t.attrs.make),
      TextOf(t.attrs.model), t.modelVersions, v.count, actuate, t.source, t.producedBy)
  }

  ghost predicate IsJobOf(job: CommitJob, key: string, t: Track, actuate: bool) {
    && IsWinner(t.votes, job.plateNorm)
    && job == JobFrom(key, t, job.plateNorm, t.votes[job.plateNorm], actuate)
  }

  function TextOf(o: Option<Observation>): Option<string> {
    if o.Some? then Some(o.value.text) else None
  }

  ghost predicate DistinctKeys(jobs: seq<CommitJob>) {
    forall i, j :: 0 <= i < j < |jobs| ==> jobs[i].key != jobs[j].key
  }

  ghost predicate HasJob(jobs: seq<CommitJob>, key: string) {
    exists i :: 0 <= i < |jobs| && jobs[i].key == key
  }

  /** The tracks the threshold scan commits (`actuate`), and those the prune then records. */
  ghost predicate Picks(t: Track, minVotes: nat, now: Instant, actuate: bool) {
    if actuate then Ready(t, minVotes) else Due(t, minVotes, now) && !Ready(t, minVotes)
  }

  /** Exactly one job for each picked track among `done`, built from the votes it has. */
  ghost predicate BuiltFor(jobs: seq<CommitJob>, live: Tracks, done: set<string>, minVotes: nat, now: Instant, actuate: bool) {
    && DistinctKeys(jobs)
    && (forall i :: 0 <= i < |jobs| ==>
          && jobs[i].key in live && jobs[i].key in done && Picks(live[jobs[i].key], minVotes, now, actuate)
          && IsJobOf(jobs[i], jobs[i].key, live[jobs[i].key], actuate))
    && (forall k :: k in live && k in done && Picks(live[k], minVotes, now, actuate) ==> HasJob(jobs, k))
  }

  /** Exactly one job for each due track, actuating only over the threshold. */
  ghost predicate JobsOf(jobs: seq<CommitJob>, live: Tracks, minVotes: nat, now: Instant) {
    && DistinctKeys(jobs)
    && (forall i :: 0 <= i < |jobs| ==>
          && jobs[i].key in live && Due(live[jobs[i].key], minVotes, now)
          && IsJobOf(jobs[i], jobs[i].key, live[jobs[i].key], Ready(live[jobs[i].key], minVotes)))
    && (forall k :: k in live && Due(live[k], minVotes, now) ==> HasJob(jobs, k))
  }

  lemma SkipTrack(jobs: seq<CommitJob>, live: Tracks, done: set<string>, minVotes: nat, now: Instant, actuate: bool, k: string)
    requires BuiltFor(jobs, live, done, minVotes, now, actuate)
    requires k in live ==> !Picks(live[k], minVotes, now, actuate)
    ensures BuiltFor(jobs, live, done + {k}, minVotes, now, actuate)
  {
  }

  lemma AddJob(jobs: seq<CommitJob>, live: Tracks, done: set<string>, minVotes: nat, now: Instant, actuate: bool, job: CommitJob)
    requires BuiltFor(jobs, live, done, minVotes, now, actuate)
    requires job.key in live && job.key !in done && Picks(live[job.key], minVotes, now, actuate)
    requires IsJobOf(job, job.key, live[job.key], actuate)
    ensures BuiltFor(jobs + [job], live, done + {job.key}, minVotes, now, actuate)
  {
    var more := jobs + [job];
    forall k | k in live && k in done + {job.key} && Picks(live[k], minVotes, now, actuate)
      ensures HasJob(more, k)
    {
      if k == job.key {
        assert more[|jobs|].key == k;
      } else {
        assert HasJob(jobs, k);
        var i :| 0 <= i < |jobs| && jobs[i].key == k;
        assert more[i].key == k;
      }
    }
  }

  /** The jobs of the scan followed by those of the prune, which sees the committed flags the scan set. */
  lemma JoinJobs(ready: seq<CommitJob>, pruned: seq<CommitJob>, swept: Tracks, marked: Tracks, minVotes: nat, now: Instant)
    requires marked == MarkedBut(swept, {}, minVotes)
    requires BuiltFor(ready, swept, swept.Keys, minVotes, now, true)
    requires BuiltFor(pruned, marked, marked.Keys, minVotes, now, false)
    ensures JobsOf(ready + pruned, swept, minVotes, now)
  {
    var jobs := ready + pruned;
    forall i | 0 <= i < |pruned|
      ensures pruned[i].key in swept && !Ready(swept[pruned[i].key], minVotes) && Due(swept[pruned[i].key], minVotes, now)
      ensures IsJobOf(pruned[i], pruned[i].key, swept[pruned[i].key], false)
    {
      assert !Ready(marked[pruned[i].key], minVotes);
    }
    forall k | k in swept && Due(swept[k], minVotes, now)
      ensures HasJob(jobs, k)
    {
      if Ready(swept[k], minVotes) {
        assert HasJob(ready, k);
        var i :| 0 <= i < |ready| && ready[i].key == k;
        assert jobs[i].key == k;
      } else {
        assert Picks(marked[k], minVotes, now, false);
        assert HasJob(pruned, k);
        var i :| 0 <= i < |pruned| && pruned[i].key == k;
        assert jobs[|ready| + i].key == k;
      }
    }
  }

  ghost function Marked(t: Track, minVotes: nat): Track {
    if Ready(t, minVotes) then t.(committed := true) else t
  }

  /** The threshold scan with the keys of `todo` still ahead of it. */
  ghost function MarkedBut(live: Tracks, todo: set<string>, minVotes: nat): Tracks {
    map k | k in live :: if k in todo then live[k] else Marked(live[k], minVotes)
  }

  lemma MarkOne(live: Tracks, todo: set<string>, k: string, minVotes: nat)
    requires k in live && k in todo
    ensures MarkedBut(live, todo - {k}, minVotes) == MarkedBut(live, todo, minVotes)[k := Marked(live[k], minVotes)]
    ensures MarkedBut(live, todo, minVotes)[k] == live[k]
    ensures !Ready(live[k], minVotes) ==> MarkedBut(live, todo - {k}, minVotes) == MarkedBut(live, todo, minVotes)
  {
  }

  function SurvivorsOf(live: Tracks, done: set<string>, now: Instant): Tracks {
    map k | k in live && k in done && !Stale(live[k], now) :: live[k]
  }

  ghost function Settled(live: Tracks, minVotes: nat, now: Instant): Tracks {
    map k | k in live && !Stale(live[k], now) :: Marked(live[k], minVotes)
  }

  /** After a failed insert: the entry is re-opened only if it is still the instance the job came from. */
  function Reopened(live: Tracks, key: string, uid: nat): Tracks {
    if key in live && live[key].uid == uid then live[key := live[key].(committed := false)] else live
  }

  // ---------------------------------------------------------------- the engine

  method BuildJob(key: string, t: Track, actuate: bool) returns (job: Option<CommitJob>)
    ensures job.None? <==> t.votes == map[]
    ensures job.Some? ==> IsJobOf(job.value, key, t, actuate)
  {
    var w := WinningPlate(t.votes);
    if w.None? {
      return None;
    }
    var plate := w.value.plate;
    return Some(JobFrom(key, t, plate, t.votes[plate], actuate));
  }

  class AnprEngine {
    const minVotes: nat
    var state: Tracks
    var nextUid: nat

    constructor (minVotes: nat)
      ensures this.minVotes == minVotes && state == map[] && nextUid == 1
    {
      this.minVotes := minVotes;
      state := map[];
      nextUid := 1;
    }

    /** The section of `process` that runs under the lock. */
    method Process(frame: Frame) returns (jobs: seq<CommitJob>)
      modifies this
      ensures var swept := Voted(old(state), old(nextUid), frame, minVotes);
        && nextUid == swept.nextUid
        && state == Settled(swept.live, minVotes, frame.now)
        && JobsOf(jobs, swept.live, minVotes, frame.now)
    {
      Vote(frame);
      ghost var swept := state;
      var ready := CommitReady(frame.now);
      var pruned := Prune(frame.now);
      JoinJobs(ready, pruned, swept, MarkedBut(swept, {}, minVotes), minVotes, frame.now);
      jobs := ready + pruned;
    }

    /** One vote per (track, plate) and frame. */
    method Vote(frame: Frame)
      modifies this
      ensures var swept := Voted(old(state), old(nextUid), frame, minVotes);
        state == swept.live && nextUid == swept.nextUid
    {
      var voted: set<(string, string)> := {};
      ghost var cast: seq<Ballot> := [];
      ghost var start := Sweep(state, nextUid, {}, []);
      for i := 0 to |frame.detections|
        invariant Sweep(state, nextUid, voted, cast) == AbsorbAll(start, frame, frame.detections[..i], minVotes)
      {
        assert frame.detections[..i + 1][..i] == frame.detections[..i];
        voted, cast := Read(frame, frame.detections[i], voted, cast);
      }
      assert frame.detections[..|frame.detections|] == frame.detections;
    }

    /** One detection: find or open its track, count its plate once, refresh the rest. */
    method Read(frame: Frame, d: Detection, votedBefore: set<(string, string)>, ghost castBefore: seq<Ballot>)
      returns (voted: set<(string, string)>, ghost cast: seq<Ballot>)
      modifies this
      ensures Sweep(state, nextUid, voted, cast)
           == Absorb(Sweep(old(state), old(nextUid), votedBefore, castBefore), frame, d, minVotes)
    {
      voted, cast := votedBefore, castBefore;
      if d.attributes.None? { return; }
      var a := d.attributes.value;
      var norm := PlateOf(a);
      if d.trackId.None? && norm == "" { return; }
      var key := TrackKey(frame.camera, SubKey(d, norm));
      var alreadyVoted := norm != "" && (key, norm) in voted;
      if norm != "" { voted := voted + {(key, norm)}; }
      var t: Track;
      if key in state {
        t := state[key];
      } else {
        t := NewTrack(frame, d.trackId, nextUid);
        nextUid := nextUid + 1;
      }
      var counts := norm != "" && !alreadyVoted;
      if counts { cast := cast + [Ballot(frame.batch, frame.camera, key, t.uid, norm, IsNative(a))]; }
      state := state[key := Refreshed(t, frame, d, a, counts, minVotes)];
    }

    /** The threshold scan, in whatever order the map yields its entries. */
    method CommitReady(ghost now: Instant) returns (jobs: seq<CommitJob>)
      modifies `state
      ensures state == MarkedBut(old(state), {}, minVotes)
      ensures BuiltFor(jobs, old(state), old(state).Keys, minVotes, now, true)
    {
      jobs := [];
      ghost var was := state;
      var todo := state.Keys;
      while todo != {}
        invariant todo <= was.Keys && state == MarkedBut(was, todo, minVotes)
        invariant BuiltFor(jobs, was, was.Keys - todo, minVotes, now, true)
      {
        var k :| k in todo;
        ghost var done := was.Keys - todo;
        MarkOne(was, todo, k, minVotes);
        todo := todo - {k};
        assert was.Keys - todo == done + {k};
        var t := state[k];
        var w := WinningPlate(t.votes);
        if !t.committed && w.Some? && minVotes <= w.value.count {
          var job := BuildJob(k, t, true);
          AddJob(jobs, was, done, minVotes, now, true, job.value);
          jobs := jobs + [job.value];
          state := state[k := t.(committed := true)];
        } else {
          SkipTrack(jobs, was, done, minVotes, now, true, k);
        }
      }
    }

    /** Drop the stale tracks; one that leaves uncommitted with a vote is recorded, and never actuates. */
    method Prune(now: Instant) returns (jobs: seq<CommitJob>)
      requires forall k :: k in state ==> !Ready(state[k], minVotes)
      modifies `state
      ensures state == SurvivorsOf(old(state), old(state).Keys, now)
      ensures BuiltFor(jobs, old(state), old(state).Keys, minVotes, now, false)
    {
      jobs := [];
      var cutoff := now - STATE_TTL;
      var survivors: Tracks := map[];
      ghost var was := state;
      var todo := state.Keys;
      while todo != {}
        invariant todo <= was.Keys && state == was
        invariant survivors == SurvivorsOf(was, was.Keys - todo, now)
        invariant BuiltFor(jobs, was, was.Keys - todo, minVotes, now, false)
      {
        var k :| k in todo;
        ghost var done := was.Keys - todo;
        todo := todo - {k};
        assert was.Keys - todo == done + {k};
        var t := state[k];
        var w := WinningPlate(t.votes);
        if cutoff <= t.lastSeen {
          survivors := survivors[k := t];
          assert survivors == SurvivorsOf(was, done + {k}, now);
          SkipTrack(jobs, was, done, minVotes, now, false, k);
        } else if !t.committed && w.Some? {
          var reached := minVotes <= w.value.count;
          var job := BuildJob(k, t, reached);
          AddJob(jobs, was, done, minVotes, now, false, job.value);
          jobs := jobs + [job.value];
        } else {
          SkipTrack(jobs, was, done, minVotes, now, false, k);
        }
      }
      assert was.Keys - {} == was.Keys;
      state := survivors;
    }

    /** The section of `process` that runs after a failed insert. */
    method Reopen(key: string, uid: nat)
      modifies `state
      ensures state == Reopened(old(state), key, uid)
    {
      if key in state && state[key].uid == uid {
        state := state[key := state[key].(committed := false)];
      }
    }
  }
}
