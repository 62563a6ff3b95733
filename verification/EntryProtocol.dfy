/**
 The entry engine as a concurrent protocol. Batches, inserts that succeed, inserts that fail and barrier
 tasks interleave in any order; the registry may be different at every lookup, the gate policy at every step.
 */
module EntryProtocol {
  import opened Wrappers
  import opened Plates
  import opened Voting
  import opened CameraIds
  import opened EntryEngine
  import opened Ballots
  import opened Resolve
  import opened Gate

  /** A job, the track it was built from, and how many ballots had been cast by then. */
  datatype Attempt = Attempt(job: CommitJob, track: Track, upto: nat)

  /** A recorded entry event, with the registry states and failures its lookups met. */
  datatype Event = Event(job: CommitJob, resolution: Resolution, workflow: string, seen: Sights, faults: Faults, at: Instant)

  /** A relay command to a camera's barrier for a recorded event, and the lookups that let it through. */
  datatype BarrierPulse = BarrierPulse(camera: string, record: nat, policy: Lookup<Policy>, kill: Lookup<bool>)

  /**
   `live` and `nextUid` are the engine's memory, `recorded` the entry table, `pending` the jobs whose
   insert has not answered and `opens` the spawned barrier tasks; `ballots` and `attempts` are history.
   */
  datatype System = System(
    live: Tracks, nextUid: nat, batches: nat, ballots: seq<Ballot>, attempts: seq<Attempt>,
    pending: seq<CommitJob>, recorded: seq<Event>, opens: seq<nat>, pulses: seq<BarrierPulse>)

  datatype Action =
    | Batch(frame: Frame, jobs: seq<CommitJob>)
    | Inserted(which: nat, seen: Sights, faults: Faults, at: Instant)
    | InsertFailed(which: nat)
    | GateTask(which: nat, policy: Lookup<Policy>, kill: Lookup<bool>)

  const INITIAL := System(map[], 1, 0, [], [], [], [], [], [])

  function Without<T>(s: seq<T>, i: nat): seq<T>
    requires i < |s|
  {
    s[..i] + s[i + 1..]
  }

  function AttemptsOf(jobs: seq<CommitJob>, live: Tracks, upto: nat): seq<Attempt>
    requires forall i :: 0 <= i < |jobs| ==> jobs[i].key in live
  {
    seq(|jobs|, i requires 0 <= i < |jobs| => Attempt(jobs[i], live[jobs[i].key], upto))
  }

  function Recorded(job: CommitJob, seen: Sights, faults: Faults, at: Instant): Event {
    var resolution := Classify(job, seen, faults, at).0;
    Event(job, resolution, if job.actuate then resolution.workflow else "review", seen, faults, at)
  }

  /** One locked section of `process`. */
  ghost predicate BatchNext(minVotes: nat, s: System, frame: Frame, jobs: seq<CommitJob>, s': System) {
    var swept := Voted(s.live, s.nextUid, frame, minVotes);
    && frame.batch == s.batches
    && JobsOf(jobs, swept.live, minVotes, frame.now)
    && s' == s.(live := Settled(swept.live, minVotes, frame.now), nextUid := swept.nextUid, batches := s.batches + 1,
                ballots := s.ballots + swept.cast,
                attempts := s.attempts + AttemptsOf(jobs, swept.live, |s.ballots + swept.cast|),
                pending := s.pending + jobs)
  }

  /** An insert succeeds; a job that may actuate leaves a barrier task behind. */
  ghost predicate InsertedNext(s: System, i: nat, e: Event, s': System) {
    && i < |s.pending| && e == Recorded(s.pending[i], e.seen, e.faults, e.at)
    && s' == s.(pending := Without(s.pending, i), recorded := s.recorded + [e],
                opens := if e.job.actuate then s.opens + [|s.recorded|] else s.opens)
  }

  /** An insert fails, and the engine relocks to re-open the track. */
  ghost predicate FailedNext(s: System, i: nat, s': System) {
    && i < |s.pending|
    && s' == s.(pending := Without(s.pending, i), live := Reopened(s.live, s.pending[i].key, s.pending[i].uid))
  }

  /** A spawned barrier task runs its guards. */
  ghost predicate GateNext(s: System, i: nat, policy: Lookup<Policy>, kill: Lookup<bool>, s': System) {
    && i < |s.opens| && s.opens[i] < |s.recorded|
    && s' == s.(opens := Without(s.opens, i),
                pulses := if AutoOpens(s.recorded[s.opens[i]].resolution.authStatus, policy, kill)
                          then s.pulses + [BarrierPulse(s.recorded[s.opens[i]].job.camera, s.opens[i], policy, kill)]
                          else s.pulses)
  }

  ghost predicate Next(minVotes: nat, s: System, a: Action, s': System) {
    match a
    case Batch(frame, jobs) => BatchNext(minVotes, s, frame, jobs, s')
    case Inserted(i, seen, faults, at) =>
      i < |s.pending| && InsertedNext(s, i, Recorded(s.pending[i], seen, faults, at), s')
    case InsertFailed(i) => FailedNext(s, i, s')
    case GateTask(i, policy, kill) => GateNext(s, i, policy, kill, s')
  }

  /** A run from the empty engine: `states[i]` becomes `states[i + 1]` by `actions[i]`. */
  ghost predicate IsRun(minVotes: nat, states: seq<System>, actions: seq<Action>) {
    && |states| == |actions| + 1
    && states[0] == INITIAL
    && forall i :: 0 <= i < |actions| ==> Next(minVotes, states[i], actions[i], states[i + 1])
  }

  /** The class method is the `Batch` step. */
  method BatchIsProcess(engine: AnprEngine, frame: Frame, ghost s: System) returns (jobs: seq<CommitJob>, ghost s': System)
    requires s.live == engine.state && s.nextUid == engine.nextUid && frame.batch == s.batches
    modifies engine
    ensures s'.live == engine.state && s'.nextUid == engine.nextUid
    ensures Next(engine.minVotes, s, Batch(frame, jobs), s')
  {
    jobs := engine.Process(frame);
    ghost var swept := Voted(s.live, s.nextUid, frame, engine.minVotes);
    s' := s.(live := engine.state, nextUid := engine.nextUid, batches := s.batches + 1, ballots := s.ballots + swept.cast,
             attempts := s.attempts + AttemptsOf(jobs, swept.live, |s.ballots + swept.cast|), pending := s.pending + jobs);
  }

  /** The class method run after a failed insert is the `InsertFailed` step. */
  method FailureIsReopen(engine: AnprEngine, ghost s: System, i: nat, job: CommitJob) returns (ghost s': System)
    requires s.live == engine.state && s.nextUid == engine.nextUid && i < |s.pending| && job == s.pending[i]
    modifies engine
    ensures s'.live == engine.state && s'.nextUid == engine.nextUid
    ensures Next(engine.minVotes, s, InsertFailed(i), s')
  {
    engine.Reopen(job.key, job.uid);
    s' := s.(pending := Without(s.pending, i), live := engine.state);
  }

  /** The actuator's guard chain is the `GateTask` step: it commands a relay exactly when the protocol pulses. */
  method TaskIsAutoOpen(gate: GateActuator, ghost s: System, i: nat, event: Event, eventId: string,
                        policy: Lookup<Policy>, kill: Lookup<bool>, device: Result<nat, string>)
    returns (ghost s': System)
    requires i < |s.opens| && s.opens[i] < |s.recorded| && event == s.recorded[s.opens[i]]
    modifies gate
    ensures forall minVotes: nat :: Next(minVotes, s, GateTask(i, policy, kill), s')
    ensures if s'.pulses == s.pulses then gate.pulses == old(gate.pulses) && gate.events == old(gate.events)
            else && s'.pulses == s.pulses + [BarrierPulse(event.job.camera, s.opens[i], policy, kill)]
                 && |gate.pulses| == |old(gate.pulses)| + 1 && old(gate.pulses) <= gate.pulses
                 && gate.pulses[|old(gate.pulses)|].camera == event.job.camera
                 && |gate.events| == |old(gate.events)| + 1
  {
    gate.AutoOpenWith(event.job.camera, eventId, event.resolution.authStatus, policy, kill, device);
    s' := s.(opens := Without(s.opens, i),
             pulses := if AutoOpens(event.resolution.authStatus, policy, kill)
                       then s.pulses + [BarrierPulse(event.job.camera, s.opens[i], policy, kill)] else s.pulses);
  }

  // ---------------------------------------------------------------- counting uids

  function JobUids(jobs: seq<CommitJob>): seq<nat> { seq(|jobs|, i requires 0 <= i < |jobs| => jobs[i].uid) }

  function EventUids(events: seq<Event>): seq<nat> { seq(|events|, i requires 0 <= i < |events| => events[i].job.uid) }

  /** Jobs of a uid that are pending or recorded. */
  ghost function Open(s: System): multiset<nat> { multiset(JobUids(s.pending)) + multiset(EventUids(s.recorded)) }

  lemma WithoutMultiset<T>(s: seq<T>, i: nat)
    requires i < |s|
    ensures multiset(Without(s, i)) == multiset(s) - multiset{s[i]}
  {
    assert s == s[..i] + [s[i]] + s[i + 1..];
  }

  lemma {:induction false} DistinctCounts(s: seq<nat>, u: nat)
    requires Distinct(s)
    ensures multiset(s)[u] == if u in s then 1 else 0
  {
    if s != [] {
      var n := |s| - 1;
      DistinctCounts(s[..n], u);
      assert s == s[..n] + [s[n]];
    }
  }

  lemma DistinctIfCountedOnce(s: seq<nat>)
    requires forall u :: multiset(s)[u] <= 1
    ensures Distinct(s)
  {
    forall i, j | 0 <= i < j < |s| ensures s[i] != s[j] {
      assert s == s[..j] + [s[j]] + s[j + 1..];
      assert multiset(s)[s[j]] >= multiset(s[..j])[s[j]] + 1;
      assert s[j] !in multiset(s[..j]);
      assert s[..j][i] == s[i] && s[i] in s[..j];
    }
  }

  lemma RecordedDistinct(s: System)
    requires OneJobEach(s)
    ensures Distinct(EventUids(s.recorded))
  {
    forall u ensures multiset(EventUids(s.recorded))[u] <= 1 {
      assert Open(s)[u] <= 1;
    }
    DistinctIfCountedOnce(EventUids(s.recorded));
  }

  lemma JobCounts(jobs: seq<CommitJob>, live: Tracks, nextUid: nat, u: nat)
    requires UidsUnique(live, nextUid) && DistinctKeys(jobs)
    requires forall i :: 0 <= i < |jobs| ==> jobs[i].key in live && jobs[i].uid == live[jobs[i].key].uid
    ensures multiset(JobUids(jobs))[u] <= 1
    ensures multiset(JobUids(jobs))[u] == 1 <==> exists k :: k in live && live[k].uid == u && HasJob(jobs, k)
  {
    var us := JobUids(jobs);
    DistinctCounts(us, u);
    if u in us {
      var i :| 0 <= i < |us| && us[i] == u;
      assert HasJob(jobs, jobs[i].key);
    }
    if k :| k in live && live[k].uid == u && HasJob(jobs, k) {
      var i :| 0 <= i < |jobs| && jobs[i].key == k;
      assert us[i] == u;
    }
  }

  // ---------------------------------------------------------------- the invariant

  /** A live committed uid has exactly one job, a live uncommitted one none, any uid at most one. */
  ghost predicate OneJobEach(s: System) {
    && (forall u :: Open(s)[u] <= 1)
    && (forall u: nat :: s.nextUid <= u ==> Open(s)[u] == 0)
    && (forall k :: k in s.live ==> Open(s)[s.live[k].uid] == if s.live[k].committed then 1 else 0)
  }

  /** The engine's memory agrees with the history of accepted votes. */
  ghost predicate LedgerKept(live: Tracks, nextUid: nat, ballots: seq<Ballot>, minVotes: nat) {
    UidsUnique(live, nextUid) && BallotsKeyed(live, nextUid, ballots) && CountsKept(live, ballots, minVotes) && CamerasNamed(live, ballots)
  }

  ghost predicate FramesKept(ballots: seq<Ballot>, batches: nat) {
    OneVotePerFrame(ballots) && forall i :: 0 <= i < |ballots| ==> ballots[i].batch < batches
  }

  ghost predicate LedgerInv(s: System, minVotes: nat) {
    LedgerKept(s.live, s.nextUid, s.ballots, minVotes) && FramesKept(s.ballots, s.batches)
  }

  /** An attempt carries the votes cast until it was built, and actuates exactly over the threshold. */
  ghost predicate AttemptSound(a: Attempt, ballots: seq<Ballot>, minVotes: nat) {
    && IsJobOf(a.job, a.job.key, a.track, a.job.actuate)
    && (a.job.actuate <==> minVotes <= a.job.votes)
    && a.upto <= |ballots| && CountsAgree(a.track.votes, a.job.uid, ballots[..a.upto], minVotes)
    && KeyNames(a.job.key, a.job.camera)
    && (forall i :: 0 <= i < |ballots| && ballots[i].uid == a.job.uid ==> ballots[i].key == a.job.key)
  }

  ghost predicate Attempted(attempts: seq<Attempt>, uid: nat) {
    exists i :: 0 <= i < |attempts| && attempts[i].job.uid == uid
  }

  ghost predicate JobAttempted(attempts: seq<Attempt>, job: CommitJob) {
    exists i :: 0 <= i < |attempts| && attempts[i].job == job
  }

  ghost predicate LiveUid(live: Tracks, uid: nat) {
    exists k :: k in live && live[k].uid == uid
  }

  ghost predicate AttemptsInv(s: System, minVotes: nat) {
    && (forall i :: 0 <= i < |s.attempts| ==>
          s.attempts[i].job.uid < s.nextUid && AttemptSound(s.attempts[i], s.ballots, minVotes))
    && (forall i :: 0 <= i < |s.pending| ==> JobAttempted(s.attempts, s.pending[i]))
    && (forall i :: 0 <= i < |s.recorded| ==>
          JobAttempted(s.attempts, s.recorded[i].job)
          && s.recorded[i] == Recorded(s.recorded[i].job, s.recorded[i].seen, s.recorded[i].faults, s.recorded[i].at))
  }

  /** A track instance that received a vote is still live, or a commit was attempted for it. */
  ghost predicate NoneLost(s: System) {
    forall i :: 0 <= i < |s.ballots| ==> LiveUid(s.live, s.ballots[i].uid) || Attempted(s.attempts, s.ballots[i].uid)
  }

  ghost predicate Distinct(s: seq<nat>) {
    forall i, j :: 0 <= i < j < |s| ==> s[i] != s[j]
  }

  function PulsedRecords(pulses: seq<BarrierPulse>): seq<nat> {
    seq(|pulses|, i requires 0 <= i < |pulses| => pulses[i].record)
  }

  ghost predicate GateInv(s: System) {
    && Distinct(s.opens) && Distinct(PulsedRecords(s.pulses))
    && (forall i, j :: 0 <= i < |s.opens| && 0 <= j < |s.pulses| ==> s.opens[i] != s.pulses[j].record)
    && (forall i :: 0 <= i < |s.opens| ==> s.opens[i] < |s.recorded| && s.recorded[s.opens[i]].job.actuate)
    && (forall i :: 0 <= i < |s.pulses| ==>
          && s.pulses[i].record < |s.recorded| && s.recorded[s.pulses[i].record].job.actuate
          && s.pulses[i].camera == s.recorded[s.pulses[i].record].job.camera
          && AutoOpens(s.recorded[s.pulses[i].record].resolution.authStatus, s.pulses[i].policy, s.pulses[i].kill))
  }

  ghost predicate Inv(s: System, minVotes: nat) {
    OneJobEach(s) && LedgerInv(s, minVotes) && AttemptsInv(s, minVotes) && NoneLost(s) && GateInv(s)
  }

  // ---------------------------------------------------------------- the batch step

  lemma SweepOf(s: System, frame: Frame, minVotes: nat)
    requires LedgerInv(s, minVotes) && frame.batch == s.batches
    ensures var swept := Voted(s.live, s.nextUid, frame, minVotes);
      && SweepInv(swept, s.ballots, frame.batch, minVotes)
      && Extends(s.live, s.nextUid, swept)
      && CamerasNamed(swept.live, s.ballots + swept.cast)
  {
    var start := Sweep(s.live, s.nextUid, {}, []);
    assert s.ballots + start.cast == s.ballots;
    AbsorbAllKeeps(start, frame, frame.detections, minVotes, s.ballots);
    AbsorbAllNames(start, frame, frame.detections, minVotes);
  }

  lemma SettledKeepsLedger(swept: Sweep, ballots: seq<Ballot>, minVotes: nat, now: Instant)
    requires UidsUnique(swept.live, swept.nextUid) && BallotsKeyed(swept.live, swept.nextUid, ballots)
    requires CountsKept(swept.live, ballots, minVotes) && CamerasNamed(swept.live, ballots)
    ensures LedgerKept(Settled(swept.live, minVotes, now), swept.nextUid, ballots, minVotes)
  {
    SameCountsKeepLedger(swept.live, Settled(swept.live, minVotes, now), swept.nextUid, ballots, minVotes);
  }

  /** Dropping tracks and flipping `committed` flags leaves the ledger right. */
  lemma SameCountsKeepLedger(live: Tracks, live': Tracks, nextUid: nat, ballots: seq<Ballot>, minVotes: nat)
    requires LedgerKept(live, nextUid, ballots, minVotes)
    requires forall k :: k in live' ==> k in live && live'[k] == live[k].(committed := live'[k].committed)
    ensures LedgerKept(live', nextUid, ballots, minVotes)
  {
    assert forall k :: k in live' ==> live'[k].uid == live[k].uid && live'[k].votes == live[k].votes && live'[k].camera == live[k].camera;
    KeyedGrows(live, nextUid, live', nextUid, ballots);
  }

  /** Before the new jobs, a swept track is open exactly if it is committed; fresh uids are not open at all. */
  ghost predicate OpenBefore(open: multiset<nat>, swept: Sweep) {
    && (forall u :: open[u] <= 1)
    && (forall u: nat :: swept.nextUid <= u ==> open[u] == 0)
    && (forall k :: k in swept.live ==> open[swept.live[k].uid] == if swept.live[k].committed then 1 else 0)
  }

  lemma SweepOpens(s: System, swept: Sweep)
    requires OneJobEach(s) && Extends(s.live, s.nextUid, swept)
    ensures OpenBefore(Open(s), swept)
  {
    forall k | k in swept.live
      ensures Open(s)[swept.live[k].uid] == if swept.live[k].committed then 1 else 0
    {
      if k in s.live { assert SameInstance(s.live, swept.live, k); }
    }
  }

  lemma BatchBounds(open: multiset<nat>, swept: Sweep, jobs: seq<CommitJob>, minVotes: nat, now: Instant, u: nat)
    requires OpenBefore(open, swept) && UidsUnique(swept.live, swept.nextUid) && JobsOf(jobs, swept.live, minVotes, now)
    ensures (open + multiset(JobUids(jobs)))[u] <= 1
    ensures swept.nextUid <= u ==> (open + multiset(JobUids(jobs)))[u] == 0
  {
    JobCounts(jobs, swept.live, swept.nextUid, u);
    if k :| k in swept.live && swept.live[k].uid == u && HasJob(jobs, k) {
      DueIsUncommitted(jobs, swept.live, minVotes, now, k);
    }
  }

  lemma BatchCounts(open: multiset<nat>, swept: Sweep, jobs: seq<CommitJob>, minVotes: nat, now: Instant, k: string)
    requires OpenBefore(open, swept) && UidsUnique(swept.live, swept.nextUid) && JobsOf(jobs, swept.live, minVotes, now)
    requires k in swept.live && !Stale(swept.live[k], now)
    ensures (open + multiset(JobUids(jobs)))[swept.live[k].uid] == if Marked(swept.live[k], minVotes).committed then 1 else 0
  {
    JobCounts(jobs, swept.live, swept.nextUid, swept.live[k].uid);
    if HasJob(jobs, k) { DueIsUncommitted(jobs, swept.live, minVotes, now, k); }
  }

  lemma BatchOpens(s: System, s': System, jobs: seq<CommitJob>)
    requires s'.pending == s.pending + jobs && s'.recorded == s.recorded
    ensures Open(s') == Open(s) + multiset(JobUids(jobs))
  {
    assert JobUids(s'.pending) == JobUids(s.pending) + JobUids(jobs);
  }

  lemma BatchKeepsOneJob(s: System, swept: Sweep, jobs: seq<CommitJob>, minVotes: nat, now: Instant, s': System)
    requires OpenBefore(Open(s), swept) && UidsUnique(swept.live, swept.nextUid)
    requires JobsOf(jobs, swept.live, minVotes, now)
    requires s'.live == Settled(swept.live, minVotes, now) && s'.nextUid == swept.nextUid
    requires Open(s') == Open(s) + multiset(JobUids(jobs))
    ensures OneJobEach(s')
  {
    forall u: nat ensures Open(s')[u] <= 1 && (swept.nextUid <= u ==> Open(s')[u] == 0) {
      BatchBounds(Open(s), swept, jobs, minVotes, now, u);
    }
    forall k | k in s'.live ensures Open(s')[s'.live[k].uid] == if s'.live[k].committed then 1 else 0 {
      BatchCounts(Open(s), swept, jobs, minVotes, now, k);
    }
  }

  lemma DueIsUncommitted(jobs: seq<CommitJob>, live: Tracks, minVotes: nat, now: Instant, k: string)
    requires JobsOf(jobs, live, minVotes, now) && HasJob(jobs, k)
    ensures k in live && !live[k].committed && Due(live[k], minVotes, now)
  {
    var i :| 0 <= i < |jobs| && jobs[i].key == k;
  }

  lemma SoundGrows(a: Attempt, ballots: seq<Ballot>, more: seq<Ballot>, minVotes: nat)
    requires AttemptSound(a, ballots, minVotes)
    requires forall i :: 0 <= i < |ballots + more| && (ballots + more)[i].uid == a.job.uid ==> (ballots + more)[i].key == a.job.key
    ensures AttemptSound(a, ballots + more, minVotes)
  {
    assert (ballots + more)[..a.upto] == ballots[..a.upto];
  }

  lemma NewAttemptSound(job: CommitJob, live: Tracks, nextUid: nat, ballots: seq<Ballot>, minVotes: nat)
    requires job.key in live && IsJobOf(job, job.key, live[job.key], Ready(live[job.key], minVotes)) && !live[job.key].committed
    requires BallotsKeyed(live, nextUid, ballots) && CountsKept(live, ballots, minVotes) && CamerasNamed(live, ballots)
    ensures AttemptSound(Attempt(job, live[job.key], |ballots|), ballots, minVotes)
  {
    var t := live[job.key];
    assert ballots[..|ballots|] == ballots;
    assert CountsAgree(t.votes, t.uid, ballots, minVotes);
    assert LeadCount(t.votes) == job.votes;
  }

  lemma TallyHasBallot(ballots: seq<Ballot>, uid: nat, plate: string, minVotes: nat)
    requires 0 < Tally(ballots, uid, plate, minVotes)
    ensures HasBallot(ballots, uid)
  {
    if !HasBallot(ballots, uid) {
      NoBallotNoTally(ballots, uid, plate, minVotes);
    }
  }

  /** Earlier attempts stay sound: the new ballots for their uid carry their key. */
  lemma OldAttemptsSound(attempts: seq<Attempt>, ballots: seq<Ballot>, cast: seq<Ballot>, minVotes: nat)
    requires forall i :: 0 <= i < |attempts| ==> AttemptSound(attempts[i], ballots, minVotes)
    requires forall i :: 0 <= i < |attempts| ==> HasBallot(ballots, attempts[i].job.uid)
    requires OneKeyPerUid(ballots + cast)
    ensures forall i :: 0 <= i < |attempts| ==> AttemptSound(attempts[i], ballots + cast, minVotes)
  {
    var all := ballots + cast;
    forall i | 0 <= i < |attempts| ensures AttemptSound(attempts[i], all, minVotes) {
      var a := attempts[i];
      var w :| 0 <= w < |ballots| && ballots[w].uid == a.job.uid;
      assert all[w] == ballots[w];
      assert ballots[w].key == a.job.key;
      forall x | 0 <= x < |all| && all[x].uid == a.job.uid ensures all[x].key == a.job.key {
        if w < x { assert all[w].key == all[x].key; } else if x < w { assert all[x].key == all[w].key; }
      }
      SoundGrows(a, ballots, cast, minVotes);
    }
  }

  lemma NewAttemptsSound(jobs: seq<CommitJob>, swept: Sweep, ballots: seq<Ballot>, minVotes: nat, now: Instant)
    requires JobsOf(jobs, swept.live, minVotes, now)
    requires BallotsKeyed(swept.live, swept.nextUid, ballots)
    requires CountsKept(swept.live, ballots, minVotes) && CamerasNamed(swept.live, ballots)
    ensures forall i :: 0 <= i < |jobs| ==> AttemptSound(AttemptsOf(jobs, swept.live, |ballots|)[i], ballots, minVotes)
  {
    forall i | 0 <= i < |jobs| ensures AttemptSound(AttemptsOf(jobs, swept.live, |ballots|)[i], ballots, minVotes) {
      NewAttemptSound(jobs[i], swept.live, swept.nextUid, ballots, minVotes);
    }
  }

  lemma BatchKeepsAttempts(s: System, nextUid: nat, cast: seq<Ballot>, jobs: seq<CommitJob>, more: seq<Attempt>, minVotes: nat, s': System)
    requires AttemptsInv(s, minVotes) && s.nextUid <= nextUid
    requires forall i :: 0 <= i < |s.attempts| ==> AttemptSound(s.attempts[i], s.ballots + cast, minVotes)
    requires |more| == |jobs|
    requires forall i :: 0 <= i < |jobs| ==>
      more[i].job == jobs[i] && jobs[i].uid < nextUid && AttemptSound(more[i], s.ballots + cast, minVotes)
    requires s'.nextUid == nextUid && s'.ballots == s.ballots + cast && s'.attempts == s.attempts + more
    requires s'.pending == s.pending + jobs && s'.recorded == s.recorded
    ensures AttemptsInv(s', minVotes)
  {
    JobsStayAttempted(s.attempts, more);
    forall i | 0 <= i < |jobs| ensures JobAttempted(s'.attempts, jobs[i]) {
      assert s'.attempts[|s.attempts| + i].job == jobs[i];
    }
  }

  lemma JobsStayAttempted(attempts: seq<Attempt>, more: seq<Attempt>)
    ensures forall job :: JobAttempted(attempts, job) ==> JobAttempted(attempts + more, job)
    ensures forall u :: Attempted(attempts, u) ==> Attempted(attempts + more, u)
  {
    forall job | JobAttempted(attempts, job) ensures JobAttempted(attempts + more, job) {
      var i :| 0 <= i < |attempts| && attempts[i].job == job;
      assert (attempts + more)[i].job == job;
    }
    forall u | Attempted(attempts, u) ensures Attempted(attempts + more, u) {
      var i :| 0 <= i < |attempts| && attempts[i].job.uid == u;
      assert (attempts + more)[i].job.uid == u;
    }
  }

  ghost predicate OpenAttempted(s: System) {
    forall u :: 0 < Open(s)[u] ==> Attempted(s.attempts, u)
  }

  /** A voted track of the swept map survives, or is committed already, or is given its job now. */
  lemma LeavesAttempted(open: multiset<nat>, swept: Sweep, jobs: seq<CommitJob>, ballots: seq<Ballot>, minVotes: nat, now: Instant, k: string, i: nat)
    requires OpenBefore(open, swept) && CountsKept(swept.live, ballots, minVotes)
    requires JobsOf(jobs, swept.live, minVotes, now)
    requires k in swept.live && i < |ballots| && ballots[i].uid == swept.live[k].uid
    ensures !Stale(swept.live[k], now) || 0 < open[swept.live[k].uid] || HasJob(jobs, k)
  {
    var t := swept.live[k];
    assert CountsAgree(t.votes, t.uid, ballots, minVotes);
    TallyOfBallot(ballots, i, minVotes);
    assert ballots[i].plate in t.votes;
    assert Stale(t, now) && !t.committed ==> Due(t, minVotes, now);
  }

  lemma JobIsAttempted(s: System, swept: Sweep, jobs: seq<CommitJob>, upto: nat, minVotes: nat, now: Instant, k: string)
    requires JobsOf(jobs, swept.live, minVotes, now) && HasJob(jobs, k)
    ensures k in swept.live && Attempted(s.attempts + AttemptsOf(jobs, swept.live, upto), swept.live[k].uid)
  {
    var j :| 0 <= j < |jobs| && jobs[j].key == k;
    assert (s.attempts + AttemptsOf(jobs, swept.live, upto))[|s.attempts| + j].job == jobs[j];
  }

  lemma BatchLosesNone(s: System, swept: Sweep, jobs: seq<CommitJob>, frame: Frame, minVotes: nat, s': System)
    requires NoneLost(s) && OpenAttempted(s) && OpenBefore(Open(s), swept)
    requires Extends(s.live, s.nextUid, swept) && CastIsLive(swept, frame.batch)
    requires CountsKept(swept.live, s.ballots + swept.cast, minVotes)
    requires JobsOf(jobs, swept.live, minVotes, frame.now)
    requires s'.live == Settled(swept.live, minVotes, frame.now) && s'.ballots == s.ballots + swept.cast
    requires s'.attempts == s.attempts + AttemptsOf(jobs, swept.live, |s'.ballots|)
    ensures NoneLost(s')
  {
    JobsStayAttempted(s.attempts, AttemptsOf(jobs, swept.live, |s'.ballots|));
    forall i | 0 <= i < |s'.ballots|
      ensures LiveUid(s'.live, s'.ballots[i].uid) || Attempted(s'.attempts, s'.ballots[i].uid)
    {
      var uid := s'.ballots[i].uid;
      if !Attempted(s.attempts, uid) {
        var k := KeyOfBallot(s, swept, frame.batch, i);
        LeavesAttempted(Open(s), swept, jobs, s'.ballots, minVotes, frame.now, k, i);
        if HasJob(jobs, k) {
          JobIsAttempted(s, swept, jobs, |s'.ballots|, minVotes, frame.now, k);
        } else {
          assert k in s'.live && s'.live[k].uid == uid;
        }
      }
    }
  }

  lemma KeyOfBallot(s: System, swept: Sweep, batch: nat, i: nat) returns (k: string)
    requires NoneLost(s) && Extends(s.live, s.nextUid, swept) && CastIsLive(swept, batch)
    requires i < |s.ballots + swept.cast| && !Attempted(s.attempts, (s.ballots + swept.cast)[i].uid)
    ensures k in swept.live && swept.live[k].uid == (s.ballots + swept.cast)[i].uid
  {
    if i < |s.ballots| {
      assert LiveUid(s.live, s.ballots[i].uid);
      k :| k in s.live && s.live[k].uid == s.ballots[i].uid;
      assert SameInstance(s.live, swept.live, k);
    } else {
      k := swept.cast[i - |s.ballots|].key;
    }
  }

  lemma OpenIsAttempted(s: System)
    requires forall j :: 0 <= j < |s.pending| ==> JobAttempted(s.attempts, s.pending[j])
    requires forall j :: 0 <= j < |s.recorded| ==> JobAttempted(s.attempts, s.recorded[j].job)
    ensures OpenAttempted(s)
  {
    forall u | 0 < Open(s)[u] ensures Attempted(s.attempts, u) {
      if u in JobUids(s.pending) {
        var j :| 0 <= j < |s.pending| && JobUids(s.pending)[j] == u;
        assert JobAttempted(s.attempts, s.pending[j]);
      } else {
        assert u in EventUids(s.recorded);
        var j :| 0 <= j < |s.recorded| && EventUids(s.recorded)[j] == u;
        assert JobAttempted(s.attempts, s.recorded[j].job);
      }
    }
  }

  lemma {:induction false} TallyOfBallot(ballots: seq<Ballot>, i: nat, minVotes: nat)
    requires i < |ballots|
    ensures 0 < Tally(ballots, ballots[i].uid, ballots[i].plate, minVotes)
  {
    var n := |ballots| - 1;
    if i < n {
      TallyOfBallot(ballots[..n], i, minVotes);
    }
  }

  lemma AttemptHasBallot(a: Attempt, ballots: seq<Ballot>, minVotes: nat)
    requires AttemptSound(a, ballots, minVotes)
    ensures HasBallot(ballots, a.job.uid)
    ensures a.job.votes == Tally(ballots[..a.upto], a.job.uid, a.job.plateNorm, minVotes)
  {
    var cast := ballots[..a.upto];
    assert a.job.plateNorm in a.track.votes;
    TallyHasBallot(cast, a.job.uid, a.job.plateNorm, minVotes);
    var i :| 0 <= i < |cast| && cast[i].uid == a.job.uid;
    assert ballots[i] == cast[i];
  }

  lemma AttemptsHaveBallots(s: System, minVotes: nat)
    requires AttemptsInv(s, minVotes)
    ensures forall i :: 0 <= i < |s.attempts| ==> HasBallot(s.ballots, s.attempts[i].job.uid)
  {
    forall i | 0 <= i < |s.attempts| ensures HasBallot(s.ballots, s.attempts[i].job.uid) {
      AttemptHasBallot(s.attempts[i], s.ballots, minVotes);
    }
  }

  lemma BatchStep(minVotes: nat, s: System, frame: Frame, jobs: seq<CommitJob>, s': System)
    requires Inv(s, minVotes) && BatchNext(minVotes, s, frame, jobs, s')
    ensures Inv(s', minVotes)
  {
    var swept := Voted(s.live, s.nextUid, frame, minVotes);
    SweepOf(s, frame, minVotes);
    AttemptsHaveBallots(s, minVotes);
    OpenIsAttempted(s);
    SweepOpens(s, swept);
    SettleStep(minVotes, s, swept, frame, jobs, s');
  }

  /** The second half of a batch, for any swept state the vote loop may have left. */
  lemma SettleStep(minVotes: nat, s: System, swept: Sweep, frame: Frame, jobs: seq<CommitJob>, s': System)
    requires OneJobEach(s) && AttemptsInv(s, minVotes) && NoneLost(s) && GateInv(s)
    requires SweepInv(swept, s.ballots, frame.batch, minVotes) && Extends(s.live, s.nextUid, swept)
    requires CamerasNamed(swept.live, s.ballots + swept.cast)
    requires OpenAttempted(s) && OpenBefore(Open(s), swept)
    requires forall i :: 0 <= i < |s.attempts| ==> HasBallot(s.ballots, s.attempts[i].job.uid)
    requires JobsOf(jobs, swept.live, minVotes, frame.now) && frame.batch == s.batches
    requires s' == s.(live := Settled(swept.live, minVotes, frame.now), nextUid := swept.nextUid, batches := s.batches + 1,
                      ballots := s.ballots + swept.cast,
                      attempts := s.attempts + AttemptsOf(jobs, swept.live, |s.ballots + swept.cast|),
                      pending := s.pending + jobs)
    ensures Inv(s', minVotes)
  {
    SettledKeepsLedger(swept, s.ballots + swept.cast, minVotes, frame.now);
    CastBatches(s, swept, frame.batch);
    BatchOpens(s, s', jobs);
    BatchKeepsOneJob(s, swept, jobs, minVotes, frame.now, s');
    OldAttemptsSound(s.attempts, s.ballots, swept.cast, minVotes);
    NewAttemptsSound(jobs, swept, s.ballots + swept.cast, minVotes, frame.now);
    BatchKeepsAttempts(s, swept.nextUid, swept.cast, jobs, AttemptsOf(jobs, swept.live, |s.ballots + swept.cast|), minVotes, s');
    BatchLosesNone(s, swept, jobs, frame, minVotes, s');
    GateUntouched(s, s');
  }

  lemma GateUntouched(s: System, s': System)
    requires GateInv(s) && s'.recorded == s.recorded && s'.opens == s.opens && s'.pulses == s.pulses
    ensures GateInv(s')
  {
  }

  lemma CastBatches(s: System, swept: Sweep, batch: nat)
    requires forall i :: 0 <= i < |s.ballots| ==> s.ballots[i].batch < batch
    requires CastIsLive(swept, batch)
    ensures forall i :: 0 <= i < |s.ballots + swept.cast| ==> (s.ballots + swept.cast)[i].batch < batch + 1
  {
  }

  // ---------------------------------------------------------------- the insert and gate steps

  lemma InsertedKeepsOpen(s: System, s': System, i: nat, e: Event)
    requires i < |s.pending| && s'.pending == Without(s.pending, i)
    requires s'.recorded == s.recorded + [e] && e.job == s.pending[i]
    ensures Open(s') == Open(s)
  {
    var uid := s.pending[i].uid;
    assert JobUids(s'.pending) == Without(JobUids(s.pending), i);
    assert EventUids(s'.recorded) == EventUids(s.recorded) + [uid];
    WithoutMultiset(JobUids(s.pending), i);
    assert JobUids(s.pending)[i] == uid && uid in JobUids(s.pending);
  }

  lemma InsertedKeepsAttempts(s: System, s': System, i: nat, e: Event, minVotes: nat)
    requires AttemptsInv(s, minVotes)
    requires i < |s.pending| && s'.pending == Without(s.pending, i)
    requires s'.recorded == s.recorded + [e] && e == Recorded(s.pending[i], e.seen, e.faults, e.at)
    requires s'.attempts == s.attempts && s'.ballots == s.ballots && s'.nextUid == s.nextUid
    ensures AttemptsInv(s', minVotes)
  {
    assert JobAttempted(s.attempts, s.pending[i]);
    forall r | 0 <= r < |s'.recorded|
      ensures JobAttempted(s'.attempts, s'.recorded[r].job)
           && s'.recorded[r] == Recorded(s'.recorded[r].job, s'.recorded[r].seen, s'.recorded[r].faults, s'.recorded[r].at)
    {
      if r < |s.recorded| { assert s'.recorded[r] == s.recorded[r]; }
    }
  }

  lemma NewOpen(s: System, s': System, job: CommitJob)
    requires GateInv(s) && s'.pulses == s.pulses && |s'.recorded| == |s.recorded| + 1 && s.recorded <= s'.recorded
    requires s'.recorded[|s.recorded|].job == job
    requires s'.opens == if job.actuate then s.opens + [|s.recorded|] else s.opens
    ensures GateInv(s')
  {
    var r := |s.recorded|;
    assert r !in s.opens;
    assert forall i :: 0 <= i < |s.pulses| ==> PulsedRecords(s.pulses)[i] < r;
    assert r !in PulsedRecords(s.pulses);
    assert forall i :: 0 <= i < |s.pulses| ==> s'.recorded[s.pulses[i].record] == s.recorded[s.pulses[i].record];
  }

  lemma InsertedStep(minVotes: nat, s: System, i: nat, e: Event, s': System)
    requires Inv(s, minVotes) && InsertedNext(s, i, e, s')
    ensures Inv(s', minVotes)
  {
    InsertedKeepsOpen(s, s', i, e);
    InsertedKeepsAttempts(s, s', i, e, minVotes);
    NewOpen(s, s', e.job);
  }

  lemma FailedOpen(s: System, pending': seq<CommitJob>, i: nat)
    requires i < |s.pending| && pending' == Without(s.pending, i)
    ensures Open(s.(pending := pending')) == Open(s) - multiset{s.pending[i].uid} && 0 < Open(s)[s.pending[i].uid]
  {
    var uid := s.pending[i].uid;
    assert JobUids(pending') == Without(JobUids(s.pending), i);
    WithoutMultiset(JobUids(s.pending), i);
    assert JobUids(s.pending)[i] == uid && uid in JobUids(s.pending);
  }

  /** A pending job whose instance is still live finds it under its own key. */
  lemma FailedJobHasItsKey(s: System, i: nat, minVotes: nat)
    requires AttemptsInv(s, minVotes) && BallotsKeyed(s.live, s.nextUid, s.ballots) && i < |s.pending|
    ensures forall k :: k in s.live && s.live[k].uid == s.pending[i].uid ==> k == s.pending[i].key
  {
    var job := s.pending[i];
    assert JobAttempted(s.attempts, job);
    var j :| 0 <= j < |s.attempts| && s.attempts[j].job == job;
    AttemptsHaveBallots(s, minVotes);
    var w :| 0 <= w < |s.ballots| && s.ballots[w].uid == job.uid;
    assert AttemptSound(s.attempts[j], s.ballots, minVotes);
  }

  lemma FailedKeepsOneJob(s: System, s': System, i: nat)
    requires OneJobEach(s) && i < |s.pending| && UidsUnique(s.live, s.nextUid)
    requires forall k :: k in s.live && s.live[k].uid == s.pending[i].uid ==> k == s.pending[i].key
    requires s' == s.(pending := Without(s.pending, i), live := Reopened(s.live, s.pending[i].key, s.pending[i].uid))
    ensures OneJobEach(s')
  {
    FailedOpen(s, s'.pending, i);
    assert Open(s') == Open(s.(pending := s'.pending));
    var uid := s.pending[i].uid;
    forall k | k in s'.live ensures Open(s')[s'.live[k].uid] == if s'.live[k].committed then 1 else 0 {
      assert s'.live[k].uid == s.live[k].uid;
      assert Open(s)[s.live[k].uid] == if s.live[k].committed then 1 else 0;
    }
  }

  lemma ReopenLosesNone(s: System, s': System, key: string, uid: nat)
    requires NoneLost(s) && s'.ballots == s.ballots && s'.attempts == s.attempts && s'.live == Reopened(s.live, key, uid)
    ensures NoneLost(s')
  {
    forall u | LiveUid(s.live, u) ensures LiveUid(s'.live, u) {
      var k :| k in s.live && s.live[k].uid == u;
      assert s'.live[k].uid == u;
    }
  }

  lemma FailedKeepsAttempts(s: System, s': System, i: nat, minVotes: nat)
    requires AttemptsInv(s, minVotes) && i < |s.pending|
    requires s'.pending == Without(s.pending, i) && s'.recorded == s.recorded
    requires s'.attempts == s.attempts && s'.ballots == s.ballots && s'.nextUid == s.nextUid
    ensures AttemptsInv(s', minVotes)
  {
    assert forall x :: 0 <= x < |s'.pending| ==> s'.pending[x] == s.pending[if x < i then x else x + 1];
  }

  lemma ReopenKeepsLedger(live: Tracks, nextUid: nat, ballots: seq<Ballot>, key: string, uid: nat, minVotes: nat)
    requires LedgerKept(live, nextUid, ballots, minVotes)
    ensures LedgerKept(Reopened(live, key, uid), nextUid, ballots, minVotes)
  {
    SameCountsKeepLedger(live, Reopened(live, key, uid), nextUid, ballots, minVotes);
  }

  lemma InsertFailedStep(minVotes: nat, s: System, i: nat, s': System)
    requires Inv(s, minVotes) && FailedNext(s, i, s')
    ensures Inv(s', minVotes)
  {
    FailedJobHasItsKey(s, i, minVotes);
    FailedKeepsOneJob(s, s', i);
    ReopenKeepsLedger(s.live, s.nextUid, s.ballots, s.pending[i].key, s.pending[i].uid, minVotes);
    ReopenLosesNone(s, s', s.pending[i].key, s.pending[i].uid);
    FailedKeepsAttempts(s, s', i, minVotes);
    GateUntouched(s, s');
  }

  lemma TaskKeepsGate(s: System, s': System, i: nat, policy: Lookup<Policy>, kill: Lookup<bool>)
    requires GateInv(s) && i < |s.opens| && s'.recorded == s.recorded && s'.opens == Without(s.opens, i)
    requires s.opens[i] < |s.recorded|
    requires s'.pulses == s.pulses
          || (AutoOpens(s.recorded[s.opens[i]].resolution.authStatus, policy, kill)
              && s'.pulses == s.pulses + [BarrierPulse(s.recorded[s.opens[i]].job.camera, s.opens[i], policy, kill)])
    ensures GateInv(s')
  {
    var r := s.opens[i];
    assert forall x :: 0 <= x < |s'.opens| ==> s'.opens[x] == s.opens[if x < i then x else x + 1] != r;
    if s'.pulses != s.pulses {
      assert PulsedRecords(s'.pulses) == PulsedRecords(s.pulses) + [r];
      assert forall x :: 0 <= x < |s.pulses| ==> PulsedRecords(s.pulses)[x] != r;
    }
  }

  lemma GateStep(minVotes: nat, s: System, i: nat, policy: Lookup<Policy>, kill: Lookup<bool>, s': System)
    requires Inv(s, minVotes) && GateNext(s, i, policy, kill, s')
    ensures Inv(s', minVotes)
  {
    TaskKeepsGate(s, s', i, policy, kill);
    assert Open(s') == Open(s);
  }

  lemma {:induction false} RunKeepsInv(minVotes: nat, states: seq<System>, actions: seq<Action>)
    requires IsRun(minVotes, states, actions)
    ensures Inv(states[|actions|], minVotes)
  {
    if actions == [] {
      assert Open(INITIAL) == multiset{};
    } else {
      var n := |actions| - 1;
      RunKeepsInv(minVotes, states[..n + 1], actions[..n]);
      var s, a, s' := states[n], actions[n], states[n + 1];
      match a {
        case Batch(frame, jobs) => BatchStep(minVotes, s, frame, jobs, s');
        case Inserted(i, seen, faults, at) => InsertedStep(minVotes, s, i, Recorded(s.pending[i], seen, faults, at), s');
        case InsertFailed(i) => InsertFailedStep(minVotes, s, i, s');
        case GateTask(i, policy, kill) => GateStep(minVotes, s, i, policy, kill, s');
      }
    }
  }

  // ---------------------------------------------------------------- the theorems

  /** In any interleaving a track instance gets at most one recorded entry event. */
  lemma AtMostOneEvent(minVotes: nat, states: seq<System>, actions: seq<Action>, i: nat, j: nat)
    requires IsRun(minVotes, states, actions)
    requires i < j < |states[|actions|].recorded|
    ensures states[|actions|].recorded[i].job.uid != states[|actions|].recorded[j].job.uid
  {
    var s := states[|actions|];
    RunKeepsInv(minVotes, states, actions);
    RecordedDistinct(s);
    assert EventUids(s.recorded)[i] != EventUids(s.recorded)[j];
  }

  /** Failing job `i` touches no other instance, and leaves its own re-opened with no job left. */
  ghost predicate FailureIsLocal(s: System, i: nat)
    requires i < |s.pending|
  {
    var job := s.pending[i];
    var live' := Reopened(s.live, job.key, job.uid);
    && live'.Keys == s.live.Keys
    && (forall k :: k in s.live && s.live[k].uid != job.uid ==> live'[k] == s.live[k])
    && (forall k :: k in s.live && s.live[k].uid == job.uid ==> s.live[k].committed && !live'[k].committed)
    && Open(s.(pending := Without(s.pending, i)))[job.uid] == 0
  }

  lemma FailureLocality(s: System, i: nat)
    requires OneJobEach(s) && i < |s.pending|
    requires forall k :: k in s.live && s.live[k].uid == s.pending[i].uid ==> k == s.pending[i].key
    ensures FailureIsLocal(s, i)
  {
    FailedOpen(s, Without(s.pending, i), i);
    assert Open(s)[s.pending[i].uid] == 1;
  }

  /** A stale failure never re-opens the successor that reused its key. */
  lemma FailureReopensItsOwn(minVotes: nat, states: seq<System>, actions: seq<Action>, i: nat)
    requires IsRun(minVotes, states, actions) && i < |states[|actions|].pending|
    ensures FailureIsLocal(states[|actions|], i)
  {
    RunKeepsInv(minVotes, states, actions);
    FailedJobHasItsKey(states[|actions|], i, minVotes);
    FailureLocality(states[|actions|], i);
  }

  /** A voted vehicle that left the live map had a commit attempted, and no attempt is without a vote. */
  lemma NoVehicleLost(minVotes: nat, states: seq<System>, actions: seq<Action>, uid: nat)
    requires IsRun(minVotes, states, actions)
    ensures var s := states[|actions|];
      && (HasBallot(s.ballots, uid) && !LiveUid(s.live, uid) ==> Attempted(s.attempts, uid))
      && (Attempted(s.attempts, uid) ==> HasBallot(s.ballots, uid))
  {
    RunKeepsInv(minVotes, states, actions);
    var s := states[|actions|];
    AttemptsHaveBallots(s, minVotes);
    if Attempted(s.attempts, uid) {
      var i :| 0 <= i < |s.attempts| && s.attempts[i].job.uid == uid;
    }
  }

  /**
   The evidence an attempt had when it was built: every plate's count is the tally of the ballots cast by
   then, its own plate is a winner, and got there by a native read or `minVotes` separate frames.
   */
  ghost predicate VotedThrough(a: Attempt, ballots: seq<Ballot>, minVotes: nat) {
    && a.upto <= |ballots| && a.track.uid == a.job.uid
    && var cast := ballots[..a.upto];
    && CountsAgree(a.track.votes, a.job.uid, cast, minVotes) && IsWinner(a.track.votes, a.job.plateNorm)
    && minVotes <= a.job.votes == Tally(cast, a.job.uid, a.job.plateNorm, minVotes)
    && (HasNative(cast, a.job.uid, a.job.plateNorm) || a.job.votes == |Voters(cast, a.job.uid, a.job.plateNorm)|)
  }

  lemma ActuatingIsVotedThrough(s: System, a: Attempt, minVotes: nat)
    requires AttemptSound(a, s.ballots, minVotes) && a.job.actuate && OneVotePerFrame(s.ballots)
    ensures VotedThrough(a, s.ballots, minVotes)
  {
    AttemptHasBallot(a, s.ballots, minVotes);
    TallyMeansFrames(s.ballots[..a.upto], a.job.uid, a.job.plateNorm, minVotes);
  }

  lemma PulsedAttempt(s: System, p: nat, minVotes: nat) returns (a: Attempt)
    requires Inv(s, minVotes) && p < |s.pulses|
    ensures s.pulses[p].record < |s.recorded|
    ensures var e := s.recorded[s.pulses[p].record];
      && a in s.attempts && a.job == e.job && e.job.actuate && s.pulses[p].camera == e.job.camera
      && e == Recorded(e.job, e.seen, e.faults, e.at)
      && AutoOpens(e.resolution.authStatus, s.pulses[p].policy, s.pulses[p].kill)
      && VotedThrough(a, s.ballots, minVotes)
  {
    var e := s.recorded[s.pulses[p].record];
    assert JobAttempted(s.attempts, e.job);
    var i :| 0 <= i < |s.attempts| && s.attempts[i].job == e.job;
    a := s.attempts[i];
    ActuatingIsVotedThrough(s, a, minVotes);
  }

  /**
   From votes to barrier: every automatic pulse of any run goes to the camera of a recorded event whose plate
   had won its track, when the job was built, with a native read or `minVotes` separate frames, and which matched
   the registry with a readable, unblocked, entitled plate, under an enabled policy and a kill-switch not read as on.
   */
  lemma PulseIsEarned(minVotes: nat, states: seq<System>, actions: seq<Action>, p: nat)
    returns (a: Attempt)
    requires IsRun(minVotes, states, actions) && p < |states[|actions|].pulses|
    ensures var s := states[|actions|];
      var pulse := s.pulses[p];
      && pulse.record < |s.recorded|
      && var e := s.recorded[pulse.record];
      && a in s.attempts && a.job == e.job && e.job.actuate && pulse.camera == e.job.camera
      && VotedThrough(a, s.ballots, minVotes)
      && Readable(e.job.plateNorm)
      && !HasWatch(e.seen.block, e.job.plateNorm, Block) && Entitled(e.job, e.seen, e.at)
      && pulse.policy.Found? && pulse.policy.row.enabled && pulse.kill != Found(true)
    // with minted camera ids, the camera whose barrier opens is the one that cast the votes
    ensures var s := states[|actions|];
      MintedFrames(actions) ==> forall i :: 0 <= i < |s.ballots| && s.ballots[i].uid == a.job.uid
                                  ==> s.ballots[i].camera == s.pulses[p].camera
  {
    var s := states[|actions|];
    RunKeepsInv(minVotes, states, actions);
    a := PulsedAttempt(s, p, minVotes);
    hide Inv, VotedThrough, IsRun;
    var e := s.recorded[s.pulses[p].record];
    MatchIsEarned(e.job, e.seen, e.faults, e.at);
    if MintedFrames(actions) {
      VotesFromOwnCamera(minVotes, states, actions, a);
    }
  }

  /** One event opens the barrier at most once, and a track instance therefore at most once. */
  lemma OnePulsePerVehicle(minVotes: nat, states: seq<System>, actions: seq<Action>, p: nat, q: nat)
    requires IsRun(minVotes, states, actions) && p < q < |states[|actions|].pulses|
    ensures var s := states[|actions|];
      && s.pulses[p].record < |s.recorded| && s.pulses[q].record < |s.recorded|
      && s.recorded[s.pulses[p].record].job.uid != s.recorded[s.pulses[q].record].job.uid
  {
    var s := states[|actions|];
    RunKeepsInv(minVotes, states, actions);
    var rs := PulsedRecords(s.pulses);
    assert rs[p] != rs[q];
    if rs[p] < rs[q] {
      AtMostOneEvent(minVotes, states, actions, rs[p], rs[q]);
    } else {
      AtMostOneEvent(minVotes, states, actions, rs[q], rs[p]);
    }
  }

  /** An event below the threshold is marked for review and never reaches a barrier task. */
  lemma BelowThresholdIsReviewed(minVotes: nat, states: seq<System>, actions: seq<Action>, r: nat)
    requires IsRun(minVotes, states, actions) && r < |states[|actions|].recorded|
    ensures var s := states[|actions|];
      var e := s.recorded[r];
      && (e.job.votes < minVotes <==> !e.job.actuate)
      && (!e.job.actuate ==> e.workflow == "review" && r !in s.opens && r !in PulsedRecords(s.pulses))
  {
    var s := states[|actions|];
    RunKeepsInv(minVotes, states, actions);
    var e := s.recorded[r];
    assert JobAttempted(s.attempts, e.job);
    var i :| 0 <= i < |s.attempts| && s.attempts[i].job == e.job;
    assert AttemptSound(s.attempts[i], s.ballots, minVotes);
  }

  // ---------------------------------------------------------------- one camera, one track

  /** Every batch comes from a camera the kernel knows, and so has minted the id of. */
  ghost predicate MintedFrames(actions: seq<Action>) {
    forall i :: 0 <= i < |actions| && actions[i].Batch? ==> IsCameraId(actions[i].frame.camera)
  }

  ghost predicate MintedSystem(s: System) {
    && MintedCameras(s.live, s.ballots)
    && forall i :: 0 <= i < |s.attempts| ==> IsCameraId(s.attempts[i].job.camera)
  }

  lemma BatchKeepsMinted(minVotes: nat, s: System, frame: Frame, jobs: seq<CommitJob>, s': System)
    requires MintedSystem(s) && IsCameraId(frame.camera) && BatchNext(minVotes, s, frame, jobs, s')
    ensures MintedSystem(s')
  {
    hide IsCameraId, Voted;
    var start := Sweep(s.live, s.nextUid, {}, []);
    AbsorbAllMinted(start, frame, frame.detections, minVotes);
    var swept := Voted(s.live, s.nextUid, frame, minVotes);
    assert swept == AbsorbAll(start, frame, frame.detections, minVotes) by { SweptIsAbsorbed(s, frame, minVotes); }
    SettledIsMinted(swept, frame, minVotes);
    JobsAreMinted(swept, jobs, minVotes, frame.now, |s.ballots + swept.cast|);
  }

  lemma SweptIsAbsorbed(s: System, frame: Frame, minVotes: nat)
    ensures Voted(s.live, s.nextUid, frame, minVotes)
         == AbsorbAll(Sweep(s.live, s.nextUid, {}, []), frame, frame.detections, minVotes)
  {
  }

  lemma SettledIsMinted(swept: Sweep, frame: Frame, minVotes: nat)
    requires MintedCameras(swept.live, swept.cast)
    ensures MintedCameras(Settled(swept.live, minVotes, frame.now), swept.cast)
  {
    hide IsCameraId;
  }

  lemma JobsAreMinted(swept: Sweep, jobs: seq<CommitJob>, minVotes: nat, now: Instant, upto: nat)
    requires JobsOf(jobs, swept.live, minVotes, now) && MintedCameras(swept.live, swept.cast)
    ensures forall i :: 0 <= i < |jobs| ==> IsCameraId(AttemptsOf(jobs, swept.live, upto)[i].job.camera)
  {
    hide IsCameraId;
  }

  lemma {:induction false} RunKeepsMinted(minVotes: nat, states: seq<System>, actions: seq<Action>)
    requires IsRun(minVotes, states, actions) && MintedFrames(actions)
    ensures MintedSystem(states[|actions|])
  {
    if actions != [] {
      hide IsCameraId;
      var n := |actions| - 1;
      assert forall i :: 0 <= i < n ==> actions[..n][i] == actions[i];
      RunKeepsMinted(minVotes, states[..n + 1], actions[..n]);
      assert Next(minVotes, states[n], actions[n], states[n + 1]);
      if actions[n].Batch? {
        BatchKeepsMinted(minVotes, states[n], actions[n].frame, actions[n].jobs, states[n + 1]);
      }
    }
  }

  /** The votes behind a job came from the job's own camera. */
  lemma VotesFromOwnCamera(minVotes: nat, states: seq<System>, actions: seq<Action>, a: Attempt)
    requires IsRun(minVotes, states, actions) && MintedFrames(actions) && a in states[|actions|].attempts
    ensures forall i :: 0 <= i < |states[|actions|].ballots| && states[|actions|].ballots[i].uid == a.job.uid
              ==> states[|actions|].ballots[i].camera == a.job.camera
  {
    var s := states[|actions|];
    RunKeepsInv(minVotes, states, actions);
    RunKeepsMinted(minVotes, states, actions);
    assert AttemptSound(a, s.ballots, minVotes);
    forall i | 0 <= i < |s.ballots| && s.ballots[i].uid == a.job.uid
      ensures s.ballots[i].camera == a.job.camera
    {
      KeyDeterminesCamera(a.job.key, s.ballots[i].camera, a.job.camera);
    }
  }
}
