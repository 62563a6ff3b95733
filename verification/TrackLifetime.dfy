/**
 Which tracks the engine remembers over whole runs: with a clock that does not run backwards, after every batch
 exactly those that some batch read within the last thirty seconds.
 */
module TrackLifetime {
  import opened Wrappers
  import opened EntryEngine
  import opened TrackMemory
  import opened EntryProtocol

  predicate ReadsKey(a: Action, key: string) {
    a.Batch? && ReadsOf(a.frame.camera, a.frame.detections, key) != []
  }

  /** When the latest of the batches that read the key was taken. */
  function LastRead(actions: seq<Action>, key: string): Option<Instant> {
    if actions == [] then None
    else
      var n := |actions| - 1;
      if ReadsKey(actions[n], key) then Some(actions[n].frame.now) else LastRead(actions[..n], key)
  }

  /** When the latest batch was taken. */
  function LastBatch(actions: seq<Action>): Option<Instant> {
    if actions == [] then None
    else
      var n := |actions| - 1;
      if actions[n].Batch? then Some(actions[n].frame.now) else LastBatch(actions[..n])
  }

  ghost predicate ClockAdvances(actions: seq<Action>) {
    forall i, j :: 0 <= i < j < |actions| && actions[i].Batch? && actions[j].Batch? ==> actions[i].frame.now <= actions[j].frame.now
  }

  /** A batch keeps a track it reads, keeps another for thirty seconds after its last read, and brings in no other. */
  lemma BatchKeeps(minVotes: nat, s: System, frame: Frame, jobs: seq<CommitJob>, s': System, key: string)
    requires BatchNext(minVotes, s, frame, jobs, s')
    ensures var read := ReadsOf(frame.camera, frame.detections, key) != [];
      && (key in s'.live <==> read || (key in s.live && frame.now - 30_000 <= s.live[key].lastSeen))
      && (key in s'.live ==> s'.live[key].lastSeen == if read then frame.now else s.live[key].lastSeen)
  {
    var swept := Voted(s.live, s.nextUid, frame, minVotes).live;
    SweptAtKey(s.live, s.nextUid, frame, minVotes, key);
    SettledAtKey(s.live, frame, minVotes, key, swept);
    hide IsSwept, Voted, Settled, Observed, PlateIsCounted;
  }

  lemma OtherStepsKeep(minVotes: nat, s: System, a: Action, s': System, key: string)
    requires Next(minVotes, s, a, s') && !a.Batch?
    ensures key in s'.live <==> key in s.live
    ensures key in s.live ==> s'.live[key].lastSeen == s.live[key].lastSeen
  {
  }

  lemma {:induction false} LastSeenIsLastRead(minVotes: nat, states: seq<System>, actions: seq<Action>, key: string)
    requires IsRun(minVotes, states, actions)
    ensures key in states[|actions|].live ==> LastRead(actions, key) == Some(states[|actions|].live[key].lastSeen)
  {
    if actions != [] {
      var n := |actions| - 1;
      RunPrefix(minVotes, states, actions);
      LastSeenIsLastRead(minVotes, states[..n + 1], actions[..n], key);
      hide IsRun, Next, BatchNext, ReadsOf;
      OneStep(minVotes, states[n], actions[n], states[n + 1], key);
    }
  }

  lemma RunPrefix(minVotes: nat, states: seq<System>, actions: seq<Action>)
    requires IsRun(minVotes, states, actions) && actions != []
    ensures var n := |actions| - 1;
      && |states| == |actions| + 1 && IsRun(minVotes, states[..n + 1], actions[..n]) && states[..n + 1][n] == states[n]
      && Next(minVotes, states[n], actions[n], states[n + 1])
  {
    hide Next;
    var n := |actions| - 1;
    assert forall i :: 0 <= i < n ==> actions[..n][i] == actions[i] && states[..n + 1][i + 1] == states[i + 1];
  }

  lemma OneStep(minVotes: nat, s: System, a: Action, s': System, key: string)
    requires Next(minVotes, s, a, s')
    ensures key in s'.live <==> ReadsKey(a, key) || (key in s.live && (a.Batch? ==> a.frame.now - 30_000 <= s.live[key].lastSeen))
    ensures key in s'.live ==> s'.live[key].lastSeen == if ReadsKey(a, key) then a.frame.now else s.live[key].lastSeen
  {
    if a.Batch? {
      BatchKeeps(minVotes, s, a.frame, a.jobs, s', key);
    } else {
      OtherStepsKeep(minVotes, s, a, s', key);
    }
  }

  /** A track that a batch drops was last read more than thirty seconds before, whatever the clock did; and only such. */
  lemma DroppedIffUnread(minVotes: nat, states: seq<System>, actions: seq<Action>, i: nat, key: string)
    requires IsRun(minVotes, states, actions) && i < |actions| && actions[i].Batch? && key in states[i].live
    ensures LastRead(actions[..i], key).Some?
    ensures key !in states[i + 1].live <==>
      !ReadsKey(actions[i], key) && LastRead(actions[..i], key).value < actions[i].frame.now - 30_000
  {
    RunUpTo(minVotes, states, actions, i);
    LastSeenIsLastRead(minVotes, states[..i + 1], actions[..i], key);
    hide IsRun, Next, ReadsOf;
    OneStep(minVotes, states[i], actions[i], states[i + 1], key);
  }

  lemma RunUpTo(minVotes: nat, states: seq<System>, actions: seq<Action>, i: nat)
    requires IsRun(minVotes, states, actions) && i < |actions|
    ensures |states| == |actions| + 1 && IsRun(minVotes, states[..i + 1], actions[..i]) && states[..i + 1][i] == states[i]
    ensures Next(minVotes, states[i], actions[i], states[i + 1])
  {
    hide Next;
    assert forall j :: 0 <= j < i ==> actions[..i][j] == actions[j] && states[..i + 1][j + 1] == states[j + 1];
  }

  lemma {:induction false} ReadBeforeBatch(actions: seq<Action>, key: string)
    requires ClockAdvances(actions) && LastRead(actions, key).Some?
    ensures LastBatch(actions).Some? && LastRead(actions, key).value <= LastBatch(actions).value
  {
    var n := |actions| - 1;
    if !ReadsKey(actions[n], key) {
      ReadBeforeBatch(actions[..n], key);
      if actions[n].Batch? { BatchInTime(actions, n); }
    }
  }

  /** The latest batch of a beginning is no later than the batch that follows it. */
  lemma {:induction false} BatchInTime(actions: seq<Action>, n: nat)
    requires ClockAdvances(actions) && n < |actions| && actions[n].Batch? && LastBatch(actions[..n]).Some?
    ensures LastBatch(actions[..n]).value <= actions[n].frame.now
  {
    LastBatchIsOne(actions[..n]);
    var i :| 0 <= i < n && actions[..n][i].Batch? && actions[..n][i].frame.now == LastBatch(actions[..n]).value;
    assert actions[i].Batch?;
  }

  lemma {:induction false} LastBatchIsOne(actions: seq<Action>)
    requires LastBatch(actions).Some?
    ensures exists i :: 0 <= i < |actions| && actions[i].Batch? && actions[i].frame.now == LastBatch(actions).value
  {
    var n := |actions| - 1;
    if !actions[n].Batch? {
      LastBatchIsOne(actions[..n]);
      var i :| 0 <= i < n && actions[..n][i].Batch? && actions[..n][i].frame.now == LastBatch(actions[..n]).value;
      assert actions[i].Batch?;
    }
  }

  /** With a clock that does not run backwards the engine remembers exactly the tracks read in the last thirty seconds. */
  lemma {:induction false} RemembersTheLastHalfMinute(minVotes: nat, states: seq<System>, actions: seq<Action>, key: string)
    requires IsRun(minVotes, states, actions) && ClockAdvances(actions)
    ensures key in states[|actions|].live <==>
      && LastRead(actions, key).Some? && LastBatch(actions).Some?
      && LastBatch(actions).value - 30_000 <= LastRead(actions, key).value
  {
    if actions != [] {
      var n := |actions| - 1;
      RunPrefix(minVotes, states, actions);
      assert ClockAdvances(actions[..n]);
      RemembersTheLastHalfMinute(minVotes, states[..n + 1], actions[..n], key);
      LastSeenIsLastRead(minVotes, states[..n + 1], actions[..n], key);
      hide IsRun, Next, ReadsOf;
      OneStep(minVotes, states[n], actions[n], states[n + 1], key);
      if LastRead(actions[..n], key).Some? && actions[n].Batch? {
        ReadBeforeBatch(actions[..n], key);
        BatchInTime(actions, n);
      }
    }
  }
}
