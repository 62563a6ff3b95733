/** The check that every job of a publishing workflow waits for the security gate, directly or through `needs`. */
module ReleaseGate {
  import opened Text

  datatype Needs = NoNeeds | OneNeed(job: string) | AllNeeds(jobs: seq<string>)

  datatype Step = Step(uses: string, enforce: string)

  /** A preset such as `read-all`, or a table; a job that declares nothing has an empty table. */
  datatype Permissions = Preset(name: string) | Scopes(granted: map<string, string>)

  datatype Job = Job(needs: Needs, steps: seq<Step>, permissions: Permissions)

  type Jobs = map<string, Job>

  const ACTION_REF := "./.github/actions/require-security-run"
  const PUBLISHING_WORKFLOWS: seq<string> := ["release.yml", "docker-open.yml"]

  function NeedsOf(jobs: Jobs, jid: string): seq<string> {
    if jid !in jobs then []
    else
      match jobs[jid].needs
      case NoNeeds => []
      case OneNeed(j) => if j == "" then [] else [j]
      case AllNeeds(js) => js
  }

  predicate UsesGate(job: Job) {
    exists i :: 0 <= i < |job.steps| && job.steps[i].uses == ACTION_REF
  }

  function Gates(jobs: Jobs): set<string> {
    set jid | jid in jobs && UsesGate(jobs[jid])
  }

  /** Depth-first through `needs`; a job met again on the way is given up, so a cycle ends. */
  predicate ReachesGate(jobs: Jobs, gates: set<string>, jid: string, seen: set<string>)
    decreases jobs.Keys - seen, jid in jobs && jid !in seen
  {
    jid in gates ||
    (jid !in seen && exists i :: 0 <= i < |NeedsOf(jobs, jid)| && ReachesGate(jobs, gates, NeedsOf(jobs, jid)[i], seen + {jid}))
  }

  // ------------------------------------------------------------------ what reaching means

  /** The job declares that it needs the other: by its name alone, or in a list. */
  predicate Names(jobs: Jobs, jid: string, other: string) {
    jid in jobs &&
    match jobs[jid].needs
    case NoNeeds => false
    case OneNeed(j) => j == other && other != ""
    case AllNeeds(js) => exists i :: 0 <= i < |js| && js[i] == other
  }

  lemma NeedsIff(jobs: Jobs, jid: string)
    ensures forall other :: other in NeedsOf(jobs, jid) <==> Names(jobs, jid, other)
  {
  }

  /** Each job of the path needs the next. */
  predicate IsPath(jobs: Jobs, path: seq<string>) {
    path != [] && forall i :: 0 <= i < |path| - 1 ==> Names(jobs, path[i], path[i + 1])
  }

  ghost predicate WaitsFor(jobs: Jobs, gates: set<string>, jid: string) {
    exists path: seq<string> :: IsPath(jobs, path) && path[0] == jid && path[|path| - 1] in gates
  }

  lemma {:induction false} ReachingIsWaiting(jobs: Jobs, gates: set<string>, jid: string, seen: set<string>)
    requires ReachesGate(jobs, gates, jid, seen)
    ensures WaitsFor(jobs, gates, jid)
    decreases jobs.Keys - seen, jid in jobs && jid !in seen
  {
    if jid in gates {
      assert IsPath(jobs, [jid]);
    } else {
      var needs := NeedsOf(jobs, jid);
      var i :| 0 <= i < |needs| && ReachesGate(jobs, gates, needs[i], seen + {jid});
      ReachingIsWaiting(jobs, gates, needs[i], seen + {jid});
      var path :| IsPath(jobs, path) && path[0] == needs[i] && path[|path| - 1] in gates;
      NeedsIff(jobs, jid);
      assert IsPath(jobs, [jid] + path);
    }
  }

  function LastIndex(path: seq<string>, jid: string): (k: nat)
    requires jid in path
    ensures k < |path| && path[k] == jid && jid !in path[k + 1..]
  {
    if path[|path| - 1] == jid then |path| - 1 else LastIndex(path[..|path| - 1], jid)
  }

  /** A path may pass through a job twice; what follows the last visit avoids it, and the search can take that. */
  lemma {:induction false} PathIsFollowed(jobs: Jobs, gates: set<string>, path: seq<string>, seen: set<string>)
    requires IsPath(jobs, path) && path[|path| - 1] in gates
    requires forall i :: 0 <= i < |path| ==> path[i] !in seen
    ensures ReachesGate(jobs, gates, path[0], seen)
    decreases |path|
  {
    var jid := path[0];
    if jid !in gates {
      var k := LastIndex(path, jid);
      var rest := path[k + 1..];
      assert forall i :: 0 <= i < |rest| ==> rest[i] == path[k + 1 + i];
      PathIsFollowed(jobs, gates, rest, seen + {jid});
      NeedsIff(jobs, jid);
      assert Names(jobs, path[k], path[k + 1]) && rest[0] in NeedsOf(jobs, jid);
    }
  }

  /** On every graph, cyclic or with names of no job, the search finds a gate exactly when `needs` lead to one. */
  lemma SearchIsExact(jobs: Jobs, gates: set<string>, jid: string)
    ensures ReachesGate(jobs, gates, jid, {}) <==> WaitsFor(jobs, gates, jid)
  {
    if ReachesGate(jobs, gates, jid, {}) {
      ReachingIsWaiting(jobs, gates, jid, {});
    }
    if WaitsFor(jobs, gates, jid) {
      var path :| IsPath(jobs, path) && path[0] == jid && path[|path| - 1] in gates;
      PathIsFollowed(jobs, gates, path, {});
    }
  }

  // ------------------------------------------------------------------ the check

  predicate CannotRead(job: Job) {
    match job.permissions
    case Preset(name) => name == ""
    case Scopes(granted) => !("actions" in granted && granted["actions"] == "read")
  }

  /** The step that counts is the first that uses the action. */
  function Enforce(steps: seq<Step>): string {
    if steps == [] then "" else if steps[0].uses == ACTION_REF then steps[0].enforce else Enforce(steps[1..])
  }

  predicate NeverBlocks(job: Job) {
    EqualIgnoringCase(Strip(Enforce(job.steps)), "false")
  }

  // ------------------------------------------------------------------ what the report says

  datatype Problem =
    | ActionMissing
    | WorkflowMissing(workflow: string)
    | NoGate(workflow: string)
    | GateCannotRead(workflow: string, job: string)
    | GateNeverBlocks(workflow: string, job: string)
    | NotGated(workflow: string, job: string)

  predicate IsGateStep(job: Job, i: nat) {
    i < |job.steps| && job.steps[i].uses == "./.github/actions/require-security-run"
  }

  predicate IsGate(jobs: Jobs, jid: string) {
    jid in jobs && exists i: nat :: i < |jobs[jid].steps| && IsGateStep(jobs[jid], i)
  }

  predicate HasGate(jobs: Jobs) {
    exists jid :: jid in jobs && IsGate(jobs, jid)
  }

  /** The job is a gate, or a chain of `needs` leads from it to one. */
  ghost predicate WaitsForGate(jobs: Jobs, jid: string) {
    exists path: seq<string> :: IsPath(jobs, path) && path[0] == jid && IsGate(jobs, path[|path| - 1])
  }

  /** Any preset that is not empty will do; a table must grant `actions` for reading. */
  predicate CanRead(job: Job) {
    if job.permissions.Preset? then job.permissions.name != ""
    else exists scope :: scope in job.permissions.granted && scope == "actions" && job.permissions.granted[scope] == "read"
  }

  /** The first gate step says "false", in whatever case and with whatever white space around it. */
  ghost predicate SaysFalse(job: Job) {
    exists i: nat, core: string ::
      && IsGateStep(job, i) && (forall k: nat :: k < i ==> !IsGateStep(job, k))
      && IsCoreBy(IsSpace, job.steps[i].enforce, core) && Uppercase(core) == "FALSE"
  }

  ghost predicate InWorkflow(name: string, jobs: Jobs, p: Problem) {
    match p
    case NoGate(w) => w == name && !HasGate(jobs)
    case GateCannotRead(w, jid) => w == name && IsGate(jobs, jid) && !CanRead(jobs[jid])
    case GateNeverBlocks(w, jid) => w == name && IsGate(jobs, jid) && SaysFalse(jobs[jid])
    case NotGated(w, jid) => w == name && HasGate(jobs) && jid in jobs && !WaitsForGate(jobs, jid)
    case _ => false
  }

  lemma GateIff(jobs: Jobs, jid: string)
    ensures jid in Gates(jobs) <==> IsGate(jobs, jid)
  {
    if jid in jobs {
      var steps := jobs[jid].steps;
      assert forall i :: 0 <= i < |steps| ==> (IsGateStep(jobs[jid], i) <==> steps[i].uses == ACTION_REF);
    }
  }

  lemma GatesIff(jobs: Jobs)
    ensures Gates(jobs) != {} <==> HasGate(jobs)
    ensures forall jid :: jid in Gates(jobs) <==> IsGate(jobs, jid)
    ensures forall jid :: WaitsFor(jobs, Gates(jobs), jid) <==> WaitsForGate(jobs, jid)
  {
    hide *;
    forall jid ensures jid in Gates(jobs) <==> IsGate(jobs, jid) { GateIff(jobs, jid); }
    forall jid ensures WaitsFor(jobs, Gates(jobs), jid) <==> WaitsForGate(jobs, jid) { WaitingIff(jobs, jid); }
    HasGateIff(jobs);
  }

  lemma HasGateIff(jobs: Jobs)
    requires forall jid :: jid in Gates(jobs) <==> IsGate(jobs, jid)
    ensures Gates(jobs) != {} <==> HasGate(jobs)
  {
    if HasGate(jobs) {
      var jid :| jid in jobs && IsGate(jobs, jid);
      assert jid in Gates(jobs);
    }
    if Gates(jobs) != {} {
      var jid :| jid in Gates(jobs);
      assert jid in jobs && IsGate(jobs, jid);
    }
  }

  lemma WaitingIff(jobs: Jobs, jid: string)
    requires forall other :: other in Gates(jobs) <==> IsGate(jobs, other)
    ensures WaitsFor(jobs, Gates(jobs), jid) <==> WaitsForGate(jobs, jid)
  {
    hide Gates, IsGate;
    if WaitsFor(jobs, Gates(jobs), jid) {
      var path :| IsPath(jobs, path) && path[0] == jid && path[|path| - 1] in Gates(jobs);
      assert IsGate(jobs, path[|path| - 1]);
    }
    if WaitsForGate(jobs, jid) {
      var path :| IsPath(jobs, path) && path[0] == jid && IsGate(jobs, path[|path| - 1]);
      assert path[|path| - 1] in Gates(jobs);
    }
  }

  lemma ReadingIff(job: Job)
    ensures CannotRead(job) <==> !CanRead(job)
  {
  }

  lemma {:induction false} EnforceIsFirst(steps: seq<Step>, job: Job, i: nat)
    requires job.steps == steps
    requires IsGateStep(job, i) && forall k: nat :: k < i ==> !IsGateStep(job, k)
    ensures Enforce(steps) == steps[i].enforce
  {
    if i > 0 {
      var tail := job.(steps := steps[1..]);
      assert !IsGateStep(job, 0);
      assert forall k: nat :: k < |tail.steps| ==> (IsGateStep(tail, k) <==> IsGateStep(job, k + 1));
      EnforceIsFirst(steps[1..], tail, i - 1);
    }
  }

  lemma BlockingIff(job: Job, i: nat)
    requires IsGateStep(job, i) && forall k: nat :: k < i ==> !IsGateStep(job, k)
    ensures NeverBlocks(job) <==> SaysFalse(job)
  {
    hide EqualIgnoringCase, IsCoreBy, Strip;
    EnforceIsFirst(job.steps, job, i);
    var text := job.steps[i].enforce;
    StripIsFalse(text);
    if SaysFalse(job) {
      var k: nat, core: string :|
        IsGateStep(job, k) && (forall m: nat :: m < k ==> !IsGateStep(job, m)) &&
        IsCoreBy(IsSpace, job.steps[k].enforce, core) && Uppercase(core) == "FALSE";
      assert k == i;
    }
  }

  lemma StripIsFalse(text: string)
    ensures EqualIgnoringCase(Strip(text), "false") <==> exists core :: IsCoreBy(IsSpace, text, core) && Uppercase(core) == "FALSE"
  {
    assert Uppercase("false") == "FALSE";
    hide Uppercase, IsCoreBy, TrimBy;
    TrimIsCore(IsSpace, text);
    forall core | IsCoreBy(IsSpace, text, core) ensures core == Strip(text) { CoreIsTrim(IsSpace, text, core); }
  }

  lemma {:induction false} FirstGateStep(job: Job, i: nat) returns (first: nat)
    requires IsGateStep(job, i)
    ensures IsGateStep(job, first) && forall k: nat :: k < first ==> !IsGateStep(job, k)
  {
    first := i;
    if k: nat :| k < i && IsGateStep(job, k) {
      first := FirstGateStep(job, k);
    }
  }

  /** What the loop asks of a gate is what the report says of it. */
  lemma GateTrouble(jobs: Jobs, jid: string)
    requires jid in Gates(jobs)
    ensures CannotRead(jobs[jid]) <==> !CanRead(jobs[jid])
    ensures NeverBlocks(jobs[jid]) <==> SaysFalse(jobs[jid])
  {
    GateIff(jobs, jid);
    ReadingIff(jobs[jid]);
    var i: nat :| i < |jobs[jid].steps| && IsGateStep(jobs[jid], i);
    var first := FirstGateStep(jobs[jid], i);
    BlockingIff(jobs[jid], first);
  }

  /** One workflow's trouble in the loop's own terms. */
  ghost predicate Found(name: string, jobs: Jobs, p: Problem) {
    match p
    case NoGate(w) => w == name && Gates(jobs) == {}
    case GateCannotRead(w, jid) => w == name && jid in Gates(jobs) && CannotRead(jobs[jid])
    case GateNeverBlocks(w, jid) => w == name && jid in Gates(jobs) && NeverBlocks(jobs[jid])
    case NotGated(w, jid) => w == name && Gates(jobs) != {} && jid in jobs && !WaitsFor(jobs, Gates(jobs), jid)
    case _ => false
  }

  lemma FoundIff(name: string, jobs: Jobs, p: Problem)
    ensures Found(name, jobs, p) <==> InWorkflow(name, jobs, p)
  {
    hide Gates, HasGate, IsGate, WaitsFor, WaitsForGate, CannotRead, CanRead, NeverBlocks, SaysFalse;
    GatesIff(jobs);
    match p {
      case GateCannotRead(_, jid) => if jid in Gates(jobs) { GateTrouble(jobs, jid); }
      case GateNeverBlocks(_, jid) => if jid in Gates(jobs) { GateTrouble(jobs, jid); }
      case _ =>
    }
  }

  method CheckWorkflow(name: string, jobs: Jobs) returns (problems: seq<Problem>)
    ensures forall p :: p in problems <==> InWorkflow(name, jobs, p)
  {
    hide WaitsFor, ReachesGate, CannotRead, NeverBlocks, InWorkflow;
    forall p ensures Found(name, jobs, p) <==> InWorkflow(name, jobs, p) { FoundIff(name, jobs, p); }
    problems := [];
    var gates := Gates(jobs);
    if gates == {} {
      problems := [NoGate(name)];
      return;
    }
    var todo := gates;
    while todo != {}
      invariant todo <= gates
      invariant forall p :: p in problems <==>
                  match p
                  case GateCannotRead(w, jid) => w == name && jid in gates - todo && CannotRead(jobs[jid])
                  case GateNeverBlocks(w, jid) => w == name && jid in gates - todo && NeverBlocks(jobs[jid])
                  case _ => false
    {
      var jid :| jid in todo;
      todo := todo - {jid};
      if CannotRead(jobs[jid]) {
        problems := problems + [GateCannotRead(name, jid)];
      }
      if NeverBlocks(jobs[jid]) {
        problems := problems + [GateNeverBlocks(name, jid)];
      }
    }
    var rest := jobs.Keys;
    while rest != {}
      invariant rest <= jobs.Keys
      invariant forall p :: p in problems <==>
                  match p
                  case GateCannotRead(w, jid) => w == name && jid in gates && CannotRead(jobs[jid])
                  case GateNeverBlocks(w, jid) => w == name && jid in gates && NeverBlocks(jobs[jid])
                  case NotGated(w, jid) => w == name && jid in jobs.Keys - rest && !WaitsFor(jobs, gates, jid)
                  case _ => false
    {
      var jid :| jid in rest;
      rest := rest - {jid};
      SearchIsExact(jobs, gates, jid);
      if jid in gates {
        GateWaits(jobs, gates, jid);
      } else if !ReachesGate(jobs, gates, jid, {}) {
        problems := problems + [NotGated(name, jid)];
      }
    }
  }

  lemma GateWaits(jobs: Jobs, gates: set<string>, jid: string)
    requires jid in gates
    ensures WaitsFor(jobs, gates, jid)
  {
    assert IsPath(jobs, [jid]);
  }

  /** The report holds every problem there is and no other, and is empty exactly when there is nothing to report. */
  method Check(actionExists: bool, workflows: map<string, Jobs>) returns (problems: seq<Problem>)
    ensures !actionExists ==> problems == [ActionMissing]
    ensures actionExists ==> forall p ::
              p in problems <==> Reported(workflows, "release.yml", p) || Reported(workflows, "docker-open.yml", p)
    ensures problems == [] <==>
              actionExists && IsGuarded(workflows, "release.yml") && IsGuarded(workflows, "docker-open.yml")
  {
    hide InWorkflow, IsGuarded;
    if !actionExists {
      return [ActionMissing];
    }
    problems := [];
    for k := 0 to |PUBLISHING_WORKFLOWS|
      invariant forall p :: p in problems <==> exists i :: 0 <= i < k && Reported(workflows, PUBLISHING_WORKFLOWS[i], p)
    {
      var name := PUBLISHING_WORKFLOWS[k];
      if name !in workflows {
        problems := problems + [WorkflowMissing(name)];
      } else {
        var found := CheckWorkflow(name, workflows[name]);
        problems := problems + found;
      }
    }
    assert PUBLISHING_WORKFLOWS[0] == "release.yml" && PUBLISHING_WORKFLOWS[1] == "docker-open.yml";
    GuardedIff(workflows, "release.yml");
    GuardedIff(workflows, "docker-open.yml");
    assert problems == [] <==> forall p :: p !in problems by {
      if problems != [] { assert problems[0] in problems; }
    }
  }

  ghost predicate Reported(workflows: map<string, Jobs>, name: string, p: Problem) {
    if name in workflows then InWorkflow(name, workflows[name], p) else p == WorkflowMissing(name)
  }

  /** The workflow is there, has a gate, and each of its jobs waits for one; every gate can read and none says "false". */
  ghost predicate IsGuarded(workflows: map<string, Jobs>, name: string) {
    && name in workflows && HasGate(workflows[name])
    && (forall jid :: jid in workflows[name] ==> WaitsForGate(workflows[name], jid))
    && (forall jid :: jid in workflows[name] && IsGate(workflows[name], jid) ==>
          CanRead(workflows[name][jid]) && !SaysFalse(workflows[name][jid]))
  }

  lemma GuardedIff(workflows: map<string, Jobs>, name: string)
    ensures IsGuarded(workflows, name) <==> forall p :: !Reported(workflows, name, p)
  {
    hide HasGate, WaitsForGate, CanRead, SaysFalse;
    if forall p :: !Reported(workflows, name, p) {
      assert !Reported(workflows, name, WorkflowMissing(name));
      assert !Reported(workflows, name, NoGate(name));
      forall jid | jid in workflows[name] ensures WaitsForGate(workflows[name], jid) {
        assert !Reported(workflows, name, NotGated(name, jid));
      }
      forall jid | jid in workflows[name] && IsGate(workflows[name], jid)
        ensures CanRead(workflows[name][jid]) && !SaysFalse(workflows[name][jid])
      {
        assert !Reported(workflows, name, GateCannotRead(name, jid));
        assert !Reported(workflows, name, GateNeverBlocks(name, jid));
      }
    }
  }
}
