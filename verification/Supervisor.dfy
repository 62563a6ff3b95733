/**
 The AI worker's supervisor: it reconciles the running task threads with the leased task list. Threads end
 on their own at any moment, constructing or starting one may raise half way through a reconciliation, and
 so does joining one that was filed and never started.
 */
module Supervisor {
  import opened Wrappers

  datatype Task = Task(
    id: string, camera: string, taskType: string, streamProfile: string, fps: real, width: Option<int>,
    frameUrl: string, config: string)

  /** Identity of behaviour: neither the id nor the camera is part of it. */
  datatype Signature = Signature(
    taskType: string, streamProfile: string, fps: int, width: Option<int>, frameUrl: string, config: string)

  /** Ten-thousandths, to the nearest, ties to even. */
  function Round4(x: real): int {
    var scaled := x * 10000.0;
    var low := scaled.Floor;
    var part := scaled - low as real;
    if part < 0.5 || (part == 0.5 && low % 2 == 0) then low else low + 1
  }

  function SignatureOf(t: Task): Signature {
    Signature(t.taskType, t.streamProfile, Round4(t.fps), t.width, t.frameUrl, t.config)
  }

  /** The rate in ten-thousandths, the even number of two that are equally near. */
  predicate IsRate(n: int, fps: real) {
    var off := fps * 10000.0 - n as real;
    -0.5 < off < 0.5 || (n % 2 == 0 && (off == 0.5 || off == -0.5))
  }

  /** The two tasks ask for the same work: the same in every field that matters, at rates alike to four decimals. */
  ghost predicate SameBehaviour(a: Task, b: Task) {
    && a.taskType == b.taskType && a.streamProfile == b.streamProfile && a.width == b.width
    && a.frameUrl == b.frameUrl && a.config == b.config
    && exists n :: IsRate(n, a.fps) && IsRate(n, b.fps)
  }

  lemma RateIff(fps: real, n: int)
    ensures Round4(fps) == n <==> IsRate(n, fps)
  {
  }

  lemma SignatureIff(a: Task, b: Task)
    ensures SignatureOf(a) == SignatureOf(b) <==> SameBehaviour(a, b)
  {
    RateIff(a.fps, Round4(a.fps));
    RateIff(b.fps, Round4(b.fps));
    if n :| IsRate(n, a.fps) && IsRate(n, b.fps) {
      RateIff(a.fps, n);
      RateIff(b.fps, n);
    }
    hide Round4, IsRate;
  }

  lemma SameAsItself(t: Task)
    ensures SameBehaviour(t, t)
  {
    SignatureIff(t, t);
  }

  /** The tasks by id; of two with one id the later is taken. */
  function ById(tasks: seq<Task>): (m: map<string, Task>)
    ensures forall k :: k in m ==> m[k] in tasks && m[k].id == k
  {
    if tasks == [] then map[]
    else ById(tasks[..|tasks| - 1])[tasks[|tasks| - 1].id := tasks[|tasks| - 1]]
  }

  /** Every listed id is reconciled, with the last task listed under it. */
  lemma {:induction false} LastListedWins(tasks: seq<Task>, i: nat)
    requires i < |tasks| && forall j :: i < j < |tasks| ==> tasks[j].id != tasks[i].id
    ensures tasks[i].id in ById(tasks) && ById(tasks)[tasks[i].id] == tasks[i]
  {
    if i < |tasks| - 1 {
      assert tasks[|tasks| - 1].id != tasks[i].id;
      LastListedWins(tasks[..|tasks| - 1], i);
    }
  }

  class TaskRunner {
    const task: Task
    /** Whether the thread was ever started; only then may it be joined. */
    var begun: bool
    var stopped: bool
    var alive: bool

    constructor (task: Task)
      ensures this.task == task && !begun && !stopped && !alive
    {
      this.task := task;
      begun, stopped, alive := false, false, false;
    }

    method Start()
      modifies `begun, `alive
      ensures begun && alive
    {
      begun, alive := true, true;
    }

    method Stop()
      modifies `stopped
      ensures stopped
    {
      stopped := true;
    }
  }

  /** The threads run for a while; any of them may end, and an ended thread stays ended. */
  method LetThreadsRun(threads: set<TaskRunner>)
    modifies threads`alive
    ensures forall r :: r in threads && r.alive ==> old(r.alive)
  {
    var todo := threads;
    while todo != {}
      invariant todo <= threads
      invariant forall r :: r in threads && r.alive ==> old(r.alive)
    {
      var r :| r in todo;
      todo := todo - {r};
      if * {
        r.alive := false;
      }
    }
  }

  /** What goes wrong with a task's new runner: its analyzer cannot be built, or its thread cannot be started. */
  datatype Fault = NoFault | BuildRaises | StartRaises

  /** One answered poll: the tasks, and what goes wrong with the runners it calls for. */
  datatype Answer = Answer(tasks: seq<Task>, faults: string -> Fault)

  /** How a reconciliation ends: with a join or with a launch that raised, or with everything done. */
  datatype Outcome =
    | Reconciled
    | JoinRaised(at: string, rest: set<string>)
    | LaunchRaised(at: string)

  /** The runner of a task that is listed unchanged. */
  ghost predicate Current(runner: TaskRunner, byId: map<string, Task>) {
    runner.task.id in byId && SameBehaviour(byId[runner.task.id], runner.task)
  }

  /** The runner could serve the listed task: same id, same behaviour. */
  ghost predicate Serves(runner: TaskRunner, task: Task) {
    runner.task.id == task.id && SameBehaviour(task, runner.task)
  }

  /** A runner that never began is to be restarted: joining it raises. */
  ghost predicate Stuck(runner: TaskRunner, byId: map<string, Task>)
    reads runner`begun
  {
    !runner.begun && runner.task.id in byId && !Current(runner, byId)
  }

  class Supervisor {
    var runners: map<string, TaskRunner>
    /** Every runner this supervisor ever filed. */
    var launched: set<TaskRunner>

    /** A working thread that nobody told to stop is the one filed under its task's id. */
    ghost predicate Filed()
      reads this, launched
    {
      && runners.Values <= launched
      && (forall k :: k in runners ==> runners[k] in launched && runners[k].task.id == k)
      && (forall r :: r in launched && r.alive ==> r.begun)
      && (forall r :: r in launched && r.alive && !r.stopped ==> r.task.id in runners && runners[r.task.id] == r)
    }

    /** And a runner told to stop is filed on only if it never began, and so could not be joined. */
    ghost predicate Valid()
      reads this, launched
    {
      Filed() && forall k :: k in runners && runners[k].stopped ==> !runners[k].begun
    }

    lemma FiledUnderItsId()
      requires Valid()
      ensures runners.Values <= launched && forall k :: k in runners ==> runners[k] in launched && runners[k].task.id == k
    {
    }

    constructor ()
      ensures Valid() && runners == map[] && launched == {}
    {
      runners := map[];
      launched := {};
    }

    /** Stop one runner and forget it; one to be restarted is joined first, which raises if it never began. */
    method Retire(tid: string, wait: bool) returns (completed: bool)
      requires Valid() && tid in runners
      modifies `runners, launched`stopped, launched`alive
      ensures Valid() && old(runners)[tid].stopped
      ensures completed <==> wait ==> old(runners)[tid].begun
      ensures runners == if completed then old(runners) - {tid} else old(runners)
      ensures forall r :: r in launched ==> (r.alive ==> old(r.alive)) && (old(r.stopped) ==> r.stopped)
      ensures forall r :: r in launched && r != old(runners)[tid] ==> r.stopped == old(r.stopped)
    {
      var runner := runners[tid];
      runner.Stop();
      if wait {
        if !runner.begun {
          return false;
        }
        LetThreadsRun(launched);   // the bounded join
      }
      runners := runners - {tid};
      return true;
    }

    /** One runner of the stop phase: kept when its task is current, otherwise retired. */
    method Check(tid: string, byId: map<string, Task>) returns (completed: bool)
      requires Valid() && tid in runners
      modifies `runners, launched`stopped, launched`alive
      ensures Valid()
      ensures completed <==> !Stuck(old(runners)[tid], byId)
      ensures runners == if completed && !Current(old(runners)[tid], byId) then old(runners) - {tid} else old(runners)
      ensures old(runners)[tid].stopped == (!Current(old(runners)[tid], byId) || old(runners[tid].stopped))
      ensures forall r :: r in launched && r != old(runners)[tid] ==> r.stopped == old(r.stopped)
      ensures forall r :: r in launched && r.alive ==> old(r.alive)
    {
      hide SignatureOf, SameBehaviour;
      if tid in byId { SignatureIff(byId[tid], runners[tid].task); }
      if tid !in byId {
        completed := Retire(tid, false);
      } else if SignatureOf(byId[tid]) != SignatureOf(runners[tid].task) {
        completed := Retire(tid, true);
      } else {
        completed := true;
      }
    }

    /**
     Stop the runners whose task disappeared or whose behaviour changed, in whatever order the dictionary yields
     them. The pass ends at the first one that never began and is to be restarted: it is stopped and stays filed,
     and the rest is not looked at.
     */
    method StopStale(byId: map<string, Task>) returns (stuckAt: Option<string>, rest: set<string>)
      requires Valid()
      modifies `runners, launched`stopped, launched`alive
      ensures Valid() && rest <= old(runners).Keys
      ensures stuckAt.None? ==> rest == {}
      ensures forall k :: k in old(runners) && k !in rest && stuckAt != Some(k) ==> !Stuck(old(runners)[k], byId)
      ensures stuckAt.Some? ==>
        && stuckAt.value in old(runners) && stuckAt.value !in rest
        && Stuck(old(runners)[stuckAt.value], byId) && old(runners)[stuckAt.value].stopped
      ensures forall k :: k in old(runners) ==>
        (k in runners <==> k in rest || stuckAt == Some(k) || Current(old(runners)[k], byId))
      ensures forall k :: k in runners ==> k in old(runners) && runners[k] == old(runners)[k]
      ensures forall k :: k in old(runners) ==>
        (old(runners)[k].stopped <==>
         old(runners[k].stopped) || (k !in rest && !Current(old(runners)[k], byId)))
      ensures forall r :: r in launched ==> (r.alive ==> old(r.alive)) && (old(r.stopped) ==> r.stopped)
    {
      hide SameBehaviour, Current, Supervisor.Filed, Supervisor.Valid;
      FiledUnderItsId();
      ghost var was := runners;
      rest := runners.Keys;
      while rest != {}
        invariant Valid() && rest <= runners.Keys <= was.Keys && was.Values <= launched
        invariant forall k :: k in was && k !in rest ==> !Stuck(was[k], byId) && (k in runners <==> Current(was[k], byId))
        invariant forall k :: k in runners ==> runners[k] == was[k]
        invariant forall k :: k in was ==>
          (was[k].stopped <==> old(was[k].stopped) || (k !in rest && !Current(was[k], byId)))
        invariant forall r :: r in launched ==> (r.alive ==> old(r.alive)) && (old(r.stopped) ==> r.stopped)
      {
        var tid :| tid in rest;
        rest := rest - {tid};
        var completed := Check(tid, byId);
        if !completed {
          return Some(tid), rest;
        }
      }
      return None, rest;
    }

    /** Build, file and start a runner for a task nobody runs; a start that raises leaves it filed and never begun. */
    method Launch(task: Task, fault: Fault) returns (completed: bool)
      requires Valid() && task.id !in runners
      modifies `runners, `launched, launched`alive
      ensures Valid() && (completed <==> fault.NoFault?)
      ensures fault.BuildRaises? ==> runners == old(runners) && launched == old(launched)
      ensures !fault.BuildRaises? ==>
        && task.id in runners && fresh(runners[task.id]) && runners[task.id].task == task
        && (runners[task.id].begun <==> fault.NoFault?)
        && runners == old(runners)[task.id := runners[task.id]] && launched == old(launched) + {runners[task.id]}
      ensures forall r :: r in old(launched) ==> (r.alive ==> old(r.alive))
    {
      if fault.BuildRaises? {
        return false;
      }
      var runner := new TaskRunner(task);
      runners := runners[task.id := runner];
      launched := launched + {runner};
      if fault.StartRaises? {
        return false;
      }
      runner.Start();
      LetThreadsRun(launched);
      return true;
    }

    /** Start runners for new or just-stopped tasks; the first that raises abandons the rest. */
    method StartMissing(byId: map<string, Task>, faults: string -> Fault) returns (raisedAt: Option<string>)
      requires Valid() && forall k :: k in byId ==> byId[k].id == k
      modifies `runners, `launched, launched`alive
      ensures Valid() && old(launched) <= launched && fresh(launched - old(launched))
      ensures forall r :: r in launched && r !in old(launched) ==> r.task.id in byId && r.task == byId[r.task.id]
      ensures raisedAt.None? <==> forall k :: k in byId && k !in old(runners) ==> faults(k).NoFault?
      ensures raisedAt.None? ==> byId.Keys <= runners.Keys
      ensures raisedAt.Some? ==>
        && raisedAt.value in byId && raisedAt.value !in old(runners) && !faults(raisedAt.value).NoFault?
        && (raisedAt.value in runners <==> faults(raisedAt.value).StartRaises?)
      ensures forall k :: k in old(runners) ==> k in runners && runners[k] == old(runners)[k]
      ensures forall k :: k in runners && k !in old(runners) ==>
        k in byId && runners[k].task == byId[k] && fresh(runners[k]) && (runners[k].begun <==> raisedAt != Some(k))
      ensures forall r :: r in old(launched) ==> (r.alive ==> old(r.alive))
    {
      hide SameBehaviour, Current, Supervisor.Filed, Supervisor.Valid;
      ghost var was := runners;
      ghost var before := launched;
      var todo := byId.Keys;
      while todo != {}
        invariant todo <= byId.Keys && Valid()
        invariant before <= launched && fresh(launched - before)
        invariant forall r :: r in launched && r !in before ==> r.task.id in byId && r.task == byId[r.task.id]
        invariant runners.Keys == was.Keys + (byId.Keys - todo)
        invariant forall k :: k in was ==> runners[k] == was[k]
        invariant forall k :: k in runners && k !in was ==>
          runners[k].task == byId[k] && fresh(runners[k]) && runners[k].begun && faults(k).NoFault?
        invariant forall r :: r in before ==> (r.alive ==> old(r.alive))
      {
        var tid :| tid in todo;
        todo := todo - {tid};
        if tid !in runners {
          var completed := Launch(byId[tid], faults(tid));
          assert tid !in was && forall k :: k in was ==> k in runners && runners[k] == was[k];
          if !completed {
            return Some(tid);
          }
        }
      }
      return None;
    }

    method DropDead()
      requires Valid()
      modifies `runners
      ensures Valid()
      ensures forall k :: k in runners <==> k in old(runners) && old(runners)[k].alive
      ensures forall k :: k in runners ==> runners[k] == old(runners)[k]
    {
      ghost var was := runners;
      var todo := runners.Keys;
      while todo != {}
        invariant todo <= runners.Keys <= was.Keys && Valid()
        invariant forall k :: k in runners ==> runners[k] == was[k]
        invariant forall k :: k in was && k !in todo ==> (k in runners <==> was[k].alive)
      {
        var tid :| tid in todo;
        todo := todo - {tid};
        if !runners[tid].alive {
          runners := runners - {tid};
        }
      }
    }

    /** The second half of a reconciliation, when only current runners are left: start what is missing, drop the dead. */
    method Fill(byId: map<string, Task>, faults: string -> Fault) returns (raisedAt: Option<string>)
      requires Valid() && forall k :: k in byId ==> byId[k].id == k
      requires forall k :: k in runners ==> k in byId && Serves(runners[k], byId[k])
      modifies `runners, `launched, launched`alive
      ensures Valid() && old(launched) <= launched && fresh(launched - old(launched))
      ensures forall r :: r in launched && r !in old(launched) ==> r.task.id in byId && r.task == byId[r.task.id]
      ensures raisedAt.None? <==> forall k :: k in byId && k !in old(runners) ==> faults(k).NoFault?
      ensures raisedAt.Some? ==>
        && raisedAt.value in byId && raisedAt.value !in old(runners) && !faults(raisedAt.value).NoFault?
        && (raisedAt.value in runners <==> faults(raisedAt.value).StartRaises?)
      ensures forall k :: k in old(runners) && old(runners)[k].alive ==> k in runners
      ensures forall k :: k in runners ==>
        && k in byId && Serves(runners[k], byId[k])
        && if k in old(runners) then runners[k] == old(runners)[k]
           else fresh(runners[k]) && runners[k].task == byId[k] && (runners[k].begun <==> raisedAt != Some(k))
      ensures forall r :: r in old(launched) ==> (r.alive ==> old(r.alive))
      ensures raisedAt.None? ==> forall k :: k in runners ==> runners[k].alive
      ensures raisedAt.None? ==> forall k :: k in byId && k !in runners ==>
        exists r :: r in launched && (fresh(r) || r in old(runners).Values) && Serves(r, byId[k]) && !r.alive
    {
      hide SameBehaviour, Supervisor.Filed, Supervisor.Valid;
      forall k | k in byId ensures SameBehaviour(byId[k], byId[k]) { SameAsItself(byId[k]); }
      raisedAt := StartMissing(byId, faults);
      if raisedAt.None? {
        FiledUnderItsId();
        ghost var filled := runners;
        DropDead();
        forall k | k in byId && k !in runners
          ensures exists r :: r in launched && (fresh(r) || r in old(runners).Values) && Serves(r, byId[k]) && !r.alive
        {
          assert filled[k] in launched && Serves(filled[k], byId[k]);
        }
      }
    }

    /**
     One reconciliation. It ends in a join that raises exactly when some filed runner never began and its task is
     listed with another signature; then nothing at all is started, and a runner behind it may work on unlisted
     or outdated.
     */
    method Reconcile(answer: Answer) returns (outcome: Outcome)
      requires Valid()
      modifies `runners, `launched, launched`stopped, launched`alive
      ensures Valid() && old(launched) <= launched && fresh(launched - old(launched))
      ensures forall r :: r in launched && r !in old(launched) ==>
        r.task.id in ById(answer.tasks) && r.task == ById(answer.tasks)[r.task.id]
      ensures outcome.JoinRaised? <==> exists k :: k in old(runners) && old(Stuck(runners[k], ById(answer.tasks)))
      ensures outcome.Reconciled? <==>
        && !outcome.JoinRaised?
        && forall k :: k in ById(answer.tasks) && !(k in old(runners) && Current(old(runners)[k], ById(answer.tasks))) ==>
             answer.faults(k).NoFault?
      // after a join that raised: the stuck runner is stopped and filed on, those behind it are as they were
      ensures outcome.JoinRaised? ==>
        && launched == old(launched)
        && outcome.at in runners && runners[outcome.at].stopped && Stuck(runners[outcome.at], ById(answer.tasks))
        && outcome.at !in outcome.rest
        && (forall k :: k in old(runners) && Stuck(old(runners)[k], ById(answer.tasks)) ==> k in runners)
        && (forall k :: k in runners ==> k in old(runners) && runners[k] == old(runners)[k])
        && (forall k :: k in old(runners) ==>
              (k in runners <==> k in outcome.rest || k == outcome.at || Current(old(runners)[k], ById(answer.tasks))))
        && (forall k :: k in old(runners) ==>
              (old(runners)[k].stopped <==>
               old(runners[k].stopped) || (k !in outcome.rest && !Current(old(runners)[k], ById(answer.tasks)))))
      // otherwise a runner whose task is unchanged is kept, every other one is stopped and replaced
      ensures !outcome.JoinRaised? ==>
        && (forall k :: k in old(runners) ==>
              (old(runners)[k].stopped <==> old(runners[k].stopped) || !Current(old(runners)[k], ById(answer.tasks))))
        && (forall k :: k in old(runners) && Current(old(runners)[k], ById(answer.tasks)) && old(runners)[k].alive
              ==> k in runners)
        && (forall k :: k in runners ==> k in ById(answer.tasks) && Serves(runners[k], ById(answer.tasks)[k]))
        && (forall k :: k in runners ==>
              if k in old(runners) && Current(old(runners)[k], ById(answer.tasks)) then runners[k] == old(runners)[k]
              else && fresh(runners[k]) && runners[k].task == ById(answer.tasks)[k]
                   && (runners[k].begun <==> outcome != LaunchRaised(k)))
      // a launch that raised leaves its task unserved, or served by a runner that never began
      ensures outcome.LaunchRaised? ==>
        && outcome.at in ById(answer.tasks)
        && !(outcome.at in old(runners) && Current(old(runners)[outcome.at], ById(answer.tasks)))
        && !answer.faults(outcome.at).NoFault?
        && (outcome.at in runners <==> answer.faults(outcome.at).StartRaises?)
      ensures forall r :: r in old(launched) ==> (r.alive ==> old(r.alive))
      // what is filed afterwards is alive, and a listed task goes unserved only if its own thread ended
      ensures outcome.Reconciled? ==> forall k :: k in runners ==> runners[k].alive
      ensures outcome.Reconciled? ==> forall k :: k in ById(answer.tasks) && k !in runners ==>
                exists r :: r in launched && (fresh(r) || r in old(runners).Values)
                            && Serves(r, ById(answer.tasks)[k]) && !r.alive
    {
      hide SameBehaviour, ById, Supervisor.Filed, Supervisor.Valid;
      FiledUnderItsId();
      var byId := ById(answer.tasks);
      var stuckAt, rest := StopStale(byId);
      if stuckAt.Some? {
        return JoinRaised(stuckAt.value, rest);
      }
      var raisedAt := Fill(byId, answer.faults);
      return if raisedAt.None? then Reconciled else LaunchRaised(raisedAt.value);
    }

    /** The wait until the next poll. */
    method Wait()
      requires Valid()
      modifies launched`alive
      ensures Valid()
      ensures forall r :: r in launched && r.alive ==> old(r.alive)
    {
      LetThreadsRun(launched);
    }

    /**
     The wedge. While every answer lists the task of a runner that never began with another signature, no poll
     starts anything, for any task, and the runner stays filed.
     */
    method PollWhileStuck(tid: string, answers: seq<Answer>)
      requires Valid() && tid in runners
      requires forall i :: 0 <= i < |answers| ==> Stuck(runners[tid], ById(answers[i].tasks))
      modifies `runners, `launched, launched`stopped, launched`alive
      ensures Valid() && tid in runners && runners[tid] == old(runners)[tid]
      ensures launched == old(launched)
      ensures forall r :: r in launched && r.alive ==> old(r.alive)
    {
      hide SameBehaviour, Current, ById, Supervisor.Filed, Supervisor.Valid;
      for i := 0 to |answers|
        invariant Valid() && tid in runners && runners[tid] == old(runners)[tid]
        invariant launched == old(launched)
        invariant forall r :: r in launched && r.alive ==> old(r.alive)
      {
        var outcome := Reconcile(answers[i]);
        assert outcome.JoinRaised?;
        Wait();
      }
    }

    /** Every filed runner was started. */
    ghost predicate AllBegun()
      reads this, launched
    {
      runners.Values <= launched && forall k :: k in runners ==> runners[k].begun
    }

    method StopAll()
      requires Filed()
      modifies launched`stopped
      ensures Filed() && forall r :: r in launched ==> r.stopped || !r.alive
    {
      var todo := runners.Values;
      while todo != {}
        invariant todo <= runners.Values && Filed()
        invariant forall k :: k in runners && runners[k] !in todo ==> runners[k].stopped
      {
        var r :| r in todo;
        todo := todo - {r};
        r.Stop();
      }
    }

    /** Join every filed runner; the first that never began raises. */
    method JoinAll() returns (completed: bool)
      requires Filed()
      modifies launched`alive
      ensures Filed() && (completed <==> AllBegun())
      ensures forall r :: r in launched && r.alive ==> old(r.alive)
    {
      var todo := runners.Values;
      while todo != {}
        invariant todo <= runners.Values && Filed()
        invariant forall k :: k in runners && runners[k] !in todo ==> runners[k].begun
        invariant forall r :: r in launched && r.alive ==> old(r.alive)
      {
        var r :| r in todo;
        todo := todo - {r};
        if !r.begun {
          return false;
        }
        LetThreadsRun(launched);   // the bounded join
      }
      return true;
    }

    /**
     The shutdown: every filed runner is told to stop, then joined. The joins end at the first runner that never
     began; the map then keeps its runners.
     */
    method ShutdownAll() returns (completed: bool)
      requires Valid()
      modifies `runners, launched`stopped, launched`alive
      ensures Filed() && forall r :: r in launched ==> r.stopped || !r.alive
      ensures completed <==> old(AllBegun())
      ensures runners == if completed then map[] else old(runners)
      ensures forall r :: r in launched && r.alive ==> old(r.alive)
    {
      if runners == map[] {
        return true;
      }
      StopAll();
      completed := JoinAll();
      if completed {
        runners := map[];
      }
    }

    /**
     The supervisor's life: polls that fail or answer, reconciliations that may abort, and the shutdown. It ends
     with no thread at work untold, and, unless a start raised, with every runner forgotten. Every answer is
     reconciled, and where no start raises no reconciliation ends at a join.
     */
    method Run(polls: seq<Option<Answer>>) returns (completed: bool, outcomes: seq<Option<Outcome>>)
      requires Valid()
      modifies `runners, `launched, launched`stopped, launched`alive
      ensures Filed() && old(launched) <= launched && fresh(launched - old(launched))
      ensures forall r :: r in launched ==> r.stopped || !r.alive
      ensures completed ==> runners == map[]
      ensures !completed ==> exists k :: k in runners && !runners[k].begun
      ensures old(AllBegun()) && (forall p, k :: p in polls && p.Some? ==> !p.value.faults(k).StartRaises?) ==> completed
      ensures |outcomes| == |polls| && forall i :: 0 <= i < |polls| ==> (outcomes[i].Some? <==> polls[i].Some?)
      ensures old(AllBegun()) && (forall p, k :: p in polls && p.Some? ==> !p.value.faults(k).StartRaises?) ==>
                forall o :: o in outcomes && o.Some? ==> !o.value.JoinRaised?
    {
      hide SameBehaviour, Current, ById, Supervisor.Valid, Supervisor.Filed;
      ghost var before := launched;
      outcomes := [];
      FiledUnderItsId();
      for i := 0 to |polls|
        invariant Valid() && before <= launched && fresh(launched - before)
        invariant runners.Values <= launched
        invariant |outcomes| == i && forall j :: 0 <= j < i ==> (outcomes[j].Some? <==> polls[j].Some?)
        invariant old(AllBegun()) && (forall p, k :: p in polls && p.Some? ==> !p.value.faults(k).StartRaises?) ==>
                    AllBegun() && forall o :: o in outcomes && o.Some? ==> !o.value.JoinRaised?
      {
        if polls[i].Some? {
          var outcome := Reconcile(polls[i].value);
          outcomes := outcomes + [Some(outcome)];
          FiledUnderItsId();
        } else {
          outcomes := outcomes + [None];
        }
        Wait();
      }
      completed := ShutdownAll();
    }
  }

  /**
   One failed start is enough: when the task comes back changed, the next reconciliation raises, starts nothing for
   the other tasks either, and leaves the outdated runner filed.
   */
  method WedgeInTwoPolls(first: Task, changed: Task, other: Task) returns (s: Supervisor)
    requires changed.id == first.id && !SameBehaviour(changed, first) && other.id != first.id
    ensures fresh(s) && s.Valid()
    ensures first.id in s.runners && other.id !in s.runners
    ensures s.runners[first.id].task == first && s.runners[first.id].stopped && !s.runners[first.id].begun
    ensures forall r :: r in s.launched ==> r.task.id != other.id
    ensures Stuck(s.runners[first.id], ById([changed, other]))
  {
    hide SameBehaviour, ById, Supervisor.Valid, Supervisor.Filed;
    LastListedWins([first], 0);
    LastListedWins([changed, other], 0);
    s := new Supervisor();
    var poll := s.Reconcile(Answer([first], k => StartRaises));
    assert poll == LaunchRaised(first.id);
    s.Wait();
    poll := s.Reconcile(Answer([changed, other], k => NoFault));
    assert poll.JoinRaised?;
  }
}
