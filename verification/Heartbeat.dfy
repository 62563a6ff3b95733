/**
 The AI worker's retry arithmetic and the liveness deadline computed from it: the supervisor promises a next
 beat within `MaxBeatGap`, and the promise must hold however the kernel behaves.
 Seconds are reals; a call takes at most the configured timeout and a wait never oversleeps.
 */
module Heartbeat {
  import opened Wrappers

  datatype Settings = Settings(
    pollInterval: real, httpTimeout: real, maxRetries: nat, backoffBase: real, backoffCap: real)

  /** What parsing the command line leaves. */
  predicate Clamped(s: Settings) {
    s.pollInterval >= 1.0 && s.httpTimeout >= 0.0 && s.backoffBase >= 0.001 && s.backoffCap >= 0.1
  }

  function Min(a: real, b: real): real {
    if a <= b then a else b
  }

  function Max(a: real, b: real): real {
    if a >= b then a else b
  }

  function Pow2(n: nat): (p: real)
    ensures p >= 1.0
  {
    if n == 0 then 1.0 else 2.0 * Pow2(n - 1)
  }

  /** The delay after the given failed attempt, counted from one, before jitter. */
  function Delay(s: Settings, attempt: nat): (d: real)
    requires Clamped(s) && attempt >= 1
    ensures 0.0 < d <= s.backoffCap
  {
    Min(s.backoffCap, s.backoffBase * Pow2(attempt - 1))
  }

  /** The first `n` delays, each with all its jitter. */
  function Backoff(s: Settings, n: nat): (b: real)
    requires Clamped(s)
    ensures 0.0 <= b <= n as real * s.backoffCap * 1.25
  {
    if n == 0 then 0.0 else Backoff(s, n - 1) + Delay(s, n) * 1.25
  }

  /** One exhausted HTTP call. */
  function CallBudget(s: Settings): (b: real)
    requires Clamped(s)
    ensures b >= 0.0
  {
    (s.maxRetries + 1) as real * s.httpTimeout + Backoff(s, s.maxRetries)
  }

  function MaxBeatGap(s: Settings): real
    requires Clamped(s)
  {
    Max(60.0, (CallBudget(s) + s.pollInterval) * 2.0)
  }

  /** Delays never shrink from one attempt to the next. */
  lemma DelaysGrow(s: Settings, a: nat, b: nat)
    requires Clamped(s) && 1 <= a <= b
    ensures Delay(s, a) <= Delay(s, b)
    decreases b - a
  {
    if a < b {
      DelaysGrow(s, a, b - 1);
    }
  }

  /** The first delay is the base, each later one twice the one before, and none is above the cap. */
  lemma {:induction false} DelaysDouble(s: Settings, attempt: nat)
    requires Clamped(s) && attempt >= 1
    ensures Delay(s, 1) == (if s.backoffBase < s.backoffCap then s.backoffBase else s.backoffCap)
    ensures Delay(s, attempt + 1) == (if 2.0 * Delay(s, attempt) < s.backoffCap then 2.0 * Delay(s, attempt) else s.backoffCap)
  {
    var p := Pow2(attempt - 1);
    assert Pow2(0) == 1.0 && Pow2(attempt) == 2.0 * p;
    assert s.backoffBase * (2.0 * p) == 2.0 * (s.backoffBase * p);
  }

  /**
   The deadline leaves room for a bounded join, and for two exhausted calls and a wait; it is the least time of a
   minute or more that leaves two intervals and two calls.
   */
  lemma DeadlineHasRoom(s: Settings)
    requires Clamped(s)
    ensures s.httpTimeout + 2.0 <= MaxBeatGap(s) && 2.0 * CallBudget(s) + s.pollInterval <= MaxBeatGap(s)
    ensures 60.0 <= MaxBeatGap(s) && 2.0 * CallBudget(s) + 2.0 * s.pollInterval <= MaxBeatGap(s)
    ensures MaxBeatGap(s) == 60.0 || MaxBeatGap(s) == 2.0 * CallBudget(s) + 2.0 * s.pollInterval
  {
    var attempts := (s.maxRetries + 1) as real;
    assert attempts >= 1.0;
    assert (attempts - 1.0) * s.httpTimeout >= 0.0;
    assert attempts * s.httpTimeout == (attempts - 1.0) * s.httpTimeout + s.httpTimeout;
    hide Backoff;
  }

  // ------------------------------------------------------------------ one request with retries

  /** No connection or no answer in time, an exchange that fails in some other way, or an answer. */
  datatype Reply = Unreachable | Broken | Status(code: nat)

  /** One call: what came back, how long it took, and the share of the jitter drawn if it must be repeated. */
  datatype Exchange = Exchange(reply: Reply, seconds: real, jitter: real)

  datatype Outcome = Answered(code: nat) | Missing | Refused(code: nat) | Raised | Exhausted | Interrupted

  predicate Within(s: Settings, x: Exchange) {
    0.0 <= x.seconds <= s.httpTimeout && 0.0 <= x.jitter <= 1.0
  }

  /** Worth another try: the connection failed or the server did. */
  predicate Transient(reply: Reply) {
    reply.Unreachable? || (reply.Status? && 500 <= reply.code < 600)
  }

  function Final(reply: Reply, allow404: bool): (o: Outcome)
    requires !Transient(reply)
  {
    if reply.Broken? then Raised
    else if reply.code == 404 && allow404 then Missing
    else if reply.code >= 400 then Refused(reply.code)
    else Answered(reply.code)
  }

  /** There was no answer, or one between 500 and 599. */
  predicate Passes(reply: Reply) {
    match reply
    case Unreachable => true
    case Broken => false
    case Status(code) => code / 100 == 5
  }

  /** How an outcome follows from the call that settled it. */
  predicate Settles(reply: Reply, allow404: bool, o: Outcome) {
    match o
    case Answered(code) => reply == Status(code) && code < 400
    case Missing => reply == Status(404) && allow404
    case Refused(code) => reply == Status(code) && (400 <= code < 500 || code >= 600) && (code == 404 ==> !allow404)
    case Raised => reply == Broken
    case _ => false
  }

  lemma FinalSettles(reply: Reply, allow404: bool)
    ensures Transient(reply) <==> Passes(reply)
    ensures !Transient(reply) ==> forall o :: o == Final(reply, allow404) <==> Settles(reply, allow404, o)
    ensures !Transient(reply) ==> !Final(reply, allow404).Exhausted? && !Final(reply, allow404).Interrupted?
  {
  }

  /** The time the first `n` calls took. */
  function OnTheWire(net: nat -> Exchange, n: nat): real {
    if n == 0 then 0.0 else OnTheWire(net, n - 1) + net(n - 1).seconds
  }

  /** The delay with its random share of up to a quarter. */
  function Jittered(s: Settings, attempt: nat, share: real): (d: real)
    requires Clamped(s) && attempt >= 1 && 0.0 <= share <= 1.0
    ensures Delay(s, attempt) <= d <= Delay(s, attempt) * 1.25
  {
    var quarter := Delay(s, attempt) * 0.25;
    assert 0.0 <= share * quarter <= 1.0 * quarter;
    Delay(s, attempt) + share * quarter
  }

  /** The sleeps after the first `n` failed calls. */
  function Asleep(s: Settings, net: nat -> Exchange, n: nat): real
    requires Clamped(s) && forall i :: Within(s, net(i))
  {
    if n == 0 then 0.0
    else assert Within(s, net(n - 1)); Asleep(s, net, n - 1) + Jittered(s, n, net(n - 1).jitter)
  }

  /** The retry budget covers every draw of the jitter, and a kernel that never answers can use it up. */
  lemma {:induction false} BudgetIsTheWorstCase(s: Settings, net: nat -> Exchange, n: nat)
    requires Clamped(s) && forall i :: Within(s, net(i))
    ensures 0.0 <= Asleep(s, net, n) <= Backoff(s, n)
    ensures (forall i :: 0 <= i < n ==> net(i).jitter == 1.0) ==> Asleep(s, net, n) == Backoff(s, n)
    ensures (forall i :: 0 <= i < n ==> net(i).seconds == s.httpTimeout) ==> OnTheWire(net, n) == n as real * s.httpTimeout
  {
    hide *;
    NothingSpent(s, net);
    if n > 0 {
      BudgetIsTheWorstCase(s, net, n - 1);
      BackoffStep(s, n);
      AttemptStep(s, net, n);
      OneMore(n - 1, s.httpTimeout);
    }
  }

  lemma NothingSpent(s: Settings, net: nat -> Exchange)
    requires Clamped(s) && forall i :: Within(s, net(i))
    ensures Asleep(s, net, 0) == Backoff(s, 0) == OnTheWire(net, 0) == 0.0 == 0 as real * s.httpTimeout
  {
  }

  lemma AttemptStep(s: Settings, net: nat -> Exchange, n: nat)
    requires Clamped(s) && n >= 1 && forall i :: Within(s, net(i))
    ensures OnTheWire(net, n) == OnTheWire(net, n - 1) + net(n - 1).seconds
    ensures var slept := Asleep(s, net, n) - Asleep(s, net, n - 1);
            0.0 <= slept <= Delay(s, n) * 1.25 && (net(n - 1).jitter == 1.0 ==> slept == Delay(s, n) * 1.25)
  {
    assert Within(s, net(n - 1));
  }

  lemma OneMore(n: nat, t: real)
    ensures (n + 1) as real * t == n as real * t + t
  {
    assert (n + 1) as real == n as real + 1.0;
  }

  /** An interruptible sleep; a shutdown cuts it short. */
  method Sleep(seconds: real) returns (slept: real, cut: bool)
    requires seconds >= 0.0
    ensures 0.0 <= slept <= seconds && (!cut ==> slept == seconds)
  {
    cut := *;
    slept := seconds;
    if cut {
      var part: real := *;
      slept := Max(0.0, Min(part, seconds));
    }
  }

  method Request(s: Settings, allow404: bool, net: nat -> Exchange)
    returns (outcome: Outcome, calls: nat, slept: real)
    requires Clamped(s) && forall i :: Within(s, net(i))
    ensures calls <= s.maxRetries + 1
    ensures 0.0 <= slept <= Backoff(s, s.maxRetries)
    ensures !outcome.Interrupted? ==> calls >= 1 && slept == Asleep(s, net, calls - 1)
    ensures 0.0 <= OnTheWire(net, calls) + slept <= CallBudget(s)
    // every call but the last failed for a passing reason, and the last one settled the outcome
    ensures forall i :: 0 <= i < calls - 1 ==> Passes(net(i).reply)
    ensures outcome.Exhausted? ==> calls == s.maxRetries + 1 && Passes(net(calls - 1).reply)
    ensures !outcome.Exhausted? && !outcome.Interrupted? ==> Settles(net(calls - 1).reply, allow404, outcome)
  {
    hide Backoff, Delay, Passes, Transient, Settles, Final;
    forall reply: Reply ensures Transient(reply) <==> Passes(reply) { FinalSettles(reply, allow404); }
    var attempt: nat := 0;
    slept, calls := 0.0, 0;
    assert slept <= Backoff(s, 0);
    while true
      invariant calls == attempt <= s.maxRetries
      invariant forall i :: 0 <= i < calls ==> Transient(net(i).reply)
      invariant 0.0 <= slept <= Backoff(s, attempt) && slept == Asleep(s, net, attempt)
      decreases s.maxRetries - attempt
    {
      BudgetGrows(s, attempt, s.maxRetries);
      if * {
        outcome := Interrupted;   // shutdown was requested
        break;
      }
      assert Within(s, net(attempt));
      var reply := net(attempt).reply;
      calls := calls + 1;
      if !Transient(reply) {
        outcome := Final(reply, allow404);
        FinalSettles(reply, allow404);
        break;
      }
      attempt := attempt + 1;
      if attempt > s.maxRetries {
        outcome := Exhausted;
        break;
      }
      BackoffStep(s, attempt);
      BudgetGrows(s, attempt, s.maxRetries);
      var nap, cut := Sleep(Jittered(s, attempt, net(attempt - 1).jitter));
      slept := slept + nap;
      if cut {
        outcome := Interrupted;
        break;
      }
    }
    WithinBudget(s, net, calls, slept);
  }

  /** A kernel that never answers, when every draw is the largest, uses up the budget of a call to the last moment. */
  lemma SilenceCostsTheBudget(s: Settings, net: nat -> Exchange)
    requires Clamped(s) && forall i :: net(i) == Exchange(Unreachable, s.httpTimeout, 1.0)
    ensures forall i :: Within(s, net(i))
    ensures OnTheWire(net, s.maxRetries + 1) + Asleep(s, net, s.maxRetries) == CallBudget(s)
  {
    hide OnTheWire, Asleep, Backoff;
    assert forall i :: Within(s, net(i));
    BudgetIsTheWorstCase(s, net, s.maxRetries);
    BudgetIsTheWorstCase(s, net, s.maxRetries + 1);
  }

  lemma BackoffStep(s: Settings, n: nat)
    requires Clamped(s) && n >= 1
    ensures Backoff(s, n) == Backoff(s, n - 1) + Delay(s, n) * 1.25
  {
  }

  lemma Scale(a: real, b: real, t: real)
    requires a <= b && t >= 0.0
    ensures a * t <= b * t
  {
  }

  lemma WithinBudget(s: Settings, net: nat -> Exchange, calls: nat, slept: real)
    requires Clamped(s) && forall i :: Within(s, net(i))
    requires calls <= s.maxRetries + 1 && 0.0 <= slept <= Backoff(s, s.maxRetries)
    ensures 0.0 <= OnTheWire(net, calls) + slept <= CallBudget(s)
  {
    hide OnTheWire, Backoff;
    WireBound(s, net, calls);
    Scale(calls as real, (s.maxRetries + 1) as real, s.httpTimeout);
  }

  lemma {:induction false} BudgetGrows(s: Settings, m: nat, n: nat)
    requires Clamped(s) && m <= n
    ensures Backoff(s, m) <= Backoff(s, n)
    decreases n
  {
    if m < n {
      BudgetGrows(s, m, n - 1);
    }
  }

  lemma {:induction false} WireBound(s: Settings, net: nat -> Exchange, n: nat)
    requires forall i :: Within(s, net(i))
    ensures 0.0 <= OnTheWire(net, n) <= n as real * s.httpTimeout
  {
    if n > 0 {
      WireBound(s, net, n - 1);
      assert Within(s, net(n - 1));
      OneMore(n - 1, s.httpTimeout);
    }
  }

  // ------------------------------------------------------------------ the supervisor's clock

  /**
   What one cycle meets: the two calls, whether their answers parse, the joins and the runner constructions, and
   in which half-second slices of its wait a shutdown comes or a runner asks for its lease to be renewed.
   */
  datatype Cycle = Cycle(
    lease: nat -> Exchange, leaseParses: bool, fetch: nat -> Exchange, fetchParses: bool,
    joins: seq<Option<real>>, builds: seq<real>, stops: nat -> bool, asks: nat -> bool)

  ghost predicate Plausible(s: Settings, c: Cycle) {
    && (forall i :: Within(s, c.lease(i)))
    && (forall i :: Within(s, c.fetch(i)))
    && (forall i :: 0 <= i < |c.joins| && c.joins[i].Some? ==> 0.0 <= c.joins[i].value <= s.httpTimeout + 2.0)
    && (forall i :: 0 <= i < |c.builds| ==> c.builds[i] >= 0.0)
  }

  datatype Poll = Tasks | NoTasks | Shutdown

  /** The time between two beats, and how much of it went into constructing runners. */
  datatype Gap = Gap(seconds: real, building: real)

  class BeatingLoop {
    const s: Settings
    var now: real
    var lastBeat: real
    var staleAfter: real
    var leasesUnsupported: bool
    var leaseRenew: bool
    /** Construction time since the last beat, and every gap so far. */
    ghost var building: real
    ghost var gaps: seq<Gap>

    ghost predicate Valid()
      reads this
    {
      && Clamped(s) && 0.0 <= building
      && lastBeat + building <= now
      && staleAfter == lastBeat + MaxBeatGap(s)
      && forall i :: 0 <= i < |gaps| ==> gaps[i].seconds <= MaxBeatGap(s) + gaps[i].building
    }

    /** The time since the last beat that construction does not account for. */
    ghost function Quiet(): real
      reads this
    {
      now - lastBeat - building
    }

    constructor (s: Settings)
      requires Clamped(s)
      ensures Valid() && this.s == s && gaps == [] && Quiet() == 0.0
      ensures !leasesUnsupported && !leaseRenew
    {
      this.s := s;
      now, lastBeat, staleAfter := 0.0, 0.0, MaxBeatGap(s);
      leasesUnsupported, leaseRenew := false, false;
      building, gaps := 0.0, [];
    }

    method Beat()
      requires Valid() && Quiet() <= MaxBeatGap(s)
      modifies this
      ensures Valid() && Quiet() == 0.0 && building == 0.0 && now == old(now)
      ensures leasesUnsupported == old(leasesUnsupported)
      ensures gaps == old(gaps) + [Gap(old(now - lastBeat), old(building))]
    {
      gaps := gaps + [Gap(now - lastBeat, building)];
      building := 0.0;
      lastBeat := now;
      staleAfter := now + MaxBeatGap(s);
    }

    method Spend(seconds: real)
      requires Valid() && seconds >= 0.0
      modifies `now
      ensures Valid() && now == old(now) + seconds
    {
      now := now + seconds;
    }

    /** Renew the lease; a kernel without leases is asked for its task list, now and ever after. */
    method PollTasks(c: Cycle) returns (poll: Poll)
      requires Valid() && Plausible(s, c)
      modifies `now, `leasesUnsupported
      ensures Valid() && old(now) <= now <= old(now) + 2.0 * CallBudget(s)
      ensures old(leasesUnsupported) ==> leasesUnsupported
      ensures leasesUnsupported == old(leasesUnsupported) ==> now <= old(now) + CallBudget(s)
      ensures leasesUnsupported && !old(leasesUnsupported) ==> exists i: nat :: c.lease(i).reply == Status(404)
      ensures poll.Tasks? ==> if leasesUnsupported then c.fetchParses else c.leaseParses
      ensures (forall i: nat :: c.lease(i).reply == Status(404)) ==> leasesUnsupported || poll.Shutdown?
      ensures !leasesUnsupported && c.leaseParses && (forall i: nat :: c.lease(i).reply == Status(200)) ==> !poll.NoTasks?
      ensures leasesUnsupported && c.fetchParses && (forall i: nat :: c.fetch(i).reply == Status(200)) ==> !poll.NoTasks?
    {
      if !leasesUnsupported {
        var outcome, calls, slept := Request(s, true, c.lease);
        Spend(OnTheWire(c.lease, calls) + slept);
        match outcome {
          case Answered(_) => return if c.leaseParses then Tasks else NoTasks;
          case Missing =>
          case Interrupted => return Shutdown;
          case _ => return NoTasks;
        }
        leasesUnsupported := true;
      }
      var outcome, calls, slept := Request(s, false, c.fetch);
      Spend(OnTheWire(c.fetch, calls) + slept);
      match outcome {
        case Answered(_) => return if c.fetchParses then Tasks else NoTasks;
        case Interrupted => return Shutdown;
        case _ => return NoTasks;
      }
    }

    /** The clock's side of a reconciliation: a beat per runner looked at, then the constructions. */
    method Reconcile(c: Cycle)
      requires Valid() && Plausible(s, c) && Quiet() == 0.0
      modifies this
      ensures Valid() && Quiet() == 0.0
      ensures old(gaps) <= gaps
    {
      hide MaxBeatGap, CallBudget;
      DeadlineHasRoom(s);
      for i := 0 to |c.joins|
        invariant Valid() && Quiet() == 0.0 && old(gaps) <= gaps
      {
        if c.joins[i].Some? {
          Spend(c.joins[i].value);
        }
        Beat();
      }
      for i := 0 to |c.builds|
        invariant Valid() && Quiet() == 0.0 && old(gaps) <= gaps
      {
        building := building + c.builds[i];
        now := now + c.builds[i];
      }
    }

    /**
     Sleep in half-second slices until the interval is over. Only a shutdown or a request to renew ends the wait
     early, and a request does so by the end of its slice.
     */
    method WaitNextPoll(stops: nat -> bool, asks: nat -> bool) returns (stop: bool)
      requires Valid()
      modifies `now, `leaseRenew
      ensures Valid() && old(now) <= now <= old(now) + s.pollInterval
      ensures !stop && now < old(now) + s.pollInterval ==> !leaseRenew && (old(leaseRenew) || exists k :: asks(k))
      ensures !stop ==> forall k :: asks(k) ==> now <= old(now) + 0.5 * (k + 1) as real
      ensures !stop && old(leaseRenew) ==> now <= old(now) + 0.5
      ensures stop ==> exists k: nat :: stops(k) && now <= old(now) + 0.5 * (k + 1) as real
      ensures !stop ==> forall k: nat :: stops(k) ==> now <= old(now) + 0.5 * k as real
    {
      var deadline := now + s.pollInterval;
      var slices: nat := 0;
      while true
        invariant Valid() && old(now) <= now <= deadline && now <= old(now) + 0.5 * slices as real
        invariant leaseRenew == old(leaseRenew) && (leaseRenew ==> slices == 0)
        invariant forall k :: 0 <= k < slices ==> !asks(k) && !stops(k)
        decreases (2.0 * (deadline - now)).Floor, deadline > now
      {
        var remaining := deadline - now;
        if remaining <= 0.0 {
          return false;
        }
        var slice := Min(0.5, remaining);
        if stops(slices) {
          var part: real := *;
          now := now + Max(0.0, Min(part, slice));
          return true;
        }
        now := now + slice;
        if asks(slices) {
          leaseRenew := true;   // a runner met a lapsed ticket meanwhile
        }
        slices := slices + 1;
        if leaseRenew {
          leaseRenew := false;
          return false;
        }
      }
    }

    /** Whatever the kernel does, no gap outlives the deadline written at its start, construction aside. */
    method Run(cycles: seq<Cycle>)
      requires Valid() && Quiet() == 0.0 && forall i :: 0 <= i < |cycles| ==> Plausible(s, cycles[i])
      modifies this
      ensures forall i :: 0 <= i < |gaps| ==> gaps[i].seconds <= MaxBeatGap(s) + gaps[i].building
      ensures old(gaps) <= gaps
      ensures now <= staleAfter + building
    {
      hide MaxBeatGap, CallBudget;
      DeadlineHasRoom(s);
      for i := 0 to |cycles|
        invariant Valid() && old(gaps) <= gaps
        invariant Quiet() <= 2.0 * CallBudget(s) + s.pollInterval
      {
        Beat();
        var poll := PollTasks(cycles[i]);
        match poll {
          case Shutdown => break;
          case NoTasks =>
          case Tasks =>
            Beat();
            Reconcile(cycles[i]);
        }
        var stop := WaitNextPoll(cycles[i].stops, cycles[i].asks);
        if stop {
          break;
        }
      }
    }
  }
}
