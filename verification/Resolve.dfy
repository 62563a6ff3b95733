/**
 Identity resolution: classify a consolidated plate against the registry. Every lookup may fail, and
 only a failed block-list lookup stops the classification.
 */
module Resolve {
  import opened Wrappers
  import opened Text
  import opened Plates
  import opened EntryEngine

  datatype AuthStatus = Matched | Exception | Unmatched | Blocked

  datatype WatchKind = Block | Vip | Alert

  datatype Watch = Watch(kind: WatchKind, active: bool, severity: string)

  datatype Vehicle = Vehicle(
    active: bool, vehicleType: Option<string>, color: Option<string>,
    validFrom: Option<Instant>, validUntil: Option<Instant>)

  datatype Pass = Pass(plate: Option<string>, status: string, validFrom: Instant, validUntil: Instant)

  /** `plate_norm` is unique in the vehicle and watch tables; a plate may hold several passes. */
  datatype Registry = Registry(watchlist: map<string, Watch>, vehicles: map<string, Vehicle>, passes: seq<Pass>)

  /** Which of one resolution's statements the database refuses. */
  datatype Faults = Faults(
    block: bool, vehicle: bool, currentPass: bool, checkIn: bool, anyPass: bool, vip: bool, alert: bool)

  const NO_FAULTS := Faults(false, false, false, false, false, false, false)

  datatype Resolution = Resolution(
    authStatus: AuthStatus, workflow: string, severity: string, source: string, authorization: AuthStatus)

  function OfStatus(status: AuthStatus, source: string): Resolution {
    if status.Matched? then Resolution(status, "auto", "info", source, status)
    else Resolution(status, "pending", "warning", source, status)
  }

  // ---------------------------------------------------------------- lookups

  predicate OnList(reg: Registry, plate: string, kind: WatchKind) {
    plate in reg.watchlist && reg.watchlist[plate].active && reg.watchlist[plate].kind == kind
  }

  predicate HasAlert(reg: Registry, faults: Faults, plate: string) {
    !faults.alert && OnList(reg, plate, Alert)
  }

  function FindVehicle(reg: Registry, faults: Faults, plate: string): Option<Vehicle> {
    if !faults.vehicle && plate in reg.vehicles && reg.vehicles[plate].active then Some(reg.vehicles[plate]) else None
  }

  predicate IsLivePass(p: Pass, plate: string) {
    p.plate == Some(plate) && p.status in ["active", "checked_in"]
  }

  predicate IsCurrentPass(p: Pass, plate: string, now: Instant) {
    IsLivePass(p, plate) && p.validFrom <= now <= p.validUntil
  }

  /** The current pass with the latest `validUntil`; a tie goes to the first row. */
  function CurrentPass(passes: seq<Pass>, plate: string, now: Instant): (r: Option<nat>)
    ensures r.None? <==> forall i :: 0 <= i < |passes| ==> !IsCurrentPass(passes[i], plate, now)
    ensures r.Some? ==> r.value < |passes| && IsCurrentPass(passes[r.value], plate, now)
    ensures r.Some? ==> forall i :: 0 <= i < |passes| && IsCurrentPass(passes[i], plate, now)
                          ==> passes[i].validUntil <= passes[r.value].validUntil
  {
    if passes == [] then None
    else
      var n := |passes| - 1;
      var best := CurrentPass(passes[..n], plate, now);
      assert forall i :: 0 <= i < n ==> passes[i] == passes[..n][i];
      if IsCurrentPass(passes[n], plate, now) && (best.None? || passes[best.value].validUntil < passes[n].validUntil)
      then Some(n) else best
  }

  predicate HasLivePass(passes: seq<Pass>, plate: string) {
    exists i :: 0 <= i < |passes| && IsLivePass(passes[i], plate)
  }

  predicate InWindow(v: Vehicle, now: Instant) {
    v.validFrom.GetOr(now) <= now <= v.validUntil.GetOr(now)
  }

  /** A mismatch needs both sides known and different, ignoring case and surrounding blanks. */
  predicate Mismatch(registered: Option<string>, detected: Option<string>) {
    && registered.Some? && detected.Some?
    && Trim(registered.value) != "" && Trim(detected.value) != ""
    && !EqualIgnoringCase(Trim(registered.value), Trim(detected.value))
  }

  // ---------------------------------------------------------------- resolve

  /** What the registry held when each lookup was made; other work may change it in between. */
  datatype Sights = Sights(
    block: Registry, vehicle: Registry, currentPass: Registry, anyPass: Registry, vip: Registry, alert: Registry)

  function AllFrom(reg: Registry): Sights { Sights(reg, reg, reg, reg, reg, reg) }

  /** The classification, and the visitor pass to be checked in. */
  function Classify(job: CommitJob, seen: Sights, faults: Faults, now: Instant): (r: (Resolution, Option<nat>))
    ensures r.1.Some? ==> r.1.value < |seen.currentPass.passes|
  {
    var plate := job.plateNorm;
    if plate == "" || !IsPlausiblePlate(plate) then (OfStatus(Unmatched, "none"), None)
    else if faults.block then (OfStatus(Exception, "system"), None)
    else if OnList(seen.block, plate, Block) then
      var severity := seen.block.watchlist[plate].severity;
      (OfStatus(Blocked, "watchlist").(severity := if severity == "" then "critical" else severity), None)
    else
      var vehicle := FindVehicle(seen.vehicle, faults, plate);
      if vehicle.Some? then
        if !InWindow(vehicle.value, now)
           || Mismatch(vehicle.value.color, job.color)
           || Mismatch(vehicle.value.vehicleType, job.vehicleType)
        then (OfStatus(Exception, "registered_vehicle"), None)
        else (OfStatus(if HasAlert(seen.alert, faults, plate) then Exception else Matched, "registered_vehicle"), None)
      else
        var passes := seen.currentPass.passes;
        var pass := if faults.currentPass then None else CurrentPass(passes, plate, now);
        if pass.Some? then
          var arrives := passes[pass.value].status == "active" && job.direction != "outbound";
          (OfStatus(if HasAlert(seen.alert, faults, plate) then Exception else Matched, "visitor_pass"),
           if arrives then pass else None)
        else if !faults.anyPass && HasLivePass(seen.anyPass.passes, plate) then (OfStatus(Exception, "visitor_pass"), None)
        else if !faults.vip && OnList(seen.vip, plate, Vip) then (OfStatus(Matched, "watchlist"), None)
        else if HasAlert(seen.alert, faults, plate) then (OfStatus(Exception, "watchlist"), None)
        else (OfStatus(Unmatched, "none"), None)
  }

  /** The classification by one registry, and that registry after the automatic check-in of a visitor pass. */
  function Resolve(job: CommitJob, reg: Registry, faults: Faults, now: Instant): (Resolution, Registry) {
    var (resolution, arrival) := Classify(job, AllFrom(reg), faults, now);
    (resolution, if arrival.Some? && !faults.checkIn then CheckedIn(reg, arrival.value) else reg)
  }

  function CheckedIn(reg: Registry, i: nat): Registry
    requires i < |reg.passes|
  {
    reg.(passes := reg.passes[i := reg.passes[i].(status := "checked_in")])
  }

  // ---------------------------------------------------------------- what the rows say of a plate

  /** Three to ten characters, a letter and a digit among them. */
  ghost predicate Readable(plate: string) {
    && 3 <= |plate| <= 10
    && (exists i :: 0 <= i < |plate| && ('a' <= plate[i] <= 'z' || 'A' <= plate[i] <= 'Z'))
    && (exists i :: 0 <= i < |plate| && '0' <= plate[i] <= '9')
  }

  ghost predicate HasWatch(reg: Registry, plate: string, kind: WatchKind) {
    exists severity :: plate in reg.watchlist && reg.watchlist[plate] == Watch(kind, true, severity)
  }

  ghost predicate HasVehicle(reg: Registry, plate: string) {
    plate in reg.vehicles && reg.vehicles[plate].active
  }

  /** A visitor who may be on the premises: expected, or checked in already. */
  ghost predicate HasVisitor(p: Pass, plate: string) {
    p.plate == Some(plate) && (p.status == "active" || p.status == "checked_in")
  }

  ghost predicate Expects(passes: seq<Pass>, plate: string) {
    exists i :: 0 <= i < |passes| && HasVisitor(passes[i], plate)
  }

  ghost predicate ExpectsNow(passes: seq<Pass>, plate: string, now: Instant) {
    exists i :: 0 <= i < |passes| && HasVisitor(passes[i], plate) && passes[i].validFrom <= now <= passes[i].validUntil
  }

  ghost predicate SameLetter(a: char, b: char) {
    a == b || ('a' <= a <= 'z' && a as int == b as int + 32) || ('A' <= a <= 'Z' && a as int + 32 == b as int)
  }

  /** The same letters up to case, whatever whitespace stands around them. */
  ghost predicate SameText(a: string, b: string) {
    exists x, y :: IsCore(a, x) && IsCore(b, y) && |x| == |y| && forall i :: 0 <= i < |x| ==> SameLetter(x[i], y[i])
  }

  /** The registered and the observed attribute do not contradict each other: one is not given, or they are the same text. */
  ghost predicate Agrees(registered: Option<string>, detected: Option<string>) {
    || registered.None? || detected.None? || IsBlank(registered.value) || IsBlank(detected.value)
    || SameText(registered.value, detected.value)
  }

  /** The registered vehicle as observed, within the time it is registered for. */
  ghost predicate Admits(v: Vehicle, job: CommitJob, now: Instant) {
    && (v.validFrom.Some? ==> v.validFrom.value <= now) && (v.validUntil.Some? ==> now <= v.validUntil.value)
    && Agrees(v.color, job.color) && Agrees(v.vehicleType, job.vehicleType)
  }

  lemma ReadableIff(plate: string)
    ensures IsPlausiblePlate(plate) <==> Readable(plate)
  {
  }

  lemma PlausibleIsNonEmpty(plate: string)
    requires IsPlausiblePlate(plate)
    ensures plate != ""
  {
  }

  lemma WatchIff(reg: Registry, plate: string, kind: WatchKind)
    ensures OnList(reg, plate, kind) <==> HasWatch(reg, plate, kind)
  {
    if OnList(reg, plate, kind) { assert reg.watchlist[plate] == Watch(kind, true, reg.watchlist[plate].severity); }
  }

  lemma VisitorIff(passes: seq<Pass>, plate: string, now: Instant)
    ensures forall i :: 0 <= i < |passes| ==> (IsLivePass(passes[i], plate) <==> HasVisitor(passes[i], plate))
    ensures HasLivePass(passes, plate) <==> Expects(passes, plate)
    ensures CurrentPass(passes, plate, now).Some? <==> ExpectsNow(passes, plate, now)
  {
    assert forall i :: 0 <= i < |passes| ==> (IsLivePass(passes[i], plate) <==> HasVisitor(passes[i], plate));
    var pass := CurrentPass(passes, plate, now);
    assert pass.Some? ==> HasVisitor(passes[pass.value], plate) && passes[pass.value].validFrom <= now <= passes[pass.value].validUntil;
    forall i | 0 <= i < |passes| && HasVisitor(passes[i], plate) && passes[i].validFrom <= now <= passes[i].validUntil
      ensures IsCurrentPass(passes[i], plate, now)
    {
    }
  }

  lemma SameLetterIff(a: char, b: char)
    ensures ToUpper(a) == ToUpper(b) <==> SameLetter(a, b)
  {
  }

  lemma SameUpperIff(x: string, y: string)
    ensures EqualIgnoringCase(x, y) <==> |x| == |y| && forall i :: 0 <= i < |x| ==> SameLetter(x[i], y[i])
  {
    hide ToUpper, SameLetter;
    if |x| == |y| {
      forall i | 0 <= i < |x| ensures Uppercase(x)[i] == Uppercase(y)[i] <==> SameLetter(x[i], y[i]) {
        SameLetterIff(x[i], y[i]);
      }
      assert Uppercase(x) == Uppercase(y) <==> forall i :: 0 <= i < |x| ==> Uppercase(x)[i] == Uppercase(y)[i];
    } else {
      assert |Uppercase(x)| != |Uppercase(y)|;
    }
  }

  lemma SameTextIff(a: string, b: string)
    ensures SameText(a, b) <==> EqualIgnoringCase(Trim(a), Trim(b))
  {
    BlankIsTrimmedAway(a);
    BlankIsTrimmedAway(b);
    SameUpperIff(Trim(a), Trim(b));
    hide IsCore, Trim, EqualIgnoringCase, SameLetter;
    if SameText(a, b) {
      var x, y :| IsCore(a, x) && IsCore(b, y) && |x| == |y| && forall i :: 0 <= i < |x| ==> SameLetter(x[i], y[i]);
      CoreIsTrimmed(a, x);
      CoreIsTrimmed(b, y);
    }
  }

  lemma AgreesIff(registered: Option<string>, detected: Option<string>)
    ensures Mismatch(registered, detected) <==> !Agrees(registered, detected)
  {
    if registered.Some? && detected.Some? {
      BlankIsTrimmedAway(registered.value);
      BlankIsTrimmedAway(detected.value);
      SameTextIff(registered.value, detected.value);
      hide IsBlank, Trim, EqualIgnoringCase, SameText;
    }
  }

  lemma AdmitsIff(v: Vehicle, job: CommitJob, now: Instant)
    ensures Admits(v, job, now) <==>
      InWindow(v, now) && !Mismatch(v.color, job.color) && !Mismatch(v.vehicleType, job.vehicleType)
  {
    AgreesIff(v.color, job.color);
    AgreesIff(v.vehicleType, job.vehicleType);
    hide Mismatch, Agrees;
  }

  // ---------------------------------------------------------------- safety under failures

  /** A row that entitled the plate to enter at `now`, in the registry as its own lookup met it. */
  ghost predicate Entitled(job: CommitJob, seen: Sights, now: Instant) {
    var plate := job.plateNorm;
    || (HasVehicle(seen.vehicle, plate) && Admits(seen.vehicle.vehicles[plate], job, now))
    || ExpectsNow(seen.currentPass.passes, plate, now)
    || HasWatch(seen.vip, plate, Vip)
  }

  /**
   Whatever fails, and whatever changes between the lookups, a match needs a readable plate, a block-list lookup
   that found no active block row, and an entitling row.
   */
  lemma MatchIsEarned(job: CommitJob, seen: Sights, faults: Faults, now: Instant)
    requires Classify(job, seen, faults, now).0.authStatus == Matched
    ensures Readable(job.plateNorm)
    ensures !HasWatch(seen.block, job.plateNorm, Block) && !faults.block
    ensures Entitled(job, seen, now)
  {
    ReadableIff(job.plateNorm);
    WatchIff(seen.block, job.plateNorm, Block);
    WatchIff(seen.vip, job.plateNorm, Vip);
    VisitorIff(seen.currentPass.passes, job.plateNorm, now);
    if HasVehicle(seen.vehicle, job.plateNorm) { AdmitsIff(seen.vehicle.vehicles[job.plateNorm], job, now); }
    hide IsPlausiblePlate, Readable, OnList, HasWatch, CurrentPass, ExpectsNow, Mismatch, InWindow, Admits, HasLivePass;
  }

  /** The row that decides, when every lookup answers: an active vehicle, else a current pass, else a VIP mark. */
  ghost predicate Cleared(job: CommitJob, reg: Registry, now: Instant) {
    var plate := job.plateNorm;
    if HasVehicle(reg, plate) then Admits(reg.vehicles[plate], job, now) && !HasWatch(reg, plate, Alert)
    else if ExpectsNow(reg.passes, plate, now) then !HasWatch(reg, plate, Alert)
    else HasWatch(reg, plate, Vip) && !Expects(reg.passes, plate)
  }

  /** The registry holds nothing on the plate: no active vehicle or watch row and no live pass. */
  ghost predicate Unknown(reg: Registry, plate: string) {
    && !HasVehicle(reg, plate) && !Expects(reg.passes, plate)
    && !HasWatch(reg, plate, Block) && !HasWatch(reg, plate, Vip) && !HasWatch(reg, plate, Alert)
  }

  /** The table that decided. */
  ghost function SourceOf(job: CommitJob, reg: Registry): string {
    var plate := job.plateNorm;
    if !Readable(plate) || Unknown(reg, plate) then "none"
    else if HasWatch(reg, plate, Block) then "watchlist"
    else if HasVehicle(reg, plate) then "registered_vehicle"
    else if Expects(reg.passes, plate) then "visitor_pass"
    else "watchlist"
  }

  /**
   With every lookup answering, the answer is decided by the rows alone: no match or block for an unreadable
   plate, blocked by a block row before anything else, matched exactly when the deciding row clears the plate,
   unmatched exactly when nothing is known of it, and an exception for guard review in every other case.
   A plate that would be blocked stays blocked under every failure but that of the block lookup itself.
   */
  lemma StatusIff(job: CommitJob, reg: Registry, faults: Faults, now: Instant)
    ensures var (answer, plate) := (Resolve(job, reg, NO_FAULTS, now).0, job.plateNorm);
      && answer.source == SourceOf(job, reg)
      && if !Readable(plate) then answer.authStatus == Unmatched
         else
           && (answer.authStatus == Blocked <==> HasWatch(reg, plate, Block))
           && (answer.authStatus == Matched <==> !HasWatch(reg, plate, Block) && Cleared(job, reg, now))
           && (answer.authStatus == Unmatched <==> Unknown(reg, plate))
    ensures Resolve(job, reg, faults, now).0.authStatus == Blocked <==>
            !faults.block && Resolve(job, reg, NO_FAULTS, now).0.authStatus == Blocked
  {
    hide *;
    AnswerIff(job, reg, now);
    BlockStays(job, reg, faults, now);
  }

  lemma BlockStays(job: CommitJob, reg: Registry, faults: Faults, now: Instant)
    ensures Resolve(job, reg, faults, now).0.authStatus == Blocked <==>
            !faults.block && Resolve(job, reg, NO_FAULTS, now).0.authStatus == Blocked
  {
    hide IsPlausiblePlate, OnList, CurrentPass, Mismatch, InWindow, HasLivePass;
  }

  lemma AnswerIff(job: CommitJob, reg: Registry, now: Instant)
    ensures var (answer, plate) := (Resolve(job, reg, NO_FAULTS, now).0, job.plateNorm);
      && answer.source == SourceOf(job, reg)
      && if !Readable(plate) then answer.authStatus == Unmatched
         else
           && (answer.authStatus == Blocked <==> HasWatch(reg, plate, Block))
           && (answer.authStatus == Matched <==> !HasWatch(reg, plate, Block) && Cleared(job, reg, now))
           && (answer.authStatus == Unmatched <==> Unknown(reg, plate))
  {
    var plate := job.plateNorm;
    ReadableIff(plate);
    WatchIff(reg, plate, Block);
    WatchIff(reg, plate, Vip);
    WatchIff(reg, plate, Alert);
    VisitorIff(reg.passes, plate, now);
    if HasVehicle(reg, plate) { AdmitsIff(reg.vehicles[plate], job, now); }
    if IsPlausiblePlate(plate) { PlausibleIsNonEmpty(plate); }
    CurrentIsLive(reg.passes, plate, now);
    WatchKinds(reg, plate);
    hide IsPlausiblePlate, Readable, OnList, HasWatch, CurrentPass, ExpectsNow, Expects, Mismatch, InWindow, Admits, HasLivePass;
  }

  /** A registered vehicle in its time is matched if what was seen of it agrees with the register, and excepted if not. */
  lemma AttributesDecide(job: CommitJob, reg: Registry, now: Instant)
    requires Readable(job.plateNorm) && HasVehicle(reg, job.plateNorm)
    requires !HasWatch(reg, job.plateNorm, Block) && !HasWatch(reg, job.plateNorm, Alert)
    requires var v := reg.vehicles[job.plateNorm];
      (v.validFrom.Some? ==> v.validFrom.value <= now) && (v.validUntil.Some? ==> now <= v.validUntil.value)
    ensures var v := reg.vehicles[job.plateNorm];
      Resolve(job, reg, NO_FAULTS, now).0.authStatus
      == if Agrees(v.color, job.color) && Agrees(v.vehicleType, job.vehicleType) then Matched else Exception
  {
    StatusIff(job, reg, NO_FAULTS, now);
    hide Resolve, Readable, HasWatch, Agrees;
  }

  lemma WatchKinds(reg: Registry, plate: string)
    ensures HasWatch(reg, plate, Block) ==> !HasWatch(reg, plate, Vip) && !HasWatch(reg, plate, Alert)
    ensures HasWatch(reg, plate, Vip) ==> !HasWatch(reg, plate, Alert)
  {
  }

  predicate IsBlockSeverity(severity: string, reg: Registry, plate: string) {
    && plate in reg.watchlist
    && severity == if reg.watchlist[plate].severity == "" then "critical" else reg.watchlist[plate].severity
  }

  /** How an answer is filed: a match passes on its own, everything else waits for a guard, a block with its row's severity. */
  lemma AnswerIsFiled(job: CommitJob, seen: Sights, faults: Faults, now: Instant)
    ensures var r := Classify(job, seen, faults, now).0;
      && r.authorization == r.authStatus
      && r.workflow == (if r.authStatus == Matched then "auto" else "pending")
      && (r.authStatus == Matched ==> r.severity == "info")
      && (r.authStatus == Blocked ==> IsBlockSeverity(r.severity, seen.block, job.plateNorm))
      && (r.authStatus == Exception || r.authStatus == Unmatched ==> r.severity == "warning")
  {
    hide IsPlausiblePlate, InWindow, Mismatch, CurrentPass, HasLivePass;
  }

  /** The visitor pass that covers the instant with the latest end, the first row of several such. */
  ghost predicate IsVisitorsPass(passes: seq<Pass>, i: nat, plate: string, now: Instant) {
    && i < |passes| && HasVisitor(passes[i], plate) && passes[i].validFrom <= now <= passes[i].validUntil
    && (forall j :: 0 <= j < |passes| && HasVisitor(passes[j], plate) && passes[j].validFrom <= now <= passes[j].validUntil
          ==> passes[j].validUntil < passes[i].validUntil || (passes[j].validUntil == passes[i].validUntil && i <= j))
  }

  /** The resolution comes as far as the visitor passes. */
  ghost predicate AsksForVisitors(job: CommitJob, reg: Registry, faults: Faults) {
    && Readable(job.plateNorm) && !faults.block && !HasWatch(reg, job.plateNorm, Block)
    && (faults.vehicle || !HasVehicle(reg, job.plateNorm))
  }

  /**
   Exactly the pass of a visitor who arrives is checked in: its row alone changes, in its status alone, when the
   resolution comes to it, it was not checked in, the vehicle is not leaving, and the database takes both statements.
   */
  lemma ArrivalIsCheckedIn(job: CommitJob, reg: Registry, faults: Faults, now: Instant)
    ensures var reg' := Resolve(job, reg, faults, now).1;
      && reg'.watchlist == reg.watchlist && reg'.vehicles == reg.vehicles && |reg'.passes| == |reg.passes|
      && forall i :: 0 <= i < |reg.passes| ==>
           reg'.passes[i] ==
           if && AsksForVisitors(job, reg, faults) && !faults.currentPass && !faults.checkIn
              && IsVisitorsPass(reg.passes, i, job.plateNorm, now)
              && reg.passes[i].status == "active" && job.direction != "outbound"
           then reg.passes[i].(status := "checked_in") else reg.passes[i]
  {
    var plate := job.plateNorm;
    ReadableIff(plate);
    if IsPlausiblePlate(plate) { PlausibleIsNonEmpty(plate); }
    WatchIff(reg, plate, Block);
    ChosenIsVisitors(reg.passes, plate, now);
    hide IsPlausiblePlate, Readable, OnList, HasWatch, CurrentPass, IsVisitorsPass, Mismatch, InWindow, HasLivePass;
  }

  lemma {:induction false} ChosenIsVisitors(passes: seq<Pass>, plate: string, now: Instant)
    ensures forall i: nat :: CurrentPass(passes, plate, now) == Some(i) <==> IsVisitorsPass(passes, i, plate, now)
  {
    if passes != [] {
      var n := |passes| - 1;
      ChosenIsVisitors(passes[..n], plate, now);
      assert forall j :: 0 <= j < n ==> passes[..n][j] == passes[j];
      VisitorIff(passes, plate, now);
      var best := CurrentPass(passes[..n], plate, now);
    }
  }

  /** Rows of the same table, alike but for the check-in mark on some live passes. */
  ghost predicate SamePasses(a: seq<Pass>, b: seq<Pass>) {
    && |a| == |b|
    && forall i :: 0 <= i < |a| ==>
         && a[i].plate == b[i].plate && a[i].validFrom == b[i].validFrom && a[i].validUntil == b[i].validUntil
         && (a[i].status == b[i].status || (a[i].status in ["active", "checked_in"] && b[i].status in ["active", "checked_in"]))
  }

  lemma {:induction false} CheckInKeepsCurrent(a: seq<Pass>, b: seq<Pass>, plate: string, now: Instant)
    requires SamePasses(a, b)
    ensures CurrentPass(a, plate, now) == CurrentPass(b, plate, now)
    ensures HasLivePass(a, plate) <==> HasLivePass(b, plate)
  {
    assert forall i :: 0 <= i < |a| ==> (IsLivePass(a[i], plate) <==> IsLivePass(b[i], plate));
    if a != [] {
      CheckInKeepsCurrent(a[..|a| - 1], b[..|b| - 1], plate, now);
    }
  }

  /** The decision reads the passes only through these two questions. */
  lemma PassesReadTwice(job: CommitJob, reg: Registry, reg': Registry, faults: Faults, now: Instant)
    requires reg'.watchlist == reg.watchlist && reg'.vehicles == reg.vehicles
    requires CurrentPass(reg'.passes, job.plateNorm, now) == CurrentPass(reg.passes, job.plateNorm, now)
    requires HasLivePass(reg'.passes, job.plateNorm) <==> HasLivePass(reg.passes, job.plateNorm)
    ensures Resolve(job, reg', faults, now).0 == Resolve(job, reg, faults, now).0
  {
    hide IsPlausiblePlate, InWindow, Mismatch, CurrentPass, HasLivePass;
  }

  lemma CheckInKeepsRows(job: CommitJob, reg: Registry, faults: Faults, now: Instant)
    ensures var reg' := Resolve(job, reg, faults, now).1;
      reg'.watchlist == reg.watchlist && reg'.vehicles == reg.vehicles && SamePasses(reg.passes, reg'.passes)
  {
  }

  /** The automatic check-in changes no later decision: not for this job, not for any other. */
  lemma CheckInIsInvisible(job: CommitJob, reg: Registry, faults: Faults, now: Instant,
                           later: CommitJob, laterFaults: Faults, at: Instant)
    ensures var reg' := Resolve(job, reg, faults, now).1;
      Resolve(later, reg', laterFaults, at).0 == Resolve(later, reg, laterFaults, at).0
  {
    var reg' := Resolve(job, reg, faults, now).1;
    CheckInKeepsRows(job, reg, faults, now);
    CheckInKeepsCurrent(reg.passes, reg'.passes, later.plateNorm, at);
    PassesReadTwice(later, reg, reg', laterFaults, at);
  }

  /** Resolving again at the same instant, with the same lookups answering, gives the same status. */
  lemma ResolveAgain(job: CommitJob, reg: Registry, faults: Faults, now: Instant)
    ensures var (first, reg') := Resolve(job, reg, faults, now);
      Resolve(job, reg', faults, now).0 == first
  {
    CheckInIsInvisible(job, reg, faults, now, job, faults, now);
  }

  // ---------------------------------------------------------------- which failures admit a plate

  /** The failure turns an answer that was no match into a match, on some registry. */
  ghost predicate CanAdmit(faults: Faults) {
    exists job: CommitJob, reg, now ::
      && Resolve(job, reg, faults, now).0.authStatus == Matched
      && Resolve(job, reg, NO_FAULTS, now).0.authStatus != Matched
  }

  /**
   A lookup that holds a plate back goes unanswered, and a row behind it still admits: the vehicle row with
   the current-pass or VIP lookup answering, the any-pass row with the VIP lookup answering, or the alert row
   with the vehicle lookup answering; and the block-list lookup answered.
   */
  predicate LetsPast(faults: Faults) {
    && !faults.block
    && (|| (faults.vehicle && !(faults.currentPass && faults.vip))
        || (faults.anyPass && !faults.vip)
        || (faults.alert && !faults.vehicle))
  }

  /** The failure patterns that can turn another answer into a match, exactly. */
  lemma FaultsAdmitIff(faults: Faults)
    ensures CanAdmit(faults) <==> LetsPast(faults)
  {
    hide Resolve;
    if CanAdmit(faults) {
      var job, reg, now :|
        && Resolve(job, reg, faults, now).0.authStatus == Matched
        && Resolve(job, reg, NO_FAULTS, now).0.authStatus != Matched;
      AdmittingLetsPast(job, reg, faults, now);
    }
    if LetsPast(faults) {
      var job, reg := AdmittedBy(faults);
      assert CanAdmit(faults);
    }
  }

  lemma AdmittingLetsPast(job: CommitJob, reg: Registry, faults: Faults, now: Instant)
    requires Resolve(job, reg, faults, now).0.authStatus == Matched
    requires Resolve(job, reg, NO_FAULTS, now).0.authStatus != Matched
    ensures LetsPast(faults)
  {
    CurrentIsLive(reg.passes, job.plateNorm, now);
  }

  lemma CurrentIsLive(passes: seq<Pass>, plate: string, now: Instant)
    ensures CurrentPass(passes, plate, now).Some? ==> HasLivePass(passes, plate)
  {
    var pass := CurrentPass(passes, plate, now);
    assert pass.Some? ==> IsLivePass(passes[pass.value], plate);
  }

  const PLATE := "ABC1"
  const SOME_JOB := CommitJob("k", 1, "cam", None, None, "inbound", PLATE, PLATE, 0.9, None, None, None, None, "{}", 3, true, "worker", "system")
  const EXPIRED := Vehicle(true, None, None, None, Some(0))
  const STANDING := Vehicle(true, None, None, None, None)

  lemma PlateIsPlausible()
    ensures IsPlausiblePlate(PLATE) && PLATE != ""
  {
    assert IsUpper(PLATE[0]) && IsDigit(PLATE[3]);
  }

  /** A registry for each way past: an expired vehicle before a pass or a VIP mark, an expired pass before a VIP mark, an alert. */
  lemma AdmittedBy(faults: Faults) returns (job: CommitJob, reg: Registry)
    requires LetsPast(faults)
    ensures Resolve(job, reg, faults, 5).0.authStatus == Matched
    ensures Resolve(job, reg, NO_FAULTS, 5).0.authStatus != Matched
  {
    PlateIsPlausible();
    hide IsPlausiblePlate;
    job := SOME_JOB;
    if faults.vehicle && !faults.currentPass {
      reg := Registry(map[], map[PLATE := EXPIRED], [Pass(Some(PLATE), "active", 0, 9)]);
      assert IsCurrentPass(reg.passes[0], PLATE, 5);
      assert CurrentPass(reg.passes, PLATE, 5).Some?;
    } else if faults.vehicle && !faults.vip {
      reg := Registry(map[PLATE := Watch(Vip, true, "")], map[PLATE := EXPIRED], []);
    } else if faults.anyPass && !faults.vip {
      reg := Registry(map[PLATE := Watch(Vip, true, "")], map[], [Pass(Some(PLATE), "active", 0, 1)]);
      assert CurrentPass(reg.passes, PLATE, 5).None?;
      assert IsLivePass(reg.passes[0], PLATE);
      assert HasLivePass(reg.passes, PLATE);
    } else {
      reg := Registry(map[PLATE := Watch(Alert, true, "")], map[PLATE := STANDING], []);
    }
  }

  /** An expired registration answers as an exception, and as a match when its lookup fails for a VIP plate. */
  lemma ExpiredVehicleSlipsPast()
    ensures exists job: CommitJob, reg, faults, now ::
      && Resolve(job, reg, faults, now).0.authStatus == Matched
      && Resolve(job, reg, NO_FAULTS, now).0.authStatus == Exception
  {
    PlateIsPlausible();
    hide IsPlausiblePlate;
    var reg := Registry(map[PLATE := Watch(Vip, true, "")], map[PLATE := EXPIRED], []);
    var faults := NO_FAULTS.(vehicle := true);
    assert Resolve(SOME_JOB, reg, faults, 5).0.authStatus == Matched;
    assert Resolve(SOME_JOB, reg, NO_FAULTS, 5).0.authStatus == Exception;
  }
}
