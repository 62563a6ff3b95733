/** Barrier actuation: the ordered guards in front of a relay pulse, automatic and manual. */
module Gate {
  import opened Wrappers
  import opened Resolve

  datatype Policy = Policy(enabled: bool, outputPort: int, pulseMs: int)

  /** One relay command sent to a camera. */
  datatype Pulse = Pulse(camera: string, port: int, millis: nat)

  datatype Outcome = Opened(camera: string, reference: string, mode: string, port: int, millis: nat)
                   | OpenFailed(camera: string, reference: string, mode: string, port: int, error: string)

  datatype OpenError = NoPolicy | KillSwitchOn | DeviceFailed(reason: string)

  /** A policy lookup that fails reads as "not configured". */
  function PolicyOf(lookup: Lookup<Policy>): Option<Policy> {
    match lookup
    case Found(p) => Some(p)
    case _ => None
  }

  /** A kill-switch lookup that fails reads as "off". */
  predicate KillSwitchReadsOn(lookup: Lookup<bool>) {
    lookup.Found? && lookup.row
  }

  function PulseWidth(ms: int): nat { if ms < 0 then 0 else ms }

  predicate AutoOpens(status: AuthStatus, policy: Lookup<Policy>, kill: Lookup<bool>) {
    status == Matched && PolicyOf(policy).Some? && PolicyOf(policy).value.enabled && !KillSwitchReadsOn(kill)
  }

  predicate ManualOpens(policy: Lookup<Policy>, kill: Lookup<bool>) {
    PolicyOf(policy).Some? && !KillSwitchReadsOn(kill)
  }

  function EventOf(camera: string, reference: string, mode: string, policy: Policy, device: Result<nat, string>): Outcome {
    match device
    case Ok(ms) => Opened(camera, reference, mode, policy.outputPort, ms)
    case Err(e) => OpenFailed(camera, reference, mode, policy.outputPort, e)
  }

  /** One more command: the policy's port of that camera, for the policy's width, a negative one counting as zero. */
  ghost predicate IsPulsed(before: seq<Pulse>, after: seq<Pulse>, camera: string, policy: Policy) {
    && |after| == |before| + 1 && before == after[..|before|]
    && after[|before|].camera == camera && after[|before|].port == policy.outputPort
    && (if policy.pulseMs >= 0 then after[|before|].millis == policy.pulseMs else after[|before|].millis == 0)
  }

  /** One more event row, which says whose pulse it was, how it came about and what the device answered. */
  ghost predicate IsLogged(before: seq<Outcome>, after: seq<Outcome>, camera: string, reference: string, mode: string,
                           policy: Policy, device: Result<nat, string>) {
    && |after| == |before| + 1 && before == after[..|before|]
    && var e := after[|before|];
    && (e.camera, e.reference, e.mode, e.port) == (camera, reference, mode, policy.outputPort)
    && if device.Ok? then e.Opened? && e.millis == device.value else e.OpenFailed? && e.error == device.error
  }

  class GateActuator {
    var pulses: seq<Pulse>
    var events: seq<Outcome>

    constructor ()
      ensures pulses == [] && events == []
    {
      pulses, events := [], [];
    }

    method SendPulse(camera: string, port: int, pulseMs: int)
      modifies `pulses
      ensures pulses == old(pulses) + [Pulse(camera, port, PulseWidth(pulseMs))]
    {
      pulses := pulses + [Pulse(camera, port, PulseWidth(pulseMs))];
    }

    /** At most one pulse, only behind all four guards, and never a pulse without its event row. */
    method AutoOpenWith(camera: string, entryEventId: string, status: AuthStatus,
                        policyRow: Lookup<Policy>, killRow: Lookup<bool>, device: Result<nat, string>)
      modifies this
      ensures if status == Matched && policyRow.Found? && policyRow.row.enabled && killRow != Found(true) then
                && IsPulsed(old(pulses), pulses, camera, policyRow.row)
                && IsLogged(old(events), events, camera, entryEventId, "auto", policyRow.row, device)
              else pulses == old(pulses) && events == old(events)
    {
      if status != Matched {
        return;
      }
      var policy := PolicyOf(policyRow);
      if policy.None? {
        return;
      }
      if !policy.value.enabled {
        return;
      }
      if KillSwitchReadsOn(killRow) {
        return;
      }
      SendPulse(camera, policy.value.outputPort, policy.value.pulseMs);
      events := events + [EventOf(camera, entryEventId, "auto", policy.value, device)];
    }

    /** A manual open ignores `enabled`; it still needs a policy row, and the kill-switch still wins. */
    method ManualOpen(camera: string, principal: string,
                      policyRow: Lookup<Policy>, killRow: Lookup<bool>, device: Result<nat, string>)
      returns (r: Result<nat, OpenError>)
      modifies this
      ensures r == if !policyRow.Found? then Err(NoPolicy)
                   else if killRow == Found(true) then Err(KillSwitchOn)
                   else if device.Err? then Err(DeviceFailed(device.error)) else Ok(device.value)
      ensures if policyRow.Found? && killRow != Found(true) then
                && IsPulsed(old(pulses), pulses, camera, policyRow.row)
                && IsLogged(old(events), events, camera, principal, "manual", policyRow.row, device)
              else pulses == old(pulses) && events == old(events)
    {
      var policy := PolicyOf(policyRow);
      if policy.None? {
        return Err(NoPolicy);
      }
      if KillSwitchReadsOn(killRow) {
        return Err(KillSwitchOn);
      }
      SendPulse(camera, policy.value.outputPort, policy.value.pulseMs);
      r := match device case Ok(ms) => Ok(ms) case Err(e) => Err(DeviceFailed(e));
      events := events + [EventOf(camera, principal, "manual", policy.value, device)];
    }
  }

  /** What reading the switch answers. */
  function SwitchRow(on: bool, unreadable: bool): Lookup<bool> {
    if unreadable then Failed else Found(on)
  }

  /** No status and no policy gets a pulse through, automatic or manual. */
  ghost predicate HaltsAll(switch: Lookup<bool>) {
    && (forall status, policy :: !AutoOpens(status, policy, switch))
    && (forall policy :: !ManualOpens(policy, switch))
  }

  /**
   The kill-switch is documented to halt ALL actuation. Turned on, it does so exactly when its row can be read;
   while it cannot, automatic and manual opens go through as if it were off.
   */
  lemma KillSwitchHoldsIffRead(unreadable: bool)
    ensures HaltsAll(SwitchRow(true, unreadable)) <==> !unreadable
    ensures forall status, policy ::
              AutoOpens(status, policy, SwitchRow(true, true)) <==> AutoOpens(status, policy, SwitchRow(false, false))
    ensures forall policy :: ManualOpens(policy, SwitchRow(true, true)) <==> ManualOpens(policy, SwitchRow(false, false))
  {
    if unreadable {
      assert AutoOpens(Matched, Found(Policy(true, 1, 500)), SwitchRow(true, true));
    }
  }
}
