/** The presenter's grant object, around a gate it owns. */
module InputGrant {
  import opened Wrappers
  import opened Words
  import opened Input
  import opened InputGate
  import opened Grant

  class InputGrant {
    const gate: InputGate
    var watchdogUs: u64
    var renewalSequence: u64
    var lastReason: u64
    var lastState: u64
    var generation: u64

    constructor ()
      ensures fresh(gate) && St() == NO_GRANT
    {
      gate := new InputGate();
      watchdogUs, renewalSequence, lastReason, lastState, generation := 0, 0, 0, STATE_DISABLED, 0;
    }

    ghost function St(): GrantRecord
      reads this, gate
    {
      GrantRecord(gate.St(), watchdogUs, renewalSequence, lastReason, lastState, generation)
    }

    method Apply(b: Binding, e: Eligibility, now: u64) returns (r: Result<GrantOutcome, InvalidMessage>)
      modifies this, gate
      ensures (St(), r) == ApplyGrant(old(St()), b, e, now)
    {
      hide ApplyBinding;
      if Disables(b) {
        var disabled := gate.BindInput(b, {}, 0, now);
        if disabled.Err? {
          RefusedBinding(old(gate.St()), b, {}, 0, now);
          return Err(disabled.error);
        }
        watchdogUs, renewalSequence, lastState, lastReason := 0, 0, STATE_DISABLED, b.reason;
        return Ok(if disabled.value.ExactRetry? then GrantRetry else GrantDisabled);
      }
      var refusal := Refusal(e, b);
      var classes := if refusal.Some? then {} else b.requested * e.capability * KNOWN_MASK;
      var watchdog := Clamp(b.watchdogUs);
      var outcome := gate.BindInput(b, classes, watchdog, now);
      if outcome.Err? {
        RefusedBinding(old(gate.St()), b, classes, watchdog, now);
        return Err(outcome.error);
      }
      match outcome.value {
        case ExactRetry =>
          return Ok(GrantRetry);
        case Enabled(tuple) =>
          generation, watchdogUs, renewalSequence := tuple.generation, watchdog, 0;
          lastState, lastReason := STATE_ENABLED, b.reason;
          return Ok(GrantEnabled);
        case Denied(tuple) =>
          generation, watchdogUs, lastState := tuple.generation, 0, STATE_DENIED;
          lastReason := if refusal.Some? then refusal.value else LOCAL_POLICY;
          return Ok(GrantDenied(lastReason));
        case Disabled =>
          watchdogUs, lastState, lastReason := 0, STATE_DISABLED, b.reason;
          return Ok(GrantDisabled);
      }
    }

    method Revoke(reason: u64) returns (told: Option<Revocation>)
      modifies this, gate
      ensures (St(), told) == RevokeFor(old(St()), reason)
    {
      if gate.active.None? {
        return None;
      }
      var binding := gate.active.value.binding;
      var revoked := gate.RevokeActive();
      if revoked.Err? {
        return None;
      }
      generation, watchdogUs, renewalSequence := revoked.value, 0, 0;
      lastState, lastReason := STATE_DISABLED, reason;
      return Some(Revocation(binding, revoked.value, reason));
    }

    method TakeDueRenewal(now: u64) returns (renewal: Option<Renewal>)
      modifies this, gate
      ensures (St(), renewal) == DueRenewal(old(St()), now)
    {
      if gate.active.None? {
        return None;
      }
      var a := gate.active.value;
      if a.deadline < watchdogUs / 2 {
        return None;
      }
      if now < a.deadline - watchdogUs / 2 {
        return None;
      }
      if renewalSequence == U64_MAX {
        return None;
      }
      renewalSequence := renewalSequence + 1;
      var renewed := gate.RenewActive(a.binding, renewalSequence, watchdogUs, now);
      if renewed.Err? {
        return None;
      }
      return Some(Renewal(renewalSequence, watchdogUs));
    }

    method WatchdogExpired(now: u64) returns (expired: bool)
      ensures expired == Expired(St(), now)
    {
      expired := gate.active.Some? && now >= gate.active.value.deadline;
    }
  }

  lemma {:induction false} RefusedBinding(g: Gate, b: Binding, classes: Mask, us: u64, now: u64)
    requires ApplyBinding(g, b, classes, us, now).1.Err?
    ensures ApplyBinding(g, b, classes, us, now).0 == g
  {
    FailureChangesNothing(g, Op.Apply(b, classes, us, now));
  }
}
