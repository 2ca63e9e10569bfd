/** The gate object. Every call that can fail computes first and assigns last. */
module InputGate {
  import opened Wrappers
  import opened Words
  import opened Input

  class InputGate {
    var latest: Option<Binding>
    var generation: u64
    var active: Option<Active>
    var released: u64

    constructor ()
      ensures St() == CLOSED
    {
      latest, generation, active, released := None, 0, None, 0;
    }

    ghost function St(): Gate
      reads this
    {
      Gate(latest, generation, active, released)
    }

    method BindInput(b: Binding, classes: Mask, watchdogUs: u64, now: u64) returns (r: Result<BindingOutcome, InvalidMessage>)
      modifies this
      ensures (St(), r) == ApplyBinding(old(St()), b, classes, watchdogUs, now)
    {
      if !ValidBinding(b) {
        return Err(InvalidMessage);
      }
      if latest.Some? {
        if b.epoch < latest.value.epoch {
          return Err(InvalidMessage);
        }
        if b.epoch == latest.value.epoch {
          return if b == latest.value then Ok(ExactRetry) else Err(InvalidMessage);
        }
      }
      if generation == U64_MAX || (active.Some? && released == U64_MAX) {
        return Err(InvalidMessage);
      }
      var tuple := TupleFor(b, generation + 1);
      var effective := classes * b.requested;
      var outcome, next := Disabled, None;
      if Disables(b) {
      } else if effective == {} || !GoodWatchdog(watchdogUs) {
        outcome := Denied(tuple);
      } else {
        if now + watchdogUs > U64_MAX {
          return Err(InvalidMessage);
        }
        outcome, next := Enabled(tuple), Some(Active(tuple, effective, watchdogUs, now + watchdogUs, 0));
      }
      latest := Some(b);
      generation := generation + 1;
      released := if active.Some? then released + 1 else released;
      active := next;
      return Ok(outcome);
    }

    method RenewActive(tuple: Tuple, sequence: u64, watchdogUs: u64, at: u64) returns (r: Result<(), InvalidMessage>)
      modifies this`active
      ensures (St(), r) == RenewLease(old(St()), tuple, sequence, watchdogUs, at)
    {
      if active.None? {
        return Err(InvalidMessage);
      }
      var a := active.value;
      if a.binding != tuple || sequence <= a.renewalSequence || at >= a.deadline || watchdogUs != a.timeoutUs {
        return Err(InvalidMessage);
      }
      if at + a.timeoutUs > U64_MAX {
        return Err(InvalidMessage);
      }
      active := Some(a.(renewalSequence := sequence, deadline := at + a.timeoutUs));
      return Ok(());
    }

    method RevokeActive() returns (r: Result<u64, InvalidMessage>)
      modifies this
      ensures (St(), r) == RevokeGrant(old(St()))
    {
      if generation == U64_MAX || (active.Some? && released == U64_MAX) {
        return Err(InvalidMessage);
      }
      generation := generation + 1;
      released := if active.Some? then released + 1 else released;
      active := None;
      return Ok(generation);
    }

    method Admit(e: Event, surfaceGeneration: u64, now: u64) returns (r: Result<(), Rejection>)
      ensures r == Authorize(St(), e, surfaceGeneration, now)
    {
      if active.None? {
        return Err(NoActiveGrant);
      }
      var a := active.value;
      if e.binding != a.binding {
        return Err(StaleTuple);
      }
      if e.binding.surfaceGeneration != surfaceGeneration {
        return Err(SurfaceGenerationChanged);
      }
      if now >= a.deadline {
        return Err(WatchdogExpired);
      }
      if ClassOf(e) !in a.classes {
        return Err(ClassNotGranted);
      }
      return Ok(());
    }

    /** The operation sees an event only if the gate authorizes that event now. */
    method Dispatch<R>(e: Event, surfaceGeneration: u64, now: u64, operation: Event -> R) returns (r: Result<R, Rejection>)
      ensures r.Ok? <==> Authorize(St(), e, surfaceGeneration, now).Ok?
      ensures r.Ok? ==> r.value == operation(e)
      ensures r.Err? ==> Authorize(St(), e, surfaceGeneration, now) == Err(r.error)
    {
      var admitted := Admit(e, surfaceGeneration, now);
      if admitted.Err? {
        return Err(admitted.error);
      }
      return Ok(operation(e));
    }
  }
}
