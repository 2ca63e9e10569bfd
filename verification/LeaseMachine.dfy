/** The lease object: its transitions assign the fields in the source's order. */
module LeaseMachine {
  import opened Wrappers
  import opened Words
  import opened Lease

  class LeaseMachine {
    var state: LeaseState
    var revision: u64
    var generation: u64
    const policy: CleanupPolicy
    const graceUs: u64
    var session: Option<u64>
    var fingerprint: Option<Bytes>
    var attempt: Option<Attempt>

    constructor (cleanupPolicy: CleanupPolicy, disconnectGraceUs: u64)
      ensures St() == Issue(cleanupPolicy, disconnectGraceUs)
    {
      state, revision, generation := Issued, 1, 0;
      policy, graceUs := cleanupPolicy, disconnectGraceUs;
      session, fingerprint, attempt := None, None, None;
    }

    ghost function St(): LeaseRecord
      reads this
    {
      LeaseRecord(state, revision, generation, policy, graceUs, session, fingerprint, attempt)
    }

    method AdvanceRevision() returns (r: Result<(), Refusal>)
      modifies this`revision
      ensures r == if old(revision) == U64_MAX then Err(Exhausted) else Ok(())
      ensures revision == if r.Ok? then old(revision) + 1 else old(revision)
    {
      if revision == U64_MAX {
        return Err(Exhausted);
      }
      revision := revision + 1;
      return Ok(());
    }

    method ExactRetry(hash: Hash, q: Request) returns (r: Result<Decision, Refusal>)
      modifies this`attempt
      ensures var (next, outcome) := Retried(hash, old(St()), q);
              St() == next && outcome == Spoken(r)
    {
      if attempt.None? || !Exact(hash, attempt.value, q) {
        return Err(AuthenticationFailed);
      }
      var a := attempt.value;
      attempt := Some(a.(transportLive := true));
      return Ok(ExactReplay(a.sessionId, a.serverNonce, a.welcome));
    }

    method BeginActivation(hash: Hash, q: Request) returns (r: Result<Decision, Refusal>)
      modifies this
      ensures (St(), Spoken(r)) == Activated(hash, old(St()), q)
    {
      if q.sessionId == 0 {
        return Err(BadState);
      }
      if attempt.Some? && attempt.value.resumeFrom.Some? {
        return Err(AuthenticationFailed);
      }
      match state {
        case Issued =>
          state := Reserved;
          var advanced := AdvanceRevision();
          if advanced.Err? {
            return Err(advanced.error);
          }
          session := Some(q.sessionId);
          fingerprint := Some(q.fingerprint);
          attempt := Some(NewAttempt(hash, q, None));
          return Ok(Fresh(q.sessionId, q.serverNonce, q.welcome));
        case Reserved =>
          if fingerprint != Some(q.fingerprint) {
            return Err(AuthenticationFailed);
          }
          r := ExactRetry(hash, q);
        case Active =>
          if fingerprint != Some(q.fingerprint) {
            return Err(AuthenticationFailed);
          }
          if attempt.Some? && !attempt.value.transportLive && !attempt.value.admitted {
            r := ExactRetry(hash, q);
          } else {
            return Err(AuthenticationFailed);
          }
        case _ =>
          return Err(AuthenticationFailed);
      }
    }

    method CommitWelcome(ghost hash: Hash) returns (r: Result<(), Refusal>)
      modifies this
      ensures (St(), Settled(r)) == Step(hash, old(St()), Commit)
    {
      if !state.Reserved? {
        return Err(BadState);
      }
      state := Active;
      r := AdvanceRevision();
    }

    method AdmitPostHello(ghost hash: Hash) returns (r: Result<(), Refusal>)
      modifies this`attempt
      ensures (St(), Settled(r)) == Step(hash, old(St()), Admit)
    {
      if !state.Active? || attempt.None? {
        return Err(BadState);
      }
      attempt := Some(attempt.value.(admitted := true));
      return Ok(());
    }

    method ConfirmTransportLost(clean: bool) returns (r: Result<LeaseState, Refusal>)
      modifies this
      ensures (St(), Stated(r)) == LostTransport(old(St()), clean)
    {
      if !state.Reserved? && !state.Active? {
        return Err(BadState);
      }
      if attempt.Some? {
        attempt := Some(attempt.value.(transportLive := false));
      }
      if !clean {
        if state.Reserved? {
          return Ok(state);
        }
        if attempt.Some? && !attempt.value.admitted {
          return Ok(state);
        }
      }
      if clean || policy == Immediate || graceUs == 0 {
        state, session, fingerprint, attempt := Closed, None, None, None;
      } else {
        state, attempt := Suspended, None;
      }
      var advanced := AdvanceRevision();
      if advanced.Err? {
        return Err(advanced.error);
      }
      return Ok(state);
    }

    method BeginResume(hash: Hash, expected: u64, q: Request) returns (r: Result<Decision, Refusal>)
      modifies this
      ensures (St(), Spoken(r)) == Resumed(hash, old(St()), expected, q)
    {
      if state.Reserved? || state.Active? {
        if fingerprint != Some(q.fingerprint) || session != Some(q.sessionId) {
          return Err(AuthenticationFailed);
        }
        var retryable := attempt.Some? && attempt.value.resumeFrom == Some(expected) && !attempt.value.admitted
                         && (state.Reserved? || !attempt.value.transportLive);
        if !retryable {
          return Err(AuthenticationFailed);
        }
        r := ExactRetry(hash, q);
        return;
      }
      if !state.Suspended? {
        return Err(BadState);
      }
      if expected != generation {
        return Err(StaleResumeGeneration);
      }
      if session != Some(q.sessionId) || fingerprint != Some(q.fingerprint) {
        return Err(AuthenticationFailed);
      }
      if revision == U64_MAX {
        return Err(Exhausted);
      }
      var nextRevision := revision + 1;
      if generation == U64_MAX {
        return Err(Exhausted);
      }
      generation := generation + 1;
      state := Reserved;
      revision := nextRevision;
      attempt := Some(NewAttempt(hash, q, Some(expected)));
      return Ok(Fresh(q.sessionId, q.serverNonce, q.welcome));
    }

    method End(ghost hash: Hash, final: LeaseState) returns (r: Result<(), Refusal>)
      requires final.Revoked? || final.Expired?
      modifies this
      ensures (St(), Settled(r)) == Step(hash, old(St()), if final.Revoked? then Revoke else Expire)
    {
      if Terminal(state) {
        return Err(BadState);
      }
      state, session, fingerprint, attempt := final, None, None, None;
      r := AdvanceRevision();
    }
  }

  function Spoken(r: Result<Decision, Refusal>): Outcome {
    if r.Ok? then Decided(r.value) else Refused(r.error)
  }

  function Settled(r: Result<(), Refusal>): Outcome {
    if r.Ok? then Done else Refused(r.error)
  }

  function Stated(r: Result<LeaseState, Refusal>): Outcome {
    if r.Ok? then Now(r.value) else Refused(r.error)
  }
}
