/**
 Delegated session leases: activation and resumption whose answers can be asked for again, bounded
 suspension, and terminal states. SHA-256 is an arbitrary function.
 */
module Lease {
  import opened Wrappers
  import opened Words

  type Bytes = seq<byte>
  type Hash = Bytes -> Bytes

  datatype CleanupPolicy = Immediate | SuspendOnUncleanLoss
  datatype LeaseState = Issued | Reserved | Active | Suspended | Closed | Revoked | Expired
  datatype Attempt = Attempt(attemptId: Bytes, clientNonce: Bytes, helloHash: Bytes, sessionId: u64, serverNonce: Bytes,
                             welcome: Bytes, transportLive: bool, admitted: bool, resumeFrom: Option<u64>)
  datatype LeaseRecord = LeaseRecord(state: LeaseState, revision: u64, generation: u64, policy: CleanupPolicy, graceUs: u64,
                         session: Option<u64>, fingerprint: Option<Bytes>, attempt: Option<Attempt>)

  datatype Request = Request(attemptId: Bytes, clientNonce: Bytes, hello: Bytes, fingerprint: Bytes, sessionId: u64,
                             serverNonce: Bytes, welcome: Bytes)
  datatype Decision =
    | Fresh(sessionId: u64, serverNonce: Bytes, welcome: Bytes)
    | ExactReplay(sessionId: u64, serverNonce: Bytes, welcome: Bytes)
  datatype Refusal = AuthenticationFailed | BadState | StaleResumeGeneration | Exhausted
  datatype Op = Activate(request: Request) | Commit | Admit | Lost(clean: bool)
              | Resume(expected: u64, request: Request) | Revoke | Expire
  datatype Outcome = Decided(decision: Decision) | Done | Now(state: LeaseState) | Refused(refusal: Refusal)

  function Issue(policy: CleanupPolicy, graceUs: u64): LeaseRecord {
    LeaseRecord(Issued, 1, 0, policy, graceUs, None, None, None)
  }

  // ---- Transitions -------------------------------------------------------------------------

  predicate Terminal(state: LeaseState) {
    state.Closed? || state.Revoked? || state.Expired?
  }

  predicate Exact(hash: Hash, a: Attempt, q: Request) {
    a.attemptId == q.attemptId && a.clientNonce == q.clientNonce && a.helloHash == hash(q.hello)
  }

  function NewAttempt(hash: Hash, q: Request, resumeFrom: Option<u64>): Attempt {
    Attempt(q.attemptId, q.clientNonce, hash(q.hello), q.sessionId, q.serverNonce, q.welcome, true, false, resumeFrom)
  }

  /** The revision moves last, so an exhausted one refuses a transition that already happened. */
  function Advanced(s: LeaseRecord, outcome: Outcome): (LeaseRecord, Outcome) {
    if s.revision == U64_MAX then (s, Refused(Exhausted)) else (s.(revision := s.revision + 1), outcome)
  }

  /** The stored answer again, and the transport marked live, for an exact repeat of the request. */
  function Retried(hash: Hash, s: LeaseRecord, q: Request): (LeaseRecord, Outcome) {
    if s.attempt.None? || !Exact(hash, s.attempt.value, q) then (s, Refused(AuthenticationFailed))
    else
      var a := s.attempt.value;
      (s.(attempt := Some(a.(transportLive := true))), Decided(ExactReplay(a.sessionId, a.serverNonce, a.welcome)))
  }

  function Activated(hash: Hash, s: LeaseRecord, q: Request): (LeaseRecord, Outcome) {
    if q.sessionId == 0 then (s, Refused(BadState))
    else if s.attempt.Some? && s.attempt.value.resumeFrom.Some? then (s, Refused(AuthenticationFailed))
    else
      match s.state
      case Issued =>
        var (moved, outcome) := Advanced(s.(state := Reserved), Decided(Fresh(q.sessionId, q.serverNonce, q.welcome)));
        if outcome.Refused? then (moved, outcome)
        else (moved.(session := Some(q.sessionId), fingerprint := Some(q.fingerprint),
                     attempt := Some(NewAttempt(hash, q, None))), outcome)
      case Reserved =>
        if s.fingerprint != Some(q.fingerprint) then (s, Refused(AuthenticationFailed)) else Retried(hash, s, q)
      case Active =>
        if s.fingerprint == Some(q.fingerprint) && s.attempt.Some? && !s.attempt.value.transportLive
           && !s.attempt.value.admitted then Retried(hash, s, q)
        else (s, Refused(AuthenticationFailed))
      case _ => (s, Refused(AuthenticationFailed))
  }

  function Cleared(s: LeaseRecord, state: LeaseState): LeaseRecord {
    s.(state := state, session := None, fingerprint := None, attempt := None)
  }

  function LostTransport(s: LeaseRecord, clean: bool): (LeaseRecord, Outcome) {
    if !s.state.Reserved? && !s.state.Active? then (s, Refused(BadState))
    else
      var quiet := if s.attempt.Some? then s.(attempt := Some(s.attempt.value.(transportLive := false))) else s;
      if !clean && (s.state.Reserved? || (s.attempt.Some? && !s.attempt.value.admitted)) then (quiet, Now(s.state))
      else
        var next := if clean || s.policy == Immediate || s.graceUs == 0 then Cleared(quiet, Closed)
                    else quiet.(state := Suspended, attempt := None);
        Advanced(next, Now(next.state))
  }

  predicate ResumeRetryable(s: LeaseRecord, expected: u64) {
    s.attempt.Some? && s.attempt.value.resumeFrom == Some(expected) && !s.attempt.value.admitted &&
    (s.state.Reserved? || !s.attempt.value.transportLive)
  }

  function Resumed(hash: Hash, s: LeaseRecord, expected: u64, q: Request): (LeaseRecord, Outcome) {
    if s.state.Reserved? || s.state.Active? then
      if s.fingerprint != Some(q.fingerprint) || s.session != Some(q.sessionId) || !ResumeRetryable(s, expected)
      then (s, Refused(AuthenticationFailed)) else Retried(hash, s, q)
    else if !s.state.Suspended? then (s, Refused(BadState))
    else if expected != s.generation then (s, Refused(StaleResumeGeneration))
    else if s.session != Some(q.sessionId) || s.fingerprint != Some(q.fingerprint)
    then (s, Refused(AuthenticationFailed))
    else if s.revision == U64_MAX || s.generation == U64_MAX then (s, Refused(Exhausted))
    else (s.(state := Reserved, revision := s.revision + 1, generation := s.generation + 1,
             attempt := Some(NewAttempt(hash, q, Some(expected)))),
          Decided(Fresh(q.sessionId, q.serverNonce, q.welcome)))
  }

  function Ended(s: LeaseRecord, state: LeaseState): (LeaseRecord, Outcome) {
    if Terminal(s.state) then (s, Refused(BadState)) else Advanced(Cleared(s, state), Done)
  }

  function Step(hash: Hash, s: LeaseRecord, op: Op): (LeaseRecord, Outcome) {
    match op
    case Activate(q) => Activated(hash, s, q)
    case Commit => if !s.state.Reserved? then (s, Refused(BadState)) else Advanced(s.(state := Active), Done)
    case Admit =>
      if !s.state.Active? || s.attempt.None? then (s, Refused(BadState))
      else (s.(attempt := Some(s.attempt.value.(admitted := true))), Done)
    case Lost(clean) => LostTransport(s, clean)
    case Resume(expected, q) => Resumed(hash, s, expected, q)
    case Revoke => Ended(s, Revoked)
    case Expire => Ended(s, Expired)
  }

  // ---- Single steps ------------------------------------------------------------------------

  /** The call would move the lease if revisions were endless, and moves it before counting. */
  predicate MovesFirst(s: LeaseRecord, op: Op) {
    match op
    case Activate(q) => q.sessionId != 0 && s.state.Issued? && !(s.attempt.Some? && s.attempt.value.resumeFrom.Some?)
    case Commit => s.state.Reserved?
    case Lost(clean) =>
      (s.state.Reserved? && clean) || (s.state.Active? && (clean || s.attempt.None? || s.attempt.value.admitted))
    case Revoke => !Terminal(s.state)
    case Expire => !Terminal(s.state)
    case Admit => false
    case Resume(_, _) => false
  }

  /** A refused call leaves a trace exactly when it moves first and the last revision is already spent. */
  lemma {:induction false} FailureTracesExactly(hash: Hash, s: LeaseRecord, op: Op)
    ensures (Step(hash, s, op).1.Refused? && Step(hash, s, op).0 != s <==> s.revision == U64_MAX && MovesFirst(s, op))
  {
  }

  /** The last revision: the commit is refused, yet the lease is active. */
  lemma {:induction false} ExhaustedCommitStillActivates(hash: Hash, s: LeaseRecord)
    requires s.state.Reserved? && s.revision == U64_MAX
    ensures Step(hash, s, Commit) == (s.(state := Active), Refused(Exhausted))
  {
  }

  /** Closed, revoked and expired leases refuse every call and never change again. */
  lemma {:induction false} TerminalAbsorbs(hash: Hash, s: LeaseRecord, op: Op)
    requires Terminal(s.state)
    ensures Step(hash, s, op).0 == s && Step(hash, s, op).1.Refused?
  {
  }

  /** Suspension: only on unclean loss of an admitted session, under the policy, with grace to spend. */
  lemma {:induction false} SuspendsOnly(hash: Hash, s: LeaseRecord, op: Op)
    requires Inv(s)
    ensures !s.state.Suspended? && Step(hash, s, op).0.state.Suspended?
       <==> op == Lost(false) && s.state.Active? && s.attempt.value.admitted && s.policy.SuspendOnUncleanLoss? && s.graceUs != 0
  {
  }

  /** Asking again at once, with the same request, repeats a fresh answer word for word. */
  lemma {:induction false} FreshIsRepeatable(hash: Hash, s: LeaseRecord, op: Op)
    requires op.Activate? || op.Resume?
    requires Step(hash, s, op).1.Decided? && Step(hash, s, op).1.decision.Fresh?
    ensures var (r, outcome) := Step(hash, s, op);
            Step(hash, r, op) == (r, Decided(ExactReplay(outcome.decision.sessionId, outcome.decision.serverNonce,
                                                         outcome.decision.welcome)))
  {
  }

  // ---- Invariant ---------------------------------------------------------------------------

  ghost predicate Bound(s: LeaseRecord) {
    s.state.Reserved? || s.state.Active? || s.state.Suspended?
  }

  /** Which fields are present in which state, and how they agree. */
  ghost predicate Inv(s: LeaseRecord) {
    s.revision >= 1 && (s.attempt.Some? <==> s.state.Reserved? || s.state.Active?) &&
    (s.session.Some? <==> Bound(s)) && (s.fingerprint.Some? <==> Bound(s)) &&
    (s.state.Issued? ==> s.revision == 1 && s.generation == 0) &&
    (s.attempt.Some? ==>
       s.session == Some(s.attempt.value.sessionId) &&
       (if s.attempt.value.resumeFrom.Some? then s.attempt.value.resumeFrom.value + 1 == s.generation else s.generation == 0)) &&
    (s.state.Suspended? ==> s.policy.SuspendOnUncleanLoss? && s.graceUs != 0)
  }

  lemma {:induction false} StepSafe(hash: Hash, s: LeaseRecord, op: Op)
    requires Inv(s)
    ensures Inv(Step(hash, s, op).0)
  {
  }

  // ---- Runs --------------------------------------------------------------------------------

  function After(hash: Hash, policy: CleanupPolicy, graceUs: u64, ops: seq<Op>): LeaseRecord {
    if ops == [] then Issue(policy, graceUs)
    else Step(hash, After(hash, policy, graceUs, ops[..|ops| - 1]), ops[|ops| - 1]).0
  }

  /** What operation `i` of the run answered. */
  function Answer(hash: Hash, policy: CleanupPolicy, graceUs: u64, ops: seq<Op>, i: nat): Outcome
    requires i < |ops|
  {
    Step(hash, After(hash, policy, graceUs, ops[..i]), ops[i]).1
  }

  predicate Decides(hash: Hash, policy: CleanupPolicy, graceUs: u64, ops: seq<Op>, i: nat) {
    i < |ops| && Answer(hash, policy, graceUs, ops, i).Decided?
  }

  predicate Freshens(hash: Hash, policy: CleanupPolicy, graceUs: u64, ops: seq<Op>, i: nat) {
    Decides(hash, policy, graceUs, ops, i) && Answer(hash, policy, graceUs, ops, i).decision.Fresh?
  }

  lemma {:induction false} RunSafe(hash: Hash, policy: CleanupPolicy, graceUs: u64, ops: seq<Op>)
    ensures Inv(After(hash, policy, graceUs, ops))
    decreases |ops|
  {
    hide Inv; hide Step;
    if ops == [] {
      IssueSafe(policy, graceUs);
    } else {
      RunSafe(hash, policy, graceUs, ops[..|ops| - 1]);
      StepSafe(hash, After(hash, policy, graceUs, ops[..|ops| - 1]), ops[|ops| - 1]);
    }
  }

  lemma {:induction false} IssueSafe(policy: CleanupPolicy, graceUs: u64)
    ensures Inv(Issue(policy, graceUs))
  {
  }

  lemma {:induction false} Prefixes(hash: Hash, policy: CleanupPolicy, graceUs: u64, ops: seq<Op>, i: nat)
    requires i + 1 < |ops|
    ensures Answer(hash, policy, graceUs, ops[..|ops| - 1], i) == Answer(hash, policy, graceUs, ops, i)
  {
    assert ops[..|ops| - 1][..i] == ops[..i];
  }

  /** The fresh answer a later replay would repeat: where the stored attempt came from. */
  ghost predicate StoredFrom(hash: Hash, policy: CleanupPolicy, graceUs: u64, ops: seq<Op>, j: nat) {
    Freshens(hash, policy, graceUs, ops, j) &&
    (forall k :: j < k < |ops| ==> !Freshens(hash, policy, graceUs, ops, k)) &&
    var a := After(hash, policy, graceUs, ops).attempt;
    a.Some? ==> RequestOf(ops[j]).Some? && SameAttempt(hash, a.value, RequestOf(ops[j]).value)
  }

  function RequestOf(op: Op): Option<Request> {
    if op.Activate? || op.Resume? then Some(op.request) else None
  }

  predicate SameAttempt(hash: Hash, a: Attempt, q: Request) {
    Exact(hash, a, q) && a.sessionId == q.sessionId && a.serverNonce == q.serverNonce && a.welcome == q.welcome
  }

  lemma {:induction false} AttemptStep(hash: Hash, s: LeaseRecord, op: Op)
    requires Inv(s)
    ensures var (r, outcome) := Step(hash, s, op);
            if outcome.Decided? && outcome.decision.Fresh? then
              RequestOf(op).Some? && r.attempt.Some? && SameAttempt(hash, r.attempt.value, op.request) &&
              outcome.decision == Fresh(op.request.sessionId, op.request.serverNonce, op.request.welcome)
            else
              r.attempt.Some? ==> s.attempt.Some? && SameStored(s.attempt.value, r.attempt.value)
  {
  }

  predicate SameStored(a: Attempt, b: Attempt) {
    a.attemptId == b.attemptId && a.clientNonce == b.clientNonce && a.helloHash == b.helloHash &&
    a.sessionId == b.sessionId && a.serverNonce == b.serverNonce && a.welcome == b.welcome
  }

  lemma {:induction false} AttemptHasSource(hash: Hash, policy: CleanupPolicy, graceUs: u64, ops: seq<Op>)
    requires After(hash, policy, graceUs, ops).attempt.Some?
    ensures exists j :: StoredFrom(hash, policy, graceUs, ops, j)
    decreases |ops|
  {
    hide Step;
    if ops != [] {
      var last := |ops| - 1;
      var front := ops[..last];
      RunSafe(hash, policy, graceUs, front);
      AttemptStep(hash, After(hash, policy, graceUs, front), ops[last]);
      if Freshens(hash, policy, graceUs, ops, last) {
        assert StoredFrom(hash, policy, graceUs, ops, last);
      } else {
        AttemptHasSource(hash, policy, graceUs, front);
        var j: nat :| StoredFrom(hash, policy, graceUs, front, j);
        forall k: nat | k < last
          ensures Freshens(hash, policy, graceUs, ops, k) <==> Freshens(hash, policy, graceUs, front, k) {
          Prefixes(hash, policy, graceUs, ops, k);
        }
        assert StoredFrom(hash, policy, graceUs, ops, j);
      }
    }
  }

  /** Operation `i` repeats the answer operation `j` gave, to a request it cannot tell from the first. */
  ghost predicate Repeats(hash: Hash, policy: CleanupPolicy, graceUs: u64, ops: seq<Op>, i: nat, j: nat)
    requires Decides(hash, policy, graceUs, ops, i)
  {
    j < i && Freshens(hash, policy, graceUs, ops, j) &&
    (forall k :: j < k < i ==> !Freshens(hash, policy, graceUs, ops, k)) &&
    RequestOf(ops[i]).Some? && RequestOf(ops[j]).Some? &&
    var again, first := Answer(hash, policy, graceUs, ops, i).decision, Answer(hash, policy, graceUs, ops, j).decision;
    again.sessionId == first.sessionId && again.serverNonce == first.serverNonce && again.welcome == first.welcome &&
    ops[i].request.attemptId == ops[j].request.attemptId &&
    ops[i].request.clientNonce == ops[j].request.clientNonce &&
    hash(ops[i].request.hello) == hash(ops[j].request.hello)
  }

  lemma {:induction false} ReplayStep(hash: Hash, s: LeaseRecord, op: Op)
    requires Step(hash, s, op).1.Decided? && Step(hash, s, op).1.decision.ExactReplay?
    ensures RequestOf(op).Some? && s.attempt.Some? && Exact(hash, s.attempt.value, op.request)
    ensures var a := s.attempt.value;
            Step(hash, s, op).1.decision == ExactReplay(a.sessionId, a.serverNonce, a.welcome)
  {
  }

  /** Every exact replay repeats the latest fresh answer. */
  lemma {:induction false} ReplaysRepeatLatest(hash: Hash, policy: CleanupPolicy, graceUs: u64, ops: seq<Op>, i: nat)
    requires Decides(hash, policy, graceUs, ops, i) && Answer(hash, policy, graceUs, ops, i).decision.ExactReplay?
    ensures exists j :: Repeats(hash, policy, graceUs, ops, i, j)
  {
    hide Step;
    var front := ops[..i];
    var s := After(hash, policy, graceUs, front);
    ReplayStep(hash, s, ops[i]);
    AttemptHasSource(hash, policy, graceUs, front);
    var j: nat :| StoredFrom(hash, policy, graceUs, front, j);
    assert front[..j] == ops[..j];
    forall k: nat | k < i ensures Freshens(hash, policy, graceUs, ops, k) <==> Freshens(hash, policy, graceUs, front, k) {
      assert front[..k] == ops[..k];
    }
    RunSafe(hash, policy, graceUs, ops[..j]);
    AttemptStep(hash, After(hash, policy, graceUs, ops[..j]), ops[j]);
    assert Repeats(hash, policy, graceUs, ops, i, j);
  }

  // ---- One session -------------------------------------------------------------------------

  /** A decision is for the session the lease is then bound to, and a bound lease never rebinds. */
  lemma {:induction false} SessionStep(hash: Hash, s: LeaseRecord, op: Op)
    requires Inv(s)
    ensures var (r, outcome) := Step(hash, s, op);
            (outcome.Decided? ==> r.session == Some(outcome.decision.sessionId)) &&
            (!s.state.Issued? && r.session.Some? ==> r.session == s.session) &&
            (!s.state.Issued? ==> !r.state.Issued?) && (outcome.Decided? ==> !r.state.Issued?)
  {
  }

  lemma {:induction false} SessionKept(hash: Hash, policy: CleanupPolicy, graceUs: u64, ops: seq<Op>, i: nat)
    requires Decides(hash, policy, graceUs, ops, i)
    ensures var s := After(hash, policy, graceUs, ops);
            !s.state.Issued? &&
            (s.session.Some? ==> s.session == Some(Answer(hash, policy, graceUs, ops, i).decision.sessionId))
    decreases |ops|
  {
    hide Step;
    var last := |ops| - 1;
    var front := ops[..last];
    RunSafe(hash, policy, graceUs, front);
    SessionStep(hash, After(hash, policy, graceUs, front), ops[last]);
    if i < last {
      Prefixes(hash, policy, graceUs, ops, i);
      SessionKept(hash, policy, graceUs, front, i);
    }
  }

  /** All decisions of a run name one session. */
  lemma {:induction false} OneSession(hash: Hash, policy: CleanupPolicy, graceUs: u64, ops: seq<Op>, i: nat, j: nat)
    requires i <= j && Decides(hash, policy, graceUs, ops, i) && Decides(hash, policy, graceUs, ops, j)
    ensures (Answer(hash, policy, graceUs, ops, i).decision.sessionId
             == Answer(hash, policy, graceUs, ops, j).decision.sessionId)
  {
    hide Step;
    var upTo := ops[..j + 1];
    assert upTo[..j] == ops[..j] && upTo[..i] == ops[..i];
    SessionKept(hash, policy, graceUs, upTo, i);
    SessionKept(hash, policy, graceUs, upTo, j);
    RunSafe(hash, policy, graceUs, ops[..j]);
    SessionStep(hash, After(hash, policy, graceUs, ops[..j]), ops[j]);
  }

  // ---- Resume generations ------------------------------------------------------------------

  lemma {:induction false} GenerationStep(hash: Hash, s: LeaseRecord, op: Op)
    requires Inv(s)
    ensures var (r, outcome) := Step(hash, s, op);
            s.generation <= r.generation &&
            (op.Resume? && outcome.Decided? && outcome.decision.Fresh? ==>
               op.expected == s.generation && r.generation == s.generation + 1)
  {
  }

  lemma {:induction false} GenerationGrows(hash: Hash, policy: CleanupPolicy, graceUs: u64, ops: seq<Op>, n: nat)
    requires n <= |ops|
    ensures After(hash, policy, graceUs, ops[..n]).generation <= After(hash, policy, graceUs, ops).generation
    decreases |ops|
  {
    hide Step;
    if n < |ops| {
      var front := ops[..|ops| - 1];
      assert front[..n] == ops[..n];
      GenerationGrows(hash, policy, graceUs, front, n);
      RunSafe(hash, policy, graceUs, front);
      GenerationStep(hash, After(hash, policy, graceUs, front), ops[|ops| - 1]);
    } else {
      assert ops[..n] == ops;
    }
  }

  /** Each fresh resume spends a generation above all those spent before it. */
  lemma {:induction false} GenerationsSpentOnce(hash: Hash, policy: CleanupPolicy, graceUs: u64, ops: seq<Op>, i: nat, j: nat)
    requires i < j && Freshens(hash, policy, graceUs, ops, i) && Freshens(hash, policy, graceUs, ops, j)
    requires ops[i].Resume? && ops[j].Resume?
    ensures ops[i].expected < ops[j].expected
  {
    hide Step;
    RunSafe(hash, policy, graceUs, ops[..i]);
    RunSafe(hash, policy, graceUs, ops[..j]);
    GenerationStep(hash, After(hash, policy, graceUs, ops[..i]), ops[i]);
    GenerationStep(hash, After(hash, policy, graceUs, ops[..j]), ops[j]);
    var next := ops[..i + 1];
    assert next[..|next| - 1] == ops[..i] && next == ops[..j][..i + 1];
    GenerationGrows(hash, policy, graceUs, ops[..j], i + 1);
  }
}
