/** The final input gate: which events may still be injected, under which grant, and until when. */
module Input {
  import opened Wrappers
  import opened Words

  /** A class mask, as the set of its one bits. */
  type Mask = set<nat>

  const KEYBOARD: nat := 0
  const POINTER_MOTION: nat := 1
  const POINTER_BUTTON: nat := 2
  const POINTER_AXIS: nat := 3
  const KNOWN_MASK: Mask := {KEYBOARD, POINTER_MOTION, POINTER_BUTTON, POINTER_AXIS}
  const MIN_WATCHDOG_US: nat := 250_000
  const MAX_WATCHDOG_US: nat := 5_000_000
  const MAX_REASON: nat := 7

  datatype Binding = Binding(epoch: u64, contextId: u64, surfaceId: u64, surfaceGeneration: u64, requested: Mask,
                             reason: u64, watchdogUs: u64)
  datatype Tuple = Tuple(epoch: u64, generation: u64, contextId: u64, surfaceId: u64, surfaceGeneration: u64)
  datatype Event =
    | Key(binding: Tuple, usage: u16, pressed: bool)
    | PointerMotion(binding: Tuple, x: u64, y: u64)
    | PointerButton(binding: Tuple, button: byte, pressed: bool, x: u64, y: u64)
    | PointerAxis(binding: Tuple, horizontal: i64, vertical: i64, x: u64, y: u64)
  datatype Active = Active(binding: Tuple, classes: Mask, timeoutUs: u64, deadline: u64, renewalSequence: u64)
  datatype Gate = Gate(latest: Option<Binding>, generation: u64, active: Option<Active>, released: u64)

  /** The source's one error type here; its message text is not modelled. */
  datatype InvalidMessage = InvalidMessage
  datatype BindingOutcome = Disabled | Enabled(tuple: Tuple) | Denied(tuple: Tuple) | ExactRetry
  datatype Rejection = NoActiveGrant | StaleTuple | SurfaceGenerationChanged | WatchdogExpired | ClassNotGranted

  const CLOSED := Gate(None, 0, None, 0)

  function ClassOf(e: Event): nat {
    match e
    case Key(_, _, _) => KEYBOARD
    case PointerMotion(_, _, _) => POINTER_MOTION
    case PointerButton(_, _, _, _, _) => POINTER_BUTTON
    case PointerAxis(_, _, _, _, _) => POINTER_AXIS
  }

  predicate Disables(b: Binding) {
    b.contextId == 0 && b.surfaceId == 0 && b.surfaceGeneration == 0 && b.requested == {}
  }

  predicate GoodWatchdog(us: u64) {
    MIN_WATCHDOG_US <= us <= MAX_WATCHDOG_US
  }

  predicate ValidBinding(b: Binding) {
    b.epoch != 0 && b.reason <= MAX_REASON &&
    if Disables(b) then b.watchdogUs == 0
    else b.contextId != 0 && b.surfaceId != 0 && b.surfaceGeneration != 0 && b.requested != {} &&
         b.requested <= KNOWN_MASK && GoodWatchdog(b.watchdogUs)
  }

  // ---- Calls -------------------------------------------------------------------------------

  function TupleFor(b: Binding, generation: u64): Tuple {
    Tuple(b.epoch, generation, b.contextId, b.surfaceId, b.surfaceGeneration)
  }

  /** Ending a grant counts as one release. */
  function ReleasedAfter(g: Gate): Result<u64, InvalidMessage> {
    if g.active.None? then Ok(g.released)
    else if g.released == U64_MAX then Err(InvalidMessage)
    else Ok(g.released + 1)
  }

  function NextGeneration(g: Gate): Result<u64, InvalidMessage> {
    if g.generation == U64_MAX then Err(InvalidMessage) else Ok(g.generation + 1)
  }

  /** The grant a fresh binding earns, if any. */
  function Award(b: Binding, tuple: Tuple, classes: Mask, watchdogUs: u64, now: u64)
    : Result<(BindingOutcome, Option<Active>), InvalidMessage>
  {
    if Disables(b) then Ok((Disabled, None))
    else if classes * b.requested == {} || !GoodWatchdog(watchdogUs) then Ok((Denied(tuple), None))
    else if now + watchdogUs > U64_MAX then Err(InvalidMessage)
    else Ok((Enabled(tuple), Some(Active(tuple, classes * b.requested, watchdogUs, now + watchdogUs, 0))))
  }

  function ApplyBinding(g: Gate, b: Binding, classes: Mask, watchdogUs: u64, now: u64)
    : (Gate, Result<BindingOutcome, InvalidMessage>)
  {
    if !ValidBinding(b) then (g, Err(InvalidMessage))
    else if g.latest.Some? && b.epoch < g.latest.value.epoch then (g, Err(InvalidMessage))
    else if g.latest.Some? && b.epoch == g.latest.value.epoch
    then (g, if b == g.latest.value then Ok(ExactRetry) else Err(InvalidMessage))
    else
      match (NextGeneration(g), ReleasedAfter(g))
      case (Ok(generation), Ok(released)) =>
        (match Award(b, TupleFor(b, generation), classes, watchdogUs, now)
         case Err(e) => (g, Err(e))
         case Ok((outcome, active)) => (Gate(Some(b), generation, active, released), Ok(outcome)))
      case (_, _) => (g, Err(InvalidMessage))
  }

  function RenewLease(g: Gate, tuple: Tuple, sequence: u64, watchdogUs: u64, at: u64): (Gate, Result<(), InvalidMessage>) {
    if g.active.None? then (g, Err(InvalidMessage))
    else
      var a := g.active.value;
      if a.binding != tuple || sequence <= a.renewalSequence || at >= a.deadline || watchdogUs != a.timeoutUs
         || at + a.timeoutUs > U64_MAX then (g, Err(InvalidMessage))
      else (g.(active := Some(a.(renewalSequence := sequence, deadline := at + a.timeoutUs))), Ok(()))
  }

  function RevokeGrant(g: Gate): (Gate, Result<u64, InvalidMessage>) {
    match (NextGeneration(g), ReleasedAfter(g))
    case (Ok(generation), Ok(released)) =>
      (g.(generation := generation, released := released, active := None), Ok(generation))
    case (_, _) => (g, Err(InvalidMessage))
  }

  function Authorize(g: Gate, e: Event, surfaceGeneration: u64, now: u64): Result<(), Rejection> {
    if g.active.None? then Err(NoActiveGrant)
    else
      var a := g.active.value;
      if e.binding != a.binding then Err(StaleTuple)
      else if e.binding.surfaceGeneration != surfaceGeneration then Err(SurfaceGenerationChanged)
      else if now >= a.deadline then Err(WatchdogExpired)
      else if ClassOf(e) !in a.classes then Err(ClassNotGranted)
      else Ok(())
  }

  // ---- Runs --------------------------------------------------------------------------------

  datatype Op =
    | Apply(b: Binding, classes: Mask, watchdogUs: u64, now: u64)
    | Renew(tuple: Tuple, sequence: u64, us: u64, at: u64)
    | Revoke

  datatype Answer = Bound(outcome: BindingOutcome) | Renewed | Revoked(generation: u64) | Failed

  function Step(g: Gate, op: Op): (Gate, Answer) {
    match op
    case Apply(b, classes, us, now) =>
      var (next, r) := ApplyBinding(g, b, classes, us, now);
      (next, if r.Ok? then Bound(r.value) else Failed)
    case Renew(tuple, sequence, us, at) =>
      var (next, r) := RenewLease(g, tuple, sequence, us, at);
      (next, if r.Ok? then Renewed else Failed)
    case Revoke =>
      var (next, r) := RevokeGrant(g);
      (next, if r.Ok? then Revoked(r.value) else Failed)
  }

  function After(ops: seq<Op>): Gate {
    if ops == [] then CLOSED else Step(After(ops[..|ops| - 1]), ops[|ops| - 1]).0
  }

  function AnswerAt(ops: seq<Op>, i: nat): Answer
    requires i < |ops|
  {
    Step(After(ops[..i]), ops[i]).1
  }

  /** Failing calls and exact retries change nothing. */
  lemma {:induction false} FailureChangesNothing(g: Gate, op: Op)
    requires Step(g, op).1 == Failed || Step(g, op).1 == Bound(ExactRetry)
    ensures Step(g, op).0 == g
  {
  }

  // ---- Tuples ------------------------------------------------------------------------------

  /** A standing grant carries the current generation, and its deadline is one timeout after a refresh. */
  ghost predicate Inv(g: Gate) {
    g.active.Some? ==>
      g.active.value.binding.generation == g.generation && g.latest.Some? && g.active.value.timeoutUs <= g.active.value.deadline &&
      g.active.value.classes <= g.latest.value.requested && g.active.value.classes != {} &&
      GoodWatchdog(g.active.value.timeoutUs) && g.active.value.binding == TupleFor(g.latest.value, g.generation)
  }

  predicate Issues(a: Answer) {
    a.Bound? && (a.outcome.Enabled? || a.outcome.Denied?)
  }

  lemma {:induction false} GateStep(g: Gate, op: Op)
    requires Inv(g)
    ensures var (r, a) := Step(g, op);
            Inv(r) && g.generation <= r.generation &&
            (Issues(a) ==> a.outcome.tuple.generation == r.generation == g.generation + 1) &&
            (g.active.Some? && (r.active.None? || r.active.value.binding != g.active.value.binding) ==>
               r.generation > g.generation)
  {
  }

  lemma {:induction false} RunSafe(ops: seq<Op>)
    ensures Inv(After(ops))
    decreases |ops|
  {
    hide Step; hide Inv;
    if ops == [] {
      ClosedSafe();
    } else {
      RunSafe(ops[..|ops| - 1]);
      GateStep(After(ops[..|ops| - 1]), ops[|ops| - 1]);
    }
  }

  lemma {:induction false} ClosedSafe()
    ensures Inv(CLOSED)
  {
  }

  lemma {:induction false} GenerationGrows(ops: seq<Op>, n: nat)
    requires n <= |ops|
    ensures After(ops[..n]).generation <= After(ops).generation
    decreases |ops|
  {
    hide Step; hide Inv;
    if n == |ops| {
      assert ops[..n] == ops;
    } else {
      var front := ops[..|ops| - 1];
      assert front[..n] == ops[..n];
      GenerationGrows(front, n);
      RunSafe(front);
      GateStep(After(front), ops[|ops| - 1]);
    }
  }

  lemma {:induction false} NextState(ops: seq<Op>, i: nat)
    requires i < |ops|
    ensures After(ops[..i + 1]) == Step(After(ops[..i]), ops[i]).0
  {
    var next := ops[..i + 1];
    assert next[..|next| - 1] == ops[..i];
  }

  /** No tuple is issued twice: each issue has a generation above all earlier ones. */
  lemma {:induction false} TuplesNeverRepeat(ops: seq<Op>, i: nat, j: nat)
    requires i < j < |ops| && Issues(AnswerAt(ops, i)) && Issues(AnswerAt(ops, j))
    ensures AnswerAt(ops, i).outcome.tuple.generation < AnswerAt(ops, j).outcome.tuple.generation
  {
    hide Step; hide Inv;
    RunSafe(ops[..i]);
    RunSafe(ops[..j]);
    GateStep(After(ops[..i]), ops[i]);
    GateStep(After(ops[..j]), ops[j]);
    NextState(ops, i);
    assert ops[..j][..i + 1] == ops[..i + 1];
    GenerationGrows(ops[..j], i + 1);
  }

  ghost predicate Holds(g: Gate, tuple: Tuple) {
    g.active.Some? && g.active.value.binding == tuple
  }

  lemma {:induction false} DroppedMovesOn(ops: seq<Op>, m: nat, tuple: Tuple)
    requires m < |ops| && Holds(After(ops[..m]), tuple) && !Holds(After(ops), tuple)
    ensures After(ops).generation > tuple.generation
    decreases |ops|
  {
    hide Step;
    var front := ops[..|ops| - 1];
    assert front[..m] == ops[..m];
    RunSafe(front);
    GateStep(After(front), ops[|ops| - 1]);
    if !Holds(After(front), tuple) {
      DroppedMovesOn(front, m, tuple);
    }
  }

  /** A tuple that held once and was then revoked or superseded never authorizes an event again. */
  lemma {:induction false} NeverAgain(ops: seq<Op>, m: nat, k: nat, n: nat, e: Event, surfaceGeneration: u64, now: u64)
    requires m <= k <= n <= |ops| && Holds(After(ops[..m]), e.binding) && !Holds(After(ops[..k]), e.binding)
    ensures Authorize(After(ops[..n]), e, surfaceGeneration, now).Err?
  {
    hide Step;
    assert ops[..k][..m] == ops[..m] && ops[..n][..k] == ops[..k];
    DroppedMovesOn(ops[..k], m, e.binding);
    GenerationGrows(ops[..n], k);
    RunSafe(ops[..n]);
  }

  // ---- Freshness ---------------------------------------------------------------------------

  /** Operation `j` gave `tuple` a full timeout, counted from `since`. */
  ghost predicate Refreshes(ops: seq<Op>, j: nat, tuple: Tuple, since: u64) {
    j < |ops| &&
    ((AnswerAt(ops, j) == Bound(Enabled(tuple)) && ops[j].Apply? && ops[j].now == since) ||
     (AnswerAt(ops, j) == Renewed && ops[j].Renew? && ops[j].tuple == tuple && ops[j].at == since))
  }

  predicate RefreshesSomething(ops: seq<Op>, j: nat) {
    j < |ops| && (AnswerAt(ops, j) == Renewed || (AnswerAt(ops, j).Bound? && AnswerAt(ops, j).outcome.Enabled?))
  }

  lemma {:induction false} RefreshStep(g: Gate, op: Op)
    ensures var (r, a) := Step(g, op);
            if a == Renewed then
              op.Renew? && r.active.Some? && r.active.value.binding == op.tuple &&
              r.active.value.deadline == op.at + r.active.value.timeoutUs
            else if a.Bound? && a.outcome.Enabled? then
              op.Apply? && r.active.Some? && r.active.value.binding == a.outcome.tuple &&
              r.active.value.deadline == op.now + r.active.value.timeoutUs && r.active.value.timeoutUs == op.watchdogUs
            else r.active.None? || r.active == g.active
  {
  }

  /** Whatever is authorized was granted or last renewed less than one timeout ago. */
  lemma {:induction false} AuthorizedIsFresh(ops: seq<Op>, e: Event, surfaceGeneration: u64, now: u64)
    requires Authorize(After(ops), e, surfaceGeneration, now).Ok?
    ensures exists j: nat, since: u64 ::
              Refreshes(ops, j, e.binding, since) && LastToRefresh(ops, j) &&
              now < since + After(ops).active.value.timeoutUs
  {
    var j, since := LastRefresh(ops);
    assert Refreshes(ops, j, e.binding, since) && LastToRefresh(ops, j);
  }

  ghost predicate LastToRefresh(ops: seq<Op>, j: nat) {
    forall k :: j < k < |ops| ==> !RefreshesSomething(ops, k)
  }

  lemma {:induction false} LastRefresh(ops: seq<Op>) returns (j: nat, since: u64)
    requires After(ops).active.Some?
    ensures var a := After(ops).active.value;
            Refreshes(ops, j, a.binding, since) && a.deadline == since + a.timeoutUs && LastToRefresh(ops, j)
    decreases |ops|
  {
    hide Step;
    var n := |ops| - 1;
    var front := ops[..n];
    RefreshStep(After(front), ops[n]);
    if RefreshesSomething(ops, n) {
      j, since := n, if ops[n].Apply? then ops[n].now else ops[n].at;
    } else {
      j, since := LastRefresh(front);
      forall k: nat | k < n ensures AnswerAt(front, k) == AnswerAt(ops, k) {
        assert front[..k] == ops[..k];
      }
      forall k: nat | j < k < |ops| ensures !RefreshesSomething(ops, k) {
        assert k < n ==> !RefreshesSomething(front, k);
      }
    }
  }

  // ---- Conservation ------------------------------------------------------------------------

  function EnabledCount(ops: seq<Op>): nat {
    if ops == [] then 0
    else
      var n := |ops| - 1;
      var a := AnswerAt(ops, n);
      EnabledCount(ops[..n]) + if a.Bound? && a.outcome.Enabled? then 1 else 0
  }

  /** Every grant ever enabled has been released exactly once, or is the one that stands. */
  lemma {:induction false} GrantsConserved(ops: seq<Op>)
    ensures EnabledCount(ops) == After(ops).released + if After(ops).active.Some? then 1 else 0
    decreases |ops|
  {
    hide Step;
    if ops != [] {
      GrantsConserved(ops[..|ops| - 1]);
      CountStep(After(ops[..|ops| - 1]), ops[|ops| - 1]);
    }
  }

  lemma {:induction false} CountStep(g: Gate, op: Op)
    ensures var (r, a) := Step(g, op);
            r.released + (if r.active.Some? then 1 else 0)
            == g.released + (if g.active.Some? then 1 else 0) + if a.Bound? && a.outcome.Enabled? then 1 else 0
  {
  }
}
