/** The presenter's side of a grant: eligibility, and the renewals that keep the watchdog fed. */
module Grant {
  import opened Wrappers
  import opened Words
  import opened Input

  const FOCUS_LOSS: u64 := 1
  const LOCAL_POLICY: u64 := 2
  const SURFACE_UNAVAILABLE: u64 := 3
  const GENERATION_CHANGE: u64 := 4
  const AUTHORITY_LOSS: u64 := 5
  const LANE_LOSS: u64 := 6
  const STATE_DISABLED: u64 := 0
  const STATE_ENABLED: u64 := 1
  const STATE_DENIED: u64 := 2

  datatype Eligibility = Eligibility(focused: bool, consented: bool, surfacePresent: bool, surfaceGeneration: u64,
                                     capability: Mask, presented: bool, laneLive: bool, mayReceiveInput: bool)
  datatype GrantOutcome = GrantDisabled | GrantEnabled | GrantDenied(reason: u64) | GrantRetry
  datatype Renewal = Renewal(sequence: u64, watchdogUs: u64)
  datatype GrantRecord = GrantRecord(gate: Gate, watchdogUs: u64, renewalSequence: u64, lastReason: u64, lastState: u64,
                         generation: u64)
  /** What a revocation announces. */
  datatype Revocation = Revocation(binding: Tuple, generation: u64, reason: u64)

  const NO_GRANT := GrantRecord(CLOSED, 0, 0, 0, STATE_DISABLED, 0)

  /** The first ground for refusing a binding, most fundamental first. */
  function Refusal(e: Eligibility, b: Binding): Option<u64> {
    if !e.laneLive then Some(LANE_LOSS)
    else if !e.mayReceiveInput then Some(AUTHORITY_LOSS)
    else if !e.surfacePresent then Some(SURFACE_UNAVAILABLE)
    else if b.surfaceGeneration != e.surfaceGeneration then Some(GENERATION_CHANGE)
    else if !e.presented then Some(SURFACE_UNAVAILABLE)
    else if !e.focused then Some(FOCUS_LOSS)
    else if !e.consented then Some(LOCAL_POLICY)
    else if b.requested * e.capability == {} then Some(LOCAL_POLICY)
    else None
  }

  /** Everything a presenter must be able to say before it may grant. */
  predicate Eligible(e: Eligibility, b: Binding) {
    e.laneLive && e.mayReceiveInput && e.surfacePresent && b.surfaceGeneration == e.surfaceGeneration && e.presented &&
    e.focused && e.consented && b.requested * e.capability != {}
  }

  function Clamp(us: u64): u64 {
    if us < MIN_WATCHDOG_US then MIN_WATCHDOG_US else if us > MAX_WATCHDOG_US then MAX_WATCHDOG_US else us
  }

  // ---- Calls -------------------------------------------------------------------------------

  function ApplyGrant(g: GrantRecord, b: Binding, e: Eligibility, now: u64): (GrantRecord, Result<GrantOutcome, InvalidMessage>) {
    if Disables(b) then
      var (gate, r) := ApplyBinding(g.gate, b, {}, 0, now);
      if r.Err? then (g, Err(r.error))
      else (g.(gate := gate, watchdogUs := 0, renewalSequence := 0, lastState := STATE_DISABLED, lastReason := b.reason),
            Ok(if r.value.ExactRetry? then GrantRetry else GrantDisabled))
    else
      var refusal := Refusal(e, b);
      var classes := if refusal.Some? then {} else b.requested * e.capability * KNOWN_MASK;
      var watchdog := Clamp(b.watchdogUs);
      var (gate, r) := ApplyBinding(g.gate, b, classes, watchdog, now);
      if r.Err? then (g, Err(r.error))
      else
        match r.value
        case ExactRetry => (g.(gate := gate), Ok(GrantRetry))
        case Enabled(tuple) =>
          (GrantRecord(gate, watchdog, 0, b.reason, STATE_ENABLED, tuple.generation), Ok(GrantEnabled))
        case Denied(tuple) =>
          var reason := if refusal.Some? then refusal.value else LOCAL_POLICY;
          (GrantRecord(gate, 0, g.renewalSequence, reason, STATE_DENIED, tuple.generation), Ok(GrantDenied(reason)))
        case Disabled =>
          (g.(gate := gate, watchdogUs := 0, lastState := STATE_DISABLED, lastReason := b.reason), Ok(GrantDisabled))
  }

  function RevokeFor(g: GrantRecord, reason: u64): (GrantRecord, Option<Revocation>) {
    if g.gate.active.None? then (g, None)
    else
      var (gate, r) := RevokeGrant(g.gate);
      if r.Err? then (g.(gate := gate), None)
      else (GrantRecord(gate, 0, 0, reason, STATE_DISABLED, r.value),
            Some(Revocation(g.gate.active.value.binding, r.value, reason)))
  }

  /** The sequence is spent before the gate is asked, so a refused renewal still uses it up. */
  function DueRenewal(g: GrantRecord, now: u64): (GrantRecord, Option<Renewal>) {
    if g.gate.active.None? then (g, None)
    else
      var a := g.gate.active.value;
      var half := g.watchdogUs / 2;
      if a.deadline < half || now < a.deadline - half || g.renewalSequence == U64_MAX then (g, None)
      else
        var sequence := g.renewalSequence + 1;
        var (gate, r) := RenewLease(g.gate, a.binding, sequence, g.watchdogUs, now);
        (g.(gate := gate, renewalSequence := sequence), if r.Ok? then Some(Renewal(sequence, g.watchdogUs)) else None)
  }

  predicate Expired(g: GrantRecord, now: u64) {
    g.gate.active.Some? && now >= g.gate.active.value.deadline
  }

  // ---- Agreement with the gate -------------------------------------------------------------

  /** What the presenter reports is what its gate enforces. */
  ghost predicate Agrees(g: GrantRecord) {
    Inv(g.gate) && (g.lastState == STATE_ENABLED <==> g.gate.active.Some?) &&
    (g.gate.active.Some? ==>
       g.watchdogUs == g.gate.active.value.timeoutUs && g.gate.active.value.renewalSequence <= g.renewalSequence &&
       g.generation == g.gate.generation) &&
    g.lastState <= STATE_DENIED
  }

  datatype Call = Apply(b: Binding, e: Eligibility, now: u64) | Revoke(reason: u64) | Poll(now: u64)

  function Step(g: GrantRecord, c: Call): GrantRecord {
    match c
    case Apply(b, e, now) => ApplyGrant(g, b, e, now).0
    case Revoke(reason) => RevokeFor(g, reason).0
    case Poll(now) => DueRenewal(g, now).0
  }

  function After(calls: seq<Call>): GrantRecord {
    if calls == [] then NO_GRANT else Step(After(calls[..|calls| - 1]), calls[|calls| - 1])
  }

  lemma {:induction false} GateCalls(g: Gate, b: Binding, classes: Mask, us: u64, now: u64, tuple: Tuple, sequence: u64)
    requires Inv(g)
    ensures Inv(ApplyBinding(g, b, classes, us, now).0) && Inv(RevokeGrant(g).0)
    ensures Inv(RenewLease(g, tuple, sequence, us, now).0)
  {
    GateStep(g, Op.Apply(b, classes, us, now));
    GateStep(g, Op.Revoke);
    GateStep(g, Op.Renew(tuple, sequence, us, now));
  }

  lemma {:induction false} ApplyAgrees(g: GrantRecord, b: Binding, e: Eligibility, now: u64)
    requires Agrees(g)
    ensures Agrees(ApplyGrant(g, b, e, now).0)
  {
    hide Inv; hide ValidBinding; hide Refusal; hide Clamp;
    var classes := if Refusal(e, b).Some? then {} else b.requested * e.capability * KNOWN_MASK;
    if Disables(b) {
      GateCalls(g.gate, b, {}, 0, now, Tuple(0, 0, 0, 0, 0), 0);
      DisablingIdle(g.gate, b, now);
    } else {
      GateCalls(g.gate, b, classes, Clamp(b.watchdogUs), now, Tuple(0, 0, 0, 0, 0), 0);
    }
  }

  /** After a disabling binding, fresh or repeated, nothing is active. */
  lemma {:induction false} DisablingIdle(g: Gate, b: Binding, now: u64)
    requires Inv(g) && Disables(b)
    ensures ApplyBinding(g, b, {}, 0, now).1.Ok? ==> ApplyBinding(g, b, {}, 0, now).0.active.None?
  {
  }

  lemma {:induction false} StepAgrees(g: GrantRecord, c: Call)
    requires Agrees(g)
    ensures Agrees(Step(g, c))
  {
    hide Inv; hide ApplyGrant;
    match c
    case Apply(b, e, now) => ApplyAgrees(g, b, e, now);
    case Revoke(_) => GateCalls(g.gate, Binding(0, 0, 0, 0, {}, 0, 0), {}, 0, 0, Tuple(0, 0, 0, 0, 0), 0);
    case Poll(now) =>
      if g.gate.active.Some? && g.renewalSequence < U64_MAX {
        GateCalls(g.gate, Binding(0, 0, 0, 0, {}, 0, 0), {}, g.watchdogUs, now, g.gate.active.value.binding,
                  g.renewalSequence + 1);
      }
  }

  lemma {:induction false} AlwaysAgrees(calls: seq<Call>)
    ensures Agrees(After(calls))
    decreases |calls|
  {
    hide Step; hide Agrees;
    if calls == [] {
      NoGrantAgrees();
    } else {
      AlwaysAgrees(calls[..|calls| - 1]);
      StepAgrees(After(calls[..|calls| - 1]), calls[|calls| - 1]);
    }
  }

  lemma {:induction false} NoGrantAgrees()
    ensures Agrees(NO_GRANT)
  {
  }

  // ---- Eligibility -------------------------------------------------------------------------

  /** A fresh, valid, enabling binding that the gate takes is enabled exactly when eligible; else it is told why. */
  lemma {:induction false} EnabledExactlyWhenEligible(g: GrantRecord, b: Binding, e: Eligibility, now: u64)
    requires !Disables(b) && ApplyGrant(g, b, e, now).1.Ok? && !ApplyGrant(g, b, e, now).1.value.GrantRetry?
    ensures var (r, outcome) := ApplyGrant(g, b, e, now);
            if Eligible(e, b) then
              outcome.value == GrantEnabled && r.gate.active.Some? &&
              r.gate.active.value.classes == b.requested * e.capability && r.watchdogUs == b.watchdogUs
            else
              Refusal(e, b).Some? && outcome.value == GrantDenied(Refusal(e, b).value) && r.gate.active.None?
  {
    assert ValidBinding(b);
    if Eligible(e, b) {
      assert b.requested * e.capability * KNOWN_MASK * b.requested == b.requested * e.capability;
    }
  }

  /** At the last grant generation a revocation is refused without a word: the grant stands. */
  lemma {:induction false} RevocationCanFail(g: GrantRecord, reason: u64)
    requires g.gate.active.Some?
    ensures (RevokeFor(g, reason).1.None?
             <==> g.gate.generation == U64_MAX || g.gate.released == U64_MAX)
    ensures RevokeFor(g, reason).1.None? ==> RevokeFor(g, reason).0 == g
    ensures RevokeFor(g, reason).1.Some? ==> RevokeFor(g, reason).0.gate.active.None?
  {
  }

  // ---- Renewal schedule --------------------------------------------------------------------

  /** The grant was last refreshed at `since` and last polled at `polled`, in time. */
  ghost predicate Fed(g: GrantRecord, since: u64, polled: u64) {
    Agrees(g) && g.gate.active.Some? && g.gate.active.value.deadline == since + g.watchdogUs &&
    since <= polled && (polled == since || polled < since + (g.watchdogUs - g.watchdogUs / 2))
  }

  /** No overflow lies ahead of a poll at `now`. */
  predicate Room(g: GrantRecord, now: u64) {
    now + g.watchdogUs <= U64_MAX && g.renewalSequence < U64_MAX
  }

  lemma {:induction false} FreshlyFed(g: GrantRecord, b: Binding, e: Eligibility, now: u64)
    requires Agrees(g) && ApplyGrant(g, b, e, now).1 == Ok(GrantEnabled)
    ensures Fed(ApplyGrant(g, b, e, now).0, now, now)
  {
    hide Inv; hide Refusal;
    ApplyAgrees(g, b, e, now);
  }

  /** One timely poll: it renews exactly when half the timeout has run, and never finds the grant expired. */
  lemma {:induction false} PollFeeds(g: GrantRecord, since: u64, polled: u64, now: u64)
    requires Fed(g, since, polled) && polled <= now <= polled + g.watchdogUs / 2 && Room(g, now)
    ensures var (r, renewal) := DueRenewal(g, now);
            !Expired(g, now) && r.watchdogUs == g.watchdogUs && g.renewalSequence <= r.renewalSequence &&
            (renewal.Some? <==> now >= since + (g.watchdogUs - g.watchdogUs / 2)) &&
            (renewal.Some? ==> g.renewalSequence < renewal.value.sequence == r.renewalSequence) &&
            Holds(r.gate, g.gate.active.value.binding) && Fed(r, if renewal.Some? then now else since, now)
  {
    hide Inv;
    StepAgrees(g, Poll(now));
    assert GoodWatchdog(g.watchdogUs) by { TimeoutGood(g); }
  }

  lemma {:induction false} TimeoutGood(g: GrantRecord)
    requires Agrees(g) && g.gate.active.Some?
    ensures GoodWatchdog(g.watchdogUs)
  {
  }

  /** Nor is it expired at any moment up to half a timeout after a timely poll. */
  lemma {:induction false} FedIsAlive(g: GrantRecord, since: u64, polled: u64, now: u64)
    requires Fed(g, since, polled) && now <= polled + g.watchdogUs / 2
    ensures !Expired(g, now)
  {
    TimeoutGood(g);
  }

  /** Polls at nondecreasing times, never more than half the timeout apart. */
  predicate Steady(start: u64, polls: seq<u64>, half: nat) {
    forall i :: 0 <= i < |polls| ==> Previous(start, polls, i) <= polls[i] <= Previous(start, polls, i) + half
  }

  function Previous(start: u64, polls: seq<u64>, i: nat): u64
    requires i <= |polls|
  {
    if i == 0 then start else polls[i - 1]
  }

  /** A polling run: the final grant, and each renewal with its time. */
  function Polled(g: GrantRecord, polls: seq<u64>): (GrantRecord, seq<(u64, Renewal)>) {
    if polls == [] then (g, [])
    else
      var last := polls[|polls| - 1];
      var (before, renewals) := Polled(g, polls[..|polls| - 1]);
      var (r, renewal) := DueRenewal(before, last);
      (r, if renewal.Some? then renewals + [(last, renewal.value)] else renewals)
  }

  /** Renewals are at least half a timeout apart, counted from the grant, and numbered upwards. */
  predicate Spaced(start: u64, sequence: u64, renewals: seq<(u64, Renewal)>, gap: nat) {
    forall i :: 0 <= i < |renewals| ==>
      LastTime(start, renewals, i) + gap <= renewals[i].0 && LastSequence(sequence, renewals, i) < renewals[i].1.sequence
  }

  function LastTime(start: u64, renewals: seq<(u64, Renewal)>, i: nat): u64
    requires i <= |renewals|
  {
    if i == 0 then start else renewals[i - 1].0
  }

  function LastSequence(sequence: u64, renewals: seq<(u64, Renewal)>, i: nat): u64
    requires i <= |renewals|
  {
    if i == 0 then sequence else renewals[i - 1].1.sequence
  }

  /** No poll of the run meets a clock or sequence overflow. */
  ghost predicate RoomThroughout(g: GrantRecord, polls: seq<u64>) {
    forall i :: 0 <= i < |polls| ==> polls[i] + g.watchdogUs <= U64_MAX && g.renewalSequence + i < U64_MAX
  }

  /** The run kept its tuple, fed its watchdog, and spaced and numbered its renewals. */
  ghost predicate KeptUp(g: GrantRecord, start: u64, polls: seq<u64>) {
    var (r, renewals) := Polled(g, polls);
    g.gate.active.Some? && Holds(r.gate, g.gate.active.value.binding) && r.watchdogUs == g.watchdogUs &&
    LastSequence(g.renewalSequence, renewals, |renewals|) <= r.renewalSequence <= g.renewalSequence + |polls| &&
    Fed(r, LastTime(start, renewals, |renewals|), Previous(start, polls, |polls|)) &&
    Spaced(start, g.renewalSequence, renewals, g.watchdogUs - g.watchdogUs / 2)
  }

  lemma {:induction false} SteadyFront(g: GrantRecord, start: u64, polls: seq<u64>)
    requires polls != [] && Steady(start, polls, g.watchdogUs / 2) && RoomThroughout(g, polls)
    ensures var n := |polls| - 1;
            Steady(start, polls[..n], g.watchdogUs / 2) && RoomThroughout(g, polls[..n]) &&
            Previous(start, polls[..n], n) == Previous(start, polls, n) &&
            Previous(start, polls, n) <= polls[n] <= Previous(start, polls, n) + g.watchdogUs / 2 &&
            polls[n] + g.watchdogUs <= U64_MAX && g.renewalSequence + n < U64_MAX
  {
    var front := polls[..|polls| - 1];
    forall i | 0 <= i <= |front| ensures Previous(start, front, i) == Previous(start, polls, i) {
    }
  }

  lemma {:induction false} SameLast(start: u64, sequence: u64, renewals: seq<(u64, Renewal)>, next: (u64, Renewal), i: nat)
    requires i <= |renewals|
    ensures LastTime(start, renewals + [next], i) == LastTime(start, renewals, i)
    ensures LastSequence(sequence, renewals + [next], i) == LastSequence(sequence, renewals, i)
  {
  }

  lemma {:induction false} SpacedGrows(start: u64, sequence: u64, renewals: seq<(u64, Renewal)>, gap: nat, next: (u64, Renewal))
    requires Spaced(start, sequence, renewals, gap)
    requires LastTime(start, renewals, |renewals|) + gap <= next.0
    requires LastSequence(sequence, renewals, |renewals|) < next.1.sequence
    ensures Spaced(start, sequence, renewals + [next], gap)
  {
    hide LastTime; hide LastSequence;
    var more := renewals + [next];
    forall i | 0 <= i < |more|
      ensures LastTime(start, more, i) + gap <= more[i].0 && LastSequence(sequence, more, i) < more[i].1.sequence {
      SameLast(start, sequence, renewals, next, i);
      if i < |renewals| {
        assert more[i] == renewals[i];
      }
    }
  }

  lemma {:induction false} KeepsUp(g: GrantRecord, start: u64, polls: seq<u64>)
    requires polls != [] && KeptUp(g, start, polls[..|polls| - 1])
    requires Steady(start, polls, g.watchdogUs / 2) && RoomThroughout(g, polls)
    ensures KeptUp(g, start, polls)
  {
    hide Fed; hide DueRenewal; hide Spaced; hide Steady; hide RoomThroughout; hide Holds;
    var n := |polls| - 1;
    SteadyFront(g, start, polls);
    var (before, renewals) := Polled(g, polls[..n]);
    var since := LastTime(start, renewals, |renewals|);
    var gap := g.watchdogUs - g.watchdogUs / 2;
    FedHolds(before, since, Previous(start, polls, n));
    HoldsSame(before.gate, g.gate.active.value.binding);
    PollFeeds(before, since, Previous(start, polls, n), polls[n]);
    PollCost(before, polls[n]);
    var renewal := DueRenewal(before, polls[n]).1;
    if renewal.Some? {
      SpacedGrows(start, g.renewalSequence, renewals, gap, (polls[n], renewal.value));
    }
  }

  lemma {:induction false} HoldsSame(g: Gate, tuple: Tuple)
    requires Holds(g, tuple) && g.active.Some?
    ensures g.active.value.binding == tuple
  {
  }

  lemma {:induction false} FedHolds(g: GrantRecord, since: u64, polled: u64)
    requires Fed(g, since, polled)
    ensures g.gate.active.Some? && since <= polled
  {
  }

  lemma {:induction false} PollCost(g: GrantRecord, now: u64)
    ensures DueRenewal(g, now).0.renewalSequence <= g.renewalSequence + 1
  {
  }

  /**
   Polled steadily from its grant on, the grant keeps its tuple and never expires, and its renewals
   are spaced and numbered as promised.
   */
  lemma {:induction false} SteadyPollingKeepsGrant(g: GrantRecord, start: u64, polls: seq<u64>)
    requires Fed(g, start, start) && Steady(start, polls, g.watchdogUs / 2) && RoomThroughout(g, polls)
    ensures KeptUp(g, start, polls)
    decreases |polls|
  {
    hide Steady; hide RoomThroughout; hide KeptUp;
    if polls == [] {
      KeptUpAtStart(g, start);
    } else {
      SteadyFront(g, start, polls);
      SteadyPollingKeepsGrant(g, start, polls[..|polls| - 1]);
      KeepsUp(g, start, polls);
    }
  }

  lemma {:induction false} KeptUpAtStart(g: GrantRecord, start: u64)
    requires Fed(g, start, start)
    ensures KeptUp(g, start, [])
  {
  }

  /** Hence at no moment up to half a timeout past the last poll has the watchdog run out. */
  lemma {:induction false} SteadilyAlive(g: GrantRecord, start: u64, polls: seq<u64>, now: u64)
    requires Fed(g, start, start) && Steady(start, polls, g.watchdogUs / 2) && RoomThroughout(g, polls)
    requires now <= Previous(start, polls, |polls|) + g.watchdogUs / 2
    ensures !Expired(Polled(g, polls).0, now)
  {
    hide Fed; hide Steady; hide RoomThroughout; hide Expired; hide Spaced;
    SteadyPollingKeepsGrant(g, start, polls);
    var (r, renewals) := Polled(g, polls);
    FedIsAlive(r, LastTime(start, renewals, |renewals|), Previous(start, polls, |polls|), now);
  }

  function Polls(times: seq<u64>): (calls: seq<Call>)
    ensures |calls| == |times|
  {
    if times == [] then [] else Polls(times[..|times| - 1]) + [Poll(times[|times| - 1])]
  }

  lemma {:induction false} PolledRuns(calls: seq<Call>, times: seq<u64>)
    ensures After(calls + Polls(times)) == Polled(After(calls), times).0
    decreases |times|
  {
    if times == [] {
      assert calls + Polls(times) == calls;
    } else {
      var front := times[..|times| - 1];
      PolledRuns(calls, front);
      AfterOneMore(calls + Polls(front), Poll(times[|times| - 1]));
      assert calls + Polls(times) == calls + Polls(front) + [Poll(times[|times| - 1])];
    }
  }

  lemma {:induction false} AfterOneMore(calls: seq<Call>, c: Call)
    ensures After(calls + [c]) == Step(After(calls), c)
  {
    hide Step;
    assert (calls + [c])[..|calls|] == calls;
  }

  lemma {:induction false} EnabledStarts(g: GrantRecord, b: Binding, e: Eligibility, now: u64)
    requires ApplyGrant(g, b, e, now).1 == Ok(GrantEnabled)
    ensures !Disables(b) && ApplyGrant(g, b, e, now).0.renewalSequence == 0
  {
    hide Refusal; hide ApplyBinding;
  }

  /**
   Whatever came before: once a binding is enabled, its presenter was eligible, and polls no more than
   half its timeout apart keep its tuple, space and number its renewals, and leave no moment up to half
   a timeout past the last poll at which the watchdog has run out.
   */
  lemma {:induction false} EnabledGrantSurvives(calls: seq<Call>, b: Binding, e: Eligibility, now: u64,
                                                times: seq<u64>, later: u64)
    requires ApplyGrant(After(calls), b, e, now).1 == Ok(GrantEnabled)
    requires Steady(now, times, b.watchdogUs / 2) && |times| <= U64_MAX
    requires forall i :: 0 <= i < |times| ==> times[i] + b.watchdogUs <= U64_MAX
    requires later <= Previous(now, times, |times|) + b.watchdogUs / 2
    ensures var g := After(calls + [Call.Apply(b, e, now)]);
            var r := After(calls + [Call.Apply(b, e, now)] + Polls(times));
            Eligible(e, b) && g.watchdogUs == b.watchdogUs && g.gate.active.Some? &&
            Holds(r.gate, g.gate.active.value.binding) && KeptUp(g, now, times) && !Expired(r, later)
  {
    hide After; hide ApplyGrant; hide Agrees; hide Steady; hide Holds; hide Fed; hide Spaced; hide Polled; hide Expired;
    var g := After(calls + [Call.Apply(b, e, now)]);
    AfterOneMore(calls, Call.Apply(b, e, now));
    AlwaysAgrees(calls);
    FreshlyFed(After(calls), b, e, now);
    EnabledStarts(After(calls), b, e, now);
    EnabledExactlyWhenEligible(After(calls), b, e, now);
    SteadyPollingKeepsGrant(g, now, times);
    SteadilyAlive(g, now, times, later);
    PolledRuns(calls + [Call.Apply(b, e, now)], times);
  }

  /** A due poll that the gate will refuse: the deadline has passed, or the next one does not fit the clock. */
  predicate Wasted(g: GrantRecord, now: u64) {
    g.gate.active.Some? && g.renewalSequence < U64_MAX && now >= g.gate.active.value.deadline - g.watchdogUs / 2 &&
    (now >= g.gate.active.value.deadline || now + g.watchdogUs > U64_MAX)
  }

  /** A poll renews nothing and still spends a sequence number exactly when it is due and cannot be granted. */
  lemma {:induction false} PollWastesExactly(g: GrantRecord, now: u64)
    requires Agrees(g)
    ensures var (r, renewal) := DueRenewal(g, now);
            (r.renewalSequence != g.renewalSequence && renewal.None? <==> Wasted(g, now)) &&
            (Wasted(g, now) ==> r == g.(renewalSequence := g.renewalSequence + 1)) &&
            (renewal.None? && !Wasted(g, now) ==> r == g)
  {
    hide ApplyBinding;
  }

  const BINDING := Binding(1, 1, 1, 1, {KEYBOARD}, 0, MIN_WATCHDOG_US)
  const WILLING := Eligibility(true, true, true, 1, {KEYBOARD}, true, true, true)

  /** The grant after one enabling binding, at `start`. */
  lemma {:induction false} GrantedAt(start: u64)
    requires start + MIN_WATCHDOG_US <= U64_MAX
    ensures var g := After([Call.Apply(BINDING, WILLING, start)]);
            g.gate.active.Some? && g.gate.active.value.deadline == start + MIN_WATCHDOG_US &&
            g.watchdogUs == MIN_WATCHDOG_US && g.renewalSequence == 0
  {
    AfterOneMore([], Call.Apply(BINDING, WILLING, start));
    assert [] + [Call.Apply(BINDING, WILLING, start)] == [Call.Apply(BINDING, WILLING, start)];
    assert KEYBOARD in BINDING.requested * WILLING.capability * KNOWN_MASK * BINDING.requested;
    assert KEYBOARD in BINDING.requested * WILLING.capability;
  }

  /** Both grounds are met: a poll at the deadline, and a timely one near the end of the clock. */
  lemma {:induction false} PollsCanBeWasted()
    ensures var late := After([Call.Apply(BINDING, WILLING, 0)]);
            Wasted(late, MIN_WATCHDOG_US) && Expired(late, MIN_WATCHDOG_US)
    ensures var timely := After([Call.Apply(BINDING, WILLING, U64_MAX - MIN_WATCHDOG_US)]);
            Wasted(timely, U64_MAX - 1) && !Expired(timely, U64_MAX - 1)
    ensures After([Call.Apply(BINDING, WILLING, U64_MAX - MIN_WATCHDOG_US), Poll(U64_MAX - 1)]).renewalSequence == 1
  {
    hide After; hide Agrees; hide DueRenewal;
    GrantedAt(0);
    GrantedAt(U64_MAX - MIN_WATCHDOG_US);
    var grant := [Call.Apply(BINDING, WILLING, U64_MAX - MIN_WATCHDOG_US)];
    AlwaysAgrees(grant);
    PollWastesExactly(After(grant), U64_MAX - 1);
    AfterOneMore(grant, Poll(U64_MAX - 1));
    assert grant + [Poll(U64_MAX - 1)] == [Call.Apply(BINDING, WILLING, U64_MAX - MIN_WATCHDOG_US), Poll(U64_MAX - 1)];
  }
}
