/**
 Re-entrant emission. Whatever cascade an event sets off, the result is the old state with whole
 owners revoked and reported, events queued for the others, and nothing else changed.
 */
module OverlayRevocation {
  import opened Wrappers
  import opened Words
  import opened Scalars
  import opened OverlayTypes
  import opened OverlayModel
  import opened OverlayInvariant

  function KeepWindows(windows: map<Id, Window>, owners: set<Owner>): map<Id, Window> {
    map id | id in windows && id.owner in owners :: windows[id]
  }

  function KeepCapture(capture: Option<Capture>, owners: set<Owner>): Option<Capture> {
    if capture.Some? && capture.value.window.owner !in owners then None else capture
  }

  /** `r` is `s` after revoking exactly the owners whose queues are gone, whole and without trace. */
  ghost predicate Reduced(s: State, r: State) {
    var owners := r.events.Keys;
    owners <= s.events.Keys && r.deliveries.Keys == owners &&
    r.windows == KeepWindows(s.windows, owners) &&
    r.stack == Served(s.stack, owners) && r.focusHistory == Served(s.focusHistory, owners) &&
    r.capture == KeepCapture(s.capture, owners)
  }

  /** Every revoked owner is reported as overflowed, and no one else is. */
  ghost predicate Reported(s: State, r: State) {
    r.overflowed == s.overflowed + (s.events.Keys - r.events.Keys)
  }

  lemma {:induction false} ReducedSelf(s: State, r: State)
    requires Structure(s)
    requires r.windows == s.windows && r.stack == s.stack && r.focusHistory == s.focusHistory
    requires r.capture == s.capture
    requires r.events.Keys == s.events.Keys && r.deliveries.Keys == s.deliveries.Keys
    ensures Reduced(s, r)
  {
    assert KeepWindows(s.windows, s.events.Keys) == s.windows;
    ServedAll(s.stack, s.events.Keys);
    ServedAll(s.focusHistory, s.events.Keys);
  }

  lemma {:induction false} ReducedTwice(s: State, m: State, r: State)
    requires Reduced(s, m) && Reduced(m, r)
    ensures Reduced(s, r)
  {
    ServedTwice(s.stack, m.events.Keys, r.events.Keys);
    ServedTwice(s.focusHistory, m.events.Keys, r.events.Keys);
    assert KeepWindows(KeepWindows(s.windows, m.events.Keys), r.events.Keys) == KeepWindows(s.windows, r.events.Keys);
  }

  lemma {:induction false} SmallerSet<T>(a: set<T>, b: set<T>)
    requires a <= b
    ensures |a| <= |b|
  {
    assert b == a + (b - a);
  }

  lemma {:induction false} ReducedForest(s: State, r: State)
    requires Forest(s) && Reduced(s, r)
    ensures Forest(r)
  {
    var owners := r.events.Keys;
    FilterOrdered(s.windows, {}, s.stack, (id: Id) => id.owner in owners, r.windows, {});
  }

  lemma {:induction false} ReducedBounded(s: State, r: State)
    requires Bounded(s) && r.windows == KeepWindows(s.windows, r.events.Keys)
    ensures Bounded(r)
  {
    SmallerSet(r.windows.Keys, s.windows.Keys);
    forall owner ensures |OwnedWindows(r.windows, owner)| <= MAX_WINDOWS_PER_OWNER {
      SmallerSet(OwnedWindows(r.windows, owner), OwnedWindows(s.windows, owner));
    }
  }

  lemma {:induction false} ReducedStructure(s: State, r: State)
    requires Structure(s) && Reduced(s, r)
    ensures Structure(r)
  {
    hide Ordered;
    ReducedForest(s, r);
    ReducedBounded(s, r);
    FilterDistinct(s.focusHistory, (id: Id) => id.owner in r.events.Keys);
  }

  lemma {:induction false} ReducedCounted(s: State, r: State)
    requires Counted(s) && r.events.Keys <= s.events.Keys
    requires r.overflowed <= s.overflowed + (s.events.Keys - r.events.Keys)
    ensures Counted(r)
  {
    SmallerSet(Owners(r), Owners(s));
  }

  // ---- The cascade -------------------------------------------------------------------------

  /** Nothing a cascade does reaches the hover or the swallowed input. */
  ghost predicate PointerUntouched(s: State, r: State) {
    r.hover == s.hover && r.swallowedButtons == s.swallowedButtons && r.swallowedEscape == s.swallowedEscape
  }

  /** What a cascade from a good state always leads to. */
  ghost predicate Cascaded(s: State, r: State) {
    Inv(r) && Reduced(s, r) && Reported(s, r) && PointerUntouched(s, r)
  }

  lemma {:induction false} CascadedTwice(s: State, m: State, r: State)
    requires Cascaded(s, m) && Cascaded(m, r)
    ensures Cascaded(s, r)
  {
    hide Inv;
    ReducedTwice(s, m, r);
  }

  /** The fields no part of the invariant looks at. */
  ghost predicate SameButCursor(s: State, r: State) {
    r == s.(focus := r.focus, hover := r.hover, swallowedButtons := r.swallowedButtons,
            swallowedEscape := r.swallowedEscape, overflowed := r.overflowed)
  }

  lemma {:induction false} CursorIgnored(s: State, r: State)
    requires SameButCursor(s, r)
    ensures (Structure(s) ==> Structure(r)) && (AllServed(s) ==> AllServed(r))
    ensures Inv(s) && r.overflowed == s.overflowed ==> Inv(r)
  {
    hide Ordered; hide Thinned; hide QueueFine; hide Distinct; hide OwnedWindows; hide ValidWindow;
    forall owner | owner in s.events && OwnerServed(s, owner) ensures OwnerServed(r, owner) {
    }
  }

  lemma {:induction false} CursorReduced(s: State, s': State, r: State, r': State)
    requires SameButCursor(s, s') && SameButCursor(r, r') && Reduced(s, r)
    ensures Reduced(s', r')
  {
  }

  lemma {:induction false} DropReduced(s: State, owner: Owner)
    requires Structure(s)
    ensures Reduced(s, DropOwner(s, owner))
  {
    UnownedIsServed(s.stack, owner, s.events.Keys);
    UnownedIsServed(s.focusHistory, owner, s.events.Keys);
    assert DropOwner(s, owner).windows == KeepWindows(s.windows, s.events.Keys - {owner});
  }

  lemma {:induction false} DropSafe(s: State, owner: Owner)
    requires Inv(s)
    ensures Inv(DropOwner(s, owner)) && Reduced(s, DropOwner(s, owner))
  {
    hide Structure; hide Reduced;
    DropReduced(s, owner);
    ReducedStructure(s, DropOwner(s, owner));
    ReducedCounted(s, DropOwner(s, owner));
  }

  /** Public revocation: like an overflow, except that `owner` itself is not reported. */
  lemma {:induction false} RevokeSafe(s: State, owner: Owner)
    requires Inv(s)
    ensures var r := Revoke(s, owner);
            Inv(r) && Reduced(s, r) && Cascaded(DropOwner(s, owner), r)
    decreases s.events.Keys - {owner}, 3
  {
    hide Inv; hide Reduced;
    var dropped := DropOwner(s, owner);
    DropSafe(s, owner);
    if s.focus.Some? && s.focus.value.owner == owner {
      var free := dropped.(focus := None);
      CursorIgnored(dropped, free);
      RestoreSafe(free);
      CursorReduced(free, dropped, Restore(free), Restore(free));
      ReducedTwice(s, dropped, Revoke(s, owner));
    } else {
      CascadedSelf(dropped);
    }
  }

  lemma {:induction false} CascadedSelf(s: State)
    requires Inv(s)
    ensures Cascaded(s, s)
  {
    hide Forest; hide Bounded; hide Counted; hide AllServed; hide Reduced;
    ReducedSelf(s, s);
  }

  lemma {:induction false} RestoreSafe(s: State)
    requires Inv(s)
    ensures Cascaded(s, Restore(s))
    decreases s.events.Keys, 2
  {
    ChangeFocusSafe(s, FocusCandidate(s));
  }

  lemma {:induction false} ChangeFocusSafe(s: State, next: Option<Id>)
    requires Inv(s)
    ensures Cascaded(s, ChangeFocus(s, next))
    decreases s.events.Keys, 1
  {
    hide Inv; hide Reduced; hide Emit;
    CascadedSelf(s);
    if s.focus != next {
      LeaveFocusSafe(s);
      var left := LeaveFocus(s);
      var entering := left.(focus := next);
      CursorIgnored(left, entering);
      CursorReduced(s, s, left, entering);
      if next.Some? {
        EmitSafe(entering, next.value, Focus(true));
        CascadedTwice(s, entering, Emit(entering, next.value, Focus(true)));
      }
    }
  }

  lemma {:induction false} LeaveFocusSafe(s: State)
    requires Inv(s)
    ensures Cascaded(s, LeaveFocus(s))
    decreases s.events.Keys, 0, 1
  {
    hide Inv; hide Reduced; hide Emit;
    CascadedSelf(s);
    if s.focus.Some? {
      var released := s.(focus := None);
      var cancelled := Emit(released, s.focus.value, Cancel);
      CursorIgnored(s, released);
      EmitSafe(released, s.focus.value, Cancel);
      CursorReduced(released, s, cancelled, cancelled);
      EmitSafe(cancelled, s.focus.value, Focus(false));
      CascadedTwice(s, cancelled, LeaveFocus(s));
    }
  }

  /**
   An emission revokes and reports whole owners, and does nothing else, exactly when the event is valid
   or its addressee is already served or reported.
   */
  lemma {:induction false} EmitSafe(s: State, id: Id, event: Event)
    requires Inv(s)
    ensures Cascaded(s, Emit(s, id, event)) <==> ValidEvent(event) || id.owner in Owners(s)
    decreases s.events.Keys, if ValidEvent(event) then 0 else 5, 0
  {
    hide Reduced; hide Revoke; hide Enqueue; hide ValidEvent; hide Forest; hide Bounded; hide References;
    hide AllServed;
    CascadedSelf(s);
    if !ValidEvent(event) {
      if id.owner in Owners(s) {
        OverflowSafe(s, id.owner);
      } else {
        assert id.owner in Emit(s, id, event).overflowed;
      }
    } else if id in s.windows {
      var e := Stamp(s.windows[id], id, event);
      if Overfull(s.events[id.owner], e) {
        OverflowSafe(s, id.owner);
      } else {
        EnqueueSafe(s, e);
      }
    }
  }

  lemma {:induction false} OverflowSafe(s: State, owner: Owner)
    requires Inv(s) && owner in Owners(s)
    ensures Cascaded(s, Overflow(s, owner))
    decreases s.events.Keys - {owner}, 4
  {
    hide Structure; hide Revoke; hide AllServed; hide Reduced; hide DropOwner;
    var revoked, r := Revoke(s, owner), Overflow(s, owner);
    RevokeSafe(s, owner);
    CursorIgnored(revoked, r);
    CursorReduced(s, s, revoked, r);
    DropReports(s, owner);
    ReducedCounted(s, r);
  }

  lemma {:induction false} ReportKeeps(s: State, owner: Owner)
    requires Inv(s) && owner !in s.events
    ensures Inv(s.(overflowed := s.overflowed + {owner})) <==> |Owners(s) + {owner}| <= MAX_OWNERS
  {
    hide Structure; hide AllServed;
    var r := s.(overflowed := s.overflowed + {owner});
    CursorIgnored(s, r);
    assert Owners(r) == Owners(s) + {owner};
  }

  lemma {:induction false} RevokeOwners(s: State, owner: Owner)
    requires Inv(s)
    ensures Owners(Revoke(s, owner)) == Owners(s) - {owner}
  {
    hide Inv; hide Reduced; hide Revoke;
    RevokeSafe(s, owner);
    assert Owners(DropOwner(s, owner)) == Owners(s) - {owner};
  }

  /** Reporting an owner the host never heard of keeps the invariant exactly while there is room to count it. */
  lemma {:induction false} OverflowKeeps(s: State, owner: Owner)
    requires Inv(s)
    ensures Inv(Overflow(s, owner)) <==> owner in Owners(s) || |Owners(s)| < MAX_OWNERS
  {
    hide Structure; hide AllServed; hide Revoke; hide Reduced; hide Cascaded; hide Owners;
    RevokeSafe(s, owner);
    RevokeOwners(s, owner);
    ReportKeeps(Revoke(s, owner), owner);
    assert owner in Owners(s) ==> Owners(s) - {owner} + {owner} == Owners(s);
    assert owner !in Owners(s) ==> Owners(s) - {owner} == Owners(s);
  }

  /** The invariant survives an emission unless it reports a seventeenth owner the host never heard of. */
  lemma {:induction false} EmitKeeps(s: State, id: Id, event: Event)
    requires Inv(s)
    ensures Inv(Emit(s, id, event)) <==> ValidEvent(event) || id.owner in Owners(s) || |Owners(s)| < MAX_OWNERS
  {
    hide Inv; hide Reduced; hide Overflow; hide Enqueue; hide ValidEvent;
    EmitSafe(s, id, event);
    OverflowKeeps(s, id.owner);
  }

  lemma {:induction false} DropReports(s: State, owner: Owner)
    requires Counted(s) && owner in Owners(s) && Reported(DropOwner(s, owner), Revoke(s, owner))
    ensures Reported(s, Overflow(s, owner)) && PointerUntouched(s, DropOwner(s, owner))
  {
    hide Revoke;
    var r := Overflow(s, owner).events.Keys;
    var d := DropOwner(s, owner);
    assert d.events.Keys == s.events.Keys - {owner} && d.overflowed == s.overflowed - {owner};
    ReportSets(s.overflowed, s.events.Keys, r, owner);
  }

  lemma {:induction false} ReportSets(overflowed: set<Owner>, served: set<Owner>, left: set<Owner>, owner: Owner)
    requires owner in served + overflowed && owner !in left && left <= served
    ensures overflowed - {owner} + (served - {owner} - left) + {owner} == overflowed + (served - left)
  {
  }

  // ---- Queues ------------------------------------------------------------------------------

  lemma {:induction false} EnqueueSafe(s: State, e: WindowEvent)
    requires Inv(s) && e.window.owner in s.events && ValidEvent(e.event)
    requires !Overfull(s.events[e.window.owner], e)
    ensures Cascaded(s, Enqueue(s, e))
  {
    hide Forest; hide Bounded; hide References; hide Overfull; hide OwnerServed;
    var r := Enqueue(s, e);
    ReducedSelf(s, r);
    ReducedStructure(s, r);
    forall owner | owner in r.events ensures OwnerServed(r, owner) {
      EnqueueServes(s, e, owner);
    }
  }

  lemma {:induction false} EnqueueServes(s: State, e: WindowEvent, owner: Owner)
    requires AllServed(s) && e.window.owner in s.events && owner in s.events && ValidEvent(e.event)
    requires !Overfull(s.events[e.window.owner], e)
    ensures OwnerServed(Enqueue(s, e), owner)
  {
    hide Thinned; hide QueueFine; hide Base; hide Overfull;
    assert OwnerServed(s, owner);
    if owner == e.window.owner {
      PushFine(owner, s.events[owner], e);
      PushThins(s.deliveries[owner].emitted, s.deliveries[owner].taken, s.events[owner], e);
    }
  }

  lemma {:induction false} PushFine(owner: Owner, q: seq<WindowEvent>, e: WindowEvent)
    requires QueueFine(owner, q) && e.window.owner == owner && ValidEvent(e.event) && !Overfull(q, e)
    ensures QueueFine(owner, Base(q, e) + [e])
  {
    hide ValidEvent; hide EventBytes;
    var base := Base(q, e);
    assert (base + [e])[..|base|] == base;
  }

  lemma {:induction false} PushThins(emitted: seq<WindowEvent>, taken: seq<WindowEvent>, q: seq<WindowEvent>, e: WindowEvent)
    requires Thinned(emitted, taken + q)
    ensures Thinned(emitted + [e], taken + (Base(q, e) + [e]))
  {
    var base := Base(q, e);
    var out := taken + (base + [e]);
    assert out[..|out| - 1] == taken + base;
    assert (emitted + [e])[..|emitted|] == emitted;
    if Coalesces(q, e) {
      var last := q[|q| - 1];
      assert taken + base + [last] == taken + q;
      assert emitted != [] && emitted[|emitted| - 1] == last;
    }
  }

  // ---- Who is revoked ----------------------------------------------------------------------

  /** A queue that can take `n` more events without text. */
  predicate Room(q: seq<WindowEvent>, n: nat) {
    |q| + n <= MAX_PENDING_EVENTS && QueueBytes(q) + 128 * n <= MAX_EVENT_QUEUE_BYTES
  }

  predicate NoRoom(q: seq<WindowEvent>) {
    !Room(q, 1)
  }

  /** What is left of `s` once the focused `owner` is dropped, before focus passes on. */
  function Freed(s: State, owner: Owner): (r: State)
    ensures r.events.Keys == s.events.Keys - {owner} && r.focus.None?
  {
    DropOwner(s, owner).(focus := None)
  }

  /**
   The owners that a revocation of `owner` takes down. Focus held by a revoked owner passes to the
   next candidate, which must be told; where that candidate's queue has no room, its owner falls too.
   */
  function Falls(s: State, owner: Owner): set<Owner>
    decreases s.events.Keys - {owner}
  {
    if s.focus.None? || s.focus.value.owner != owner then {owner}
    else
      var free := Freed(s, owner);
      var next := FocusCandidate(free);
      if next.None? || next.value.owner !in free.events || !NoRoom(free.events[next.value.owner]) then {owner}
      else {owner} + Falls(free.(focus := next), next.value.owner)
  }

  /** The emission ends in a revocation: the event is invalid, or it overfills the queue it is meant for. */
  predicate Bursts(s: State, id: Id, event: Event) {
    !ValidEvent(event) ||
    (id in s.windows && id.owner in s.events && Overfull(s.events[id.owner], Stamp(s.windows[id], id, event)))
  }

  lemma {:induction false} RestoreUnfolds(s: State)
    requires s.focus.None?
    ensures var next := FocusCandidate(s);
            Restore(s) == if next.None? then s else Emit(s.(focus := next), next.value, Focus(true))
  {
    hide Emit; hide FocusCandidate;
    assert LeaveFocus(s) == s;
  }

  lemma {:induction false} OwnerHasQueue(s: State, id: Id)
    requires Inv(s) && id in s.windows
    ensures id.owner in s.events
  {
  }

  lemma {:induction false} GreetingRevokes(s: State, id: Id)
    requires id in s.windows && id.owner in s.events
    ensures Emit(s, id, Focus(true)).events.Keys
         == if NoRoom(s.events[id.owner]) then Revoke(s, id.owner).events.Keys else s.events.Keys
  {
    hide Revoke;
  }

  lemma {:induction false} FreedSafe(s: State, owner: Owner)
    requires Inv(s)
    ensures Inv(Freed(s, owner))
    ensures s.focus.Some? && s.focus.value.owner == owner ==> Revoke(s, owner) == Restore(Freed(s, owner))
  {
    hide Inv; hide Restore;
    DropSafe(s, owner);
    CursorIgnored(DropOwner(s, owner), Freed(s, owner));
  }

  lemma {:induction false} EligibleLive(s: State, id: Id)
    requires Eligible(s, id)
    ensures id in s.windows
  {
  }

  lemma {:induction false} CandidateServed(s: State)
    requires Inv(s)
    ensures var next := FocusCandidate(s);
            Inv(s.(focus := next)) && (next.Some? ==> next.value in s.windows && next.value.owner in s.events)
  {
    hide Inv; hide Eligible; hide FocusCandidate;
    var next := FocusCandidate(s);
    CursorIgnored(s, s.(focus := next));
    if next.Some? {
      EligibleLive(s, next.value);
      OwnerHasQueue(s, next.value);
    }
  }

  /** A revocation takes exactly the owners that fall, told from the state before it. */
  lemma {:induction false} RevokeFalls(s: State, owner: Owner)
    requires Inv(s)
    ensures Revoke(s, owner).events.Keys == s.events.Keys - Falls(s, owner)
    decreases s.events.Keys - {owner}
  {
    hide Inv; hide Emit; hide Restore; hide FocusCandidate; hide NoRoom; hide Freed;
    if s.focus.Some? && s.focus.value.owner == owner {
      hide Revoke;
      var free := Freed(s, owner);
      FreedSafe(s, owner);
      RestoreUnfolds(free);
      CandidateServed(free);
      var next := FocusCandidate(free);
      if next.Some? {
        GreetingRevokes(free.(focus := next), next.value);
        if NoRoom(free.events[next.value.owner]) {
          RevokeFalls(free.(focus := next), next.value.owner);
        }
      }
    }
  }

  /** Besides `owner` itself, only owners with a full queue fall. */
  lemma {:induction false} FallsFull(s: State, owner: Owner)
    ensures owner in Falls(s, owner)
    ensures forall o :: o in Falls(s, owner) && o != owner ==> o in s.events && NoRoom(s.events[o])
    decreases s.events.Keys - {owner}
  {
    hide FocusCandidate; hide NoRoom;
    if s.focus.Some? && s.focus.value.owner == owner {
      var free := Freed(s, owner);
      var next := FocusCandidate(free);
      if next.Some? && next.value.owner in free.events && NoRoom(free.events[next.value.owner]) {
        FallsFull(free.(focus := next), next.value.owner);
      }
    }
  }

  /**
   An emission revokes no one unless its event is invalid or overfills the queue it is meant for; then
   it revokes exactly the owners that fall with the addressed one, each other one with a full queue.
   */
  lemma {:induction false} EmitRevokes(s: State, id: Id, event: Event)
    requires Inv(s)
    ensures Emit(s, id, event).events.Keys == s.events.Keys - if Bursts(s, id, event) then Falls(s, id.owner) else {}
    ensures forall o :: o in Falls(s, id.owner) && o != id.owner ==> o in s.events && NoRoom(s.events[o])
  {
    hide Inv; hide Revoke; hide Overfull; hide ValidEvent; hide Falls;
    FallsFull(s, id.owner);
    RevokeFalls(s, id.owner);
  }

  // ---- Where focus can be left -------------------------------------------------------------

  predicate FocusLive(s: State) {
    s.focus.Some? ==> s.focus.value in s.windows
  }

  lemma {:induction false} NoFocusStays(s: State, id: Id, event: Event)
    requires s.focus.None?
    ensures Emit(s, id, event).focus.None?
    ensures s.events.Keys - {id.owner} <= Emit(s, id, event).events.Keys
  {
    hide Overfull; hide ValidEvent;
    assert Revoke(s, id.owner) == DropOwner(s, id.owner);
  }

  lemma {:induction false} RevokeFocusLive(s: State, owner: Owner)
    requires Inv(s) && FocusLive(s)
    ensures FocusLive(Revoke(s, owner))
    decreases s.events.Keys - {owner}, 3
  {
    hide Inv; hide Restore; hide Freed;
    if s.focus.Some? && s.focus.value.owner == owner {
      var free := Freed(s, owner);
      FreedSafe(s, owner);
      RestoreUnfolds(free);
      CandidateServed(free);
      var next := FocusCandidate(free);
      if next.Some? {
        EmitFocusLive(free.(focus := next), next.value, Focus(true));
      }
    }
  }

  lemma {:induction false} EmitFocusLive(s: State, id: Id, event: Event)
    requires Inv(s) && FocusLive(s)
    ensures FocusLive(Emit(s, id, event))
    decreases s.events.Keys, if ValidEvent(event) then 0 else 5, 0
  {
    hide Inv; hide Revoke; hide Overfull; hide ValidEvent;
    if !ValidEvent(event) || (id in s.windows && id.owner in s.events
                              && Overfull(s.events[id.owner], Stamp(s.windows[id], id, event))) {
      RevokeFocusLive(s, id.owner);
    }
  }

  /** Moving focus within one owner whose queue cannot take the two farewell events. */
  predicate Strands(s: State, id: Id) {
    s.focus.Some? && s.focus.value != id && s.focus.value in s.windows && s.focus.value.owner == id.owner &&
    id.owner in s.events && !Room(s.events[id.owner], 2)
  }

  lemma {:induction false} FarewellRevokes(s: State, holder: Id)
    requires Inv(s) && s.focus == Some(holder) && holder in s.windows
    ensures LeaveFocus(s).focus.None? && holder.owner in s.events
    ensures holder.owner in LeaveFocus(s).events <==> Room(s.events[holder.owner], 2)
    ensures forall owner :: owner in s.events && owner != holder.owner ==> owner in LeaveFocus(s).events
  {
    hide Inv; hide ValidWindow;
    OwnerHasQueue(s, holder);
    var w, q := s.windows[holder], s.events[holder.owner];
    var free := s.(focus := None);
    var first := Stamp(w, holder, Cancel);
    CursorIgnored(s, free);
    NoFocusStays(free, holder, Cancel);
    NoFocusStays(Emit(free, holder, Cancel), holder, Focus(false));
    if !Overfull(q, first) {
      var one := Enqueue(free, first);
      assert one.events[holder.owner] == q + [first];
      assert (q + [first])[..|q|] == q;
      assert Emit(one, holder, Focus(false)) == LeaveFocus(s);
    }
  }

  /**
   Giving focus to a live window leaves focus on a live window exactly when the farewell to the
   previous holder does not revoke the very owner that is being focused.
   */
  lemma {:induction false} FocusStrandedExactly(s: State, id: Id)
    requires Inv(s) && id in s.windows
    ensures FocusLive(ChangeFocus(s, Some(id))) <==> !Strands(s, id)
  {
    hide Inv; hide Overfull;
    if s.focus != Some(id) {
      var left := LeaveFocus(s);
      LeaveFocusSafe(s);
      OwnerHasQueue(s, id);
      if s.focus.Some? && s.focus.value in s.windows {
        FarewellRevokes(s, s.focus.value);
      } else if s.focus.Some? {
        assert Emit(s.(focus := None), s.focus.value, Cancel) == s.(focus := None);
        assert left == s.(focus := None);
      }
      assert Reduced(s, left);
      assert id in left.windows <==> id.owner in left.events;
      var entering := left.(focus := Some(id));
      CursorIgnored(left, entering);
      EmitFocusLiveIf(entering, id);
    }
  }

  lemma {:induction false} EmitFocusLiveIf(s: State, id: Id)
    requires Inv(s) && s.focus == Some(id)
    ensures FocusLive(Emit(s, id, Focus(true))) <==> id in s.windows
  {
    hide Inv; hide Overflow; hide Overfull;
    if id in s.windows {
      EmitFocusLive(s, id, Focus(true));
    }
  }
}
