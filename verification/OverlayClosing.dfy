/** Whom a close takes down: its farewells, the revocation they may end in, and the focus it restores. */
module OverlayClosing {
  import opened Wrappers
  import opened Words
  import opened Scalars
  import opened OverlayTypes
  import opened OverlayModel
  import opened OverlayInvariant
  import opened OverlayRevocation
  import opened OverlaySafety
  import opened OverlayRuns
  import opened OverlayQueues

  // ---- What a cascade looks at -------------------------------------------------------------

  /** The same windows, order and focus, and queues of the same size. */
  ghost predicate Alike(a: State, b: State) {
    a.windows == b.windows && a.stack == b.stack && a.focusHistory == b.focusHistory && a.focus == b.focus &&
    a.events.Keys == b.events.Keys && forall o :: o in a.events ==> Grown(a.events[o], b.events[o], 0)
  }

  lemma {:induction false} FreedAlike(a: State, b: State, owner: Owner)
    requires Alike(a, b)
    ensures Alike(Freed(a, owner), Freed(b, owner))
    ensures FocusCandidate(Freed(a, owner)) == FocusCandidate(Freed(b, owner))
  {
    hide QueueBytes; hide LastEligible; hide Filter;
  }

  lemma {:induction false} FallsAlike(a: State, b: State, owner: Owner)
    requires Alike(a, b)
    ensures Falls(a, owner) == Falls(b, owner)
    decreases a.events.Keys - {owner}
  {
    hide Freed; hide FocusCandidate; hide QueueBytes;
    if a.focus.Some? && a.focus.value.owner == owner {
      var free, other := Freed(a, owner), Freed(b, owner);
      FreedAlike(a, b, owner);
      var next := FocusCandidate(free);
      if next.Some? && next.value.owner in free.events && NoRoom(free.events[next.value.owner]) {
        FallsAlike(free.(focus := next), other.(focus := next), next.value.owner);
      }
    }
  }

  // ---- Restoring focus ---------------------------------------------------------------------

  const PADDING := WindowEvent(Id(Owner(0, 0), 0, 0), 0, 0, 0, Cancel)

  /** `s` with `n` more events in one queue; of these events only the number matters. */
  function Padded(s: State, owner: Owner, n: nat): State
    requires owner in s.events
  {
    s.(events := s.events[owner := s.events[owner] + seq(n, _ => PADDING)])
  }

  lemma {:induction false} PaddingGrows(q: seq<WindowEvent>, n: nat)
    ensures Grown(q, q + seq(n, _ => PADDING), n)
    decreases n
  {
    if n == 0 {
      assert q + seq(n, _ => PADDING) == q;
    } else {
      PaddingGrows(q, n - 1);
      var more := q + seq(n, _ => PADDING);
      assert more[..|more| - 1] == q + seq(n - 1, _ => PADDING);
    }
  }

  /** `s` without focus, its holder told farewell, or revoked for want of room. */
  function Parted(s: State): State {
    if s.focus.None? || s.focus.value !in s.windows || s.focus.value.owner !in s.events then s.(focus := None)
    else
      var holder := s.focus.value.owner;
      (if Room(s.events[holder], 2) then Padded(s, holder, 2) else DropOwner(s, holder)).(focus := None)
  }

  /** The owners that restoring focus takes down: the holder it says farewell to, and those its greeting does. */
  function RestoreFalls(s: State): set<Owner> {
    var next := FocusCandidate(s);
    if s.focus == next then {}
    else
      var left := Parted(s);
      (s.events.Keys - left.events.Keys) + if next.None? then {} else GreetingFalls(left.(focus := next), next.value)
  }

  function GreetingFalls(s: State, id: Id): set<Owner> {
    if id in s.windows && id.owner in s.events && NoRoom(s.events[id.owner]) then Falls(s, id.owner) else {}
  }

  lemma {:induction false} LeaveFocusParts(s: State)
    requires Inv(s)
    ensures Alike(Parted(s), LeaveFocus(s))
  {
    hide Inv; hide Emit; hide QueueBytes; hide DropOwner; hide Room;
    if s.focus.Some? {
      var holder := s.focus.value;
      if holder in s.windows {
        OwnerHasQueue(s, holder);
        LiveLeaveParts(s, holder);
      } else {
        StrayEmission(s.(focus := None), holder, Cancel);
        StrayEmission(s.(focus := None), holder, Focus(false));
      }
    }
  }

  lemma {:induction false} LiveLeaveParts(s: State, holder: Id)
    requires Inv(s) && s.focus == Some(holder) && holder in s.windows && holder.owner in s.events
    ensures Alike(Parted(s), LeaveFocus(s))
  {
    hide Inv; hide Emit; hide QueueBytes; hide DropOwner; hide Overflow;
    var free := s.(focus := None);
    var one := Emit(free, holder, Cancel);
    PaddingGrows(s.events[holder.owner], 2);
    EmitLasting(free, holder, Cancel);
    if !NoRoom(s.events[holder.owner]) {
      EmitLasting(one, holder, Focus(false));
      if NoRoom(one.events[holder.owner]) {
        OverflowDrops(one, s, holder.owner);
      }
    } else {
      OverflowDrops(free, s, holder.owner);
      StrayEmission(one, holder, Focus(false));
    }
  }

  /** With no focus to pass on, an overflow only drops the owner, and with it all that was queued for it. */
  lemma {:induction false} OverflowDrops(s: State, was: State, owner: Owner)
    requires s.focus.None? && s.windows == was.windows && s.stack == was.stack && s.focusHistory == was.focusHistory
    requires s.events.Keys == was.events.Keys
    requires forall o :: o in s.events && o != owner ==> Grown(was.events[o], s.events[o], 0)
    ensures Alike(DropOwner(was, owner).(focus := None), Overflow(s, owner))
    ensures forall id :: id in Overflow(s, owner).windows ==> id.owner != owner
  {
    hide QueueBytes;
    assert Revoke(s, owner) == DropOwner(s, owner);
  }

  /** A restoration takes exactly those owners. */
  lemma {:induction false} RestoreLosesExactly(s: State)
    requires Inv(s)
    ensures Restore(s).events.Keys == s.events.Keys - RestoreFalls(s)
  {
    hide Inv; hide Emit; hide Alike; hide FocusCandidate; hide Parted; hide LeaveFocus; hide GreetingFalls;
    var next := FocusCandidate(s);
    if s.focus != next {
      LeftAlike(s, next);
      if next.Some? {
        GreetingLoses(LeaveFocus(s).(focus := next), Parted(s).(focus := next), next.value);
      }
    }
  }

  lemma {:induction false} LeftAlike(s: State, next: Option<Id>)
    requires Inv(s)
    ensures LeaveFocus(s).events.Keys == Parted(s).events.Keys <= s.events.Keys
    ensures Inv(LeaveFocus(s).(focus := next)) && Alike(Parted(s).(focus := next), LeaveFocus(s).(focus := next))
  {
    hide Inv; hide QueueBytes; hide Parted; hide LeaveFocus; hide Reduced; hide Reported;
    LeaveFocusSafe(s);
    LeaveFocusParts(s);
    CursorIgnored(LeaveFocus(s), LeaveFocus(s).(focus := next));
  }

  lemma {:induction false} GreetingLoses(s: State, view: State, id: Id)
    requires Inv(s) && Alike(view, s)
    ensures Emit(s, id, Focus(true)).events.Keys == s.events.Keys - GreetingFalls(view, id)
  {
    hide Inv; hide Emit; hide QueueBytes; hide Overflow; hide Falls;
    if id in s.windows {
      OwnerHasQueue(s, id);
      EmitLasting(s, id, Focus(true));
      if NoRoom(s.events[id.owner]) {
        OverflowQueues(s, id.owner);
        RevokeFalls(s, id.owner);
        FallsAlike(view, s, id.owner);
      }
    } else {
      StrayEmission(s, id, Focus(true));
    }
  }

  lemma {:induction false} RestoreAlike(a: State, b: State)
    requires Alike(a, b)
    ensures RestoreFalls(a) == RestoreFalls(b)
  {
    hide QueueBytes; hide Falls; hide LastEligible; hide DropOwner; hide Room;
    PartedAlike(a, b);
    var next := FocusCandidate(a);
    if next.Some? {
      GreetingAlike(Parted(a).(focus := next), Parted(b).(focus := next), next.value);
    }
  }

  lemma {:induction false} GreetingAlike(a: State, b: State, id: Id)
    requires Alike(a, b)
    ensures GreetingFalls(a, id) == GreetingFalls(b, id)
  {
    hide QueueBytes; hide Falls;
    FallsAlike(a, b, id.owner);
  }

  lemma {:induction false} PartedAlike(a: State, b: State)
    requires Alike(a, b)
    ensures Alike(Parted(a), Parted(b)) && FocusCandidate(a) == FocusCandidate(b)
  {
    hide QueueBytes; hide LastEligible; hide Filter;
    if a.focus.Some? && a.focus.value.owner in a.events {
      PaddingGrows(a.events[a.focus.value.owner], 2);
      PaddingGrows(b.events[a.focus.value.owner], 2);
    }
  }

  // ---- Told, or fallen ---------------------------------------------------------------------

  predicate OwnsFocus(s: State, owner: Owner) {
    s.focus.Some? && s.focus.value.owner == owner
  }

  /** `n` more events reached one owner; beside queues only hover, capture and the owner's focus moved. */
  ghost predicate Spoken(s: State, r: State, owner: Owner, n: nat) {
    r == s.(events := r.events, deliveries := r.deliveries, hover := r.hover, capture := r.capture, focus := r.focus) &&
    r.events.Keys == s.events.Keys &&
    (forall o :: o in s.events ==> Grown(s.events[o], r.events[o], if o == owner then n else 0)) &&
    (r.focus == s.focus || (r.focus.None? && OwnsFocus(s, owner)))
  }

  /** `s` without the owner, and without its focus. */
  function Bare(s: State, owner: Owner): State {
    DropOwner(s, owner).(focus := if OwnsFocus(s, owner) then None else s.focus)
  }

  /** The owner is gone; focus, if it was the owner's, is gone too, or has already passed on as far as it goes. */
  ghost predicate Fallen(s: State, r: State, owner: Owner) {
    Inv(r) && owner !in r.events && !OwnsFocus(r, owner) &&
    (Alike(Bare(s, owner), r) ||
     (OwnsFocus(s, owner) && FocusCandidate(r) == r.focus && r.events.Keys == s.events.Keys - Falls(s, owner)))
  }

  /** `n` farewells to one owner are told, or there is no room for them and it falls. */
  ghost predicate Outcome(s: State, r: State, owner: Owner, n: nat)
    requires owner in s.events
  {
    if Room(s.events[owner], n) then Spoken(s, r, owner, n) else Fallen(s, r, owner)
  }

  /** Nothing outside the owner's own has changed. */
  ghost predicate Trimmed(s: State, m: State, owner: Owner) {
    Alike(Bare(s, owner), Bare(m, owner)) && s.events.Keys == m.events.Keys &&
    (m.focus == s.focus || (m.focus.None? && OwnsFocus(s, owner)))
  }

  lemma {:induction false} AlikeTwice(a: State, b: State, c: State)
    requires Alike(a, b) && Alike(b, c)
    ensures Alike(a, c)
  {
    hide QueueBytes;
  }

  lemma {:induction false} FallsTrimmed(s: State, m: State, owner: Owner)
    requires Trimmed(s, m, owner) && OwnsFocus(m, owner)
    ensures Falls(s, owner) == Falls(m, owner)
  {
    hide FocusCandidate; hide QueueBytes; hide DropOwner;
    var free, other := Freed(s, owner), Freed(m, owner);
    assert Alike(free, other);
    SameCandidate(free, other);
    var next := FocusCandidate(free);
    if next.Some? && next.value.owner in free.events {
      FallsAlike(free.(focus := next), other.(focus := next), next.value.owner);
    }
  }

  lemma {:induction false} SameCandidate(a: State, b: State)
    requires a.windows == b.windows && a.stack == b.stack && a.focusHistory == b.focusHistory
    ensures FocusCandidate(a) == FocusCandidate(b)
  {
  }

  lemma {:induction false} FallenBack(s: State, m: State, r: State, owner: Owner)
    requires Trimmed(s, m, owner) && Fallen(m, r, owner)
    ensures Fallen(s, r, owner)
  {
    hide Inv; hide FocusCandidate; hide Bare; hide Falls; hide Alike;
    if Alike(Bare(m, owner), r) {
      AlikeTwice(Bare(s, owner), Bare(m, owner), r);
    } else {
      FallsTrimmed(s, m, owner);
    }
  }

  lemma {:induction false} SpokenTrims(s: State, m: State, owner: Owner, n: nat)
    requires Spoken(s, m, owner, n)
    ensures Trimmed(s, m, owner)
  {
    hide QueueBytes; hide Unowned;
  }

  lemma {:induction false} OutcomeThen(s: State, m: State, r: State, owner: Owner, n: nat, k: nat)
    requires owner in s.events && Outcome(s, m, owner, n)
    requires Room(s.events[owner], n) ==> owner in m.events && Outcome(m, r, owner, k)
    requires !Room(s.events[owner], n) ==> Fallen(s, r, owner)
    ensures Outcome(s, r, owner, n + k)
  {
    hide Fallen; hide QueueBytes; hide Room; hide Trimmed;
    var q := s.events[owner];
    LessRoom(q, n, k);
    if Room(q, n) {
      GrownMore(q, m.events[owner], n, k);
      SpokenTrims(s, m, owner, n);
      if !Room(q, n + k) {
        FallenBack(s, m, r, owner);
      }
    }
  }

  // ---- One farewell ------------------------------------------------------------------------

  /** Passed-on focus stays where it is: it is the candidate a restoration would choose. */
  lemma {:induction false} RevokeSettles(s: State, owner: Owner)
    requires Inv(s) && OwnsFocus(s, owner)
    ensures FocusCandidate(Revoke(s, owner)) == Revoke(s, owner).focus
    decreases s.events.Keys - {owner}
  {
    hide Inv; hide Emit; hide Restore; hide FocusCandidate; hide NoRoom; hide Freed; hide Revoke; hide QueueBytes;
    var free := Freed(s, owner);
    FreedSafe(s, owner);
    RestoreUnfolds(free);
    CandidateServed(free);
    var next := FocusCandidate(free);
    if next.Some? {
      var entering := free.(focus := next);
      var r := Emit(entering, next.value, Focus(true));
      EmitLasting(entering, next.value, Focus(true));
      if NoRoom(free.events[next.value.owner]) {
        RevokeSettles(entering, next.value.owner);
        SameCandidate(Revoke(entering, next.value.owner), Overflow(entering, next.value.owner));
      } else {
        SameCandidate(free, r);
      }
    }
  }

  lemma {:induction false} OverflowFallen(s: State, owner: Owner)
    requires Inv(s) && owner in s.events
    ensures Fallen(s, Overflow(s, owner), owner)
  {
    hide Inv; hide Restore; hide FocusCandidate; hide Falls; hide Reduced; hide Reported; hide QueueBytes;
    hide Eligible;
    var r := Overflow(s, owner);
    OverflowSafe(s, owner);
    if OwnsFocus(s, owner) {
      hide Revoke;
      RevokeFalls(s, owner);
      RevokeSettles(s, owner);
      SameCandidate(Revoke(s, owner), r);
      CandidateServed(r);
    }
  }

  lemma {:induction false} EmitOutcome(s: State, id: Id, event: Event)
    requires Inv(s) && Lasting(event) && id in s.windows
    ensures id.owner in s.events && Outcome(s, Emit(s, id, event), id.owner, 1)
  {
    hide Inv; hide Emit; hide Fallen; hide QueueBytes; hide Overflow;
    OwnerHasQueue(s, id);
    EmitLasting(s, id, event);
    if NoRoom(s.events[id.owner]) {
      OverflowFallen(s, id.owner);
    }
  }

  /** Nothing more reaches an owner that has fallen. */
  lemma {:induction false} FallenSilent(s: State, r: State, id: Id, event: Event)
    requires Fallen(s, r, id.owner) && ValidEvent(event)
    ensures id !in r.windows && Emit(r, id, event) == r
  {
    hide Inv; hide ValidEvent; hide Alike; hide FocusCandidate;
    if id in r.windows {
      OwnerHasQueue(r, id);
    }
  }

  lemma {:induction false} LooseOutcome(s: State, r: State, owner: Owner)
    requires Inv(s) && owner in s.events && r == s.(hover := r.hover, capture := r.capture, focus := r.focus)
    requires r.focus == s.focus || (r.focus.None? && OwnsFocus(s, owner))
    ensures Outcome(s, r, owner, 0) && Room(s.events[owner], 0)
  {
    hide Inv; hide QueueBytes; hide Fallen;
    RoomForNone(s, owner);
  }

  lemma {:induction false} FallenLoose(s: State, m: State, r: State, owner: Owner)
    requires Fallen(s, m, owner) && r == m.(hover := r.hover)
    ensures Fallen(s, r, owner)
  {
    hide Inv; hide QueueBytes; hide FocusCandidate;
    CursorIgnored(m, r);
    SameCandidate(m, r);
  }

  // The four farewells of one window, as removal tells them.

  function CancelCount(s: State, id: Id): nat {
    if s.capture.Some? && s.capture.value.window == id then 1 else 0
  }

  function LeaveCount(s: State, id: Id): nat {
    if s.hover.Some? && s.hover.value.window == id then 1 else 0
  }

  function FarewellCount(s: State, id: Id): nat {
    if s.focus == Some(id) then 2 else 0
  }

  function HoverOff(s: State, id: Id): State {
    if LeaveCount(s, id) == 1 then SetHover(s, None) else s
  }

  function FocusOff(s: State, id: Id): State {
    if FarewellCount(s, id) == 2 then ChangeFocus(s, None) else s
  }

  lemma {:induction false} CancelOutcome(s: State, id: Id)
    requires Inv(s) && id in s.windows
    ensures var r, n := CancelCapture(s, id), CancelCount(s, id);
            Inv(r) && id.owner in s.events && Outcome(s, r, id.owner, n) && r.hover == s.hover &&
            (Room(s.events[id.owner], n) ==> r == s.(events := r.events, deliveries := r.deliveries,
                                                     capture := if n == 1 then None else s.capture))
  {
    hide Inv; hide Emit; hide QueueBytes; hide Fallen; hide Fewer; hide Spoken; hide Reported;
    var r, free := CancelCapture(s, id), s.(capture := None);
    OwnerHasQueue(s, id);
    CancelCaptureSafe(s, id);
    LooseOutcome(s, s, id.owner);
    if CancelCount(s, id) == 1 {
      Loosened(s, free);
      LooseOutcome(s, free, id.owner);
      EmitOutcome(free, id, Cancel);
      EmitSafe(free, id, Cancel);
      EmitLasting(free, id, Cancel);
      OutcomeThen(s, free, r, id.owner, 0, 1);
    }
  }

  lemma {:induction false} HoverOutcome(s: State, id: Id)
    requires Inv(s) && id in s.windows
    ensures var r, n := HoverOff(s, id), LeaveCount(s, id);
            Inv(r) && id.owner in s.events && Outcome(s, r, id.owner, n) &&
            r.hover == (if n == 1 then None else s.hover) &&
            (Room(s.events[id.owner], n) ==> r == s.(events := r.events, deliveries := r.deliveries, hover := r.hover))
  {
    hide Inv; hide Emit; hide Outcome; hide Room;
    OwnerHasQueue(s, id);
    if LeaveCount(s, id) == 1 {
      LeaveOutcome(s, id, s.hover.value.region);
    } else {
      LooseOutcome(s, s, id.owner);
    }
  }

  lemma {:induction false} LeaveOutcome(s: State, id: Id, region: u64)
    requires Inv(s) && id in s.windows
    ensures var r := Emit(s, id, Hover(region, false)).(hover := None);
            Inv(r) && id.owner in s.events && Outcome(s, r, id.owner, 1) &&
            (Room(s.events[id.owner], 1) ==> r == s.(events := r.events, deliveries := r.deliveries, hover := None))
  {
    hide Inv; hide Emit; hide QueueBytes; hide Fallen; hide Reported; hide Reduced;
    var leave := Hover(region, false);
    var told := Emit(s, id, leave);
    var r := told.(hover := None);
    EmitOutcome(s, id, leave);
    EmitSafe(s, id, leave);
    EmitLasting(s, id, leave);
    CursorIgnored(told, r);
    if !Room(s.events[id.owner], 1) {
      FallenLoose(s, told, r, id.owner);
    }
  }

  lemma {:induction false} FocusOutcome(s: State, id: Id)
    requires Inv(s) && id in s.windows
    ensures var r, n := FocusOff(s, id), FarewellCount(s, id);
            Inv(r) && id.owner in s.events && Outcome(s, r, id.owner, n) && r.hover == s.hover &&
            (Room(s.events[id.owner], n) ==>
               r == s.(events := r.events, deliveries := r.deliveries, focus := if n == 2 then None else s.focus))
  {
    hide Inv; hide Emit; hide Outcome; hide Room; hide FocusOff; hide Cascaded;
    FocusOffSafe(s, id);
    if FarewellCount(s, id) == 2 {
      FocusDropped(s, id);
    } else {
      OwnerHasQueue(s, id);
      LooseOutcome(s, s, id.owner);
    }
  }

  lemma {:induction false} FocusOffSafe(s: State, id: Id)
    requires Inv(s)
    ensures Inv(FocusOff(s, id)) && FocusOff(s, id).hover == s.hover
    ensures FarewellCount(s, id) == 0 ==> FocusOff(s, id) == s
  {
    hide Inv; hide ChangeFocus; hide Reduced; hide Reported;
    ChangeFocusSafe(s, None);
  }

  lemma {:induction false} FocusDropped(s: State, id: Id)
    requires Inv(s) && id in s.windows && s.focus == Some(id)
    ensures var r := FocusOff(s, id);
            id.owner in s.events && Outcome(s, r, id.owner, 2) &&
            (Room(s.events[id.owner], 2) ==> r == s.(events := r.events, deliveries := r.deliveries, focus := None))
  {
    hide Inv; hide Emit; hide Outcome; hide Room; hide FocusOff;
    var free := s.(focus := None);
    OwnerHasQueue(s, id);
    CursorIgnored(s, free);
    LooseOutcome(s, free, id.owner);
    FarewellOutcome(free, id);
    FocusOffUnfolds(s, id);
    OutcomeThen(s, free, FocusOff(s, id), id.owner, 0, 2);
  }

  lemma {:induction false} FocusOffUnfolds(s: State, id: Id)
    requires s.focus == Some(id)
    ensures FocusOff(s, id) == Emit(Emit(s.(focus := None), id, Cancel), id, Focus(false)).(focus := None)
  {
    hide Emit;
    assert LeaveFocus(s) == Emit(Emit(s.(focus := None), id, Cancel), id, Focus(false));
    assert FocusOff(s, id) == ChangeFocus(s, None) == LeaveFocus(s).(focus := None);
  }

  lemma {:induction false} FarewellOutcome(s: State, id: Id)
    requires Inv(s) && id in s.windows && s.focus.None?
    ensures var r := Emit(Emit(s, id, Cancel), id, Focus(false));
            id.owner in s.events && Outcome(s, r, id.owner, 2) && r.focus.None? &&
            (Room(s.events[id.owner], 2) ==> r == s.(events := r.events, deliveries := r.deliveries))
  {
    hide Inv; hide Emit; hide QueueBytes; hide Fallen; hide Spoken; hide Reported; hide Room;
    var one := Emit(s, id, Cancel);
    OwnerHasQueue(s, id);
    EmitOutcome(s, id, Cancel);
    EmitSafe(s, id, Cancel);
    EmitLasting(s, id, Cancel);
    NoFocusStays(s, id, Cancel);
    NoFocusStays(one, id, Focus(false));
    LessRoom(s.events[id.owner], 1, 1);
    if Room(s.events[id.owner], 1) {
      GrownMore(s.events[id.owner], one.events[id.owner], 1, 1);
      EmitOutcome(one, id, Focus(false));
      EmitLasting(one, id, Focus(false));
    } else {
      FallenSilent(s, one, id, Focus(false));
    }
    OutcomeThen(s, one, Emit(one, id, Focus(false)), id.owner, 1, 1);
  }

  // ---- One window removed ------------------------------------------------------------------

  /** What removing a window tells its owner: a cancelled capture, a leave, lost focus, and the dismissal. */
  function OneCost(s: State, id: Id): nat {
    CancelCount(s, id) + LeaveCount(s, id) + FarewellCount(s, id) + 1
  }

  lemma {:induction false} FallenUnhovered(s: State, m: State, id: Id)
    requires Fallen(s, m, id.owner)
    ensures Fallen(s, HoverOff(m, id), id.owner) && Inv(HoverOff(m, id))
  {
    hide Emit; hide Inv; hide Alike; hide FocusCandidate;
    if LeaveCount(m, id) == 1 {
      var leave := Hover(m.hover.value.region, false);
      FallenSilent(s, m, id, leave);
      FallenLoose(s, m, m.(hover := None), id.owner);
    }
  }

  lemma {:induction false} FallenKeepsOff(s: State, m: State, id: Id)
    requires Fallen(s, m, id.owner)
    ensures FocusOff(m, id) == m && CancelCapture(m, id) == m
  {
    hide Alike; hide FocusCandidate; hide Forest; hide Bounded; hide Counted; hide AllServed;
  }

  /** The told case of a farewell: every field but the owner's own is as before. */
  ghost predicate Dismissing(s: State, r: State, id: Id) {
    r == s.(events := r.events, deliveries := r.deliveries,
            hover := if LeaveCount(s, id) == 1 then None else s.hover,
            capture := if CancelCount(s, id) == 1 then None else s.capture,
            focus := if FarewellCount(s, id) == 2 then None else s.focus)
  }

  lemma {:induction false} DismissalOutcome(s: State, id: Id, reason: DismissReason)
    requires Inv(s) && id in s.windows
    ensures var r := Farewell(s, id, reason);
            id.owner in s.events && Outcome(s, r, id.owner, OneCost(s, id)) &&
            (Room(s.events[id.owner], OneCost(s, id)) ==> Dismissing(s, r, id))
  {
    hide Inv; hide Emit; hide CancelCapture; hide HoverOff; hide FocusOff; hide Outcome; hide Room; hide CancelCount;
    hide FarewellCount;
    var a := CancelCapture(s, id);
    var b := HoverOff(a, id);
    var c := FocusOff(b, id);
    CancelOutcome(s, id);
    var q, n1, n2, n3 := s.events[id.owner], CancelCount(s, id), LeaveCount(s, id), FarewellCount(s, id);
    LessRoom(q, n1, n2);
    HoverStep(s, a, id, n1);
    FocusStep(s, b, id, n1 + n2);
    LastStep(s, c, id, reason, n1 + n2 + n3);
    LessRoom(q, n1, n2 + n3 + 1);
    LessRoom(q, n1 + n2, n3 + 1);
    LessRoom(q, n1 + n2 + n3, 1);
    FarewellSteps(s, id, reason);
  }

  lemma {:induction false} HoverStep(s: State, a: State, id: Id, n: nat)
    requires Inv(s) && Inv(a) && id in s.windows && id.owner in s.events && Outcome(s, a, id.owner, n)
    requires a.hover == s.hover
    ensures var r := HoverOff(a, id);
            Inv(r) && Outcome(s, r, id.owner, n + LeaveCount(s, id)) &&
            (Room(s.events[id.owner], n + LeaveCount(s, id)) ==>
               r == a.(events := r.events, deliveries := r.deliveries,
                       hover := if LeaveCount(s, id) == 1 then None else s.hover))
  {
    hide Inv; hide Emit; hide HoverOff; hide Fallen; hide Room; hide QueueBytes;
    var q := s.events[id.owner];
    if Room(q, n) {
      HoverOutcome(a, id);
      GrownMore(q, a.events[id.owner], n, LeaveCount(s, id));
    } else {
      FallenUnhovered(s, a, id);
    }
    LessRoom(q, n, LeaveCount(s, id));
    OutcomeThen(s, a, HoverOff(a, id), id.owner, n, LeaveCount(s, id));
  }

  lemma {:induction false} FocusStep(s: State, b: State, id: Id, n: nat)
    requires Inv(s) && Inv(b) && id in s.windows && id.owner in s.events && Outcome(s, b, id.owner, n)
    requires Room(s.events[id.owner], n) ==> b.focus == s.focus
    ensures var r := FocusOff(b, id);
            Inv(r) && Outcome(s, r, id.owner, n + FarewellCount(s, id)) && r.hover == b.hover &&
            (Room(s.events[id.owner], n + FarewellCount(s, id)) ==>
               r == b.(events := r.events, deliveries := r.deliveries,
                       focus := if FarewellCount(s, id) == 2 then None else s.focus))
  {
    hide Inv; hide Emit; hide FocusOff; hide Fallen; hide Room; hide QueueBytes;
    var q := s.events[id.owner];
    if Room(q, n) {
      FocusOutcome(b, id);
      GrownMore(q, b.events[id.owner], n, FarewellCount(s, id));
    } else {
      FallenKeepsOff(s, b, id);
    }
    LessRoom(q, n, FarewellCount(s, id));
    OutcomeThen(s, b, FocusOff(b, id), id.owner, n, FarewellCount(s, id));
  }

  lemma {:induction false} LastStep(s: State, c: State, id: Id, reason: DismissReason, n: nat)
    requires Inv(s) && Inv(c) && id in s.windows && id.owner in s.events && Outcome(s, c, id.owner, n)
    ensures var r := Emit(c, id, Dismissed(reason));
            Outcome(s, r, id.owner, n + 1) &&
            (Room(s.events[id.owner], n + 1) ==> r == c.(events := r.events, deliveries := r.deliveries))
  {
    hide Inv; hide Emit; hide Fallen; hide Room; hide QueueBytes;
    var q := s.events[id.owner];
    if Room(q, n) {
      EmitOutcome(c, id, Dismissed(reason));
      EmitLasting(c, id, Dismissed(reason));
      GrownMore(q, c.events[id.owner], n, 1);
      NoRoomMeans(c.events[id.owner]);
    } else {
      FallenSilent(s, c, id, Dismissed(reason));
    }
    LessRoom(q, n, 1);
    OutcomeThen(s, c, Emit(c, id, Dismissed(reason)), id.owner, n, 1);
  }

  lemma {:induction false} NoRoomMeans(q: seq<WindowEvent>)
    ensures NoRoom(q) <==> !Room(q, 1)
  {
  }

  lemma {:induction false} FarewellSteps(s: State, id: Id, reason: DismissReason)
    ensures Farewell(s, id, reason)
         == Emit(FocusOff(HoverOff(CancelCapture(s, id), id), id), id, Dismissed(reason))
  {
    hide Emit; hide CancelCapture; hide SetHover; hide ChangeFocus;
  }

  /** `s` without the listed windows of one owner, which was told `n` farewells; nobody fell. */
  ghost predicate Told(s: State, r: State, owner: Owner, gone: seq<Id>, n: nat) {
    r.windows == s.windows - (set x | x in gone) &&
    r.stack == Filter(s.stack, (x: Id) => x !in gone) &&
    r.focusHistory == Filter(s.focusHistory, (x: Id) => x !in gone) &&
    r.events.Keys == s.events.Keys &&
    (forall o :: o in s.events ==> Grown(s.events[o], r.events[o], if o == owner then n else 0)) &&
    r.hover == (if s.hover.Some? && s.hover.value.window in gone then None else s.hover) &&
    r.capture == (if s.capture.Some? && s.capture.value.window in gone then None else s.capture) &&
    r.focus == (if s.focus.Some? && s.focus.value in gone then None else s.focus)
  }

  lemma {:induction false} FilterAlike(ids: seq<Id>, f: Id -> bool, g: Id -> bool)
    requires forall x :: x in ids ==> f(x) == g(x)
    ensures Filter(ids, f) == Filter(ids, g)
  {
    FilterTwice(ids, (x: Id) => true, f, g);
    FilterAll(ids, (x: Id) => true);
  }

  lemma {:induction false} OneTold(s: State, r: State, id: Id, n: nat)
    requires Spoken(s, r, id.owner, n) && Dismissing(s, r, id)
    ensures Told(s, Forget(r, id), id.owner, [id], n)
  {
    hide Filter; hide QueueBytes;
    FilterAlike(s.stack, (x: Id) => x != id, (x: Id) => x !in [id]);
    FilterAlike(s.focusHistory, (x: Id) => x != id, (x: Id) => x !in [id]);
  }

  lemma {:induction false} FallenForgets(s: State, m: State, id: Id)
    requires Fallen(s, m, id.owner)
    ensures Forget(m, id) == m
  {
    hide Alike; hide FocusCandidate; hide Ordered; hide Bounded; hide Counted; hide AllServed; hide Filter;
    FilterAll(m.stack, (x: Id) => x != id);
    FilterAll(m.focusHistory, (x: Id) => x != id);
  }

  /** Removing one window tells its owner so, or the owner falls. */
  lemma {:induction false} RemovalOutcome(s: State, id: Id, reason: DismissReason)
    requires Inv(s) && id in s.windows
    ensures var r := RemoveOne(s, id, reason);
            id.owner in s.events &&
            if Room(s.events[id.owner], OneCost(s, id)) then Told(s, r, id.owner, [id], OneCost(s, id))
            else Fallen(s, r, id.owner)
  {
    hide Inv; hide Farewell; hide Fallen; hide OneCost; hide Room; hide Dismissing; hide Spoken; hide Forget; hide Told;
    DismissalOutcome(s, id, reason);
    RemovalIsForgetting(s, id, reason);
    if Room(s.events[id.owner], OneCost(s, id)) {
      OneTold(s, Farewell(s, id, reason), id, OneCost(s, id));
    } else {
      FallenForgets(s, Farewell(s, id, reason), id);
    }
  }

  lemma {:induction false} RemovalIsForgetting(s: State, id: Id, reason: DismissReason)
    ensures RemoveOne(s, id, reason) == Forget(Farewell(s, id, reason), id)
  {
    hide Emit; hide CancelCapture; hide SetHover; hide ChangeFocus; hide Forget;
  }

  /** Removing more windows of an owner that has fallen changes nothing but the hover. */
  lemma {:induction false} FallenRemoval(s: State, m: State, id: Id, reason: DismissReason)
    requires Fallen(s, m, id.owner)
    ensures Fallen(s, RemoveOne(m, id, reason), id.owner)
  {
    hide Emit; hide CancelCapture; hide HoverOff; hide FocusOff; hide Fallen; hide Forget;
    RemovalIsForgetting(m, id, reason);
    FarewellSteps(m, id, reason);
    FallenKeepsOff(s, m, id);
    FallenUnhovered(s, m, id);
    FallenKeepsOff(s, HoverOff(m, id), id);
    FallenSilent(s, HoverOff(m, id), id, Dismissed(reason));
    FallenForgets(s, HoverOff(m, id), id);
  }

  // ---- A list removed ----------------------------------------------------------------------

  /** What removing the listed windows tells their owner. */
  function AllCost(s: State, ids: seq<Id>): nat {
    |ids| + (if s.capture.Some? && s.capture.value.window in ids then 1 else 0)
    + (if s.hover.Some? && s.hover.value.window in ids then 1 else 0)
    + (if s.focus.Some? && s.focus.value in ids then 2 else 0)
  }

  lemma {:induction false} CostSplits(s: State, m: State, first: seq<Id>, second: seq<Id>, ids: seq<Id>,
                                      owner: Owner, n: nat)
    requires Told(s, m, owner, first, n) && |ids| == |first| + |second|
    requires forall x :: x in ids <==> x in first || x in second
    requires forall x :: x in first ==> x !in second
    ensures AllCost(s, ids) == AllCost(s, first) + AllCost(m, second)
  {
    hide QueueBytes; hide Filter;
  }

  lemma {:induction false} ToldTwice(s: State, m: State, r: State, owner: Owner, first: seq<Id>, second: seq<Id>,
                                     gone: seq<Id>, n: nat, k: nat)
    requires Told(s, m, owner, first, n) && Told(m, r, owner, second, k)
    requires forall x :: x in gone <==> x in first || x in second
    ensures Told(s, r, owner, gone, n + k)
  {
    hide QueueBytes; hide Filter;
    FilterTwice(s.stack, (x: Id) => x !in first, (x: Id) => x !in second, (x: Id) => x !in gone);
    FilterTwice(s.focusHistory, (x: Id) => x !in first, (x: Id) => x !in second, (x: Id) => x !in gone);
  }

  lemma {:induction false} ToldTrims(s: State, m: State, owner: Owner, gone: seq<Id>, n: nat)
    requires Told(s, m, owner, gone, n) && forall x :: x in gone ==> x.owner == owner
    ensures Trimmed(s, m, owner)
  {
    hide QueueBytes; hide Filter;
    FilterTwice(s.stack, (x: Id) => x !in gone, (x: Id) => x.owner != owner, (x: Id) => x.owner != owner);
    FilterTwice(s.focusHistory, (x: Id) => x !in gone, (x: Id) => x.owner != owner, (x: Id) => x.owner != owner);
  }

  /** The listed windows of one owner are told and gone, or there is no room for it all and the owner falls. */
  ghost predicate Cleared(s: State, r: State, owner: Owner, ids: seq<Id>) {
    owner in s.events &&
    if Room(s.events[owner], AllCost(s, ids)) then Told(s, r, owner, ids, AllCost(s, ids)) else Fallen(s, r, owner)
  }

  /** Clearing one list and then another clears both. */
  lemma {:induction false} ClearedTwice(s: State, m: State, r: State, owner: Owner, first: seq<Id>, second: seq<Id>,
                                        ids: seq<Id>)
    requires Cleared(s, m, owner, first) && |ids| == |first| + |second|
    requires forall x :: x in ids <==> x in first || x in second
    requires forall x :: x in first ==> x !in second && x.owner == owner
    requires Room(s.events[owner], AllCost(s, first)) ==> Cleared(m, r, owner, second)
    requires !Room(s.events[owner], AllCost(s, first)) ==> Fallen(s, r, owner)
    ensures Cleared(s, r, owner, ids)
  {
    hide Fallen; hide Trimmed; hide Room; hide QueueBytes; hide AllCost; hide Filter;
    var q, n := s.events[owner], AllCost(s, first);
    if Room(q, n) {
      var k := AllCost(m, second);
      CostSplits(s, m, first, second, ids, owner, n);
      GrownMore(q, m.events[owner], n, k);
      if Room(q, n + k) {
        ToldTwice(s, m, r, owner, first, second, ids, n, k);
      } else {
        ToldTrims(s, m, owner, first, n);
        FallenBack(s, m, r, owner);
      }
    } else {
      MoreCost(s, first, ids);
      LessRoom(q, n, AllCost(s, ids) - n);
    }
  }

  lemma {:induction false} MoreCost(s: State, fewer: seq<Id>, ids: seq<Id>)
    requires |fewer| <= |ids| && forall x :: x in fewer ==> x in ids
    ensures AllCost(s, fewer) <= AllCost(s, ids)
  {
  }

  lemma {:induction false} OneCleared(s: State, id: Id, reason: DismissReason)
    requires Inv(s) && id in s.windows
    ensures Cleared(s, RemoveOne(s, id, reason), id.owner, [id])
  {
    hide Inv; hide RemoveOne; hide Fallen; hide Told; hide Room;
    RemovalOutcome(s, id, reason);
    assert AllCost(s, [id]) == OneCost(s, id);
  }

  lemma {:induction false} NothingCleared(s: State, owner: Owner)
    requires Inv(s) && owner in s.events
    ensures Cleared(s, s, owner, [])
  {
    hide Inv; hide QueueBytes; hide Filter; hide Fallen;
    RoomForNone(s, owner);
    FilterAll(s.stack, (x: Id) => x !in []);
    FilterAll(s.focusHistory, (x: Id) => x !in []);
    assert s.windows - (set x | x in []) == s.windows;
  }

  lemma {:induction false} FallenRemovals(s: State, m: State, owner: Owner, ids: seq<Id>)
    requires Fallen(s, m, owner) && forall x :: x in ids ==> x.owner == owner
    ensures Fallen(s, RemoveAll(m, ids), owner)
    decreases |ids|
  {
    hide Fallen; hide RemoveOne;
    if ids != [] {
      FallenRemoval(s, m, ids[|ids| - 1], ParentClosed);
      FallenRemovals(s, RemoveOne(m, ids[|ids| - 1], ParentClosed), owner, ids[..|ids| - 1]);
    }
  }

  lemma {:induction false} RemoveAllCleared(s: State, owner: Owner, ids: seq<Id>)
    requires Inv(s) && Removable(s.windows, ids) && Distinct(ids) && owner in s.events
    requires forall x :: x in ids ==> x in s.windows && x.owner == owner
    ensures Cleared(s, RemoveAll(s, ids), owner, ids)
    decreases |ids|
  {
    hide Inv; hide RemoveOne; hide Removable; hide Fallen; hide Fewer; hide Room; hide AllCost; hide Childless;
    if ids == [] {
      NothingCleared(s, owner);
    } else {
      var front, last := ids[..|ids| - 1], ids[|ids| - 1];
      var one := RemoveOne(s, last, ParentClosed);
      assert ids == front + [last];
      LastRemovable(s, ids);
      RemoveOneSafe(s, last, ParentClosed);
      OneCleared(s, last, ParentClosed);
      if Room(s.events[owner], AllCost(s, [last])) {
        RemoveAllCleared(one, owner, front);
      } else {
        FallenRemovals(s, one, owner, front);
      }
      ClearedTwice(s, one, RemoveAll(one, front), owner, [last], front, ids);
    }
  }

  // ---- A window closed ---------------------------------------------------------------------

  /** The window and all that descends from it, in the order they go. */
  function ClosingGroup(s: State, id: Id): seq<Id> {
    Without(Subtree(s.windows, s.stack, id), id) + [id]
  }

  lemma {:induction false} DescendantOwner(s: State, x: Id, id: Id, fuel: nat)
    requires Structure(s) && x in s.windows && DescendsWithin(s.windows, x, id, fuel)
    ensures x.owner == id.owner
    decreases fuel
  {
    hide Bounded; hide References; hide Queued; hide Ordered;
    if x != id {
      ParentEarlier(s.windows, {}, s.stack, x);
      DescendantOwner(s, s.windows[x].options.parent.value, id, fuel - 1);
    }
  }

  lemma {:induction false} GroupMembers(s: State, id: Id)
    requires Structure(s) && id in s.windows
    ensures var children := Without(Subtree(s.windows, s.stack, id), id);
            Distinct(children) && forall x :: x in children ==> x in s.windows && x.owner == id.owner && x != id
  {
    hide Bounded; hide References; hide Queued; hide DescendsWithin; hide Ordered;
    OrderedDistinct(s.windows, {}, s.stack);
    FilterDistinct(s.stack, (x: Id) => Descends(s.windows, x, id));
    FilterDistinct(Subtree(s.windows, s.stack, id), (x: Id) => x != id);
    forall x | x in s.stack && Descends(s.windows, x, id) ensures x.owner == id.owner {
      DescendantOwner(s, x, id, MAX_WINDOWS);
    }
  }

  function Removed(s: State, id: Id, reason: DismissReason): State {
    RemoveOne(RemoveAll(s, Without(Subtree(s.windows, s.stack, id), id)), id, reason)
  }

  lemma {:induction false} CloseClears(s: State, id: Id, reason: DismissReason)
    requires Inv(s) && id in s.windows
    ensures Inv(Removed(s, id, reason)) && Cleared(s, Removed(s, id, reason), id.owner, ClosingGroup(s, id))
  {
    hide Inv; hide RemoveOne; hide RemoveAll; hide Removable; hide Fallen; hide Fewer; hide Room; hide AllCost;
    hide Subtree; hide Without; hide Childless;
    var children := Without(Subtree(s.windows, s.stack, id), id);
    var cleared := RemoveAll(s, children);
    OwnerHasQueue(s, id);
    InvStructure(s);
    GroupMembers(s, id);
    ChildrenRemovable(s, id);
    RemoveAllSafe(s, children);
    RemoveAllCleared(s, id.owner, children);
    LastChildFree(s, cleared, children, id);
    RemoveOneSafe(cleared, id, reason);
    if Room(s.events[id.owner], AllCost(s, children)) {
      OneCleared(cleared, id, reason);
    } else {
      FallenRemoval(s, cleared, id, reason);
    }
    ClearedTwice(s, cleared, Removed(s, id, reason), id.owner, children, [id], ClosingGroup(s, id));
  }

  /** `s` without the closing group, its owner's queue longer by the farewells; of these only the number matters. */
  function Dismissal(s: State, id: Id): State
    requires id.owner in s.events
  {
    var group := ClosingGroup(s, id);
    Padded(s, id.owner, AllCost(s, group)).(
      windows := s.windows - (set x | x in group),
      stack := Filter(s.stack, (x: Id) => x !in group),
      focusHistory := Filter(s.focusHistory, (x: Id) => x !in group),
      focus := if s.focus.Some? && s.focus.value in group then None else s.focus)
  }

  /**
   The owners a close takes down, told from the state before it. If the owner of the window has room for
   every farewell, they are those that restoring focus takes down once the group is gone. If not, the
   owner falls: with focus, as in a revocation; without, and then focus is restored.
   */
  function CloseFalls(s: State, id: Id): set<Owner> {
    if id !in s.windows || id.owner !in s.events then
      RestoreFalls(s.(focus := if s.focus == Some(id) then None else s.focus))
    else if Room(s.events[id.owner], AllCost(s, ClosingGroup(s, id))) then RestoreFalls(Dismissal(s, id))
    else if OwnsFocus(s, id.owner) then Falls(s, id.owner)
    else {id.owner} + RestoreFalls(DropOwner(s, id.owner))
  }

  lemma {:induction false} ToldIsDismissal(s: State, r: State, id: Id)
    requires id.owner in s.events && Told(s, r, id.owner, ClosingGroup(s, id), AllCost(s, ClosingGroup(s, id)))
    ensures Alike(Dismissal(s, id), r)
  {
    hide QueueBytes; hide AllCost; hide ClosingGroup;
    PaddingGrows(s.events[id.owner], AllCost(s, ClosingGroup(s, id)));
  }

  /** Once the owner has fallen, restoring focus ends in the same owners whenever it happened. */
  lemma {:induction false} FallenRestores(s: State, r: State, owner: Owner)
    requires owner in s.events && Fallen(s, r, owner)
    ensures Restore(r).events.Keys
         == s.events.Keys - if OwnsFocus(s, owner) then Falls(s, owner) else {owner} + RestoreFalls(DropOwner(s, owner))
  {
    hide Inv; hide QueueBytes; hide FocusCandidate; hide Parted; hide Restore; hide Alike; hide Falls;
    RestoreLosesExactly(r);
    if Alike(Bare(s, owner), r) {
      RestoreAlike(Bare(s, owner), r);
      BareKeys(s, owner, r);
      if OwnsFocus(s, owner) {
        BareFalls(s, owner);
      }
    }
  }

  lemma {:induction false} BareKeys(s: State, owner: Owner, r: State)
    requires Alike(Bare(s, owner), r)
    ensures r.events.Keys == s.events.Keys - {owner} && (!OwnsFocus(s, owner) ==> Bare(s, owner) == DropOwner(s, owner))
  {
  }

  lemma {:induction false} BareFalls(s: State, owner: Owner)
    requires OwnsFocus(s, owner)
    ensures s.events.Keys - {owner} - RestoreFalls(Bare(s, owner)) == s.events.Keys - Falls(s, owner)
  {
    hide FocusCandidate; hide QueueBytes; hide DropOwner;
    var free := Freed(s, owner);
    assert free == Bare(s, owner) && Parted(free) == free;
    var next := FocusCandidate(free);
    if next.Some? {
      EligibleLive(free, next.value);
    }
  }

  /** Closing a name that is not live only lets go of the hover and the focus it may still hold. */
  lemma {:induction false} StrangerCloses(s: State, id: Id, reason: DismissReason)
    requires Inv(s) && id !in s.windows
    ensures var focus := if s.focus == Some(id) then None else s.focus;
            var r := Removed(s, id, reason);
            Inv(r) && Alike(s.(focus := focus), r)
  {
    hide Inv; hide Emit; hide Subtree; hide Without; hide Forget; hide QueueBytes; hide Childless; hide Fewer;
    hide HoverOff; hide FocusOff; hide CancelCapture;
    InvStructure(s);
    StrangerHasNothing(s, id);
    RemoveOneSafe(s, id, reason);
    RemovalIsForgetting(s, id, reason);
    FarewellSteps(s, id, reason);
    StrangerUncaptured(s, id);
    StrangerUnhovered(s, id);
    StrangerUnfocused(HoverOff(s, id), id);
    var unfocused := FocusOff(HoverOff(s, id), id);
    StrayEmission(unfocused, id, Dismissed(reason));
    StrangerForgotten(s, unfocused, id);
  }

  lemma {:induction false} StrangerUnhovered(s: State, id: Id)
    requires id !in s.windows
    ensures HoverOff(s, id) == s.(hover := HoverOff(s, id).hover)
  {
    hide Emit;
    if s.hover.Some? {
      StrayEmission(s, id, Hover(s.hover.value.region, false));
    }
  }

  lemma {:induction false} StrangerUnfocused(s: State, id: Id)
    requires id !in s.windows
    ensures FocusOff(s, id) == s.(focus := if s.focus == Some(id) then None else s.focus)
  {
    hide Emit;
    StrayEmission(s.(focus := None), id, Cancel);
    StrayEmission(s.(focus := None), id, Focus(false));
    if s.focus == Some(id) {
      assert LeaveFocus(s) == s.(focus := None);
    }
  }

  lemma {:induction false} StrangerUncaptured(s: State, id: Id)
    requires Inv(s) && id !in s.windows
    ensures CancelCapture(s, id) == s
  {
    hide Forest; hide Bounded; hide Counted; hide AllServed;
  }

  lemma {:induction false} StrangerForgotten(s: State, r: State, id: Id)
    requires Inv(s) && id !in s.windows
    requires r.windows == s.windows && r.stack == s.stack && r.focusHistory == s.focusHistory
    ensures Forget(r, id) == r
  {
    hide Ordered; hide Bounded; hide Counted; hide AllServed; hide Filter;
    FilterAll(s.stack, (x: Id) => x != id);
    FilterAll(s.focusHistory, (x: Id) => x != id);
  }

  /** A close takes down exactly those owners. */
  lemma {:induction false} CloseLosesExactly(s: State, id: Id, reason: DismissReason)
    requires Inv(s)
    ensures CloseWindow(s, id, reason).events.Keys == s.events.Keys - CloseFalls(s, id)
  {
    hide Inv; hide Removed; hide Restore; hide Alike; hide Fallen; hide Falls; hide RestoreFalls; hide Room;
    hide ClosingGroup; hide AllCost; hide Dismissal;
    var r := Removed(s, id, reason);
    CloseRestores(s, id, reason);
    if id in s.windows {
      CloseClears(s, id, reason);
      if Room(s.events[id.owner], AllCost(s, ClosingGroup(s, id))) {
        RestoreLosesExactly(r);
        ToldIsDismissal(s, r, id);
        RestoreAlike(Dismissal(s, id), r);
      } else {
        FallenRestores(s, r, id.owner);
      }
    } else {
      StrangerCloses(s, id, reason);
      RestoreLosesExactly(r);
      RestoreAlike(s.(focus := if s.focus == Some(id) then None else s.focus), r);
      AlikeKeys(s.(focus := if s.focus == Some(id) then None else s.focus), r);
    }
  }

  lemma {:induction false} AlikeKeys(a: State, b: State)
    requires Alike(a, b)
    ensures a.events.Keys == b.events.Keys
  {
  }

  lemma {:induction false} CloseRestores(s: State, id: Id, reason: DismissReason)
    ensures CloseWindow(s, id, reason) == Restore(Removed(s, id, reason))
  {
    hide RemoveOne; hide RemoveAll; hide Restore; hide Subtree; hide Without;
  }

  // ---- The hover across a close ------------------------------------------------------------

  function HoverBut(s: State, gone: seq<Id>): Option<Hovering> {
    if s.hover.Some? && s.hover.value.window in gone then None else s.hover
  }

  lemma {:induction false} RemovalHover(s: State, id: Id, reason: DismissReason)
    requires Inv(s)
    ensures RemoveOne(s, id, reason).hover == HoverBut(s, [id])
  {
    hide Inv; hide Emit; hide CancelCapture; hide ChangeFocus; hide Fewer; hide Reduced; hide Reported; hide Forget;
    RemovalIsForgetting(s, id, reason);
    FarewellSteps(s, id, reason);
    CancelHover(s, id);
    var a := CancelCapture(s, id);
    LeaveHover(a, id);
    var b := HoverOff(a, id);
    ChangeFocusSafe(b, None);
    var c := FocusOff(b, id);
    EmitSafe(c, id, Dismissed(reason));
    ForgetHover(Emit(c, id, Dismissed(reason)), id);
  }

  lemma {:induction false} ForgetHover(s: State, id: Id)
    ensures Forget(s, id).hover == s.hover
  {
  }

  lemma {:induction false} CancelHover(s: State, id: Id)
    requires Inv(s)
    ensures Inv(CancelCapture(s, id)) && CancelCapture(s, id).hover == s.hover
  {
    hide Inv; hide Emit; hide Fewer; hide Reduced; hide Reported;
    CancelCaptureSafe(s, id);
    Loosened(s, s.(capture := None));
    EmitSafe(s.(capture := None), id, Cancel);
  }

  lemma {:induction false} LeaveHover(s: State, id: Id)
    requires Inv(s)
    ensures Inv(HoverOff(s, id)) && HoverOff(s, id).hover == HoverBut(s, [id])
  {
    hide Inv; hide Emit; hide Fewer;
    SetHoverSafe(s, None);
  }

  lemma {:induction false} RemovalsHover(s: State, ids: seq<Id>)
    requires Inv(s) && Removable(s.windows, ids)
    ensures RemoveAll(s, ids).hover == HoverBut(s, ids)
    decreases |ids|
  {
    hide Inv; hide RemoveOne; hide Removable; hide Fewer; hide Childless;
    if ids != [] {
      var last := ids[|ids| - 1];
      assert ids == ids[..|ids| - 1] + [last];
      LastRemovable(s, ids);
      RemoveOneSafe(s, last, ParentClosed);
      RemovalHover(s, last, ParentClosed);
      RemovalsHover(RemoveOne(s, last, ParentClosed), ids[..|ids| - 1]);
    }
  }

  /** A close clears the hover exactly when it was on the window or on one that descends from it. */
  lemma {:induction false} CloseHover(s: State, id: Id, reason: DismissReason)
    requires Inv(s)
    ensures CloseWindow(s, id, reason).hover == HoverBut(s, ClosingGroup(s, id))
  {
    hide Inv; hide RemoveOne; hide RemoveAll; hide Restore; hide Removable; hide Subtree; hide Without; hide Fewer;
    hide Reduced; hide Reported; hide Childless;
    var children := Without(Subtree(s.windows, s.stack, id), id);
    var cleared := RemoveAll(s, children);
    ChildrenRemovable(s, id);
    RemoveAllSafe(s, children);
    RemovalsHover(s, children);
    LastChildFree(s, cleared, children, id);
    RemoveOneSafe(cleared, id, reason);
    RemovalHover(cleared, id, reason);
    RestoreSafe(RemoveOne(cleared, id, reason));
  }
}
