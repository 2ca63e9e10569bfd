/** What each step takes of the bounded queues: plain events, revocations that cascade, and moves of focus. */
module OverlayQueues {
  import opened Wrappers
  import opened Words
  import opened Scalars
  import opened OverlayTypes
  import opened OverlayModel
  import opened OverlayInvariant
  import opened OverlayRevocation
  import opened OverlayRuns

  // ---- Plain events ------------------------------------------------------------------------

  /** `r` is a queue like `q` with `n` more events without text. */
  predicate Grown(q: seq<WindowEvent>, r: seq<WindowEvent>, n: nat) {
    |r| == |q| + n && QueueBytes(r) == QueueBytes(q) + 128 * n
  }

  lemma {:induction false} GrownRoom(q: seq<WindowEvent>, r: seq<WindowEvent>, n: nat)
    requires Grown(q, r, n)
    ensures !NoRoom(r) <==> Room(q, n + 1)
  {
  }

  lemma {:induction false} GrownMore(q: seq<WindowEvent>, r: seq<WindowEvent>, n: nat, more: nat)
    requires Grown(q, r, n)
    ensures Room(r, more) <==> Room(q, n + more)
  {
  }

  lemma {:induction false} LessRoom(q: seq<WindowEvent>, less: nat, more: nat)
    ensures Room(q, less + more) ==> Room(q, less)
  {
  }

  lemma {:induction false} RoomForNone(s: State, owner: Owner)
    requires Inv(s) && owner in s.events
    ensures Room(s.events[owner], 0)
  {
    hide Structure; hide Counted; hide Thinned;
    assert OwnerServed(s, owner);
  }

  /** Events without text that replace nothing and are never refused as malformed. */
  predicate Lasting(event: Event) {
    ValidEvent(event) && EventBytes(event) == 128 && !Replaceable(event)
  }

  lemma {:induction false} EmitLasting(s: State, id: Id, event: Event)
    requires Lasting(event) && id in s.windows && id.owner in s.events
    ensures Bursts(s, id, event) <==> NoRoom(s.events[id.owner])
    ensures Bursts(s, id, event) ==> Emit(s, id, event) == Overflow(s, id.owner)
    ensures (!Bursts(s, id, event) ==>
               var r := Emit(s, id, event);
               r == s.(events := r.events, deliveries := r.deliveries) && r.events.Keys == s.events.Keys &&
               (forall o :: o in s.events ==> Grown(s.events[o], r.events[o], if o == id.owner then 1 else 0)) &&
               r.events[id.owner] == s.events[id.owner] + [Stamp(s.windows[id], id, event)])
  {
    hide ValidEvent; hide Overflow;
    var e := Stamp(s.windows[id], id, event);
    var q := s.events[id.owner];
    assert (q + [e])[..|q|] == q;
  }

  lemma {:induction false} StrayEmission(s: State, id: Id, event: Event)
    requires ValidEvent(event) && id !in s.windows
    ensures Emit(s, id, event) == s
  {
    hide ValidEvent;
  }

  lemma {:induction false} OverflowEnds(s: State, owner: Owner)
    ensures owner !in Overflow(s, owner).events
  {
    hide Revoke;
  }

  lemma {:induction false} OverflowQueues(s: State, owner: Owner)
    ensures Overflow(s, owner).events == Revoke(s, owner).events
    ensures Overflow(s, owner).windows == Revoke(s, owner).windows
  {
    hide Revoke;
  }

  /** A lasting event to a live window keeps it exactly when its owner's queue has room. */
  lemma {:induction false} LastingKeeps(s: State, id: Id, event: Event)
    requires Inv(s) && Lasting(event) && id in s.windows
    ensures id.owner in s.events && (id in Emit(s, id, event).windows <==> !NoRoom(s.events[id.owner]))
  {
    hide Inv; hide Emit; hide NoRoom; hide Overflow; hide Lasting; hide ValidEvent;
    OwnerHasQueue(s, id);
    EmitLasting(s, id, event);
    if NoRoom(s.events[id.owner]) {
      LiveOwnerCounts(s, id);
      OverflowSafe(s, id.owner);
      OverflowEnds(s, id.owner);
    }
  }

  // ---- Cascades ----------------------------------------------------------------------------

  /** The window a revocation of `owner` finally tells that it has focus, if any. */
  function Greeted(s: State, owner: Owner): Option<Id>
    decreases s.events.Keys - {owner}
  {
    if s.focus.None? || s.focus.value.owner != owner then None
    else
      var free := Freed(s, owner);
      var next := FocusCandidate(free);
      if next.None? || next.value.owner !in free.events then None
      else if NoRoom(free.events[next.value.owner]) then Greeted(free.(focus := next), next.value.owner)
      else next
  }

  /** What a cascade adds to a queue it leaves: the greeting, if it ends there. */
  function Greetings(s: State, owner: Owner, o: Owner): nat {
    if Greeted(s, owner).Some? && Greeted(s, owner).value.owner == o then 1 else 0
  }

  lemma {:induction false} FreedQueues(s: State, owner: Owner, o: Owner)
    requires o in s.events && o != owner
    ensures o in Freed(s, owner).events && Freed(s, owner).events[o] == s.events[o]
  {
  }

  lemma {:induction false} UnfocusedRevokeQueues(s: State, owner: Owner, o: Owner)
    requires s.focus.None? || s.focus.value.owner != owner
    requires o in s.events && o != owner
    ensures o in Revoke(s, owner).events && Revoke(s, owner).events[o] == s.events[o]
  {
  }

  lemma {:induction false} RevokeQueues(s: State, owner: Owner, o: Owner)
    requires Inv(s) && o in s.events && o !in Falls(s, owner)
    ensures o in Revoke(s, owner).events
    ensures Grown(s.events[o], Revoke(s, owner).events[o], Greetings(s, owner, o))
    decreases s.events.Keys - {owner}
  {
    hide Inv; hide Emit; hide Restore; hide FocusCandidate; hide NoRoom; hide Freed; hide QueueBytes;
    if s.focus.Some? && s.focus.value.owner == owner {
      hide Revoke;
      var free := Freed(s, owner);
      FreedSafe(s, owner);
      FreedQueues(s, owner, o);
      RestoreUnfolds(free);
      CandidateServed(free);
      var next := FocusCandidate(free);
      if next.Some? {
        var entering := free.(focus := next);
        EmitLasting(entering, next.value, Focus(true));
        if NoRoom(free.events[next.value.owner]) {
          OverflowQueues(entering, next.value.owner);
          RevokeQueues(entering, next.value.owner, o);
        }
      }
    } else {
      UnfocusedRevokeQueues(s, owner, o);
    }
  }

  // ---- Focus moves -------------------------------------------------------------------------

  /** Places that moving focus to `id` takes of its owner's queue. */
  function FocusCost(s: State, id: Id): nat {
    if s.focus == Some(id) then 0
    else if s.focus.Some? && s.focus.value in s.windows && s.focus.value.owner == id.owner then 3
    else 1
  }

  lemma {:induction false} FocuslessOverflow(s: State, owner: Owner, o: Owner)
    requires s.focus.None? && o in s.events
    ensures var r := Overflow(s, owner);
            (o in r.events <==> o != owner) && (o in r.events ==> r.events[o] == s.events[o]) &&
            forall id :: id in r.windows ==> id.owner != owner
  {
    assert Revoke(s, owner) == DropOwner(s, owner);
  }

  lemma {:induction false} FarewellQueues(s: State, holder: Id, o: Owner)
    requires Inv(s) && s.focus == Some(holder) && holder in s.windows && o in s.events
    ensures var left := LeaveFocus(s);
            (o in left.events <==> o != holder.owner || Room(s.events[o], 2)) &&
            (o in left.events ==> Grown(s.events[o], left.events[o], if o == holder.owner then 2 else 0))
  {
    hide Inv; hide Emit; hide QueueBytes;
    FarewellRevokes(s, holder);
    var free := s.(focus := None);
    var one := Emit(free, holder, Cancel);
    EmitLasting(free, holder, Cancel);
    if !NoRoom(s.events[holder.owner]) {
      EmitLasting(one, holder, Focus(false));
      if NoRoom(one.events[holder.owner]) {
        FocuslessOverflow(one, holder.owner, o);
      }
    } else {
      FocuslessOverflow(free, holder.owner, o);
      StrayEmission(one, holder, Focus(false));
    }
  }

  lemma {:induction false} LeftQueues(s: State, id: Id)
    requires Inv(s) && id.owner in s.events && s.focus != Some(id)
    ensures var left := LeaveFocus(s);
            (id.owner in left.events <==> Room(s.events[id.owner], FocusCost(s, id) - 1)) &&
            (id.owner in left.events ==> Grown(s.events[id.owner], left.events[id.owner], FocusCost(s, id) - 1))
  {
    hide Inv; hide Emit; hide QueueBytes; hide Room;
    RoomForNone(s, id.owner);
    if s.focus.Some? {
      if s.focus.value in s.windows {
        FarewellQueues(s, s.focus.value, id.owner);
      } else {
        StrayEmission(s.(focus := None), s.focus.value, Cancel);
        StrayEmission(s.(focus := None), s.focus.value, Focus(false));
      }
    }
  }

  /** The last event of the queue is one no later event replaces. */
  predicate EndsLasting(q: seq<WindowEvent>) {
    q != [] && !Replaceable(q[|q| - 1].event)
  }

  /** What a step that keeps window `id` did to its owner's queue. */
  ghost predicate Kept(s: State, r: State, id: Id, n: nat) {
    id in r.windows && id.owner in s.events && id.owner in r.events &&
    Grown(s.events[id.owner], r.events[id.owner], n) &&
    if n == 0 then r.events == s.events else EndsLasting(r.events[id.owner])
  }

  /** The greeting of the focused window keeps it exactly when there is room. */
  lemma {:induction false} Greeting(s: State, id: Id)
    requires Inv(s) && s.focus == Some(id)
    ensures var r := Emit(s, id, Focus(true));
            (id in r.windows <==> id in s.windows && id.owner in s.events && Room(s.events[id.owner], 1)) &&
            (id in r.windows ==> r.focus == Some(id) && Kept(s, r, id, 1))
  {
    hide Inv; hide Emit; hide Reported; hide QueueBytes; hide Overflow;
    EmitSafe(s, id, Focus(true));
    if id in s.windows {
      LastingKeeps(s, id, Focus(true));
      EmitLasting(s, id, Focus(true));
    }
  }

  /** Moving focus to a live window keeps it exactly when its owner's queue has room for the whole move. */
  lemma {:induction false} FocusSpends(s: State, id: Id)
    requires Inv(s) && id in s.windows
    ensures var r := ChangeFocus(s, Some(id));
            id.owner in s.events && (id in r.windows <==> Room(s.events[id.owner], FocusCost(s, id))) &&
            (id in r.windows ==> r.focus == Some(id) && Kept(s, r, id, FocusCost(s, id)))
  {
    hide Inv; hide Emit; hide QueueBytes; hide Reported; hide LeaveFocus;
    OwnerHasQueue(s, id);
    if s.focus == Some(id) {
      RoomForNone(s, id.owner);
    } else {
      var left := LeaveFocus(s);
      LeaveFocusSafe(s);
      LeftQueues(s, id);
      CursorIgnored(left, left.(focus := Some(id)));
      Greeting(left.(focus := Some(id)), id);
    }
  }
}
