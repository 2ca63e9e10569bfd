/**
 Where the hover is left behind: exactly when a hover change, or any pointer input, ends with the hover
 on a window that its own events removed, told from the state before it.
 */
module OverlayHover {
  import opened Wrappers
  import opened Words
  import opened Scalars
  import opened OverlayTypes
  import opened OverlayModel
  import opened OverlayInvariant
  import opened OverlayRevocation
  import opened OverlaySafety
  import opened OverlayRuns
  import opened OverlayEdges
  import opened OverlayRouting
  import opened OverlayQueues
  import opened OverlayClosing

  // ---- One hover change --------------------------------------------------------------------

  predicate SameRegion(hover: Option<Hovering>, next: Hovering) {
    hover.Some? && hover.value.window == next.window && hover.value.region == next.region
  }

  /** `s` after the window hovered so far is told that the pointer left. */
  function Unhovered(s: State): State {
    if s.hover.None? then s else Emit(s, s.hover.value.window, Hover(s.hover.value.region, false))
  }

  /** What that takes of the queue of `owner`: so many places, or the queue itself. */
  function LeaveCost(s: State, owner: Owner): Option<nat> {
    if s.hover.None? || s.hover.value.window !in s.windows || s.hover.value.window.owner !in s.events then Some(0)
    else
      var from := s.hover.value.window.owner;
      if !NoRoom(s.events[from]) then Some(if from == owner then 1 else 0)
      else if owner in Falls(s, from) then None
      else Some(Greetings(s, from, owner))
  }

  /**
   The hover will be on a live window after it changes to `next`, told from the state before: there is
   no next window; or it is live and the region is the same; or the leave spares the owner's queue and
   leaves it room for the entry.
   */
  predicate HoverStays(s: State, next: Option<Hovering>) {
    next.None? ||
    (var w := next.value.window;
     w in s.windows && w.owner in s.events &&
     (SameRegion(s.hover, next.value) ||
      (LeaveCost(s, w.owner).Some? && Room(s.events[w.owner], LeaveCost(s, w.owner).value + 1))))
  }

  lemma {:induction false} UnhoveredSafe(s: State)
    requires Inv(s)
    ensures Cascaded(s, Unhovered(s))
  {
    hide Inv; hide Emit; hide Reduced; hide Reported;
    CascadedSelf(s);
    if s.hover.Some? {
      EmitSafe(s, s.hover.value.window, Hover(s.hover.value.region, false));
    }
  }

  lemma {:induction false} LeaveSpends(s: State, owner: Owner)
    requires Inv(s) && owner in s.events
    ensures owner in Unhovered(s).events <==> LeaveCost(s, owner).Some?
    ensures (LeaveCost(s, owner).Some? ==>
               Grown(s.events[owner], Unhovered(s).events[owner], LeaveCost(s, owner).value))
  {
    hide Inv; hide Emit; hide Falls; hide Greetings; hide NoRoom; hide QueueBytes; hide Overflow;
    if s.hover.Some? {
      var w, leave := s.hover.value.window, Hover(s.hover.value.region, false);
      if w in s.windows {
        OwnerHasQueue(s, w);
        EmitLasting(s, w, leave);
        if Bursts(s, w, leave) {
          OverflowQueues(s, w.owner);
          RevokeFalls(s, w.owner);
          if owner !in Falls(s, w.owner) {
            RevokeQueues(s, w.owner, owner);
          }
        }
      } else {
        StrayEmission(s, w, leave);
      }
    }
  }

  /** A hover change ends on a live window exactly when the state before says so. */
  lemma {:induction false} SetHoverStrandsExactly(s: State, next: Option<Hovering>)
    requires Inv(s)
    ensures HoverLive(SetHover(s, next)) <==> HoverStays(s, next)
  {
    hide Inv; hide Emit; hide LeaveCost; hide NoRoom; hide Room;
    if next.Some? && next.value.window in s.windows {
      OwnerHasQueue(s, next.value.window);
    }
    if next.Some? && !SameRegion(s.hover, next.value) {
      var w := next.value.window;
      UnhoveredWindows(s, next, w);
      Entered(Unhovered(s).(hover := next), next.value);
      if w in s.windows {
        EntryRoom(s, w.owner);
      }
    }
  }

  /** There is room for an entry after the leave exactly when there was room for both. */
  lemma {:induction false} EntryRoom(s: State, owner: Owner)
    requires Inv(s) && owner in s.events
    ensures owner in Unhovered(s).events && !NoRoom(Unhovered(s).events[owner])
       <==> LeaveCost(s, owner).Some? && Room(s.events[owner], LeaveCost(s, owner).value + 1)
  {
    hide Inv; hide Unhovered; hide LeaveCost; hide Grown; hide Room; hide NoRoom;
    LeaveSpends(s, owner);
    if owner in Unhovered(s).events {
      GrownRoom(s.events[owner], Unhovered(s).events[owner], LeaveCost(s, owner).value);
    }
  }

  lemma {:induction false} UnhoveredWindows(s: State, next: Option<Hovering>, w: Id)
    requires Inv(s)
    ensures Inv(Unhovered(s).(hover := next))
    ensures w in Unhovered(s).windows <==> w in s.windows && w.owner in Unhovered(s).events
  {
    hide Inv; hide Unhovered; hide Reported;
    UnhoveredSafe(s);
    CursorIgnored(Unhovered(s), Unhovered(s).(hover := next));
    if w in s.windows {
      OwnerHasQueue(s, w);
    }
  }

  /** The entry event keeps the window it is told to exactly when there is room for it. */
  lemma {:induction false} Entered(s: State, next: Hovering)
    requires Inv(s) && s.hover == Some(next)
    ensures var r := Emit(s, next.window, Hover(next.region, true));
            HoverLive(r) <==> next.window in s.windows && next.window.owner in s.events
                              && !NoRoom(s.events[next.window.owner])
  {
    hide Inv; hide Emit; hide NoRoom; hide Reported;
    EmitSafe(s, next.window, Hover(next.region, true));
    if next.window in s.windows {
      LastingKeeps(s, next.window, Hover(next.region, true));
    }
  }

  /** Re-evaluating the hover strands it under the same condition on the window under the pointer. */
  lemma {:induction false} RefreshStrandsExactly(s: State, position: Point, hit: HitTest)
    requires Inv(s)
    ensures HoverLive(RefreshHover(s, position, hit)) <==> HoverStays(s, TargetHover(s, position, hit))
  {
    hide Inv; hide SetHover; hide HoverStays; hide TargetIn;
    SetHoverStrandsExactly(s, TargetHover(s, position, hit));
  }

  /** An emission leaves the hover alone, and strands it exactly when it takes the hovered owner down. */
  predicate Survives(s: State, id: Id, event: Event) {
    HoverLive(s) && (s.hover.None? || !Bursts(s, id, event) || s.hover.value.window.owner !in Falls(s, id.owner))
  }

  lemma {:induction false} EmitStrandsExactly(s: State, id: Id, event: Event)
    requires Inv(s)
    ensures Emit(s, id, event).hover == s.hover && (HoverLive(Emit(s, id, event)) <==> Survives(s, id, event))
  {
    hide Inv; hide Overflow; hide Overfull; hide ValidEvent; hide Falls;
    HoverStrandedExactly(s, id.owner);
    RevokeHover(s, id.owner);
  }

  lemma {:induction false} RevokeHover(s: State, owner: Owner)
    requires Inv(s)
    ensures Overflow(s, owner).hover == s.hover
  {
    hide Inv; hide Revoke; hide Reduced; hide Reported;
    RevokeSafe(s, owner);
  }

  // ---- A focus request in front ------------------------------------------------------------

  /** From `s` to `r` windows only go, and none of `owner` while its queue is there. */
  ghost predicate Spared(s: State, r: State, owner: Owner) {
    (forall w :: w in r.windows ==> w in s.windows && r.windows[w] == s.windows[w]) &&
    (owner in r.events ==> forall w :: w in s.windows && w.owner == owner ==> w in r.windows)
  }

  lemma {:induction false} PressSpends(s: State, t: Target, position: Point)
    requires Inv(s) && Eligible(s, t.id)
    ensures var r := PressOn(s, t, position);
            t.id in s.windows && t.id.owner in s.events && Inv(r) && r.hover == s.hover && Spared(s, r, t.id.owner) &&
            (t.id in r.windows <==> Room(s.events[t.id.owner], FocusCost(s, t.id))) &&
            (t.id in r.windows ==> r.focus == Some(t.id) && Kept(s, r, t.id, FocusCost(s, t.id)))
  {
    hide Inv; hide Eligible; hide ChangeFocus; hide Subtree; hide OutsideSubtree; hide Without; hide Room;
    hide Reported;
    EligibleLive(s, t.id);
    var raised := RaiseGroup(s, t.id);
    RaiseGroupSafe(s, t.id);
    HistorySafe(raised, t.id);
    var remembered := raised.(focusHistory := Without(s.focusHistory, t.id) + [t.id]);
    FocusSpends(remembered, t.id);
    ChangeFocusSafe(remembered, Some(t.id));
    PressOnSafe(s, t, position);
    assert PressOn(s, t, position).(capture := None) == ChangeFocus(remembered, Some(t.id)).(capture := None);
  }

  // ---- Pointer input on a window -----------------------------------------------------------

  /** What a hover change does to the window it ends on. */
  lemma {:induction false} HoverSpends(s: State, next: Hovering)
    requires Inv(s) && next.window in s.windows
    ensures var r, w := SetHover(s, Some(next)), next.window;
            Inv(r) && r.hover == Some(next) && (w in r.windows <==> HoverStays(s, Some(next))) &&
            (if SameRegion(s.hover, next) then r == s.(hover := Some(next))
             else w in r.windows ==> LeaveCost(s, w.owner).Some? && Kept(s, r, w, LeaveCost(s, w.owner).value + 1))
  {
    hide Inv; hide Emit; hide LeaveCost; hide NoRoom; hide Room; hide QueueBytes; hide Reported; hide Fewer;
    SetHoverSafe(s, Some(next));
    SetHoverStrandsExactly(s, Some(next));
    if !SameRegion(s.hover, next) {
      var moved := Unhovered(s).(hover := Some(next));
      UnhoveredWindows(s, Some(next), next.window);
      EmitSafe(moved, next.window, Hover(next.region, true));
      OwnerHasQueue(s, next.window);
      LeaveSpends(s, next.window.owner);
      if LeaveCost(s, next.window.owner).Some? {
        EntryKept(s, moved, next, LeaveCost(s, next.window.owner).value);
      }
    }
  }

  lemma {:induction false} EntryKept(s: State, moved: State, next: Hovering, n: nat)
    requires Inv(moved) && next.window.owner in s.events && next.window.owner in moved.events
    requires Grown(s.events[next.window.owner], moved.events[next.window.owner], n)
    ensures var r := Emit(moved, next.window, Hover(next.region, true));
            next.window in r.windows ==> Kept(s, r, next.window, n + 1)
  {
    hide Inv; hide Emit; hide QueueBytes; hide Reported; hide Overflow;
    EmitSafe(moved, next.window, Hover(next.region, true));
    if next.window in moved.windows {
      LastingKeeps(moved, next.window, Hover(next.region, true));
      EmitLasting(moved, next.window, Hover(next.region, true));
    }
  }

  /** A pointer event after an event that lasts is refused exactly when malformed or without room. */
  lemma {:induction false} PointerBursts(s: State, r: State, id: Id, n: nat, event: Event)
    requires Kept(s, r, id, n) && n > 0 && event.Pointer?
    ensures Bursts(r, id, event) <==> !ValidEvent(event) || !Room(s.events[id.owner], n + 1)
  {
    hide ValidEvent; hide QueueBytes;
    assert !Coalesces(r.events[id.owner], Stamp(r.windows[id], id, event));
  }

  /** Places that moving the hover to `id` takes of its owner's queue, when nothing else is in the way. */
  function HoverCost(s: State, id: Id): nat {
    if s.hover.Some? && s.hover.value.window in s.windows && s.hover.value.window.owner == id.owner then 2 else 1
  }

  /**
   Moving the hover to the pointed window and handing it event `e` leaves it in place, told from the
   state before: the event is well formed, and the owner's queue has room for it behind the leave and
   the entry, or, when the region is the same, takes it as it is.
   */
  predicate MotionStays(s: State, t: Target, e: Event) {
    var owner := t.id.owner;
    owner in s.events && ValidEvent(e) &&
    if SameRegion(s.hover, HoverOf(t)) then !Bursts(s, t.id, e)
    else LeaveCost(s, owner).Some? && Room(s.events[owner], LeaveCost(s, owner).value + 2)
  }

  /** The same for a press, which moves focus first: every place it takes of the queue is known at once. */
  predicate PressStays(s: State, t: Target, e: Event) {
    var n := FocusCost(s, t.id) + if SameRegion(s.hover, HoverOf(t)) then 0 else HoverCost(s, t.id);
    t.id.owner in s.events && ValidEvent(e) && if n == 0 then !Bursts(s, t.id, e) else Room(s.events[t.id.owner], n + 1)
  }

  predicate TargetStays(s: State, t: Target, report: PointerReport) {
    var e := PointerEvent(report, t.local, t.region.id);
    if Pressed(report) then PressStays(s, t, e) else MotionStays(s, t, e)
  }

  lemma {:induction false} MotionStrandsExactly(s: State, t: Target, e: Event)
    requires Inv(s) && t.id in s.windows && e.Pointer?
    ensures HoverLive(Emit(SetHover(s, Some(HoverOf(t))), t.id, e)) <==> MotionStays(s, t, e)
  {
    hide Inv; hide Emit; hide SetHover; hide LeaveCost; hide NoRoom; hide Room; hide Bursts; hide ValidEvent; hide Kept;
    var next := HoverOf(t);
    var r := SetHover(s, Some(next));
    OwnerHasQueue(s, t.id);
    HoverSpends(s, next);
    EmitStrandsExactly(r, t.id, e);
    FallsFull(r, t.id.owner);
    if SameRegion(s.hover, next) {
      BurstsAlike(s, r, t.id, e);
    } else if t.id in r.windows {
      PointerBursts(s, r, t.id, LeaveCost(s, t.id.owner).value + 1, e);
    } else if LeaveCost(s, t.id.owner).Some? {
      LessRoom(s.events[t.id.owner], LeaveCost(s, t.id.owner).value + 1, 1);
    }
  }

  lemma {:induction false} BurstsAlike(s: State, r: State, id: Id, event: Event)
    requires id in s.windows && id in r.windows && r.windows[id] == s.windows[id] && r.events == s.events
    ensures Bursts(r, id, event) <==> Bursts(s, id, event)
    ensures Bursts(s, id, event) <== !ValidEvent(event)
  {
  }

  lemma {:induction false} TargetStrandsExactly(s: State, t: Target, report: PointerReport)
    requires Inv(s) && Eligible(s, t.id)
    ensures HoverLive(TargetInput(s, t, report)) <==> TargetStays(s, t, report)
  {
    hide Inv; hide Emit; hide SetHover; hide Eligible; hide PressOn; hide MotionStays; hide PressStays;
    var e := PointerEvent(report, t.local, t.region.id);
    EligibleLive(s, t.id);
    if Pressed(report) {
      PressStrandsExactly(s, t, report.position, e);
    } else {
      MotionStrandsExactly(s, t, e);
    }
  }

  lemma {:induction false} PressStrandsExactly(s: State, t: Target, position: Point, e: Event)
    requires Inv(s) && Eligible(s, t.id) && e.Pointer?
    ensures HoverLive(Emit(SetHover(PressOn(s, t, position), Some(HoverOf(t))), t.id, e)) <==> PressStays(s, t, e)
  {
    hide Inv; hide Emit; hide SetHover; hide LeaveCost; hide Eligible; hide Room; hide Bursts; hide ValidEvent;
    hide PressOn; hide FocusCost; hide Grown;
    var r := PressOn(s, t, position);
    var n := FocusCost(s, t.id);
    PressSpends(s, t, position);
    var q := s.events[t.id.owner];
    if t.id in r.windows {
      MotionStrandsExactly(r, t, e);
      LeaveAfterPress(s, r, t.id);
      GrownMore(q, r.events[t.id.owner], n, HoverCost(s, t.id) + 1);
      if n == 0 {
        BurstsAlike(s, r, t.id, e);
      } else {
        PointerBursts(s, r, t.id, n, e);
      }
    } else {
      RoomForNone(s, t.id.owner);
      LessRoom(q, n, 1);
      LessRoom(q, n, HoverCost(s, t.id) + 1);
      GoneStays(r, t, e);
    }
  }

  /** After a press the leave can no longer pass focus on, so it costs one place or none. */
  lemma {:induction false} LeaveAfterPress(s: State, r: State, id: Id)
    requires Inv(s) && Inv(r) && id in r.windows && r.focus == Some(id) && r.hover == s.hover && Spared(s, r, id.owner)
    requires id.owner in r.events
    ensures LeaveCost(r, id.owner).Some? && Room(r.events[id.owner], LeaveCost(r, id.owner).value + 2)
       <==> Room(r.events[id.owner], HoverCost(s, id) + 1)
  {
    hide Inv;
    if r.hover.Some? && r.hover.value.window in r.windows {
      OwnerHasQueue(r, r.hover.value.window);
    }
  }

  /** A window that is gone is not hovered back to life. */
  lemma {:induction false} GoneStays(s: State, t: Target, e: Event)
    requires Inv(s) && t.id !in s.windows && e.Pointer?
    ensures !HoverLive(Emit(SetHover(s, Some(HoverOf(t))), t.id, e))
  {
    hide Inv; hide Emit; hide SetHover; hide Fewer; hide ValidEvent; hide Bursts;
    SetHoverSafe(s, Some(HoverOf(t)));
    SetHoverStrandsExactly(s, Some(HoverOf(t)));
    EmitStrandsExactly(SetHover(s, Some(HoverOf(t))), t.id, e);
  }

  // ---- Input that does not change the hover itself -----------------------------------------

  /**
   A close leaves no stranded hover: there is none, or it is on a window that goes, and is let go of,
   or it is on a live one whose owner does not fall.
   */
  predicate CloseStays(s: State, id: Id) {
    s.hover.None? || s.hover.value.window in ClosingGroup(s, id) ||
    (HoverLive(s) && s.hover.value.window.owner !in CloseFalls(s, id))
  }

  lemma {:induction false} CloseStrandsExactly(s: State, id: Id, reason: DismissReason)
    requires Inv(s)
    ensures HoverLive(CloseWindow(s, id, reason)) <==> CloseStays(s, id)
  {
    hide Inv; hide CloseWindow; hide CloseFalls; hide Subtree; hide Without; hide Descends;
    CloseHover(s, id, reason);
    CloseSafe(s, id, reason);
    CloseLosesExactly(s, id, reason);
    InvStructure(s);
    SubtreeMembers(s, id);
    if s.hover.Some? && HoverLive(s) {
      OwnerHasQueue(s, s.hover.value.window);
    }
  }

  /** Swallowing a button is nothing to a close. */
  lemma {:induction false} CloseFallsAlike(a: State, b: State, id: Id)
    requires Alike(a, b) && a.hover == b.hover && a.capture == b.capture
    ensures CloseFalls(a, id) == CloseFalls(b, id)
  {
    hide QueueBytes; hide Falls; hide RestoreFalls; hide Filter; hide Room;
    SameGroup(a, b, id);
    if id.owner in a.events {
      RoomAlike(a.events[id.owner], b.events[id.owner], AllCost(a, ClosingGroup(a, id)));
      FallsAlike(a, b, id.owner);
      DroppedAlike(a, b, id.owner);
      RestoreAlike(DropOwner(a, id.owner), DropOwner(b, id.owner));
      if id in a.windows {
        DismissalAlike(a, b, id);
        RestoreAlike(Dismissal(a, id), Dismissal(b, id));
      }
    }
    var focus := if a.focus == Some(id) then None else a.focus;
    RestoreAlike(a.(focus := focus), b.(focus := focus));
  }

  lemma {:induction false} SameGroup(a: State, b: State, id: Id)
    requires a.windows == b.windows && a.stack == b.stack
    ensures ClosingGroup(a, id) == ClosingGroup(b, id)
  {
  }

  lemma {:induction false} RoomAlike(q: seq<WindowEvent>, r: seq<WindowEvent>, n: nat)
    requires Grown(q, r, 0)
    ensures Room(q, n) <==> Room(r, n)
  {
  }

  lemma {:induction false} DroppedAlike(a: State, b: State, owner: Owner)
    requires Alike(a, b)
    ensures Alike(DropOwner(a, owner), DropOwner(b, owner))
  {
    hide QueueBytes; hide Filter;
  }

  lemma {:induction false} DismissalAlike(a: State, b: State, id: Id)
    requires Alike(a, b) && a.hover == b.hover && a.capture == b.capture && id.owner in a.events
    ensures Alike(Dismissal(a, id), Dismissal(b, id))
  {
    hide QueueBytes; hide Filter; hide ClosingGroup;
    SameGroup(a, b, id);
    PaddingGrows(a.events[id.owner], AllCost(a, ClosingGroup(a, id)));
    PaddingGrows(b.events[id.owner], AllCost(b, ClosingGroup(b, id)));
  }

  /** A drag or resize: nothing, a close when revisions are out, or a move that is reported. */
  predicate GestureStays(s: State, c: Capture, p: Point, settled: bool) {
    if c.window !in s.windows || Dragged(c, s.windows[c.window].options, p).None? then HoverLive(s)
    else if s.windows[c.window].revision == U64_MAX then CloseStays(s, c.window)
    else Survives(Moved(s, c, p), c.window, Geometry(Dragged(c, s.windows[c.window].options, p).value, settled))
  }

  /** The captured window's record written with its new place. */
  function Moved(s: State, c: Capture, p: Point): State
    requires c.window in s.windows && Dragged(c, s.windows[c.window].options, p).Some?
    requires s.windows[c.window].revision < U64_MAX
  {
    var w := s.windows[c.window];
    var bounds := Dragged(c, w.options, p).value;
    s.(windows := s.windows[c.window := w.(revision := w.revision + 1, options := w.options.(bounds := bounds))])
  }

  lemma {:induction false} GestureStrandsExactly(s: State, c: Capture, p: Point, settled: bool)
    requires Inv(s)
    ensures HoverLive(Gesture(s, c, p, settled)) <==> GestureStays(s, c, p, settled)
  {
    hide Inv; hide CloseWindow; hide Emit; hide CloseStays; hide Survives; hide Dragged;
    if c.window in s.windows {
      var w := s.windows[c.window];
      var bounds := Dragged(c, w.options, p);
      if bounds.Some? {
        if w.revision == U64_MAX {
          CloseStrandsExactly(s, c.window, Closed);
        } else {
          WindowValid(s, c.window);
          DraggedValid(c, w.options, p);
          WindowWritten(s, c.window, w.(revision := w.revision + 1, options := w.options.(bounds := bounds.value)));
          EmitStrandsExactly(Moved(s, c, p), c.window, Geometry(bounds.value, settled));
        }
      }
    }
  }

  lemma {:induction false} DraggedValid(c: Capture, options: WindowOptions, p: Point)
    requires Dragged(c, options, p).Some?
    ensures ValidRect(Dragged(c, options, p).value)
  {
    hide Edge;
  }

  predicate RoutedStays(s: State, c: Capture, report: PointerReport)
    requires c.window in s.windows
  {
    var local := Local(s.windows[c.window].options.bounds, report.position);
    if Draggable(c.role) then GestureStays(s, c, report.position, Released(report))
    else if local.None? then HoverLive(s)
    else Survives(s, c.window, PointerEvent(report, local.value, c.region))
  }

  /** Captured input; after a release the hover is looked up again in the state the routed event leaves. */
  predicate CapturedStays(s: State, c: Capture, report: PointerReport, hit: HitTest) {
    if !Eligible(s, c.window) then Survives(s.(capture := None), c.window, Cancel)
    else
      EligibleLive(s, c.window);
      if Released(report) then
        var routed := RouteCaptured(s, c, report).(capture := None);
        HoverStays(routed, TargetHover(routed, report.position, hit))
      else RoutedStays(s, c, report)
  }

  lemma {:induction false} CapturedStrandsExactly(s: State, c: Capture, report: PointerReport, hit: HitTest)
    requires Inv(s) && s.capture == Some(c)
    ensures HoverLive(CapturedInput(s, c, report, hit).0) <==> CapturedStays(s, c, report, hit)
  {
    hide Inv; hide Emit; hide Eligible; hide RouteCaptured; hide RefreshHover; hide HoverStays; hide Survives;
    hide RoutedStays; hide TargetIn; hide LastModal;
    if !Eligible(s, c.window) {
      Loosened(s, s.(capture := None));
      EmitStrandsExactly(s.(capture := None), c.window, Cancel);
    } else {
      EligibleLive(s, c.window);
      LiveOwnerCounts(s, c.window);
      CapturedRoutes(s, c, report);
      var routed := RouteCaptured(s, c, report);
      if Released(report) {
        Loosened(routed, routed.(capture := None));
        RefreshStrandsExactly(routed.(capture := None), report.position, hit);
      } else {
        RoutedStrandsExactly(s, c, report);
      }
    }
  }

  lemma {:induction false} RoutedStrandsExactly(s: State, c: Capture, report: PointerReport)
    requires Inv(s) && c.window in s.windows
    ensures HoverLive(RouteCaptured(s, c, report)) <==> RoutedStays(s, c, report)
  {
    hide Inv; hide Emit; hide Gesture; hide GestureStays; hide Survives;
    GestureStrandsExactly(s, c, report.position, Released(report));
    var local := Local(s.windows[c.window].options.bounds, report.position);
    if local.Some? {
      EmitStrandsExactly(s, c.window, PointerEvent(report, local.value, c.region));
    }
  }

  // ---- Pointer input -----------------------------------------------------------------------

  /** The hover is on a live window after a pointer input, branch by branch as the input is routed. */
  predicate PointerStays(s: State, report: PointerReport, hit: HitTest) {
    var popup := FrontPopup(s);
    var target := TargetAt(s, report.position, hit);
    if report.button.Some? && report.button.value.id in s.swallowedButtons then HoverLive(s)
    else if s.capture.Some? then CapturedStays(s, s.capture.value, report, hit)
    else if popup.Some? && Pressed(report) && !Contains(s.windows[popup.value].options.bounds, report.position)
    then CloseStays(s, popup.value)
    else target.None? || TargetStays(s, target.value, report)
  }

  lemma {:induction false} MissedHover(s: State, report: PointerReport)
    requires Inv(s)
    ensures MissedInput(SetHover(s, None), report).0.hover.None?
  {
    hide Inv; hide Emit; hide ChangeFocus; hide LastModal; hide Fewer; hide Reduced; hide Reported;
    SetHoverSafe(s, None);
    ChangeFocusSafe(SetHover(s, None), None);
  }

  lemma {:induction false} DismissalStrandsExactly(s: State, id: Id, button: u16)
    requires Inv(s)
    ensures HoverLive(CloseWindow(s.(swallowedButtons := s.swallowedButtons + {button}), id, OutsidePress))
       <==> CloseStays(s, id)
  {
    hide Inv; hide CloseWindow; hide CloseFalls; hide ClosingGroup;
    var marked := s.(swallowedButtons := s.swallowedButtons + {button});
    CursorIgnored(s, marked);
    CloseStrandsExactly(marked, id, OutsidePress);
    SameGroup(s, marked, id);
    CloseFallsAlike(s, marked, id);
  }

  /** Any pointer input, from any good state, leaves the hover on a live window exactly when that state says so. */
  lemma {:induction false} PointerStrandsExactly(s: State, report: PointerReport, hit: HitTest)
    requires Inv(s)
    ensures HoverLive(PointerInput(s, report, hit).0) <==> PointerStays(s, report, hit)
  {
    hide Inv; hide CapturedInput; hide CloseWindow; hide MissedInput; hide TargetInput; hide SetHover; hide LastPopup;
    hide TargetIn; hide CloseStays; hide CapturedStays; hide TargetStays; hide Eligible;
    if report.button.Some? && report.button.value.id in s.swallowedButtons {
    } else if s.capture.Some? {
      CapturedStrandsExactly(s, s.capture.value, report, hit);
    } else {
      var popup := FrontPopup(s);
      var target := TargetAt(s, report.position, hit);
      if popup.Some? && Pressed(report) && !Contains(s.windows[popup.value].options.bounds, report.position) {
        DismissalStrandsExactly(s, popup.value, report.button.value.id);
      } else if target.None? {
        MissedHover(s, report);
      } else {
        TargetEligible(s, s.stack, report.position, hit);
        TargetStrandsExactly(s, target.value, report);
      }
    }
  }

  // ---- Pointer input that misses every window ----------------------------------------------

  /** Nothing takes the pointer: no swallowed button, no capture, no popup to dismiss, no window under it. */
  predicate Misses(s: State, report: PointerReport, hit: HitTest) {
    var popup := FrontPopup(s);
    !(report.button.Some? && report.button.value.id in s.swallowedButtons) && s.capture.None? &&
    !(popup.Some? && Pressed(report) && !Contains(s.windows[popup.value].options.bounds, report.position)) &&
    TargetAt(s, report.position, hit).None?
  }

  /** The owners that the leave of the current hover takes down. */
  function LeaveFalls(s: State): set<Owner> {
    if s.hover.None? || !Bursts(s, s.hover.value.window, Hover(s.hover.value.region, false)) then {}
    else Falls(s, s.hover.value.window.owner)
  }

  /** A visible modal will outlive the leave. */
  predicate ModalOutlives(s: State) {
    exists i: nat :: i < |s.stack| && ModalAt(s.windows, s.stack, i) && s.stack[i].owner !in LeaveFalls(s)
  }

  lemma {:induction false} LeaveLoses(s: State)
    requires Inv(s)
    ensures var r := SetHover(s, None);
            Inv(r) && r.events.Keys == s.events.Keys - LeaveFalls(s) &&
            r.windows == KeepWindows(s.windows, r.events.Keys) && r.stack == Served(s.stack, r.events.Keys)
  {
    hide Inv; hide Emit; hide Falls; hide Bursts; hide ValidEvent; hide Served; hide Reported;
    UnhoveredSafe(s);
    var left := Unhovered(s);
    CursorIgnored(left, left.(hover := None));
    if s.hover.Some? {
      EmitRevokes(s, s.hover.value.window, Hover(s.hover.value.region, false));
    }
  }

  /** `r` is `s` after whole owners have gone. */
  ghost predicate Spares(s: State, r: State) {
    Inv(s) && Inv(r) && r.windows == KeepWindows(s.windows, r.events.Keys) && r.stack == Served(s.stack, r.events.Keys)
  }

  /** After whole owners have gone, a modal is up exactly when one of the others' was. */
  lemma {:induction false} ModalsLeft(s: State, r: State)
    requires Spares(s, r)
    ensures TopModal(r).Some?
       <==> exists i: nat :: i < |s.stack| && ModalAt(s.windows, s.stack, i) && s.stack[i].owner in r.events.Keys
  {
    hide Spares; hide LastModal; hide ModalAt;
    if TopModal(r).Some? {
      ModalWas(s, r);
    }
    forall i: nat | i < |s.stack| && ModalAt(s.windows, s.stack, i) && s.stack[i].owner in r.events.Keys
      ensures TopModal(r).Some? {
      ModalIs(s, r, i);
    }
  }

  lemma {:induction false} ModalWas(s: State, r: State)
    requires Spares(s, r) && TopModal(r).Some?
    ensures exists i: nat :: i < |s.stack| && ModalAt(s.windows, s.stack, i) && s.stack[i].owner in r.events.Keys
  {
    hide Inv; hide EffectivelyVisible; hide Structure; hide DescendsWithin; hide LastModal;
    var m := TopModal(r).value;
    InvStructure(r);
    ParentsClosed(r);
    ModalStays(s, r, m);
    var i: nat :| i < |s.stack| && s.stack[i] == m;
    assert ModalAt(s.windows, s.stack, i);
  }

  lemma {:induction false} ModalIs(s: State, r: State, i: nat)
    requires Spares(s, r) && i < |s.stack| && ModalAt(s.windows, s.stack, i) && s.stack[i].owner in r.events.Keys
    ensures TopModal(r).Some?
  {
    hide Inv; hide EffectivelyVisible; hide Structure; hide DescendsWithin; hide LastModal;
    InvStructure(s);
    InvStructure(r);
    StackOrder(s);
    ParentsClosed(r);
    var m := s.stack[i];
    ModalStays(s, r, m);
    assert m in r.stack;
    var k: nat :| k < |r.stack| && r.stack[k] == m;
    var j := ForemostModal(r.windows, r.stack);
    assert ModalAt(r.windows, r.stack, k);
  }

  lemma {:induction false} ModalStays(s: State, r: State, id: Id)
    requires Inv(s) && id in s.windows && id.owner in r.events.Keys
    requires r.windows == KeepWindows(s.windows, r.events.Keys)
    requires forall x :: x in r.windows && r.windows[x].options.parent.Some? ==>
               r.windows[x].options.parent.value in r.windows
    ensures id in r.windows && r.windows[id] == s.windows[id]
    ensures EffectivelyVisible(r.windows, id) == EffectivelyVisible(s.windows, id)
  {
    hide Inv; hide DescendsWithin;
    WalkSame(r.windows, s.windows, id, id, MAX_WINDOWS);
  }

  /**
   A pointer that misses every window only ends the hover; it is consumed exactly while a visible modal
   outlives the leave that this sends. Otherwise it passes through, and a press lets go of focus.
   */
  lemma {:induction false} MissedPointer(s: State, report: PointerReport, hit: HitTest)
    requires Inv(s) && Misses(s, report, hit)
    ensures var (r, consumed) := PointerInput(s, report, hit);
            var left := SetHover(s, None);
            (consumed <==> ModalOutlives(s)) &&
            r == if consumed || !Pressed(report) then left else ChangeFocus(left, None).(focusHistory := [])
  {
    hide Inv; hide SetHover; hide TargetIn; hide LastPopup; hide ChangeFocus; hide LeaveFalls; hide ModalAt;
    hide LastModal; hide Served;
    var left := SetHover(s, None);
    LeaveLoses(s);
    ModalsLeft(s, left);
    forall i: nat | i < |s.stack| && ModalAt(s.windows, s.stack, i) ensures s.stack[i].owner in s.events {
      ModalServed(s, i);
    }
  }

  lemma {:induction false} ModalServed(s: State, i: nat)
    requires Inv(s) && i < |s.stack| && ModalAt(s.windows, s.stack, i)
    ensures s.stack[i].owner in s.events
  {
    hide Inv;
    OwnerHasQueue(s, s.stack[i]);
  }
}
