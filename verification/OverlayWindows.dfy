/**
 The window machine in the source's own form: one object whose methods update the window map, the
 stack, focus, capture and queues in place. Each method moves the object's abstract state exactly
 as its function in OverlayModel says, and keeps the invariant.
 */
module OverlayWindows {
  import opened Wrappers
  import opened Words
  import opened Scalars
  import opened OverlayTypes
  import opened OverlayModel
  import opened OverlayInvariant
  import opened OverlayRevocation
  import opened OverlaySafety
  import opened OverlayRuns

  /** Dropping the listed windows one at a time drops them all. */
  lemma {:induction false} WithoutNext(stack: seq<Id>, ids: seq<Id>, i: nat)
    requires i < |ids|
    ensures Without(Filter(stack, (x: Id) => x !in ids[..i]), ids[i]) == Filter(stack, (x: Id) => x !in ids[..i + 1])
  {
    assert ids[..i + 1] == ids[..i] + [ids[i]];
    FilterTwice(stack, (x: Id) => x !in ids[..i], (x: Id) => x != ids[i], (x: Id) => x !in ids[..i + 1]);
  }

  lemma {:induction false} StackWithoutOwned(stack: seq<Id>, owner: Owner, ids: seq<Id>)
    requires ids == Filter(stack, (x: Id) => x.owner == owner)
    ensures Filter(stack, (x: Id) => x !in ids[..0]) == stack
    ensures Filter(stack, (x: Id) => x !in ids) == Unowned(stack, owner)
  {
    FilterAll(stack, (x: Id) => x !in ids[..0]);
    FilterTwice(stack, (x: Id) => true, (x: Id) => x !in ids, (x: Id) => x.owner != owner);
    FilterAll(stack, (x: Id) => true);
  }

  lemma {:induction false} StackListsWindows(s: State)
    requires Inv(s)
    ensures forall id :: id in s.windows <==> id in s.stack
  {
    hide Ordered; hide Bounded; hide References; hide Queued; hide AllServed; hide Counted;
  }

  class Windows {
    var windows: map<Id, Window>
    var stack: seq<Id>
    var focus: Option<Id>
    var hover: Option<Hovering>
    var focusHistory: seq<Id>
    var swallowedButtons: set<u16>
    var swallowedEscape: bool
    var capture: Option<Capture>
    var events: map<Owner, seq<WindowEvent>>
    var overflowed: set<Owner>
    /** What each open queue was sent and has handed out; only the delivery claims look at it. */
    ghost var deliveries: map<Owner, Delivery>

    constructor ()
      ensures Valid() && St() == INITIAL
    {
      windows, stack, focus, hover, focusHistory := map[], [], None, None, [];
      swallowedButtons, swallowedEscape, capture := {}, false, None;
      events, overflowed, deliveries := map[], {}, map[];
      new;
      RunSafe([]);
    }

    ghost function St(): State
      reads this
    {
      State(windows, stack, focus, hover, focusHistory, swallowedButtons, swallowedEscape, capture,
            events, overflowed, deliveries)
    }

    ghost predicate Valid()
      reads this
    {
      Inv(St())
    }

    // ---- Emission, revocation and focus ----------------------------------------------------

    method RevokeOwner(owner: Owner)
      requires Valid()
      modifies this
      ensures Valid() && St() == Revoke(old(St()), owner)
      decreases events.Keys - {owner}, 3
    {
      hide Inv; hide Restore; hide DropOwner; hide Reduced;
      ghost var was := St();
      RevokeSafe(was, owner);
      DropSafe(was, owner);
      DropEverything(owner);
      if focus.Some? && focus.value.owner == owner {
        focus := None;
        CursorIgnored(DropOwner(was, owner), St());
        RestoreFocus();
      }
    }

    method DropEverything(owner: Owner)
      requires Valid()
      modifies this
      ensures St() == DropOwner(old(St()), owner) && events == old(events) - {owner} && focus == old(focus)
    {
      hide Inv; hide Filter;
      StackListsWindows(St());
      overflowed := overflowed - {owner};
      RemoveOwned(owner);
      events, deliveries := events - {owner}, deliveries - {owner};
      focusHistory := Unowned(focusHistory, owner);
      if capture.Some? && capture.value.window.owner == owner {
        capture := None;
      }
    }

    method RemoveOwned(owner: Owner)
      requires forall id :: id in windows <==> id in stack
      modifies this`windows, this`stack
      ensures windows == DropOwner(old(St()), owner).windows && stack == DropOwner(old(St()), owner).stack
    {
      hide Filter;
      ghost var was := St();
      var ids := Filter(stack, (x: Id) => x.owner == owner);
      StackWithoutOwned(stack, owner, ids);
      var i := 0;
      while i < |ids|
        invariant 0 <= i <= |ids|
        invariant windows == was.windows - (set x | x in ids[..i])
        invariant stack == Filter(was.stack, (x: Id) => x !in ids[..i])
      {
        WithoutNext(was.stack, ids, i);
        assert ids[..i + 1] == ids[..i] + [ids[i]];
        windows := windows - {ids[i]};
        stack := Without(stack, ids[i]);
        i := i + 1;
      }
      assert ids[..i] == ids;
    }

    method RestoreFocus()
      requires Valid()
      modifies this
      ensures Valid() && St() == Restore(old(St()))
      decreases events.Keys, 2
    {
      hide Inv; hide OverlayModel.ChangeFocus;
      var next := LastEligible(windows, stack, focusHistory);
      ChangeFocus(next);
    }

    method ChangeFocus(next: Option<Id>)
      requires Valid()
      modifies this
      ensures Valid() && St() == OverlayModel.ChangeFocus(old(St()), next)
      decreases events.Keys, 1
    {
      hide Inv; hide OverlayModel.Emit; hide OverlayModel.LeaveFocus;
      if focus == next {
        return;
      }
      LeaveFocus();
      ghost var left := St();
      focus := next;
      CursorIgnored(left, St());
      if next.Some? {
        Emit(next.value, Focus(true));
      }
    }

    method LeaveFocus()
      requires Valid()
      modifies this
      ensures Valid() && St() == OverlayModel.LeaveFocus(old(St()))
      decreases events.Keys, 0, 1
    {
      hide Inv; hide OverlayModel.Emit; hide Reduced; hide Reported;
      ghost var was := St();
      LeaveFocusSafe(was);
      var holder := focus;
      if holder.Some? {
        focus := None;
        CursorIgnored(was, St());
        Emit(holder.value, Cancel);
        Emit(holder.value, Focus(false));
      }
    }

    method Emit(id: Id, event: Event)
      requires Valid()
      modifies this
      ensures St() == OverlayModel.Emit(old(St()), id, event)
      ensures Valid() <==> ValidEvent(event) || id.owner in old(Owners(St())) || |old(Owners(St()))| < MAX_OWNERS
      decreases events.Keys, if ValidEvent(event) then 0 else 5, 0
    {
      hide Inv; hide Revoke; hide ValidEvent; hide Owners; hide QueueBytes; hide EventBytes; hide CanReplace;
      EmitKeeps(St(), id, event);
      if !ValidEvent(event) {
        RevokeOwner(id.owner);
        overflowed := overflowed + {id.owner};
        return;
      }
      if id !in windows {
        return;
      }
      var e := Stamp(windows[id], id, event);
      if id.owner !in events {
        return;
      }
      var queue := events[id.owner];
      if Coalesces(queue, e) {
        queue := queue[..|queue| - 1];
      }
      if |queue| >= MAX_PENDING_EVENTS || QueueBytes(queue) + EventBytes(event) > MAX_EVENT_QUEUE_BYTES {
        RevokeOwner(id.owner);
        overflowed := overflowed + {id.owner};
        return;
      }
      ghost var delivery := if id.owner in deliveries then deliveries[id.owner] else Delivery([], []);
      deliveries := deliveries[id.owner := delivery.(emitted := delivery.emitted + [e])];
      events := events[id.owner := queue + [e]];
    }

    method RequestFocus(id: Id) returns (r: Result<(), Refusal>)
      requires Valid()
      modifies this
      ensures Valid() && (St(), r) == OverlayModel.RequestFocus(old(St()), id)
    {
      hide Inv; hide EligibleIn; hide OverlayModel.ChangeFocus; hide Subtree; hide OutsideSubtree; hide Without;
      ghost var was := St();
      RequestFocusSafe(was, id);
      if !EligibleIn(windows, stack, id) {
        return Err(Ineligible);
      }
      EligibleLive(was, id);
      RaiseGroupSafe(was, id);
      RaiseGroup(id);
      HistorySafe(St(), id);
      focusHistory := Without(focusHistory, id);
      focusHistory := focusHistory + [id];
      ChangeFocus(Some(id));
      return Ok(());
    }

    method RaiseGroup(id: Id)
      requires Valid() && id in windows
      modifies this`stack
      ensures Valid() && St() == OverlayModel.RaiseGroup(old(St()), id)
    {
      hide Inv; hide Subtree; hide OutsideSubtree;
      RaiseGroupSafe(St(), id);
      var group := Subtree(windows, stack, id);
      stack := OutsideSubtree(windows, stack, id);
      stack := stack + group;
    }

    method CancelCapture(id: Id)
      requires Valid()
      modifies this
      ensures Valid() && St() == OverlayModel.CancelCapture(old(St()), id)
    {
      hide Inv; hide OverlayModel.Emit;
      if capture.Some? && capture.value.window == id {
        ghost var was := St();
        capture := None;
        Loosened(was, St());
        Emit(id, Cancel);
      }
    }

    method SetHover(next: Option<Hovering>)
      requires Valid()
      modifies this
      ensures Valid() && St() == OverlayModel.SetHover(old(St()), next)
    {
      hide Inv; hide OverlayModel.Emit;
      ghost var was := St();
      SetHoverSafe(was, next);
      var same := (hover.None? && next.None?) ||
                  (hover.Some? && next.Some? && hover.value.window == next.value.window
                   && hover.value.region == next.value.region);
      if same {
        hover := next;
        return;
      }
      if hover.Some? {
        Emit(hover.value.window, Hover(hover.value.region, false));
      }
      ghost var left := St();
      hover := next;
      CursorIgnored(left, St());
      if next.Some? {
        Emit(next.value.window, Hover(next.value.region, true));
      }
    }

    // ---- Lifecycle -------------------------------------------------------------------------

    method RefuseCreation(id: Id, generation: u64, options: WindowOptions) returns (refusal: Option<Refusal>)
      ensures refusal == CreateRefusal(St(), id, generation, options)
    {
      hide LastModal; hide Descends; hide ValidOptions; hide OwnedWindows;
      var modal := LastModal(windows, stack);
      if !ValidOptions(options) {
        return Some(BadOptions);
      }
      if generation == 0 || id.contextId == 0 || id.surfaceId == 0 {
        return Some(ZeroIdentity);
      }
      if id in windows {
        return Some(AlreadyExists);
      }
      if id.owner in overflowed {
        return Some(OwnerRevoked);
      }
      if id.owner !in events && |events| + |overflowed| >= MAX_OWNERS {
        return Some(OwnerLimit);
      }
      if |windows| >= MAX_WINDOWS || |OwnedWindows(windows, id.owner)| >= MAX_WINDOWS_PER_OWNER {
        return Some(WindowLimit);
      }
      if options.parent.Some? && (options.parent.value.owner != id.owner || options.parent.value !in windows) {
        return Some(BadParent);
      }
      if options.visible && options.mode.Modal? && modal.Some? && modal.value.owner != id.owner {
        return Some(OtherModal);
      }
      if options.visible && options.mode.Popup? && modal.Some?
         && !(options.parent.Some? && Descends(windows, options.parent.value, modal.value)) {
        return Some(OutsideModal);
      }
      return None;
    }

    method Create(id: Id, generation: u64, options: WindowOptions) returns (r: Result<(), Refusal>)
      requires Valid()
      modifies this
      ensures Valid() && (St(), r) == OverlayModel.Create(old(St()), id, generation, options)
    {
      hide Inv; hide OverlayModel.RequestFocus; hide CreateRefusal;
      ghost var was := St();
      CreateSafe(was, id, generation, options);
      var refusal := RefuseCreation(id, generation, options);
      if refusal.Some? {
        return Err(refusal.value);
      }
      InsertSafe(was, id, generation, options);
      windows := windows[id := Window(generation, 1, 0, options)];
      if id.owner !in events {
        events, deliveries := events[id.owner := []], deliveries[id.owner := Delivery([], [])];
      }
      stack := stack + [id];
      assert St() == Insert(was, id, generation, options);
      if options.visible && !options.mode.Floating? {
        r := RequestFocus(id);
      } else {
        r := Ok(());
      }
    }

    method PublishScene(id: Id, generation: u64, sceneRevision: u64) returns (r: Result<(), Refusal>)
      requires Valid()
      modifies this`windows
      ensures Valid() && (St(), r) == OverlayModel.PublishScene(old(St()), id, generation, sceneRevision)
    {
      hide Inv;
      PublishSceneSafe(St(), id, generation, sceneRevision);
      if id !in windows {
        return Err(Missing);
      }
      var w := windows[id];
      if w.generation != generation || sceneRevision == 0 || sceneRevision <= w.sceneRevision {
        return Err(Stale);
      }
      windows := windows[id := w.(sceneRevision := sceneRevision)];
      return Ok(());
    }

    method RemoveOne(id: Id, reason: DismissReason)
      requires Valid() && Childless(St(), id)
      modifies this
      ensures Valid() && St() == OverlayModel.RemoveOne(old(St()), id, reason)
    {
      hide Inv; hide OverlayModel.Emit; hide OverlayModel.ChangeFocus; hide OverlayModel.SetHover;
      hide OverlayModel.CancelCapture; hide Without; hide Childless;
      RemoveOneSafe(St(), id, reason);
      CancelCapture(id);
      if hover.Some? && hover.value.window == id {
        SetHover(None);
      }
      if focus == Some(id) {
        ChangeFocus(None);
      }
      Emit(id, Dismissed(reason));
      windows := windows - {id};
      stack := Without(stack, id);
      focusHistory := Without(focusHistory, id);
    }

    /** Descendants go foremost first, so no removal ever orphans a live child. */
    method Close(id: Id, reason: DismissReason)
      requires Valid()
      modifies this
      ensures Valid() && St() == CloseWindow(old(St()), id, reason)
    {
      hide Inv; hide OverlayModel.RemoveOne; hide Restore; hide Subtree; hide Removable; hide Fewer; hide Without;
      ghost var was := St();
      CloseSafe(was, id, reason);
      InvStructure(was);
      var children := Without(Subtree(windows, stack, id), id);
      ChildrenRemovable(was, id);
      RemoveAllSafe(was, children);
      RemoveListed(children);
      LastChildFree(was, St(), children, id);
      RemoveOne(id, reason);
      RestoreFocus();
    }

    method RemoveListed(children: seq<Id>)
      requires Valid() && Removable(windows, children)
      modifies this
      ensures Valid() && St() == RemoveAll(old(St()), children)
    {
      hide Inv; hide OverlayModel.RemoveOne; hide Removable;
      ghost var was := St();
      var i := |children|;
      assert children[..i] == children;
      while i > 0
        invariant 0 <= i <= |children|
        invariant Valid() && Removable(windows, children[..i])
        invariant RemoveAll(St(), children[..i]) == RemoveAll(was, children)
      {
        assert children[..i][i - 1] == children[i - 1];
        assert children[..i][..i - 1] == children[..i - 1];
        LastRemovable(St(), children[..i]);
        RemoveOne(children[i - 1], ParentClosed);
        i := i - 1;
      }
    }

    method CancelCaptures(ids: seq<Id>)
      requires Valid()
      modifies this
      ensures Valid() && St() == OverlayModel.CancelCaptures(old(St()), ids)
    {
      hide Inv; hide OverlayModel.CancelCapture;
      ghost var was := St();
      var i := 0;
      assert ids[0..] == ids;
      while i < |ids|
        invariant 0 <= i <= |ids| && Valid()
        invariant OverlayModel.CancelCaptures(St(), ids[i..]) == OverlayModel.CancelCaptures(was, ids)
      {
        assert ids[i..][1..] == ids[i + 1..];
        CancelCapture(ids[i]);
        i := i + 1;
      }
    }

    method Update(id: Id, generation: u64, revision: u64, options: WindowOptions) returns (r: Result<u64, Refusal>)
      requires Valid()
      modifies this
      ensures Valid() && (St(), r) == OverlayModel.Update(old(St()), id, generation, revision, options)
    {
      hide Inv; hide OverlayModel.RequestFocus; hide LastModal; hide Descends; hide OverlayModel.CancelCaptures;
      hide OverlayModel.ChangeFocus; hide Restore;
      ghost var was := St();
      UpdateSafe(was, id, generation, revision, options);
      if !ValidOptions(options) {
        return Err(BadOptions);
      }
      if id !in windows {
        return Err(Missing);
      }
      var w := windows[id];
      if w.generation != generation || w.revision != revision {
        return Err(Stale);
      }
      if options.parent != w.options.parent || options.mode != w.options.mode {
        return Err(Immutable);
      }
      var modal := LastModal(windows, stack);
      if options.visible && options.mode.Modal? && modal.Some? && modal.value.owner != id.owner {
        return Err(OtherModal);
      }
      if options.visible && options.mode.Popup? && modal.Some? && !Descends(windows, id, modal.value) {
        return Err(OutsideModal);
      }
      if revision == U64_MAX {
        return Err(Exhausted);
      }
      var next := revision + 1;
      var hiding := w.options.visible && !options.visible;
      var showing := !w.options.visible && options.visible && !options.mode.Floating?;
      WindowValid(was, id);
      WindowWritten(was, id, w.(options := options, revision := next));
      windows := windows[id := w.(options := options, revision := next)];
      if hiding {
        CancelCaptures(Subtree(windows, stack, id));
        if focus.Some? && Descends(windows, focus.value, id) {
          ChangeFocus(None);
          RestoreFocus();
        }
      }
      if showing {
        var focused := RequestFocus(id);
        if focused.Err? {
          return Err(focused.error);
        }
      }
      return Ok(next);
    }

    method ApplyAction(owner: Owner, action: Action, viewport: Viewport) returns (r: Result<Option<u64>, Refusal>)
      requires Valid()
      modifies this
      ensures Valid() && (St(), r) == OverlayModel.ApplyAction(old(St()), owner, action, viewport)
    {
      hide Inv; hide OverlayModel.RequestFocus; hide EligibleIn; hide LastModal; hide OverlayModel.Emit;
      hide CloseWindow; hide Subtree; hide OutsideSubtree; hide AboveParent; hide NewRect;
      ghost var was := St();
      ApplyActionSafe(was, owner, action, viewport);
      var id := Id(owner, action.contextId, action.surfaceId);
      if action.contextId == 0 || action.surfaceId == 0 || action.generation == 0 || action.expectedRevision == 0 {
        return Err(BadAction);
      }
      if id !in windows {
        return Err(Missing);
      }
      var w := windows[id];
      if w.generation != action.generation || w.revision != action.expectedRevision {
        return Err(Stale);
      }
      if action.action.Close? {
        Close(id, Closed);
        return Ok(None);
      }
      if w.revision == U64_MAX {
        return Err(Exhausted);
      }
      var next := w.revision + 1;
      var centred := None;
      ActOnSafe(was, id, action.action, viewport);
      match action.action {
        case Focused =>
          var focused := RequestFocus(id);
          if focused.Err? {
            return Err(focused.error);
          }
        case Raise =>
          if !EligibleIn(windows, stack, id) {
            return Err(Ineligible);
          }
          RaiseGroup(id);
        case Lower =>
          if !EligibleIn(windows, stack, id) || LastModal(windows, stack).Some? {
            return Err(Ineligible);
          }
          LowerGroupSafe(was, id);
          LowerGroup(id);
        case Center =>
          if viewport.width <= 0 || viewport.height <= 0 || viewport.scaleNumerator == 0
             || viewport.scaleDenominator == 0 {
            return Err(BadViewport);
          }
          var b := w.options.bounds;
          centred := NewRect(Centred(viewport.width, b.width), Centred(viewport.height, b.height), b.width, b.height);
          if centred.None? {
            return Err(BadGeometry);
          }
        case Close =>
      }
      if id !in windows {
        return Err(LostDuringAction);
      }
      ghost var acted := St();
      WindowValid(acted, id);
      if centred.None? {
        WindowWritten(acted, id, windows[id].(revision := next));
        windows := windows[id := windows[id].(revision := next)];
      } else {
        MoveWindow(id, next, centred.value, true);
      }
      return Ok(Some(next));
    }

    method LowerGroup(id: Id)
      requires Valid() && id in windows
      modifies this`stack
      ensures Valid() && St() == OverlayModel.LowerGroup(old(St()), id)
    {
      hide Inv; hide Subtree; hide OutsideSubtree; hide AboveParent;
      LowerGroupSafe(St(), id);
      var group := Subtree(windows, stack, id);
      stack := OutsideSubtree(windows, stack, id);
      var index := AboveParent(stack, Parent(windows, id));
      stack := stack[..index] + group + stack[index..];
    }

    method MoveWindow(id: Id, revision: u64, bounds: Rect, settled: bool)
      requires Valid() && id in windows && revision != 0 && ValidRect(bounds)
      modifies this
      ensures Valid() && St() == Move(old(St()), id, revision, bounds, settled)
    {
      hide Inv; hide OverlayModel.Emit;
      WindowValid(St(), id);
      var w := windows[id];
      var moved := w.(revision := revision, options := w.options.(bounds := bounds));
      WindowWritten(St(), id, moved);
      windows := windows[id := moved];
      Emit(id, Geometry(bounds, settled));
    }

    method SetPaneFocus(focused: bool)
      requires Valid()
      modifies this
      ensures Valid() && St() == OverlayModel.SetPaneFocus(old(St()), focused)
    {
      hide Inv; hide OverlayModel.Emit; hide OverlayModel.ChangeFocus; hide Restore; hide Fewer;
      ghost var was := St();
      SetPaneFocusSafe(was, focused);
      if focused {
        RestoreFocus();
        return;
      }
      if capture.Some? {
        var window := capture.value.window;
        capture := None;
        Loosened(was, St());
        Emit(window, Cancel);
      }
      ChangeFocus(None);
      swallowedButtons := {};
      swallowedEscape := false;
    }

    method TakeOverflow(owner: Owner) returns (reported: bool)
      requires Valid()
      modifies this`overflowed
      ensures Valid() && (St(), reported) == OverlayModel.TakeOverflow(old(St()), owner)
    {
      hide Inv;
      TakeOverflowSafe(St(), owner);
      reported := owner in overflowed;
      overflowed := overflowed - {owner};
    }

    method TakeEvent(owner: Owner) returns (event: Option<WindowEvent>)
      requires Valid()
      modifies this
      ensures Valid() && (St(), event) == OverlayModel.TakeEvent(old(St()), owner)
    {
      hide Inv; hide OwnedWindows;
      TakeEventSafe(St(), owner);
      if owner !in events {
        return None;
      }
      var queue := events[owner];
      event := None;
      if queue != [] {
        event := Some(queue[0]);
        queue := queue[1..];
      }
      if queue == [] && OwnedWindows(windows, owner) == {} {
        events, deliveries := events - {owner}, deliveries - {owner};
      } else {
        ghost var delivery := if owner in deliveries then deliveries[owner] else Delivery([], []);
        deliveries := deliveries[owner := if event.None? then delivery
                                          else delivery.(taken := delivery.taken + [event.value])];
        events := events[owner := queue];
      }
    }

    // ---- Input -----------------------------------------------------------------------------

    method CapturePointer(id: Id, position: Point) returns (r: Result<(), Refusal>)
      requires Valid()
      modifies this`capture
      ensures Valid() && (St(), r) == OverlayModel.CapturePointer(old(St()), id, position)
    {
      hide Inv; hide EligibleIn;
      CapturePointerSafe(St(), id, position);
      if !EligibleIn(windows, stack, id) || focus != Some(id) {
        return Err(Ineligible);
      }
      EligibleLive(St(), id);
      var cursor := if hover.Some? && hover.value.window == id then hover.value.cursor else None;
      capture := Some(Capture(id, Input, position, windows[id].options.bounds, 0, cursor));
      return Ok(());
    }

    method ReleasePointer(id: Id)
      requires Valid()
      modifies this`capture
      ensures Valid() && St() == OverlayModel.ReleasePointer(old(St()), id)
    {
      hide Inv;
      ReleasePointerSafe(St(), id);
      if capture.Some? && capture.value.window == id {
        capture := None;
      }
    }

    method Keyboard(event: Event, escape: bool) returns (consumed: bool)
      requires Valid()
      modifies this
      ensures Valid() && (St(), consumed) == OverlayModel.Keyboard(old(St()), event, escape)
    {
      hide Inv; hide EligibleIn; hide LastModal; hide CloseWindow; hide OverlayModel.Emit; hide ValidEvent;
      ghost var was := St();
      KeyboardSafe(was, event, escape);
      if escape && swallowedEscape {
        if event.Key? && !event.down {
          swallowedEscape := false;
        }
        return true;
      }
      if focus.None? || !EligibleIn(windows, stack, focus.value) {
        return LastModal(windows, stack).Some?;
      }
      var id := focus.value;
      EligibleLive(was, id);
      LiveOwnerCounts(was, id);
      if escape && event.Key? && event.down && !event.repeats && !windows[id].options.mode.Floating? {
        swallowedEscape := true;
        CursorIgnored(was, St());
        Close(id, Escape);
        return true;
      }
      Emit(id, event);
      return true;
    }

    method Wheel(position: Point, scroll: Scroll, modifiers: u32, hit: HitTest) returns (consumed: bool)
      requires Valid()
      modifies this
      ensures Valid() && (St(), consumed) == Scrolled(old(St()), position, scroll, modifiers, hit)
    {
      hide Inv; hide TargetIn; hide LastModal; hide OverlayModel.Emit; hide ValidEvent;
      ScrolledSafe(St(), position, scroll, modifiers, hit);
      var target := TargetIn(windows, stack, stack, position, hit);
      if target.None? {
        return LastModal(windows, stack).Some?;
      }
      LiveOwnerCounts(St(), target.value.id);
      Emit(target.value.id,
           Event.Wheel(target.value.local, scroll.dx, scroll.dy, modifiers, scroll.precise, scroll.phase));
      return true;
    }

    method RefreshHover(position: Point, hit: HitTest)
      requires Valid()
      modifies this
      ensures Valid() && St() == OverlayModel.RefreshHover(old(St()), position, hit)
    {
      hide Inv; hide TargetIn; hide OverlayModel.SetHover;
      var target := TargetIn(windows, stack, stack, position, hit);
      if target.Some? {
        SetHover(Some(HoverOf(target.value)));
      } else {
        SetHover(None);
      }
    }

    method Gesture(c: Capture, p: Point, settled: bool)
      requires Valid()
      modifies this
      ensures Valid() && St() == OverlayModel.Gesture(old(St()), c, p, settled)
    {
      hide Inv; hide CloseWindow; hide Move; hide Dragged;
      if c.window !in windows {
        return;
      }
      var w := windows[c.window];
      var bounds := Dragged(c, w.options, p);
      if bounds.None? {
        return;
      }
      if w.revision == U64_MAX {
        Close(c.window, Closed);
        return;
      }
      DraggedValid(c, w.options, p);
      MoveWindow(c.window, w.revision + 1, bounds.value, settled);
    }

    method Pointer(report: PointerReport, hit: HitTest) returns (consumed: bool)
      requires Valid()
      modifies this
      ensures Valid() && (St(), consumed) == PointerInput(old(St()), report, hit)
    {
      hide Inv; hide CapturedInput; hide CloseWindow; hide MissedInput; hide TargetInput; hide OverlayModel.SetHover;
      hide LastPopup; hide TargetIn;
      ghost var was := St();
      PointerInputSafe(was, report, hit);
      if report.button.Some? && report.button.value.id in swallowedButtons {
        if !report.button.value.down {
          swallowedButtons := swallowedButtons - {report.button.value.id};
        }
        return true;
      }
      if capture.Some? {
        consumed := PointerCaptured(capture.value, report, hit);
        return;
      }
      var popup := LastPopup(windows, stack, stack);
      if popup.Some? && Pressed(report) && !Contains(windows[popup.value].options.bounds, report.position) {
        swallowedButtons := swallowedButtons + {report.button.value.id};
        CursorIgnored(was, St());
        Close(popup.value, OutsidePress);
        return true;
      }
      var target := TargetIn(windows, stack, stack, report.position, hit);
      if target.None? {
        SetHover(None);
        consumed := PointerMissed(report);
        return;
      }
      PointerTargeted(target.value, report);
      return true;
    }

    method PointerCaptured(c: Capture, report: PointerReport, hit: HitTest) returns (consumed: bool)
      requires Valid() && capture == Some(c)
      modifies this
      ensures Valid() && (St(), consumed) == CapturedInput(old(St()), c, report, hit)
    {
      hide Inv; hide EligibleIn; hide LastModal; hide OverlayModel.Gesture; hide OverlayModel.Emit;
      hide OverlayModel.CancelCapture; hide OverlayModel.RefreshHover; hide ValidEvent;
      ghost var was := St();
      CapturedInputSafe(was, c, report, hit);
      if !EligibleIn(windows, stack, c.window) {
        CancelCapture(c.window);
        return LastModal(windows, stack).Some?;
      }
      EligibleLive(was, c.window);
      LiveOwnerCounts(was, c.window);
      if Draggable(c.role) {
        Gesture(c, report.position, Released(report));
      } else {
        var local := Local(windows[c.window].options.bounds, report.position);
        if local.Some? {
          Emit(c.window, PointerEvent(report, local.value, c.region));
        }
      }
      if Released(report) {
        ghost var routed := St();
        capture := None;
        Loosened(routed, St());
        RefreshHover(report.position, hit);
      }
      return true;
    }

    method PointerMissed(report: PointerReport) returns (consumed: bool)
      requires Valid()
      modifies this
      ensures Valid() && (St(), consumed) == MissedInput(old(St()), report)
    {
      hide Inv; hide OverlayModel.ChangeFocus; hide LastModal;
      MissedInputSafe(St(), report);
      consumed := LastModal(windows, stack).Some?;
      if !consumed && Pressed(report) {
        ChangeFocus(None);
        focusHistory := [];
      }
    }

    method PointerTargeted(t: Target, report: PointerReport)
      requires Valid() && t.id in windows
      modifies this
      ensures Valid() && St() == TargetInput(old(St()), t, report)
    {
      hide Inv; hide OverlayModel.RequestFocus; hide OverlayModel.SetHover; hide OverlayModel.Emit; hide Owners;
      hide ValidEvent;
      ghost var was := St();
      TargetInputSafe(was, t, report);
      LiveOwnerCounts(was, t.id);
      if Pressed(report) {
        PressOnSafe(was, t, report.position);
        var _ := RequestFocus(t.id);
        if Draggable(t.region.role) && t.id in windows {
          capture := Some(Capture(t.id, t.region.role, report.position, windows[t.id].options.bounds,
                                  t.region.id, t.region.cursor));
        }
        assert St() == PressOn(was, t, report.position);
      }
      SetHoverSafe(St(), Some(HoverOf(t)));
      SetHoverOwners(St(), Some(HoverOf(t)));
      SetHover(Some(HoverOf(t)));
      Emit(t.id, PointerEvent(report, t.local, t.region.id));
    }
  }

  lemma {:induction false} DraggedValid(c: Capture, options: WindowOptions, p: Point)
    ensures Dragged(c, options, p).Some? ==> ValidRect(Dragged(c, options, p).value)
  {
    hide Edge;
  }

  lemma {:induction false} SetHoverOwners(s: State, next: Option<Hovering>)
    requires Inv(s)
    ensures Owners(SetHover(s, next)) == Owners(s)
  {
    hide Inv; hide SetHover;
    SetHoverSafe(s, next);
  }
}
