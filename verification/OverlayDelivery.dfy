/**
 Delivery told over the events a run actually returned. A queue lives from the creation that opens it
 to the take that drains it or the revocation that discards it, and in every life that is not cut
 short the host is handed all that was sent, thinned only by coalescing.
 */
module OverlayDelivery {
  import opened Wrappers
  import opened Words
  import opened Scalars
  import opened OverlayTypes
  import opened OverlayModel
  import opened OverlayInvariant
  import opened OverlayRevocation
  import opened OverlayRuns

  // ---- Calls that hand out nothing ---------------------------------------------------------

  function Taken(s: State, owner: Owner): seq<WindowEvent> {
    if owner in s.deliveries then s.deliveries[owner].taken else []
  }

  /** Nothing is opened or handed out, no report is withdrawn, and every queue that goes is reported. */
  ghost predicate Quiet(s: State, r: State) {
    r.events.Keys <= s.events.Keys && s.overflowed + (s.events.Keys - r.events.Keys) <= r.overflowed &&
    forall owner :: owner in r.events ==> Taken(r, owner) == Taken(s, owner)
  }

  lemma {:induction false} EmitQuiet(s: State, id: Id, event: Event)
    ensures Quiet(s, Emit(s, id, event))
    decreases s.events.Keys, if ValidEvent(event) then 0 else 5, 0
  {
    hide Overflow; hide Overfull; hide ValidEvent; hide Base;
    if !ValidEvent(event) || (id in s.windows && id.owner in s.events
                              && Overfull(s.events[id.owner], Stamp(s.windows[id], id, event))) {
      OverflowQuiet(s, id.owner);
    }
  }

  lemma {:induction false} OverflowQuiet(s: State, owner: Owner)
    ensures Quiet(s, Overflow(s, owner))
    decreases s.events.Keys - {owner}, 4
  {
    hide Revoke;
    RevokeQuiet(s, owner);
  }

  lemma {:induction false} RevokeQuiet(s: State, owner: Owner)
    ensures Quiet(DropOwner(s, owner), Revoke(s, owner))
    decreases s.events.Keys - {owner}, 3
  {
    hide Restore;
    if s.focus.Some? && s.focus.value.owner == owner {
      RestoreQuiet(DropOwner(s, owner).(focus := None));
    }
  }

  lemma {:induction false} RestoreQuiet(s: State)
    ensures Quiet(s, Restore(s))
    decreases s.events.Keys, 2
  {
    hide ChangeFocus;
    ChangeFocusQuiet(s, FocusCandidate(s));
  }

  lemma {:induction false} ChangeFocusQuiet(s: State, next: Option<Id>)
    ensures Quiet(s, ChangeFocus(s, next))
    decreases s.events.Keys, 1
  {
    hide LeaveFocus; hide Emit;
    if s.focus != next {
      var left := LeaveFocus(s);
      LeaveFocusQuiet(s);
      if next.Some? {
        EmitQuiet(left.(focus := next), next.value, Focus(true));
      }
    }
  }

  lemma {:induction false} LeaveFocusQuiet(s: State)
    ensures Quiet(s, LeaveFocus(s))
    decreases s.events.Keys, 0, 1
  {
    hide Emit;
    if s.focus.Some? {
      var released := s.(focus := None);
      EmitQuiet(released, s.focus.value, Cancel);
      EmitQuiet(Emit(released, s.focus.value, Cancel), s.focus.value, Focus(false));
    }
  }

  lemma {:induction false} CancelCaptureQuiet(s: State, id: Id)
    ensures Quiet(s, CancelCapture(s, id))
  {
    hide Emit;
    EmitQuiet(s.(capture := None), id, Cancel);
  }

  lemma {:induction false} CancelCapturesQuiet(s: State, ids: seq<Id>)
    ensures Quiet(s, CancelCaptures(s, ids))
    decreases |ids|
  {
    hide CancelCapture;
    if ids != [] {
      CancelCaptureQuiet(s, ids[0]);
      CancelCapturesQuiet(CancelCapture(s, ids[0]), ids[1..]);
    }
  }

  lemma {:induction false} SetHoverQuiet(s: State, next: Option<Hovering>)
    ensures Quiet(s, SetHover(s, next))
  {
    hide Emit;
    if s.hover.Some? {
      EmitQuiet(s, s.hover.value.window, Hover(s.hover.value.region, false));
    }
    if next.Some? {
      var left := if s.hover.None? then s else Emit(s, s.hover.value.window, Hover(s.hover.value.region, false));
      EmitQuiet(left.(hover := next), next.value.window, Hover(next.value.region, true));
    }
  }

  lemma {:induction false} RequestFocusQuiet(s: State, id: Id)
    ensures Quiet(s, RequestFocus(s, id).0)
  {
    hide Eligible; hide ChangeFocus; hide Subtree; hide OutsideSubtree; hide Without;
    ChangeFocusQuiet(RaiseGroup(s, id).(focusHistory := Without(s.focusHistory, id) + [id]), Some(id));
  }

  // ---- Removal and update ------------------------------------------------------------------

  lemma {:induction false} RemoveOneQuiet(s: State, id: Id, reason: DismissReason)
    ensures Quiet(s, RemoveOne(s, id, reason))
  {
    hide Emit; hide CancelCapture; hide SetHover; hide ChangeFocus; hide Without;
    var uncaptured := CancelCapture(s, id);
    CancelCaptureQuiet(s, id);
    SetHoverQuiet(uncaptured, None);
    var unhovered := if uncaptured.hover.Some? && uncaptured.hover.value.window == id
                     then SetHover(uncaptured, None) else uncaptured;
    ChangeFocusQuiet(unhovered, None);
    var unfocused := if unhovered.focus == Some(id) then ChangeFocus(unhovered, None) else unhovered;
    EmitQuiet(unfocused, id, Dismissed(reason));
  }

  lemma {:induction false} RemoveAllQuiet(s: State, ids: seq<Id>)
    ensures Quiet(s, RemoveAll(s, ids))
    decreases |ids|
  {
    hide RemoveOne;
    if ids != [] {
      var one := RemoveOne(s, ids[|ids| - 1], ParentClosed);
      RemoveOneQuiet(s, ids[|ids| - 1], ParentClosed);
      RemoveAllQuiet(one, ids[..|ids| - 1]);
    }
  }

  lemma {:induction false} CloseQuiet(s: State, id: Id, reason: DismissReason)
    ensures Quiet(s, CloseWindow(s, id, reason))
  {
    hide RemoveAll; hide RemoveOne; hide Restore; hide Subtree; hide Without;
    var children := Without(Subtree(s.windows, s.stack, id), id);
    RemoveAllQuiet(s, children);
    RemoveOneQuiet(RemoveAll(s, children), id, reason);
    RestoreQuiet(RemoveOne(RemoveAll(s, children), id, reason));
  }

  lemma {:induction false} HideQuiet(s: State, id: Id)
    ensures Quiet(s, Hide(s, id))
  {
    hide CancelCaptures; hide ChangeFocus; hide Restore; hide Subtree; hide Descends;
    var released := CancelCaptures(s, Subtree(s.windows, s.stack, id));
    CancelCapturesQuiet(s, Subtree(s.windows, s.stack, id));
    ChangeFocusQuiet(released, None);
    RestoreQuiet(ChangeFocus(released, None));
  }

  lemma {:induction false} UpdateQuiet(s: State, id: Id, generation: u64, revision: u64, options: WindowOptions)
    ensures Quiet(s, Update(s, id, generation, revision, options).0)
  {
    hide Hide; hide RequestFocus; hide LastModal; hide Descends; hide ValidOptions;
    if UpdateRefusal(s, id, generation, revision, options).None? {
      var written := s.(windows := s.windows[id := s.windows[id].(options := options, revision := revision + 1)]);
      HideQuiet(written, id);
      RequestFocusQuiet(written, id);
      RequestFocusQuiet(Hide(written, id), id);
    }
  }

  lemma {:induction false} MoveQuiet(s: State, id: Id, revision: u64, bounds: Rect, settled: bool)
    requires id in s.windows
    ensures Quiet(s, Move(s, id, revision, bounds, settled))
  {
    hide Emit;
    var moved := s.windows[id].(revision := revision, options := s.windows[id].options.(bounds := bounds));
    EmitQuiet(s.(windows := s.windows[id := moved]), id, Geometry(bounds, settled));
  }

  lemma {:induction false} ApplyActionQuiet(s: State, owner: Owner, action: Action, viewport: Viewport)
    ensures Quiet(s, ApplyAction(s, owner, action, viewport).0)
  {
    hide CloseWindow; hide ActOn; hide Move;
    var id := Id(owner, action.contextId, action.surfaceId);
    CloseQuiet(s, id, Closed);
    if id in s.windows && s.windows[id].revision < U64_MAX {
      ActOnQuiet(s, id, action.action, viewport);
      var (acted, bounds) := ActOn(s, id, action.action, viewport);
      if bounds.Ok? && bounds.value.Some? && id in acted.windows {
        MoveQuiet(acted, id, s.windows[id].revision + 1, bounds.value.value, true);
      }
    }
  }

  lemma {:induction false} ActOnQuiet(s: State, id: Id, action: WindowAction, viewport: Viewport)
    requires id in s.windows
    ensures Quiet(s, ActOn(s, id, action, viewport).0)
  {
    hide RequestFocus; hide Eligible; hide RaiseGroup; hide LowerGroup; hide LastModal;
    RequestFocusQuiet(s, id);
    assert Quiet(s, RaiseGroup(s, id)) && Quiet(s, LowerGroup(s, id)) by {
      StackingQuiet(s, id);
    }
  }

  lemma {:induction false} StackingQuiet(s: State, id: Id)
    ensures Quiet(s, RaiseGroup(s, id)) && Quiet(s, LowerGroup(s, id))
  {
    hide Subtree; hide OutsideSubtree;
  }

  lemma {:induction false} SetPaneFocusQuiet(s: State, focused: bool)
    ensures Quiet(s, SetPaneFocus(s, focused))
  {
    hide Restore; hide Emit; hide ChangeFocus;
    RestoreQuiet(s);
    var free := s.(capture := None);
    if s.capture.Some? {
      EmitQuiet(free, s.capture.value.window, Cancel);
    }
    ChangeFocusQuiet(if s.capture.None? then s else Emit(free, s.capture.value.window, Cancel), None);
  }

  // ---- Input -------------------------------------------------------------------------------

  lemma {:induction false} KeyboardQuiet(s: State, event: Event, escape: bool)
    ensures Quiet(s, Keyboard(s, event, escape).0)
  {
    hide CloseWindow; hide Emit; hide Eligible; hide LastModal;
    if s.focus.Some? {
      CloseQuiet(s.(swallowedEscape := true), s.focus.value, Escape);
      EmitQuiet(s, s.focus.value, event);
    }
  }

  lemma {:induction false} ScrolledQuiet(s: State, position: Point, scroll: Scroll, modifiers: u32, hit: HitTest)
    ensures Quiet(s, Scrolled(s, position, scroll, modifiers, hit).0)
  {
    hide TargetIn; hide Emit; hide LastModal;
    var target := TargetAt(s, position, hit);
    if target.Some? {
      EmitQuiet(s, target.value.id,
                Wheel(target.value.local, scroll.dx, scroll.dy, modifiers, scroll.precise, scroll.phase));
    }
  }

  lemma {:induction false} RefreshHoverQuiet(s: State, position: Point, hit: HitTest)
    ensures Quiet(s, RefreshHover(s, position, hit))
  {
    hide TargetIn; hide SetHover;
    var target := TargetAt(s, position, hit);
    SetHoverQuiet(s, if target.None? then None else Some(HoverOf(target.value)));
  }

  lemma {:induction false} GestureQuiet(s: State, c: Capture, p: Point, settled: bool)
    ensures Quiet(s, Gesture(s, c, p, settled))
  {
    hide CloseWindow; hide Move; hide Dragged;
    CloseQuiet(s, c.window, Closed);
    if c.window in s.windows {
      var w := s.windows[c.window];
      var bounds := Dragged(c, w.options, p);
      if bounds.Some? && w.revision < U64_MAX {
        MoveQuiet(s, c.window, w.revision + 1, bounds.value, settled);
      }
    }
  }

  lemma {:induction false} CapturedInputQuiet(s: State, c: Capture, report: PointerReport, hit: HitTest)
    requires s.capture == Some(c)
    ensures Quiet(s, CapturedInput(s, c, report, hit).0)
  {
    hide CancelCapture; hide Gesture; hide Emit; hide RefreshHover; hide Eligible; hide LastModal;
    CancelCaptureQuiet(s, c.window);
    if Eligible(s, c.window) {
      EligibleLive(s, c.window);
      GestureQuiet(s, c, report.position, Released(report));
      var local := Local(s.windows[c.window].options.bounds, report.position);
      if local.Some? {
        EmitQuiet(s, c.window, PointerEvent(report, local.value, c.region));
      }
      RefreshHoverQuiet(RouteCaptured(s, c, report).(capture := None), report.position, hit);
    }
  }

  lemma {:induction false} TargetInputQuiet(s: State, t: Target, report: PointerReport)
    ensures Quiet(s, TargetInput(s, t, report))
  {
    hide RequestFocus; hide SetHover; hide Emit;
    RequestFocusQuiet(s, t.id);
    var pressed := if Pressed(report) then PressOn(s, t, report.position) else s;
    SetHoverQuiet(pressed, Some(HoverOf(t)));
    EmitQuiet(SetHover(pressed, Some(HoverOf(t))), t.id, PointerEvent(report, t.local, t.region.id));
  }

  lemma {:induction false} PointerInputQuiet(s: State, report: PointerReport, hit: HitTest)
    ensures Quiet(s, PointerInput(s, report, hit).0)
  {
    hide CapturedInput; hide CloseWindow; hide ChangeFocus; hide TargetInput; hide SetHover; hide LastPopup;
    hide TargetIn; hide LastModal;
    if s.capture.Some? {
      CapturedInputQuiet(s, s.capture.value, report, hit);
    } else {
      var popup := FrontPopup(s);
      if popup.Some? && Pressed(report) {
        CloseQuiet(s.(swallowedButtons := s.swallowedButtons + {report.button.value.id}), popup.value, OutsidePress);
      }
      var target := TargetAt(s, report.position, hit);
      if target.None? {
        SetHoverQuiet(s, None);
        ChangeFocusQuiet(SetHover(s, None), None);
      } else {
        TargetInputQuiet(s, target.value, report);
      }
    }
  }

  /** Every call but a creation, a public revocation and the two takes. */
  predicate Plain(op: Op) {
    !op.OpCreate? && !op.OpRevokeOwner? && !op.OpTakeOverflow? && !op.OpTakeEvent?
  }

  lemma {:induction false} PlainQuiet(s: State, op: Op)
    requires Plain(op)
    ensures Quiet(s, Step(s, op))
  {
    hide Update; hide ApplyAction; hide RequestFocus; hide SetPaneFocus; hide CloseWindow; hide Eligible;
    hide Keyboard; hide Scrolled; hide PointerInput; hide RefreshHover;
    match op {
      case OpUpdate(id, generation, revision, options) => UpdateQuiet(s, id, generation, revision, options);
      case OpApplyAction(owner, action, viewport) => ApplyActionQuiet(s, owner, action, viewport);
      case OpRequestFocus(id) => RequestFocusQuiet(s, id);
      case OpSetPaneFocus(focused) => SetPaneFocusQuiet(s, focused);
      case OpClose(id, reason) => CloseQuiet(s, id, reason);
      case OpKeyboard(event, escape) => KeyboardQuiet(s, event, escape);
      case OpWheel(position, scroll, modifiers, hit) => ScrolledQuiet(s, position, scroll, modifiers, hit);
      case OpPointer(report, hit) => PointerInputQuiet(s, report, hit);
      case OpRefreshHover(position, hit) => RefreshHoverQuiet(s, position, hit);
      case _ =>
    }
  }

  // ---- Lives of a queue --------------------------------------------------------------------

  predicate Takes(op: Op, owner: Owner) {
    op.OpTakeEvent? && op.owner == owner
  }

  predicate Revokes(op: Op, owner: Owner) {
    op.OpRevokeOwner? && op.owner == owner
  }

  /** A queue is opened with nothing taken from it, and only a take of its own moves what is taken. */
  lemma {:induction false} StepTaken(s: State, op: Op, owner: Owner)
    requires owner in Step(s, op).events
    ensures var event := TakeEvent(s, owner).1;
            Taken(Step(s, op), owner)
            == if owner !in s.events then []
               else if Takes(op, owner) && event.Some? then Taken(s, owner) + [event.value]
               else Taken(s, owner)
  {
    hide Create; hide Revoke; hide TakeEvent; hide Quiet;
    hide Update; hide ApplyAction; hide RequestFocus; hide SetPaneFocus; hide CloseWindow; hide Keyboard;
    hide Scrolled; hide PointerInput; hide RefreshHover; hide PublishScene; hide CapturePointer; hide ReleasePointer;
    match op {
      case OpCreate(id, generation, options) => CreateTaken(s, id, generation, options, owner);
      case OpRevokeOwner(o) => RevokeTaken(s, o, owner);
      case OpTakeEvent(o) => TakeTaken(s, o, owner);
      case OpTakeOverflow(_) =>
      case _ =>
        hide Step;
        PlainTaken(s, op, owner);
    }
  }

  lemma {:induction false} PlainTaken(s: State, op: Op, owner: Owner)
    requires Plain(op) && owner in Step(s, op).events
    ensures owner in s.events && Taken(Step(s, op), owner) == Taken(s, owner)
  {
    hide Step;
    PlainQuiet(s, op);
  }

  lemma {:induction false} RevokeTaken(s: State, gone: Owner, owner: Owner)
    requires owner in Revoke(s, gone).events
    ensures owner in s.events && Taken(Revoke(s, gone), owner) == Taken(s, owner)
  {
    hide Revoke;
    RevokeQuiet(s, gone);
  }

  lemma {:induction false} TakeTaken(s: State, taker: Owner, owner: Owner)
    requires owner in TakeEvent(s, taker).0.events
    ensures var (r, event) := TakeEvent(s, taker);
            owner in s.events &&
            Taken(r, owner) == if taker == owner && event.Some? then Taken(s, owner) + [event.value] else Taken(s, owner)
  {
    hide OwnedWindows;
  }

  lemma {:induction false} CreateTaken(s: State, id: Id, generation: u64, options: WindowOptions, owner: Owner)
    ensures var r := Create(s, id, generation, options).0;
            (owner in r.events ==> Taken(r, owner) == if owner in s.events then Taken(s, owner) else []) &&
            (owner in s.events && owner !in r.events ==> owner in r.overflowed)
  {
    hide CreateRefusal; hide RequestFocus;
    RequestFocusQuiet(Insert(s, id, generation, options), id);
  }

  /** A queue goes only when its owner drains it, is revoked, or is reported as overflowed. */
  lemma {:induction false} StepEnds(s: State, op: Op, owner: Owner)
    requires owner in s.events && owner !in Step(s, op).events
    ensures Takes(op, owner) || Revokes(op, owner) || owner in Step(s, op).overflowed
  {
    hide Create; hide Revoke; hide TakeEvent; hide Quiet; hide Taken;
    hide Update; hide ApplyAction; hide RequestFocus; hide SetPaneFocus; hide CloseWindow; hide Keyboard;
    hide Scrolled; hide PointerInput; hide RefreshHover; hide PublishScene; hide CapturePointer; hide ReleasePointer;
    match op {
      case OpCreate(id, generation, options) => CreateTaken(s, id, generation, options, owner);
      case OpRevokeOwner(o) =>
        if o != owner {
          RevokeEnds(s, o, owner);
        }
      case OpTakeEvent(o) => TakeEnds(s, o, owner);
      case OpTakeOverflow(_) =>
      case _ =>
        hide Step;
        PlainEnds(s, op, owner);
    }
  }

  lemma {:induction false} PlainEnds(s: State, op: Op, owner: Owner)
    requires Plain(op) && owner in s.events && owner !in Step(s, op).events
    ensures owner in Step(s, op).overflowed
  {
    hide Step;
    PlainQuiet(s, op);
  }

  lemma {:induction false} RevokeEnds(s: State, gone: Owner, owner: Owner)
    requires owner in s.events && owner !in Revoke(s, gone).events && owner != gone
    ensures owner in Revoke(s, gone).overflowed
  {
    hide Revoke;
    RevokeQuiet(s, gone);
  }

  lemma {:induction false} TakeEnds(s: State, taker: Owner, owner: Owner)
    requires owner in s.events && owner !in TakeEvent(s, taker).0.events
    ensures owner == taker
  {
    hide OwnedWindows;
  }

  /** What the calls of a run returned to the host from the latest life of the owner's queue. */
  function Returned(ops: seq<Op>, owner: Owner): seq<WindowEvent> {
    if ops == [] then []
    else
      var front, op := ops[..|ops| - 1], ops[|ops| - 1];
      var s := Run(INITIAL, front);
      var event := TakeEvent(s, owner).1;
      if owner !in s.events && owner in Step(s, op).events then []
      else if Takes(op, owner) && event.Some? then Returned(front, owner) + [event.value]
      else Returned(front, owner)
  }

  /** What the latest life of the owner's queue accepted. */
  function Sent(ops: seq<Op>, owner: Owner): seq<WindowEvent> {
    var s := Run(INITIAL, ops);
    if owner in s.deliveries then s.deliveries[owner].emitted
    else if ops == [] then []
    else Sent(ops[..|ops| - 1], owner)
  }

  function Pending(s: State, owner: Owner): seq<WindowEvent> {
    if owner in s.events then s.events[owner] else []
  }

  /** The latest life was cut short: by a call that revoked the owner, or by an overflow it was reported for. */
  predicate CutShort(ops: seq<Op>, owner: Owner) {
    ops != [] &&
    var front, op := ops[..|ops| - 1], ops[|ops| - 1];
    var s := Run(INITIAL, front);
    var r := Step(s, op);
    owner !in r.events &&
    if owner in s.events then Revokes(op, owner) || owner in r.overflowed else CutShort(front, owner)
  }

  lemma {:induction false} ReturnedIsTaken(ops: seq<Op>, owner: Owner)
    requires owner in Run(INITIAL, ops).events
    ensures Returned(ops, owner) == Taken(Run(INITIAL, ops), owner)
    decreases |ops|
  {
    hide Step; hide TakeEvent;
    var front := ops[..|ops| - 1];
    StepTaken(Run(INITIAL, front), ops[|ops| - 1], owner);
    if owner in Run(INITIAL, front).events {
      ReturnedIsTaken(front, owner);
    }
  }

  lemma {:induction false} OpenServed(ops: seq<Op>, owner: Owner)
    ensures var s := Run(INITIAL, ops);
            (owner in s.deliveries <==> owner in s.events) &&
            (owner in s.events ==> Thinned(s.deliveries[owner].emitted, s.deliveries[owner].taken + s.events[owner]))
  {
    hide Run; hide Forest; hide Bounded; hide References; hide Thinned; hide QueueFine;
    RunSafe(ops);
  }

  /** The take that closes a queue hands out the last event there was. */
  lemma {:induction false} LastTaken(s: State, owner: Owner)
    requires owner in s.events && owner !in TakeEvent(s, owner).0.events
    ensures var event := TakeEvent(s, owner).1;
            s.events[owner] == if event.Some? then [event.value] else []
  {
    hide OwnedWindows;
  }

  lemma {:induction false} LifeThinned(ops: seq<Op>, owner: Owner)
    requires !CutShort(ops, owner)
    ensures Thinned(Sent(ops, owner), Returned(ops, owner) + Pending(Run(INITIAL, ops), owner))
    decreases |ops|
  {
    hide Step; hide Thinned;
    OpenServed(ops, owner);
    if owner in Run(INITIAL, ops).events {
      ReturnedIsTaken(ops, owner);
    } else if ops == [] {
      NothingThinned();
    } else {
      var front, op := ops[..|ops| - 1], ops[|ops| - 1];
      var s := Run(INITIAL, front);
      if owner in s.events {
        StepEnds(s, op, owner);
        assert ops == front + [op];
        ClosingTake(front, op, owner);
        OpenServed(front, owner);
        assert Returned(ops, owner) + [] == Returned(ops, owner);
      } else {
        LifeThinned(front, owner);
      }
    }
  }

  lemma {:induction false} ClosingTake(front: seq<Op>, op: Op, owner: Owner)
    requires Takes(op, owner)
    requires owner in Run(INITIAL, front).events && owner !in Run(INITIAL, front + [op]).events
    ensures var s := Run(INITIAL, front);
            owner in s.deliveries && Sent(front + [op], owner) == s.deliveries[owner].emitted &&
            Returned(front + [op], owner) == s.deliveries[owner].taken + s.events[owner]
  {
    hide Step; hide TakeEvent;
    var s := Run(INITIAL, front);
    var ops := front + [op];
    assert ops[..|ops| - 1] == front;
    OpenServed(front, owner);
    OpenServed(ops, owner);
    ReturnedIsTaken(front, owner);
    TakeStep(s, op, owner);
    LastTaken(s, owner);
  }

  lemma {:induction false} NothingThinned()
    ensures Thinned([], [])
  {
  }

  lemma {:induction false} TakeStep(s: State, op: Op, owner: Owner)
    requires Takes(op, owner)
    ensures Step(s, op) == TakeEvent(s, owner).0
  {
  }

  /**
   In every run, for every owner whose queue was not cut short: the events returned to the host and the
   events still waiting are those its queue accepted, thinned only by coalescing. So every key, button,
   focus, text, dismissal and settled geometry was returned or waits, once and in order; after the take
   that drains and closes the queue, every one of them was returned.
   */
  lemma {:induction false} LifeDelivered(ops: seq<Op>, owner: Owner)
    requires !CutShort(ops, owner)
    ensures var out := Returned(ops, owner) + Pending(Run(INITIAL, ops), owner);
            Thinned(Sent(ops, owner), out) && Durable(out) == Durable(Sent(ops, owner))
  {
    hide Run; hide Thinned; hide Returned; hide Sent; hide CutShort;
    LifeThinned(ops, owner);
    ThinnedKeepsDurable(Sent(ops, owner), Returned(ops, owner) + Pending(Run(INITIAL, ops), owner));
  }
}
