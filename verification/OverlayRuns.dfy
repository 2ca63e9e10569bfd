/** Lifecycle and input operations, whole runs of them, and what holds in every reachable state. */
module OverlayRuns {
  import opened Wrappers
  import opened Words
  import opened Scalars
  import opened OverlayTypes
  import opened OverlayModel
  import opened OverlayInvariant
  import opened OverlayRevocation
  import opened OverlaySafety

  // ---- Creation ----------------------------------------------------------------------------

  lemma {:induction false} InsertForest(s: State, id: Id, generation: u64, options: WindowOptions)
    requires Forest(s) && CreateRefusal(s, id, generation, options).None?
    ensures Forest(Insert(s, id, generation, options))
  {
    hide LastModal; hide Descends;
    var r := Insert(s, id, generation, options);
    OrderedSameParents(s.windows, r.windows, {}, s.stack);
    assert r.stack[..|r.stack| - 1] == s.stack;
  }

  lemma {:induction false} InsertBounded(s: State, id: Id, generation: u64, options: WindowOptions)
    requires Bounded(s) && CreateRefusal(s, id, generation, options).None?
    ensures Bounded(Insert(s, id, generation, options))
  {
    hide CreateRefusal; hide ValidRect;
    var r := Insert(s, id, generation, options);
    Admitted(s, id, generation, options);
    assert r.windows.Keys == s.windows.Keys + {id};
    forall owner ensures |OwnedWindows(r.windows, owner)| <= MAX_WINDOWS_PER_OWNER {
      OwnedAfterInsert(s.windows, id, r.windows[id], owner);
    }
  }

  lemma {:induction false} Admitted(s: State, id: Id, generation: u64, options: WindowOptions)
    requires CreateRefusal(s, id, generation, options).None?
    ensures generation != 0 && id.contextId != 0 && id.surfaceId != 0 && ValidRect(options.bounds)
    ensures |s.windows| < MAX_WINDOWS && |OwnedWindows(s.windows, id.owner)| < MAX_WINDOWS_PER_OWNER
    ensures id !in s.windows
  {
    hide LastModal; hide Descends;
  }

  lemma {:induction false} OwnedAfterInsert(windows: map<Id, Window>, id: Id, w: Window, owner: Owner)
    requires id !in windows
    ensures |OwnedWindows(windows[id := w], owner)|
         == |OwnedWindows(windows, owner)| + if owner == id.owner then 1 else 0
  {
    if owner == id.owner {
      assert OwnedWindows(windows[id := w], owner) == OwnedWindows(windows, owner) + {id};
    } else {
      assert OwnedWindows(windows[id := w], owner) == OwnedWindows(windows, owner);
    }
  }

  lemma {:induction false} InsertCounted(s: State, id: Id, generation: u64, options: WindowOptions)
    requires Counted(s) && CreateRefusal(s, id, generation, options).None?
    ensures Counted(Insert(s, id, generation, options))
  {
    hide LastModal; hide Descends;
    var r := Insert(s, id, generation, options);
    assert Owners(r) == Owners(s) + {id.owner};
    if id.owner !in s.events {
      assert |s.events| == |s.events.Keys|;
    } else {
      assert Owners(r) == Owners(s);
    }
  }

  lemma {:induction false} InsertSafe(s: State, id: Id, generation: u64, options: WindowOptions)
    requires Inv(s) && CreateRefusal(s, id, generation, options).None?
    ensures Inv(Insert(s, id, generation, options))
  {
    hide Forest; hide Bounded; hide CreateRefusal; hide Distinct; hide Counted; hide QueueFine;
    var r := Insert(s, id, generation, options);
    InsertForest(s, id, generation, options);
    InsertBounded(s, id, generation, options);
    InsertCounted(s, id, generation, options);
    forall owner | owner in r.events ensures OwnerServed(r, owner) {
      if owner in s.events {
        assert OwnerServed(s, owner);
      } else {
        EmptyQueueServed(owner);
      }
    }
  }

  lemma {:induction false} EmptyQueueServed(owner: Owner)
    ensures QueueFine(owner, []) && Thinned([], [])
  {
  }

  lemma {:induction false} CreateSafe(s: State, id: Id, generation: u64, options: WindowOptions)
    requires Inv(s)
    ensures Inv(Create(s, id, generation, options).0)
  {
    hide Inv; hide CreateRefusal; hide Insert; hide RequestFocus;
    if CreateRefusal(s, id, generation, options).None? {
      InsertSafe(s, id, generation, options);
      RequestFocusSafe(Insert(s, id, generation, options), id);
    }
  }

  // ---- Changes to one window record --------------------------------------------------------

  lemma {:induction false} WindowWritten(s: State, id: Id, w: Window)
    requires Inv(s) && id in s.windows && w.options.parent == s.windows[id].options.parent && ValidWindow(id, w)
    ensures Inv(s.(windows := s.windows[id := w]))
  {
    hide AllServed; hide Distinct; hide ValidWindow; hide Ordered;
    var r := s.(windows := s.windows[id := w]);
    OrderedSameParents(s.windows, r.windows, {}, s.stack);
    assert r.windows.Keys == s.windows.Keys;
    forall owner ensures OwnedWindows(r.windows, owner) == OwnedWindows(s.windows, owner) {
    }
    SameQueues(s, r);
  }

  lemma {:induction false} WindowValid(s: State, id: Id)
    requires Inv(s) && id in s.windows
    ensures ValidWindow(id, s.windows[id])
  {
  }

  lemma {:induction false} PublishSceneSafe(s: State, id: Id, generation: u64, sceneRevision: u64)
    requires Inv(s)
    ensures Inv(PublishScene(s, id, generation, sceneRevision).0)
  {
    hide Inv;
    if id in s.windows {
      WindowValid(s, id);
      WindowWritten(s, id, s.windows[id].(sceneRevision := sceneRevision));
    }
  }

  lemma {:induction false} MoveSafe(s: State, id: Id, revision: u64, bounds: Rect, settled: bool)
    requires Inv(s) && id in s.windows && revision != 0 && ValidRect(bounds)
    ensures Inv(Move(s, id, revision, bounds, settled))
  {
    hide Inv; hide Emit;
    WindowValid(s, id);
    var w := s.windows[id].(revision := revision, options := s.windows[id].options.(bounds := bounds));
    WindowWritten(s, id, w);
    EmitIsSafe(s.(windows := s.windows[id := w]), id, Geometry(bounds, settled));
  }

  lemma {:induction false} HideSafe(s: State, id: Id)
    requires Inv(s)
    ensures Inv(Hide(s, id))
  {
    hide Inv; hide CancelCaptures; hide ChangeFocus; hide Restore; hide Descends;
    var released := CancelCaptures(s, Subtree(s.windows, s.stack, id));
    CancelCapturesSafe(s, Subtree(s.windows, s.stack, id));
    ChangeFocusIsSafe(released, None);
    RestoreIsSafe(ChangeFocus(released, None));
  }

  lemma {:induction false} UpdateSafe(s: State, id: Id, generation: u64, revision: u64, options: WindowOptions)
    requires Inv(s)
    ensures Inv(Update(s, id, generation, revision, options).0)
  {
    hide Inv; hide Hide; hide RequestFocus; hide LastModal; hide Descends;
    if UpdateRefusal(s, id, generation, revision, options).None? {
      WindowValid(s, id);
      var w := s.windows[id].(options := options, revision := revision + 1);
      var written := s.(windows := s.windows[id := w]);
      WindowWritten(s, id, w);
      HideSafe(written, id);
      RequestFocusSafe(written, id);
      RequestFocusSafe(Hide(written, id), id);
    }
  }

  lemma {:induction false} ActOnSafe(s: State, id: Id, action: WindowAction, viewport: Viewport)
    requires Inv(s) && id in s.windows
    ensures var (r, bounds) := ActOn(s, id, action, viewport);
            Inv(r) && (bounds.Ok? && bounds.value.Some? ==> ValidRect(bounds.value.value))
  {
    hide Inv; hide RequestFocus; hide RaiseGroup; hide LowerGroup; hide Eligible;
    RequestFocusSafe(s, id);
    RaiseGroupSafe(s, id);
    LowerGroupSafe(s, id);
  }

  lemma {:induction false} ApplyActionSafe(s: State, owner: Owner, action: Action, viewport: Viewport)
    requires Inv(s)
    ensures Inv(ApplyAction(s, owner, action, viewport).0)
  {
    hide Inv; hide CloseWindow; hide ActOn; hide Move;
    var id := Id(owner, action.contextId, action.surfaceId);
    CloseSafe(s, id, Closed);
    if id in s.windows {
      ActOnSafe(s, id, action.action, viewport);
      var (acted, bounds) := ActOn(s, id, action.action, viewport);
      if bounds.Ok? && id in acted.windows && s.windows[id].revision < U64_MAX {
        var next := s.windows[id].revision + 1;
        WindowValid(acted, id);
        if bounds.value.Some? {
          MoveSafe(acted, id, next, bounds.value.value, true);
        } else {
          WindowWritten(acted, id, acted.windows[id].(revision := next));
        }
      }
    }
  }

  // ---- Queues and focus --------------------------------------------------------------------

  lemma {:induction false} SetPaneFocusSafe(s: State, focused: bool)
    requires Inv(s)
    ensures Inv(SetPaneFocus(s, focused))
  {
    hide Inv; hide Restore; hide Emit; hide ChangeFocus;
    RestoreIsSafe(s);
    var free := s.(capture := None);
    Loosened(s, free);
    if s.capture.Some? {
      EmitIsSafe(free, s.capture.value.window, Cancel);
    }
    var released := if s.capture.None? then s else Emit(free, s.capture.value.window, Cancel);
    ChangeFocusIsSafe(released, None);
    var left := ChangeFocus(released, None);
    Loosened(left, left.(swallowedButtons := {}, swallowedEscape := false));
  }

  lemma {:induction false} RevokeOwnerSafe(s: State, owner: Owner)
    requires Inv(s)
    ensures Inv(Revoke(s, owner))
  {
    RevokeSafe(s, owner);
  }

  lemma {:induction false} TakeOverflowSafe(s: State, owner: Owner)
    requires Inv(s)
    ensures Inv(TakeOverflow(s, owner).0)
  {
    hide Structure; hide AllServed;
    var r := TakeOverflow(s, owner).0;
    CursorIgnored(s, r);
    ReducedCounted(s, r);
  }

  lemma {:induction false} TailFine(owner: Owner, q: seq<WindowEvent>)
    requires QueueFine(owner, q) && q != []
    ensures QueueFine(owner, q[1..])
  {
    TailBytes(q);
  }

  lemma {:induction false} TailBytes(q: seq<WindowEvent>)
    requires q != []
    ensures QueueBytes(q[1..]) + EventBytes(q[0].event) == QueueBytes(q)
    decreases |q|
  {
    hide EventBytes;
    if |q| > 1 {
      TailBytes(q[..|q| - 1]);
      assert q[1..][..|q| - 2] == q[..|q| - 1][1..];
    }
  }

  lemma {:induction false} CloseQueueSafe(s: State, owner: Owner)
    requires Inv(s) && OwnedWindows(s.windows, owner) == {}
    ensures Inv(s.(events := s.events - {owner}, deliveries := s.deliveries - {owner}))
  {
    hide Forest; hide Bounded; hide References; hide OwnerServed; hide Counted; hide Queued;
    var r := s.(events := s.events - {owner}, deliveries := s.deliveries - {owner});
    ClosedQueued(s, r, owner);
    ReducedCounted(s, r);
    SameForest(s, r);
    forall o | o in r.events ensures OwnerServed(r, o) {
      SameOwnerServed(s, r, o);
    }
  }

  lemma {:induction false} ClosedQueued(s: State, r: State, owner: Owner)
    requires Queued(s) && OwnedWindows(s.windows, owner) == {} && r.windows == s.windows
    requires r.events == s.events - {owner} && r.deliveries == s.deliveries - {owner}
    ensures Queued(r)
  {
    forall id | id in s.windows ensures id.owner in r.events {
      assert id.owner == owner ==> id in OwnedWindows(s.windows, owner);
    }
  }

  lemma {:induction false} SameForest(s: State, r: State)
    requires r.windows == s.windows && r.stack == s.stack && r.focusHistory == s.focusHistory && r.capture == s.capture
    ensures (Forest(s) ==> Forest(r)) && (Bounded(s) ==> Bounded(r)) && (References(s) ==> References(r))
  {
    hide Ordered; hide OwnedWindows; hide ValidWindow; hide Distinct;
  }

  lemma {:induction false} SameOwnerServed(s: State, r: State, owner: Owner)
    requires AllServed(s) && owner in s.events && owner in r.events && r.events[owner] == s.events[owner]
    requires owner in r.deliveries && owner in s.deliveries && r.deliveries[owner] == s.deliveries[owner]
    ensures OwnerServed(r, owner)
  {
    assert OwnerServed(s, owner);
  }

  lemma {:induction false} TakeEventSafe(s: State, owner: Owner)
    requires Inv(s)
    ensures Inv(TakeEvent(s, owner).0)
  {
    hide Forest; hide Bounded; hide References; hide AllServed; hide OwnedWindows;
    if owner in s.events {
      var q := s.events[owner];
      var r := TakeEvent(s, owner).0;
      if (q == [] || q[1..] == []) && OwnedWindows(s.windows, owner) == {} {
        CloseQueueSafe(s, owner);
      } else {
        assert r.events.Keys == s.events.Keys && r.deliveries.Keys == s.deliveries.Keys;
        SameForest(s, r);
        TakenServed(s, owner);
      }
    }
  }

  lemma {:induction false} TakenServed(s: State, owner: Owner)
    requires AllServed(s) && owner in s.events && s.deliveries.Keys == s.events.Keys
    requires TakeEvent(s, owner).0.events.Keys == s.events.Keys
    ensures AllServed(TakeEvent(s, owner).0)
  {
    hide Thinned; hide QueueFine; hide OwnedWindows;
    var r := TakeEvent(s, owner).0;
    forall o | o in r.events ensures OwnerServed(r, o) {
      if o != owner || s.events[owner] == [] {
        SameOwnerServed(s, r, o);
      } else {
        PopServed(s, owner);
      }
    }
  }

  lemma {:induction false} PopServed(s: State, owner: Owner)
    requires AllServed(s) && owner in s.events && s.events[owner] != [] && owner in s.deliveries
    ensures var q, d := s.events[owner], s.deliveries[owner];
            QueueFine(owner, q[1..]) && Thinned(d.emitted, d.taken + [q[0]] + q[1..])
  {
    hide Thinned; hide QueueFine;
    assert OwnerServed(s, owner);
    var q, d := s.events[owner], s.deliveries[owner];
    TailFine(owner, q);
    assert d.taken + [q[0]] + q[1..] == d.taken + q;
  }

  // ---- Input -------------------------------------------------------------------------------

  lemma {:induction false} Captured(s: State, c: Capture)
    requires Inv(s) && c.window in s.windows
    ensures Inv(s.(capture := Some(c)))
    ensures Owners(s.(capture := Some(c))) == Owners(s)
  {
    hide AllServed; hide Forest; hide Bounded; hide Distinct;
    var free := s.(capture := None);
    Loosened(s, free);
    var r := s.(capture := Some(c));
    SameQueues(s, r);
    SameForest(free, r.(capture := None));
    ForestIgnoresCapture(s, r);
  }

  lemma {:induction false} ForestIgnoresCapture(s: State, r: State)
    requires r.windows == s.windows && r.stack == s.stack
    ensures (Forest(s) ==> Forest(r)) && (Bounded(s) ==> Bounded(r))
  {
    hide Ordered; hide OwnedWindows; hide ValidWindow;
  }

  lemma {:induction false} CapturePointerSafe(s: State, id: Id, position: Point)
    requires Inv(s)
    ensures Inv(CapturePointer(s, id, position).0)
  {
    hide Inv; hide Eligible;
    var r := CapturePointer(s, id, position).0;
    if Eligible(s, id) {
      EligibleLive(s, id);
      if r.capture.Some? && r != s {
        Captured(s, r.capture.value);
      }
    }
  }

  lemma {:induction false} ReleasePointerSafe(s: State, id: Id)
    requires Inv(s)
    ensures Inv(ReleasePointer(s, id))
  {
    hide Inv;
    Loosened(s, s.(capture := None));
  }

  lemma {:induction false} LiveOwnerCounts(s: State, id: Id)
    requires Inv(s) && id in s.windows
    ensures id.owner in Owners(s)
  {
    OwnerHasQueue(s, id);
  }

  lemma {:induction false} KeyboardSafe(s: State, event: Event, escape: bool)
    requires Inv(s)
    ensures Inv(Keyboard(s, event, escape).0)
  {
    hide Inv; hide CloseWindow; hide Emit; hide Eligible; hide ValidEvent;
    Loosened(s, s.(swallowedEscape := false));
    var swallowing := s.(swallowedEscape := true);
    Loosened(s, swallowing);
    if s.focus.Some? && Eligible(s, s.focus.value) {
      EligibleLive(s, s.focus.value);
      LiveOwnerCounts(s, s.focus.value);
      CloseSafe(swallowing, s.focus.value, Escape);
      EmitIsSafe(s, s.focus.value, event);
    }
  }

  lemma {:induction false} ScrolledSafe(s: State, position: Point, scroll: Scroll, modifiers: u32, hit: HitTest)
    requires Inv(s)
    ensures Inv(Scrolled(s, position, scroll, modifiers, hit).0)
  {
    hide Inv; hide Emit; hide TargetIn;
    var target := TargetAt(s, position, hit);
    if target.Some? {
      LiveOwnerCounts(s, target.value.id);
      EmitIsSafe(s, target.value.id,
                 Wheel(target.value.local, scroll.dx, scroll.dy, modifiers, scroll.precise, scroll.phase));
    }
  }

  lemma {:induction false} RefreshHoverSafe(s: State, position: Point, hit: HitTest)
    requires Inv(s)
    ensures Inv(RefreshHover(s, position, hit))
  {
    hide Inv; hide SetHover; hide TargetIn;
    var target := TargetAt(s, position, hit);
    SetHoverSafe(s, if target.None? then None else Some(HoverOf(target.value)));
  }

  lemma {:induction false} GestureSafe(s: State, c: Capture, p: Point, settled: bool)
    requires Inv(s)
    ensures Inv(Gesture(s, c, p, settled))
  {
    hide Inv; hide CloseWindow; hide Move;
    CloseSafe(s, c.window, Closed);
    if c.window in s.windows {
      var w := s.windows[c.window];
      var bounds := Dragged(c, w.options, p);
      if bounds.Some? && w.revision < U64_MAX {
        MoveSafe(s, c.window, w.revision + 1, bounds.value, settled);
      }
    }
  }

  lemma {:induction false} CapturedInputSafe(s: State, c: Capture, report: PointerReport, hit: HitTest)
    requires Inv(s) && s.capture == Some(c)
    ensures Inv(CapturedInput(s, c, report, hit).0)
  {
    hide Inv; hide CancelCapture; hide Gesture; hide Emit; hide RefreshHover; hide Eligible; hide ValidEvent;
    CancelCaptureSafe(s, c.window);
    if Eligible(s, c.window) {
      EligibleLive(s, c.window);
      LiveOwnerCounts(s, c.window);
      GestureSafe(s, c, report.position, Released(report));
      var local := Local(s.windows[c.window].options.bounds, report.position);
      if local.Some? {
        EmitIsSafe(s, c.window, PointerEvent(report, local.value, c.region));
      }
      var routed := RouteCaptured(s, c, report);
      assert Inv(routed);
      Loosened(routed, routed.(capture := None));
      RefreshHoverSafe(routed.(capture := None), report.position, hit);
    }
  }

  lemma {:induction false} PressOnSafe(s: State, t: Target, position: Point)
    requires Inv(s)
    ensures Inv(PressOn(s, t, position)) && Owners(PressOn(s, t, position)) == Owners(s)
  {
    hide Inv; hide RequestFocus; hide Owners;
    RequestFocusSafe(s, t.id);
    var focused := RequestFocus(s, t.id).0;
    var r := PressOn(s, t, position);
    if t.id in focused.windows && r != focused {
      Captured(focused, r.capture.value);
    }
  }

  lemma {:induction false} TargetInputSafe(s: State, t: Target, report: PointerReport)
    requires Inv(s) && t.id in s.windows
    ensures Inv(TargetInput(s, t, report))
  {
    hide Inv; hide PressOn; hide SetHover; hide Emit; hide Owners; hide ValidEvent;
    LiveOwnerCounts(s, t.id);
    PressOnSafe(s, t, report.position);
    var pressed := if Pressed(report) then PressOn(s, t, report.position) else s;
    SetHoverSafe(pressed, Some(HoverOf(t)));
    EmitIsSafe(SetHover(pressed, Some(HoverOf(t))), t.id, PointerEvent(report, t.local, t.region.id));
  }

  lemma {:induction false} MissedInputSafe(s: State, report: PointerReport)
    requires Inv(s)
    ensures Inv(MissedInput(s, report).0)
  {
    hide Inv; hide ChangeFocus; hide LastModal;
    ChangeFocusIsSafe(s, None);
    var left := ChangeFocus(s, None);
    Loosened(left, left.(focusHistory := []));
  }

  lemma {:induction false} PointerInputSafe(s: State, report: PointerReport, hit: HitTest)
    requires Inv(s)
    ensures Inv(PointerInput(s, report, hit).0)
  {
    hide Inv; hide CapturedInput; hide CloseWindow; hide MissedInput; hide TargetInput; hide SetHover;
    hide LastPopup; hide TargetIn;
    var r := PointerInput(s, report, hit).0;
    if report.button.Some? && report.button.value.id in s.swallowedButtons {
      Loosened(s, s.(swallowedButtons := s.swallowedButtons - {report.button.value.id}));
    } else if s.capture.Some? {
      CapturedInputSafe(s, s.capture.value, report, hit);
    } else {
      var popup := FrontPopup(s);
      if popup.Some? && Pressed(report) && !Contains(s.windows[popup.value].options.bounds, report.position) {
        var swallowing := s.(swallowedButtons := s.swallowedButtons + {report.button.value.id});
        Loosened(s, swallowing);
        CloseSafe(swallowing, popup.value, OutsidePress);
      } else {
        var target := TargetAt(s, report.position, hit);
        if target.None? {
          SetHoverSafe(s, None);
          MissedInputSafe(SetHover(s, None), report);
        } else {
          TargetInputSafe(s, target.value, report);
        }
      }
    }
  }

  // ---- Runs --------------------------------------------------------------------------------

  /** Every public operation, with any arguments a caller could pass. */
  datatype Op =
    | OpCreate(id: Id, generation: u64, options: WindowOptions)
    | OpPublishScene(id: Id, generation: u64, sceneRevision: u64)
    | OpUpdate(id: Id, generation: u64, revision: u64, options: WindowOptions)
    | OpApplyAction(owner: Owner, action: Action, viewport: Viewport)
    | OpRequestFocus(id: Id)
    | OpSetPaneFocus(focused: bool)
    | OpClose(id: Id, reason: DismissReason)
    | OpRevokeOwner(owner: Owner)
    | OpTakeOverflow(owner: Owner)
    | OpTakeEvent(owner: Owner)
    | OpCapturePointer(id: Id, position: Point)
    | OpReleasePointer(id: Id)
    | OpKeyboard(event: Event, escape: bool)
    | OpWheel(position: Point, scroll: Scroll, modifiers: u32, hit: HitTest)
    | OpPointer(report: PointerReport, hit: HitTest)
    | OpRefreshHover(position: Point, hit: HitTest)

  function Step(s: State, op: Op): State {
    match op
    case OpCreate(id, generation, options) => Create(s, id, generation, options).0
    case OpPublishScene(id, generation, sceneRevision) => PublishScene(s, id, generation, sceneRevision).0
    case OpUpdate(id, generation, revision, options) => Update(s, id, generation, revision, options).0
    case OpApplyAction(owner, action, viewport) => ApplyAction(s, owner, action, viewport).0
    case OpRequestFocus(id) => RequestFocus(s, id).0
    case OpSetPaneFocus(focused) => SetPaneFocus(s, focused)
    case OpClose(id, reason) => CloseWindow(s, id, reason)
    case OpRevokeOwner(owner) => Revoke(s, owner)
    case OpTakeOverflow(owner) => TakeOverflow(s, owner).0
    case OpTakeEvent(owner) => TakeEvent(s, owner).0
    case OpCapturePointer(id, position) => CapturePointer(s, id, position).0
    case OpReleasePointer(id) => ReleasePointer(s, id)
    case OpKeyboard(event, escape) => Keyboard(s, event, escape).0
    case OpWheel(position, scroll, modifiers, hit) => Scrolled(s, position, scroll, modifiers, hit).0
    case OpPointer(report, hit) => PointerInput(s, report, hit).0
    case OpRefreshHover(position, hit) => RefreshHover(s, position, hit)
  }

  function Run(s: State, ops: seq<Op>): State {
    if ops == [] then s else Step(Run(s, ops[..|ops| - 1]), ops[|ops| - 1])
  }

  lemma {:induction false} StepSafe(s: State, op: Op)
    requires Inv(s)
    ensures Inv(Step(s, op))
  {
    hide Inv; hide Create; hide PublishScene; hide Update; hide ApplyAction; hide RequestFocus; hide SetPaneFocus;
    hide CloseWindow; hide Revoke; hide TakeOverflow; hide TakeEvent; hide CapturePointer; hide ReleasePointer;
    hide Keyboard; hide Scrolled; hide PointerInput; hide RefreshHover;
    match op {
      case OpCreate(id, generation, options) => CreateSafe(s, id, generation, options);
      case OpPublishScene(id, generation, sceneRevision) => PublishSceneSafe(s, id, generation, sceneRevision);
      case OpUpdate(id, generation, revision, options) => UpdateSafe(s, id, generation, revision, options);
      case OpApplyAction(owner, action, viewport) => ApplyActionSafe(s, owner, action, viewport);
      case OpRequestFocus(id) => RequestFocusSafe(s, id);
      case OpSetPaneFocus(focused) => SetPaneFocusSafe(s, focused);
      case OpClose(id, reason) => CloseSafe(s, id, reason);
      case OpRevokeOwner(owner) => RevokeOwnerSafe(s, owner);
      case OpTakeOverflow(owner) => TakeOverflowSafe(s, owner);
      case OpTakeEvent(owner) => TakeEventSafe(s, owner);
      case OpCapturePointer(id, position) => CapturePointerSafe(s, id, position);
      case OpReleasePointer(id) => ReleasePointerSafe(s, id);
      case OpKeyboard(event, escape) => KeyboardSafe(s, event, escape);
      case OpWheel(position, scroll, modifiers, hit) => ScrolledSafe(s, position, scroll, modifiers, hit);
      case OpPointer(report, hit) => PointerInputSafe(s, report, hit);
      case OpRefreshHover(position, hit) => RefreshHoverSafe(s, position, hit);
    }
  }

  /** The invariant holds in every reachable state. */
  lemma {:induction false} RunSafe(ops: seq<Op>)
    ensures Inv(Run(INITIAL, ops))
    decreases |ops|
  {
    hide Step;
    if ops != [] {
      hide Inv;
      RunSafe(ops[..|ops| - 1]);
      StepSafe(Run(INITIAL, ops[..|ops| - 1]), ops[|ops| - 1]);
    }
  }

  // ---- What the invariant means ------------------------------------------------------------

  /** The stack is a duplicate-free listing of the live windows, every parent strictly below its children. */
  lemma {:induction false} ReachableStack(ops: seq<Op>)
    ensures var s := Run(INITIAL, ops);
            (forall id :: id in s.windows <==> id in s.stack) && Distinct(s.stack) && |s.stack| == |s.windows| &&
            forall i :: 0 <= i < |s.stack| && s.windows[s.stack[i]].options.parent.Some? ==>
              s.windows[s.stack[i]].options.parent.value in s.stack[..i] &&
              s.windows[s.stack[i]].options.parent.value.owner == s.stack[i].owner
  {
    hide Inv; hide Run;
    RunSafe(ops);
    InvStructure(Run(INITIAL, ops));
    StackMeaning(Run(INITIAL, ops));
  }

  lemma {:induction false} StackMeaning(s: State)
    requires Structure(s)
    ensures (forall id :: id in s.windows <==> id in s.stack) && Distinct(s.stack) && |s.stack| == |s.windows|
    ensures forall i :: 0 <= i < |s.stack| && s.windows[s.stack[i]].options.parent.Some? ==>
              s.windows[s.stack[i]].options.parent.value in s.stack[..i] &&
              s.windows[s.stack[i]].options.parent.value.owner == s.stack[i].owner
  {
    hide ValidWindow; hide Distinct; hide OwnedWindows;
    StackLength(s);
    OrderedDistinct(s.windows, {}, s.stack);
    forall i | 0 <= i < |s.stack| && s.windows[s.stack[i]].options.parent.Some?
      ensures s.windows[s.stack[i]].options.parent.value in s.stack[..i]
    {
      OrderedPrefix(s.windows, {}, s.stack, i + 1);
      assert s.stack[..i + 1][..i] == s.stack[..i];
    }
  }

  /** Parents are acyclic, and no number of steps finds an ancestor the 256-step walk misses. */
  lemma {:induction false} ReachableWalks(ops: seq<Op>, id: Id, ancestor: Id, fuel: nat)
    requires id in Run(INITIAL, ops).windows
    ensures var w := Run(INITIAL, ops).windows;
            (DescendsWithin(w, id, ancestor, fuel) ==> Descends(w, id, ancestor)) &&
            (VisibleWithin(w, id, fuel) ==> EffectivelyVisible(w, id)) &&
            (Parent(w, id).Some? ==> !DescendsWithin(w, Parent(w, id).value, id, fuel))
  {
    var s := Run(INITIAL, ops);
    RunSafe(ops);
    StackLength(s);
    MoreFuel(s.windows, id, ancestor, fuel, fuel + MAX_WINDOWS);
    WalkSettles(s.windows, s.stack, id, ancestor, fuel + MAX_WINDOWS);
    WalkSettles(s.windows, s.stack, id, ancestor, MAX_WINDOWS);
    if Parent(s.windows, id).Some? {
      var parent := Parent(s.windows, id).value;
      NotBelowItself(s.windows, s.stack, id, parent);
      MoreFuel(s.windows, parent, id, fuel, fuel + MAX_WINDOWS);
      WalkSettles(s.windows, s.stack, parent, id, fuel + MAX_WINDOWS);
    }
  }

  lemma {:induction false} MoreFuel(windows: map<Id, Window>, id: Id, ancestor: Id, less: nat, more: nat)
    requires less <= more
    ensures DescendsWithin(windows, id, ancestor, less) ==> DescendsWithin(windows, id, ancestor, more)
    ensures VisibleWithin(windows, id, less) ==> VisibleWithin(windows, id, more)
    decreases less
  {
    if less > 0 && Parent(windows, id).Some? {
      MoreFuel(windows, Parent(windows, id).value, ancestor, less - 1, more - 1);
    }
  }

  /** Queues are bounded, hold only their owner's valid events, and no owner escapes the count of sixteen. */
  lemma {:induction false} ReachableQueues(ops: seq<Op>)
    ensures var s := Run(INITIAL, ops);
            (forall id :: id in s.windows ==> id.owner in s.events) &&
            (forall owner :: owner in s.events ==> QueueFine(owner, s.events[owner])) &&
            s.events.Keys !! s.overflowed && |s.events.Keys + s.overflowed| <= MAX_OWNERS
  {
    hide Structure; hide Thinned;
    var s := Run(INITIAL, ops);
    RunSafe(ops);
    InvStructure(s);
    ReachableQueued(s);
    forall owner | owner in s.events ensures QueueFine(owner, s.events[owner]) {
      assert OwnerServed(s, owner);
    }
  }

  lemma {:induction false} ReachableQueued(s: State)
    requires Structure(s)
    ensures forall id :: id in s.windows ==> id.owner in s.events
  {
  }

  /** The capture and the focus history name live windows, the history each at most once. */
  lemma {:induction false} ReachableReferences(ops: seq<Op>)
    ensures var s := Run(INITIAL, ops);
            (s.capture.Some? ==> s.capture.value.window in s.windows) && Distinct(s.focusHistory) &&
            forall id :: id in s.focusHistory ==> id in s.windows
  {
    hide Forest; hide Bounded; hide Counted; hide AllServed;
    RunSafe(ops);
  }

  // ---- Delivery ----------------------------------------------------------------------------

  /** The events no newer one may replace. */
  function Durable(events: seq<WindowEvent>): seq<WindowEvent> {
    if events == [] then []
    else
      var last := events[|events| - 1];
      Durable(events[..|events| - 1]) + if Replaceable(last.event) then [] else [last]
  }

  lemma {:induction false} ThinnedKeepsDurable(emitted: seq<WindowEvent>, out: seq<WindowEvent>)
    requires Thinned(emitted, out)
    ensures Durable(out) == Durable(emitted)
    decreases |emitted|
  {
    hide Replaceable;
    if emitted != [] {
      var n, m := |emitted|, |out|;
      if Thinned(emitted[..n - 1], out[..m - 1]) {
        ThinnedKeepsDurable(emitted[..n - 1], out[..m - 1]);
      } else {
        var before := out[..m - 1] + [emitted[n - 2]];
        ThinnedKeepsDurable(emitted[..n - 1], before);
        assert before[..|before| - 1] == out[..m - 1];
      }
    }
  }

  /**
   For every owner that still has its queue: the events it took followed by the events it still has
   are the events emitted to it, thinned only by coalescing. So every key, button, focus, text,
   dismissal and settled geometry is there, once and in order.
   */
  lemma {:induction false} ReachableDelivery(ops: seq<Op>, owner: Owner)
    requires owner in Run(INITIAL, ops).events
    ensures var s := Run(INITIAL, ops);
            owner in s.deliveries &&
            var d := s.deliveries[owner];
            Thinned(d.emitted, d.taken + s.events[owner]) &&
            Durable(d.taken + s.events[owner]) == Durable(d.emitted)
  {
    hide Structure; hide Thinned; hide QueueFine;
    var s := Run(INITIAL, ops);
    RunSafe(ops);
    assert OwnerServed(s, owner);
    ThinnedKeepsDurable(s.deliveries[owner].emitted, s.deliveries[owner].taken + s.events[owner]);
  }
}
