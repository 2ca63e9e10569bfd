/** Short runs of public calls that reach the states OverlayEdges tells apart. */
module OverlayWitnesses {
  import opened Wrappers
  import opened Words
  import opened Scalars
  import opened OverlayTypes
  import opened OverlayModel
  import opened OverlayInvariant
  import opened OverlayRevocation
  import opened OverlaySafety
  import opened OverlayRuns
  import opened OverlayEdges
  import opened OverlayRouting
  import opened OverlayQueues
  import opened OverlayHover

  const OWNER := Owner(1, 1)
  const FIRST := Id(OWNER, 1, 1)
  const SECOND := Id(OWNER, 1, 2)
  const ORIGIN := Point(0, 0)

  function Options(mode: WindowMode, visible: bool, parent: Option<Id>, width: Scalar, minWidth: Scalar)
    : WindowOptions
  {
    WindowOptions(Rect(ORIGIN, width, ONE), mode, visible, parent, minWidth, ONE)
  }

  const PLAIN := Options(Floating, true, None, ONE, ONE)

  lemma {:induction false} RunSnoc(s: State, ops: seq<Op>, op: Op)
    ensures Run(s, ops + [op]) == Step(Run(s, ops), op)
  {
    hide Step;
    assert (ops + [op])[..|ops|] == ops;
  }

  lemma {:induction false} NoModal(windows: map<Id, Window>, stack: seq<Id>)
    requires forall id :: id in windows ==> !windows[id].options.mode.Modal?
    ensures LastModal(windows, stack).None?
    decreases |stack|
  {
    if stack != [] {
      NoModal(windows, stack[..|stack| - 1]);
    }
  }

  lemma {:induction false} RootVisible(windows: map<Id, Window>, id: Id)
    requires id in windows && windows[id].options.parent.None?
    ensures EffectivelyVisible(windows, id) <==> windows[id].options.visible
    ensures Descends(windows, id, id)
  {
  }

  lemma {:induction false} RunAppend(s: State, first: seq<Op>, second: seq<Op>)
    ensures Run(s, first + second) == Run(Run(s, first), second)
    decreases |second|
  {
    hide Step;
    if second == [] {
      assert first + second == first;
    } else {
      var front := second[..|second| - 1];
      RunAppend(s, first, front);
      assert (first + second)[..|first + second| - 1] == first + front;
    }
  }

  /** A first or second window of the one owner passes every check. */
  lemma {:induction false} Creatable(s: State, id: Id, options: WindowOptions)
    requires ValidOptions(options) && id.owner == OWNER && id.contextId != 0 && id.surfaceId != 0
    requires id !in s.windows && |s.windows| <= 1 && s.overflowed == {} && s.events.Keys <= {OWNER}
    requires options.parent.Some? ==> options.parent.value in s.windows && options.parent.value.owner == OWNER
    requires forall x :: x in s.windows ==> !s.windows[x].options.mode.Modal?
    ensures CreateRefusal(s, id, 1, options).None?
  {
    hide ValidOptions; hide LastModal; hide Descends;
    NoModal(s.windows, s.stack);
    SmallerSet(OwnedWindows(s.windows, id.owner), s.windows.Keys);
    SmallerSet(s.events.Keys, {OWNER});
  }

  lemma {:induction false} RootEligible(s: State, id: Id)
    requires id in s.windows && s.windows[id].options.parent.None? && s.windows[id].options.visible
    requires forall x :: x in s.windows ==> !s.windows[x].options.mode.Modal?
    ensures Eligible(s, id)
  {
    NoModal(s.windows, s.stack);
    RootVisible(s.windows, id);
  }

  // ---- Queues with no text in them ---------------------------------------------------------

  ghost predicate Light(s: State, most: nat) {
    OWNER in s.events && |s.events[OWNER]| <= most && QueueBytes(s.events[OWNER]) == 128 * |s.events[OWNER]|
  }

  lemma {:induction false} LightBase(q: seq<WindowEvent>, e: WindowEvent)
    requires QueueBytes(q) == 128 * |q| && EventBytes(e.event) == 128
    ensures var base := Base(q, e);
            QueueBytes(base) == 128 * |base| && QueueBytes(base + [e]) == 128 * |base + [e]|
  {
    var base := Base(q, e);
    assert (base + [e])[..|base|] == base;
  }

  lemma {:induction false} EmitLight(s: State, id: Id, event: Event, most: nat)
    requires Light(s, most) && most < MAX_PENDING_EVENTS && id in s.windows && id.owner == OWNER
    requires ValidEvent(event) && EventBytes(event) == 128
    ensures var r := Emit(s, id, event);
            r == s.(events := r.events, deliveries := r.deliveries) && r.events.Keys == s.events.Keys &&
            Light(r, most + 1) && (!Replaceable(event) ==> |r.events[OWNER]| == |s.events[OWNER]| + 1)
  {
    hide ValidEvent; hide QueueBytes; hide Overflow;
    LightBase(s.events[OWNER], Stamp(s.windows[id], id, event));
  }

  /** Focus comes to the first window of an owner that has been told nothing yet. */
  lemma {:induction false} FirstFocused(s: State)
    requires FIRST in s.windows && Eligible(s, FIRST) && s.focus.None? && s.events == map[OWNER := []]
    ensures var r := RequestFocus(s, FIRST).0;
            r == s.(stack := r.stack, focusHistory := r.focusHistory, focus := Some(FIRST),
                    events := r.events, deliveries := r.deliveries) &&
            Light(r, 1) && |r.events[OWNER]| == 1
  {
    hide Eligible; hide Subtree; hide OutsideSubtree; hide Without; hide Emit;
    var remembered := RaiseGroup(s, FIRST).(focusHistory := Without(s.focusHistory, FIRST) + [FIRST]);
    assert LeaveFocus(remembered) == remembered;
    EmitLight(remembered.(focus := Some(FIRST)), FIRST, Focus(true), 0);
  }

  // ---- Focus -------------------------------------------------------------------------------

  const KEY := Key(4, true, false, 0)

  function Typing(n: nat): seq<Op> {
    seq(n, _ => OpKeyboard(KEY, false))
  }

  const OPENING: seq<Op> := [OpCreate(FIRST, 1, PLAIN), OpCreate(SECOND, 1, PLAIN)]

  /** Two windows of one owner, the first one focused, and `n` keys typed at it. */
  function Crowding(n: nat): seq<Op> {
    OPENING + [OpRequestFocus(FIRST)] + Typing(n)
  }

  ghost predicate TwoPlain(s: State) {
    s.windows == map[FIRST := Window(1, 1, 0, PLAIN), SECOND := Window(1, 1, 0, PLAIN)]
  }

  /** Nothing of the pointer is held. */
  ghost predicate Idle(s: State) {
    s.hover.None? && s.capture.None? && s.swallowedButtons == {}
  }

  /** The first window takes what is typed. */
  ghost predicate Typable(s: State, pending: nat) {
    FIRST in s.windows && Eligible(s, FIRST) && s.focus == Some(FIRST) && Light(s, pending) &&
    |s.events[OWNER]| == pending
  }

  ghost predicate Crowded(s: State, pending: nat) {
    TwoPlain(s) && Idle(s) && Typable(s, pending)
  }

  lemma {:induction false} Opened()
    ensures var s := Run(INITIAL, OPENING);
            TwoPlain(s) && Idle(s) && s.focus.None? && s.events == map[OWNER := []]
  {
    hide CreateRefusal; hide RequestFocus;
    var first := [OpCreate(FIRST, 1, PLAIN)];
    Creatable(INITIAL, FIRST, PLAIN);
    RunSnoc(INITIAL, [], first[0]);
    assert [] + first == first;
    var one := Run(INITIAL, first);
    Creatable(one, SECOND, PLAIN);
    RunSnoc(INITIAL, first, OPENING[1]);
    assert first + [OPENING[1]] == OPENING;
  }

  lemma {:induction false} FirstGreeted(s: State)
    requires TwoPlain(s) && Idle(s) && s.focus.None? && s.events == map[OWNER := []]
    ensures Crowded(Step(s, OpRequestFocus(FIRST)), 1)
  {
    hide RequestFocus; hide Eligible;
    RootEligible(s, FIRST);
    FirstFocused(s);
    RootEligible(RequestFocus(s, FIRST).0, FIRST);
  }

  lemma {:induction false} KeyTyped(s: State, pending: nat)
    requires Typable(s, pending) && pending < MAX_PENDING_EVENTS
    ensures var r := Step(s, OpKeyboard(KEY, false));
            Typable(r, pending + 1) && r == s.(events := r.events, deliveries := r.deliveries)
  {
    hide EligibleIn; hide Emit;
    EmitLight(s, FIRST, KEY, pending);
  }

  lemma {:induction false} Typed(s: State, pending: nat, n: nat)
    requires Typable(s, pending) && pending + n <= MAX_PENDING_EVENTS
    ensures var r := Run(s, Typing(n));
            Typable(r, pending + n) && r == s.(events := r.events, deliveries := r.deliveries)
    decreases n
  {
    hide Step; hide Typable;
    if n > 0 {
      Typed(s, pending, n - 1);
      assert Typing(n)[..n - 1] == Typing(n - 1);
      KeyTyped(Run(s, Typing(n - 1)), pending + n - 1);
    }
  }

  lemma {:induction false} CrowdingRuns(n: nat)
    requires n < MAX_PENDING_EVENTS
    ensures Crowded(Run(INITIAL, Crowding(n)), n + 1)
  {
    hide Run; hide Step; hide Typable;
    Opened();
    RunSnoc(INITIAL, OPENING, OpRequestFocus(FIRST));
    FirstGreeted(Run(INITIAL, OPENING));
    RunAppend(INITIAL, OPENING + [OpRequestFocus(FIRST)], Typing(n));
    Typed(Run(INITIAL, OPENING + [OpRequestFocus(FIRST)]), 1, n);
  }

  lemma {:induction false} CrowdedStrands(s: State, pending: nat)
    requires Inv(s) && Crowded(s, pending)
    ensures FocusLive(s) && (FocusLive(RequestFocus(s, SECOND).0) <==> pending <= 254)
  {
    hide Inv; hide Eligible; hide RequestFocus;
    RootEligible(s, SECOND);
    RequestStrandsExactly(s, SECOND);
  }

  lemma {:induction false} CrowdingStrands(n: nat)
    requires n < MAX_PENDING_EVENTS
    ensures FocusLive(Run(INITIAL, Crowding(n)))
    ensures FocusLive(Run(INITIAL, Crowding(n) + [OpRequestFocus(SECOND)])) <==> n <= 253
  {
    hide Run; hide RequestFocus; hide Crowding; hide Inv; hide Crowded; hide FocusLive;
    RunSafe(Crowding(n));
    CrowdingRuns(n);
    CrowdedStrands(Run(INITIAL, Crowding(n)), n + 1);
    RunSnoc(INITIAL, Crowding(n), OpRequestFocus(SECOND));
  }

  /** After 254 typed keys, and not after 253, asking for the second window's focus strands focus on it. */
  lemma {:induction false} FocusCanBeStranded()
    ensures FocusLive(Run(INITIAL, Crowding(254)))
    ensures !FocusLive(Run(INITIAL, Crowding(254) + [OpRequestFocus(SECOND)]))
    ensures FocusLive(Run(INITIAL, Crowding(253) + [OpRequestFocus(SECOND)]))
  {
    CrowdingStrands(253);
    CrowdingStrands(254);
  }

  // ---- Hover -------------------------------------------------------------------------------

  const INPUT: HitTest := (_, _) => Some(HitRegion(1, Input, None))
  const HOVERING: seq<Op> := [OpCreate(FIRST, 1, PLAIN), OpRefreshHover(ORIGIN, INPUT)]

  ghost predicate OnePlain(s: State, options: WindowOptions) {
    s.windows == map[FIRST := Window(1, 1, 0, options)] && s.stack == [FIRST] && s.events == map[OWNER := []] &&
    s.focus.None? && s.hover.None? && s.capture.None? && s.swallowedButtons == {} && s.overflowed == {}
  }

  /** Creating a first window that takes no focus. */
  lemma {:induction false} FirstOpened(options: WindowOptions)
    requires ValidOptions(options) && options.parent.None? && (!options.visible || options.mode.Floating?)
    ensures OnePlain(Run(INITIAL, [OpCreate(FIRST, 1, options)]), options)
  {
    hide CreateRefusal; hide RequestFocus; hide ValidOptions;
    Creatable(INITIAL, FIRST, options);
    RunSnoc(INITIAL, [], OpCreate(FIRST, 1, options));
    assert [] + [OpCreate(FIRST, 1, options)] == [OpCreate(FIRST, 1, options)];
  }

  lemma {:induction false} FirstTarget(s: State, options: WindowOptions, role: HitRole, hit: HitTest)
    requires s.windows == map[FIRST := Window(1, 1, 0, options)] && s.stack == [FIRST] && options.visible
    requires options.parent.None? && !options.mode.Modal?
    requires ValidRect(options.bounds) && options.bounds.origin == ORIGIN
    requires !role.Transparent? && hit(FIRST, ORIGIN) == Some(HitRegion(1, role, None))
    ensures Eligible(s, FIRST)
    ensures TargetAt(s, ORIGIN, hit) == Some(Target(FIRST, ORIGIN, HitRegion(1, role, None)))
  {
    RootEligible(s, FIRST);
    assert s.stack[..0] == [];
  }

  lemma {:induction false} HoverCanBeStranded()
    ensures HoverLive(Run(INITIAL, HOVERING))
    ensures !HoverLive(Run(INITIAL, HOVERING + [OpRevokeOwner(OWNER)]))
  {
    hide Run; hide Step; hide Revoke;
    FirstOpened(PLAIN);
    assert HOVERING[..1] == [OpCreate(FIRST, 1, PLAIN)];
    Hovered(Run(INITIAL, HOVERING[..1]));
    RunSnoc(INITIAL, HOVERING[..1], HOVERING[1]);
    assert HOVERING[..1] + [HOVERING[1]] == HOVERING;
    RunSnoc(INITIAL, HOVERING, OpRevokeOwner(OWNER));
    RevokedHover(Run(INITIAL, HOVERING));
  }

  lemma {:induction false} Hovered(s: State)
    requires OnePlain(s, PLAIN)
    ensures var r := Step(s, OpRefreshHover(ORIGIN, INPUT));
            r.windows == s.windows && r.focus.None? && r.hover == Some(Hovering(FIRST, 1, None))
  {
    hide Emit; hide TargetIn; hide Eligible;
    FirstTarget(s, PLAIN, Input, INPUT);
    EmitLight(s.(hover := Some(Hovering(FIRST, 1, None))), FIRST, Hover(1, true), 0);
  }

  lemma {:induction false} RevokedHover(s: State)
    requires s.focus.None? && s.hover == Some(Hovering(FIRST, 1, None))
    ensures !HoverLive(Step(s, OpRevokeOwner(OWNER)))
  {
  }

  /** The pointer finds one of the two windows. */
  lemma {:induction false} PlainTarget(s: State)
    requires Inv(s) && TwoPlain(s)
    ensures var t := TargetAt(s, ORIGIN, INPUT);
            t.Some? && t.value.id in s.windows && t.value.region == HitRegion(1, Input, None)
  {
    hide Inv; hide EligibleIn; hide TargetIn; hide Takes; hide Structure; hide TwoPlain;
    InvStructure(s);
    StackOrder(s);
    PlainTakes(s);
    var i: nat :| i < |s.stack| && s.stack[i] == FIRST;
    FrontmostTakes(s, ORIGIN, INPUT);
    assert Takes(s, s.stack[i], ORIGIN, INPUT);
  }

  lemma {:induction false} PlainTakes(s: State)
    requires TwoPlain(s)
    ensures FIRST in s.windows && Takes(s, FIRST, ORIGIN, INPUT)
  {
    hide Eligible;
    RootEligible(s, FIRST);
  }

  const OVER := PointerReport(ORIGIN, None, 0, 0, None)

  lemma {:induction false} CrowdedHover(s: State, pending: nat)
    requires Inv(s) && Crowded(s, pending)
    ensures HoverLive(RefreshHover(s, ORIGIN, INPUT)) <==> pending <= 255
    ensures HoverLive(PointerInput(s, OVER, INPUT).0) <==> pending <= 254
  {
    hide Inv; hide Eligible; hide TargetIn; hide RefreshHover; hide PointerInput; hide LastPopup; hide Falls;
    PlainTarget(s);
    RefreshStrandsExactly(s, ORIGIN, INPUT);
    NoPopup(s.windows, s.stack, s.stack);
    PointerStrandsExactly(s, OVER, INPUT);
  }

  /**
   The pointer comes over a window of a crowded owner: with 255 events queued a refresh finds room for
   the entry but pointer input none for itself as well, and with 256 neither does. The hover is left on
   a window that is gone.
   */
  lemma {:induction false} HoverChangeCanStrand()
    ensures HoverLive(Run(INITIAL, Crowding(254) + [OpRefreshHover(ORIGIN, INPUT)]))
    ensures !HoverLive(Run(INITIAL, Crowding(254) + [OpPointer(OVER, INPUT)]))
    ensures !HoverLive(Run(INITIAL, Crowding(255) + [OpRefreshHover(ORIGIN, INPUT)]))
    ensures HoverLive(Run(INITIAL, Crowding(255)))
  {
    hide Run; hide Crowding; hide Inv; hide Typable; hide RefreshHover; hide PointerInput;
    forall n | n == 254 || n == 255
      ensures Crowded(Run(INITIAL, Crowding(n)), n + 1)
      ensures HoverLive(RefreshHover(Run(INITIAL, Crowding(n)), ORIGIN, INPUT)) <==> n <= 254
      ensures !HoverLive(PointerInput(Run(INITIAL, Crowding(n)), OVER, INPUT).0) {
      RunSafe(Crowding(n));
      CrowdingRuns(n);
      CrowdedHover(Run(INITIAL, Crowding(n)), n + 1);
    }
    RunSnoc(INITIAL, Crowding(254), OpRefreshHover(ORIGIN, INPUT));
    RunSnoc(INITIAL, Crowding(254), OpPointer(OVER, INPUT));
    RunSnoc(INITIAL, Crowding(255), OpRefreshHover(ORIGIN, INPUT));
  }

  // ---- Calls that fail after they have written ---------------------------------------------

  const HIDDEN := Options(Floating, false, None, ONE, ONE)
  const POPUP := Options(Popup, true, Some(FIRST), ONE, ONE)

  /** A visible popup under a hidden parent: refused, and there all the same. */
  lemma {:induction false} CreateCanFailAfterInserting()
    ensures var (r, result) := Create(Run(INITIAL, [OpCreate(FIRST, 1, HIDDEN)]), SECOND, 1, POPUP);
            result.Err? && SECOND in r.windows
  {
    hide Run; hide CreateRefusal; hide Create;
    var s := Run(INITIAL, [OpCreate(FIRST, 1, HIDDEN)]);
    FirstOpened(HIDDEN);
    RunSafe([OpCreate(FIRST, 1, HIDDEN)]);
    Creatable(s, SECOND, POPUP);
    RootVisible(s.windows, FIRST);
    CreateFailsAfterInserting(s, SECOND, 1, POPUP);
  }

  const UNSEEN: seq<Op> := [OpCreate(FIRST, 1, HIDDEN), OpCreate(SECOND, 1, POPUP.(visible := false))]

  lemma {:induction false} UnseenRuns()
    ensures var s := Run(INITIAL, UNSEEN);
            Inv(s) &&
            s.windows == map[FIRST := Window(1, 1, 0, HIDDEN), SECOND := Window(1, 1, 0, POPUP.(visible := false))]
  {
    hide Run; hide CreateRefusal; hide RequestFocus; hide Inv;
    FirstOpened(HIDDEN);
    assert UNSEEN[..1] == [OpCreate(FIRST, 1, HIDDEN)] && UNSEEN[..1] + [UNSEEN[1]] == UNSEEN;
    Creatable(Run(INITIAL, UNSEEN[..1]), SECOND, POPUP.(visible := false));
    RunSnoc(INITIAL, UNSEEN[..1], UNSEEN[1]);
    RunSafe(UNSEEN);
  }

  /** Showing that popup later: refused, and shown in its record all the same. */
  lemma {:induction false} UpdateCanFailAfterWriting()
    ensures var s := Run(INITIAL, UNSEEN);
            var (r, result) := Update(s, SECOND, 1, 1, POPUP);
            result.Err? && SECOND in s.windows && !s.windows[SECOND].options.visible &&
            SECOND in r.windows && r.windows[SECOND].options.visible
  {
    hide Run; hide Update; hide UpdateRefusal; hide Inv;
    var s := Run(INITIAL, UNSEEN);
    UnseenRuns();
    NoModal(s.windows, s.stack);
    Unrefused(s, SECOND, POPUP);
    RootVisible(s.windows, FIRST);
    UpdateFailsAfterWriting(s, SECOND, 1, 1, POPUP);
  }

  const ROOT := Options(Popup, true, None, ONE, ONE)
  const CHILD := Options(Modal, true, Some(FIRST), ONE, ONE)
  const SHADOWED: seq<Op> := [OpCreate(FIRST, 1, ROOT.(visible := false)), OpCreate(SECOND, 1, CHILD)]

  lemma {:induction false} ShadowedRuns()
    ensures var s := Run(INITIAL, SHADOWED);
            Inv(s) && s.stack == [FIRST, SECOND] &&
            s.windows == map[FIRST := Window(1, 1, 0, ROOT.(visible := false)), SECOND := Window(1, 1, 0, CHILD)]
  {
    hide Run; hide CreateRefusal; hide Create; hide Inv;
    var s := Run(INITIAL, SHADOWED[..1]);
    assert SHADOWED[..1] == [OpCreate(FIRST, 1, ROOT.(visible := false))] && SHADOWED[..1] + [SHADOWED[1]] == SHADOWED;
    FirstOpened(ROOT.(visible := false));
    Creatable(s, SECOND, CHILD);
    RunSafe(SHADOWED[..1]);
    RootVisible(s.windows, FIRST);
    CreateFailsAfterInserting(s, SECOND, 1, CHILD);
    RunSnoc(INITIAL, SHADOWED[..1], SHADOWED[1]);
    RunSafe(SHADOWED);
  }

  /** Showing a popup that has no parent: refused, because its own modal child comes to light above it. */
  lemma {:induction false} ChildCanBlockShowing()
    ensures var (r, result) := Update(Run(INITIAL, SHADOWED), FIRST, 1, 1, ROOT);
            result.Err? && FIRST in r.windows && r.windows[FIRST].options.visible
  {
    hide Run; hide Update; hide UpdateRefusal; hide Inv; hide LastModal;
    var s := Run(INITIAL, SHADOWED);
    ShadowedRuns();
    RootVisible(s.windows, FIRST);
    var j := ForemostModal(s.windows, s.stack);
    InvStructure(s);
    Climb(s, SECOND, SECOND);
    Unrefused(s, FIRST, ROOT);
    var written := s.windows[FIRST := Window(1, 2, 0, ROOT)];
    assert VisibleWithin(written, FIRST, MAX_WINDOWS - 1);
    assert ModalAt(written, s.stack, 1) && FIRST in s.stack[..1];
    UpdateFailsAfterWriting(s, FIRST, 1, 1, ROOT);
  }

  lemma {:induction false} Unrefused(s: State, id: Id, options: WindowOptions)
    requires id in s.windows && s.windows[id].generation == 1 && s.windows[id].revision == 1 && ValidOptions(options)
    requires options.parent == s.windows[id].options.parent && options.mode == s.windows[id].options.mode
    requires TopModal(s).None?
    ensures UpdateRefusal(s, id, 1, 1, options).None?
  {
    hide LastModal; hide Descends; hide ValidOptions;
  }

  // ---- A drag that undoes a larger minimum -------------------------------------------------

  const GRIP: HitTest := (_, _) => Some(HitRegion(1, Drag, None))
  const WIDE := Options(Floating, true, None, 2 * ONE, ONE)
  const WIDER := Options(Floating, true, None, 4 * ONE, 3 * ONE)
  const PRESS := PointerReport(ORIGIN, Some(Button(1, true)), 0, 1, None)
  const MOTION := PointerReport(Point(ONE, 0), None, 0, 0, None)
  const DRAGGING: seq<Op> :=
    [OpCreate(FIRST, 1, WIDE), OpPointer(PRESS, GRIP), OpUpdate(FIRST, 1, 1, WIDER), OpPointer(MOTION, GRIP)]

  lemma {:induction false} NoPopup(windows: map<Id, Window>, stack: seq<Id>, rest: seq<Id>)
    requires forall id :: id in windows ==> !windows[id].options.mode.Popup?
    ensures LastPopup(windows, stack, rest).None?
    decreases |rest|
  {
    hide EligibleIn;
    if rest != [] {
      NoPopup(windows, stack, rest[..|rest| - 1]);
    }
  }

  ghost predicate Gripped(s: State, revision: u64, options: WindowOptions) {
    s.windows == map[FIRST := Window(1, revision, 0, options)] && Light(s, 3) && s.swallowedButtons == {} &&
    s.capture == Some(Capture(FIRST, Drag, ORIGIN, WIDE.bounds, 1, None))
  }

  lemma {:induction false} GripPressed(s: State)
    requires OnePlain(s, WIDE)
    ensures Gripped(Step(s, OpPointer(PRESS, GRIP)), 1, WIDE)
  {
    hide Eligible; hide TargetIn; hide Emit; hide LastPopup; hide RequestFocus;
    NoPopup(s.windows, s.stack, s.stack);
    FirstTarget(s, WIDE, Drag, GRIP);
    FirstFocused(s);
    var target := Target(FIRST, ORIGIN, HitRegion(1, Drag, None));
    GripReported(PressOn(s, target, ORIGIN), target);
  }

  lemma {:induction false} GripReported(s: State, target: Target)
    requires s.windows == map[FIRST := Window(1, 1, 0, WIDE)] && Light(s, 1) && s.hover.None?
    requires target == Target(FIRST, ORIGIN, HitRegion(1, Drag, None))
    ensures var r := Emit(SetHover(s, Some(HoverOf(target))), FIRST, PointerEvent(PRESS, ORIGIN, 1));
            r.windows == s.windows && Light(r, 3) && r.capture == s.capture && r.swallowedButtons == s.swallowedButtons
  {
    hide Emit;
    var hovering := HoverOf(target);
    EmitLight(s.(hover := Some(hovering)), FIRST, Hover(1, true), 1);
    EmitLight(SetHover(s, Some(hovering)), FIRST, PointerEvent(PRESS, ORIGIN, 1), 2);
  }

  lemma {:induction false} GripUpdated(s: State)
    requires Gripped(s, 1, WIDE)
    ensures Gripped(Step(s, OpUpdate(FIRST, 1, 1, WIDER)), 2, WIDER)
  {
    hide UpdateRefusal; hide Hide; hide RequestFocus;
    NoModal(s.windows, s.stack);
    Unrefused(s, FIRST, WIDER);
  }

  lemma {:induction false} GripMoved(s: State)
    requires Gripped(s, 2, WIDER)
    ensures var r := Step(s, OpPointer(MOTION, GRIP));
            FIRST in r.windows && r.windows[FIRST].options.bounds.width == 2 * ONE &&
            r.windows[FIRST].options.minWidth == 3 * ONE
  {
    hide Eligible; hide Emit;
    RootEligible(s, FIRST);
    var bounds := Rect(Point(ONE, 0), 2 * ONE, ONE);
    var moved := s.windows[FIRST].(revision := 3, options := WIDER.(bounds := bounds));
    EmitLight(s.(windows := s.windows[FIRST := moved]), FIRST, Geometry(bounds, false), 3);
  }

  /** A window pressed for a drag, given a larger minimum and then dragged is narrower than its minimum. */
  lemma {:induction false} GestureCanUndercut()
    ensures var s := Run(INITIAL, DRAGGING);
            FIRST in s.windows && s.windows[FIRST].options.bounds.width < s.windows[FIRST].options.minWidth
  {
    hide Run; hide Step;
    FirstOpened(WIDE);
    assert DRAGGING[..1] == [OpCreate(FIRST, 1, WIDE)] && DRAGGING[..1] + [DRAGGING[1]] == DRAGGING[..2];
    assert DRAGGING[..2] + [DRAGGING[2]] == DRAGGING[..3] && DRAGGING[..3] + [DRAGGING[3]] == DRAGGING;
    RunSnoc(INITIAL, DRAGGING[..1], DRAGGING[1]);
    GripPressed(Run(INITIAL, DRAGGING[..1]));
    RunSnoc(INITIAL, DRAGGING[..2], DRAGGING[2]);
    GripUpdated(Run(INITIAL, DRAGGING[..2]));
    RunSnoc(INITIAL, DRAGGING[..3], DRAGGING[3]);
    GripMoved(Run(INITIAL, DRAGGING[..3]));
  }

  // ---- A modal that goes with the leave ----------------------------------------------------

  const MODAL := Options(Modal, true, None, ONE, ONE)
  const PASSING := PointerReport(Point(2 * ONE, 2 * ONE), None, 0, 0, None)
  const RAISED: seq<Op> := [OpCreate(FIRST, 1, MODAL)]

  /** One modal window, 254 keys typed at it, and the pointer over it. */
  function Blocking(): seq<Op> {
    RAISED + Typing(254) + [OpRefreshHover(ORIGIN, INPUT)]
  }

  ghost predicate OneModal(s: State) {
    s.windows == map[FIRST := Window(1, 1, 0, MODAL)] && FIRST in s.stack && forall id :: id in s.stack ==> id == FIRST
  }

  lemma {:induction false} OnlyModal(s: State)
    requires OneModal(s)
    ensures TopModal(s) == Some(FIRST) && Eligible(s, FIRST)
  {
    hide LastModal; hide DescendsWithin; hide VisibleWithin;
    RootVisible(s.windows, FIRST);
    var i: nat :| i < |s.stack| && s.stack[i] == FIRST;
    assert ModalAt(s.windows, s.stack, i);
    var j := ForemostModal(s.windows, s.stack);
  }

  lemma {:induction false} StackIsModal(s: State)
    requires Inv(s) && s.windows == map[FIRST := Window(1, 1, 0, MODAL)]
    ensures OneModal(s)
  {
    hide Inv;
    InvStructure(s);
    StackOrder(s);
  }

  lemma {:induction false} ModalRaised()
    ensures var s := Run(INITIAL, RAISED);
            OneModal(s) && Idle(s) && Typable(s, 1)
  {
    hide CreateRefusal; hide RequestFocus; hide Inv; hide Eligible;
    var inserted := Insert(INITIAL, FIRST, 1, MODAL);
    Creatable(INITIAL, FIRST, MODAL);
    OnlyModal(inserted);
    FirstFocused(inserted);
    RunSnoc(INITIAL, [], RAISED[0]);
    assert [] + RAISED == RAISED;
    RunSafe(RAISED);
    StackIsModal(Run(INITIAL, RAISED));
    OnlyModal(Run(INITIAL, RAISED));
  }

  lemma {:induction false} ModalTarget(s: State)
    requires OneModal(s)
    ensures var t := TargetAt(s, ORIGIN, INPUT);
            t.Some? && t.value.id == FIRST && t.value.region == HitRegion(1, Input, None)
    ensures TargetAt(s, PASSING.position, INPUT).None?
  {
    hide EligibleIn; hide TargetIn;
    OnlyModal(s);
    var i: nat :| i < |s.stack| && s.stack[i] == FIRST;
    FrontmostTakes(s, ORIGIN, INPUT);
    FrontmostTakes(s, PASSING.position, INPUT);
    assert Takes(s, s.stack[i], ORIGIN, INPUT);
  }

  /** The one modal, hovered, with a full queue. */
  ghost predicate Brimming(s: State) {
    OneModal(s) && s.capture.None? && s.swallowedButtons == {} && s.hover == Some(Hovering(FIRST, 1, None)) &&
    OWNER in s.events && |s.events[OWNER]| == MAX_PENDING_EVENTS
  }

  lemma {:induction false} ModalHovered(s: State)
    requires OneModal(s) && Idle(s) && Typable(s, 255)
    ensures Brimming(RefreshHover(s, ORIGIN, INPUT))
  {
    hide EligibleIn; hide TargetIn; hide Emit;
    ModalTarget(s);
    EmitLight(s.(hover := Some(Hovering(FIRST, 1, None))), FIRST, Hover(1, true), 255);
  }

  lemma {:induction false} BlockingRuns()
    ensures Brimming(Run(INITIAL, Blocking()))
  {
    hide Run; hide Step; hide Typable; hide RefreshHover; hide Typing; hide Brimming;
    ModalRaised();
    RunAppend(INITIAL, RAISED, Typing(254));
    Typed(Run(INITIAL, RAISED), 1, 254);
    RunSnoc(INITIAL, RAISED + Typing(254), OpRefreshHover(ORIGIN, INPUT));
    ModalHovered(Run(INITIAL, RAISED + Typing(254)));
    RefreshStep(Run(INITIAL, RAISED + Typing(254)));
  }

  lemma {:induction false} RefreshStep(s: State)
    ensures Step(s, OpRefreshHover(ORIGIN, INPUT)) == RefreshHover(s, ORIGIN, INPUT)
  {
  }

  lemma {:induction false} BrimmingPasses(s: State)
    requires Inv(s) && Brimming(s)
    ensures TopModal(s).Some? && Misses(s, PASSING, INPUT) && !PointerInput(s, PASSING, INPUT).1
  {
    hide Inv; hide TargetIn; hide PointerInput; hide Falls; hide LastPopup; hide LastModal;
    OnlyModal(s);
    ModalTarget(s);
    NoPopup(s.windows, s.stack, s.stack);
    MissedPointer(s, PASSING, INPUT);
    FallsFull(s, OWNER);
  }

  /** The modal is up, and the pointer that leaves it passes through: telling it so took its owner down. */
  lemma {:induction false} ModalCanFailToSwallow()
    ensures var s := Run(INITIAL, Blocking());
            TopModal(s).Some? && Misses(s, PASSING, INPUT) && !PointerInput(s, PASSING, INPUT).1
  {
    hide Run; hide Inv; hide Brimming; hide PointerInput; hide Misses; hide Blocking;
    RunSafe(Blocking());
    BlockingRuns();
    BrimmingPasses(Run(INITIAL, Blocking()));
  }
}
