/**
 The window machine as functions from state to state: window map, stacking order, parent forest,
 focus history, pointer capture and bounded per-owner event queues. A full queue revokes its owner
 in the middle of whatever operation emitted the event, and revocation can restore focus and emit
 again, so `Emit`, `Revoke`, `Restore` and `ChangeFocus` are mutually recursive.
 */
module OverlayModel {
  import opened Wrappers
  import opened Words
  import opened Scalars
  import opened OverlayTypes

  /** History of one queue since it was opened: every event accepted into it, and every event taken. */
  datatype Delivery = Delivery(emitted: seq<WindowEvent>, taken: seq<WindowEvent>)

  datatype State = State(
    windows: map<Id, Window>,
    stack: seq<Id>,
    focus: Option<Id>,
    hover: Option<Hovering>,
    focusHistory: seq<Id>,
    swallowedButtons: set<u16>,
    swallowedEscape: bool,
    capture: Option<Capture>,
    events: map<Owner, seq<WindowEvent>>,
    overflowed: set<Owner>,
    deliveries: map<Owner, Delivery>)

  const INITIAL := State(map[], [], None, None, [], {}, false, None, map[], {}, map[])

  // ---- Walks over the parent forest --------------------------------------------------------

  function Parent(windows: map<Id, Window>, id: Id): Option<Id> {
    if id in windows then windows[id].options.parent else None
  }

  /** At most `fuel` steps up the parent chain. */
  predicate DescendsWithin(windows: map<Id, Window>, id: Id, ancestor: Id, fuel: nat)
    decreases fuel
  {
    fuel > 0 &&
    (id == ancestor ||
     (Parent(windows, id).Some? && DescendsWithin(windows, Parent(windows, id).value, ancestor, fuel - 1)))
  }

  predicate Descends(windows: map<Id, Window>, id: Id, ancestor: Id) {
    DescendsWithin(windows, id, ancestor, MAX_WINDOWS)
  }

  predicate VisibleWithin(windows: map<Id, Window>, id: Id, fuel: nat)
    decreases fuel
  {
    fuel > 0 && id in windows && windows[id].options.visible &&
    (windows[id].options.parent.None? || VisibleWithin(windows, windows[id].options.parent.value, fuel - 1))
  }

  predicate EffectivelyVisible(windows: map<Id, Window>, id: Id) {
    VisibleWithin(windows, id, MAX_WINDOWS)
  }

  /** The foremost effectively visible modal. */
  function LastModal(windows: map<Id, Window>, stack: seq<Id>): (modal: Option<Id>)
    ensures modal.Some? ==> modal.value in stack && modal.value in windows
    ensures modal.Some? ==> EffectivelyVisible(windows, modal.value) && windows[modal.value].options.mode.Modal?
  {
    if stack == [] then None
    else
      var id := stack[|stack| - 1];
      if EffectivelyVisible(windows, id) && windows[id].options.mode.Modal? then Some(id)
      else LastModal(windows, stack[..|stack| - 1])
  }

  function TopModal(s: State): Option<Id> {
    LastModal(s.windows, s.stack)
  }

  predicate EligibleIn(windows: map<Id, Window>, stack: seq<Id>, id: Id) {
    var modal := LastModal(windows, stack);
    EffectivelyVisible(windows, id) && (modal.None? || Descends(windows, id, modal.value))
  }

  predicate Eligible(s: State, id: Id) {
    EligibleIn(s.windows, s.stack, id)
  }

  /** The foremost popup of `rest` that may take input. */
  function LastPopup(windows: map<Id, Window>, stack: seq<Id>, rest: seq<Id>): (popup: Option<Id>)
    ensures popup.Some? ==> popup.value in windows
  {
    if rest == [] then None
    else
      var id := rest[|rest| - 1];
      if EffectivelyVisible(windows, id) && windows[id].options.mode.Popup? && EligibleIn(windows, stack, id)
      then Some(id)
      else LastPopup(windows, stack, rest[..|rest| - 1])
  }

  function FrontPopup(s: State): (popup: Option<Id>)
    ensures popup.Some? ==> popup.value in s.windows
  {
    LastPopup(s.windows, s.stack, s.stack)
  }

  /** The most recently focused window that may take focus now. */
  function LastEligible(windows: map<Id, Window>, stack: seq<Id>, ids: seq<Id>): (id: Option<Id>)
    ensures id.Some? ==> id.value in ids && EligibleIn(windows, stack, id.value)
  {
    if ids == [] then None
    else if EligibleIn(windows, stack, ids[|ids| - 1]) then Some(ids[|ids| - 1])
    else LastEligible(windows, stack, ids[..|ids| - 1])
  }

  function FocusCandidate(s: State): (id: Option<Id>)
    ensures id.Some? ==> id.value in s.focusHistory && Eligible(s, id.value)
  {
    LastEligible(s.windows, s.stack, s.focusHistory)
  }

  // ---- Order-preserving selections from the stack and the focus history --------------------

  function Filter(ids: seq<Id>, keep: Id -> bool): (kept: seq<Id>)
    ensures forall id :: id in kept <==> id in ids && keep(id)
  {
    if ids == [] then []
    else
      var front := Filter(ids[..|ids| - 1], keep);
      var last := ids[|ids| - 1];
      assert ids == ids[..|ids| - 1] + [last];
      if keep(last) then front + [last] else front
  }

  function Subtree(windows: map<Id, Window>, ids: seq<Id>, root: Id): seq<Id> {
    Filter(ids, (id: Id) => Descends(windows, id, root))
  }

  function OutsideSubtree(windows: map<Id, Window>, ids: seq<Id>, root: Id): seq<Id> {
    Filter(ids, (id: Id) => !Descends(windows, id, root))
  }

  function Without(ids: seq<Id>, gone: Id): seq<Id> {
    Filter(ids, (id: Id) => id != gone)
  }

  function Unowned(ids: seq<Id>, owner: Owner): seq<Id> {
    Filter(ids, (id: Id) => id.owner != owner)
  }

  function Served(ids: seq<Id>, owners: set<Owner>): seq<Id> {
    Filter(ids, (id: Id) => id.owner in owners)
  }

  // ---- Emission, revocation and focus ------------------------------------------------------

  /** Everything `owner` had, gone; the focus field is left to `Revoke`. */
  function DropOwner(s: State, owner: Owner): State {
    s.(windows := map id | id in s.windows && id.owner != owner :: s.windows[id],
       stack := Unowned(s.stack, owner),
       focusHistory := Unowned(s.focusHistory, owner),
       capture := if s.capture.Some? && s.capture.value.window.owner == owner then None else s.capture,
       events := s.events - {owner},
       deliveries := s.deliveries - {owner},
       overflowed := s.overflowed - {owner})
  }

  function Revoke(s: State, owner: Owner): (r: State)
    ensures r.events.Keys <= s.events.Keys - {owner}
    decreases s.events.Keys - {owner}, 3
  {
    var dropped := DropOwner(s, owner);
    if s.focus.Some? && s.focus.value.owner == owner then Restore(dropped.(focus := None)) else dropped
  }

  function Restore(s: State): (r: State)
    ensures r.events.Keys <= s.events.Keys
    decreases s.events.Keys, 2
  {
    ChangeFocus(s, FocusCandidate(s))
  }

  function ChangeFocus(s: State, next: Option<Id>): (r: State)
    ensures r.events.Keys <= s.events.Keys
    decreases s.events.Keys, 1
  {
    if s.focus == next then s
    else
      var entering := LeaveFocus(s).(focus := next);
      if next.None? then entering else Emit(entering, next.value, Focus(true))
  }

  /** The old holder is told its input is cancelled, then that its focus is gone. */
  function LeaveFocus(s: State): (r: State)
    ensures r.events.Keys <= s.events.Keys
    decreases s.events.Keys, 0, 1
  {
    if s.focus.None? then s
    else
      var cancelled := Emit(s.(focus := None), s.focus.value, Cancel);
      Emit(cancelled, s.focus.value, Focus(false))
  }

  function Emit(s: State, id: Id, event: Event): (r: State)
    ensures r.events.Keys <= s.events.Keys
    decreases s.events.Keys, if ValidEvent(event) then 0 else 5, 0
  {
    if !ValidEvent(event) then Overflow(s, id.owner)
    else if id !in s.windows || id.owner !in s.events then s
    else
      var e := Stamp(s.windows[id], id, event);
      if Overfull(s.events[id.owner], e) then Overflow(s, id.owner) else Enqueue(s, e)
  }

  /** The owner loses everything and the host is told so exactly once. */
  function Overflow(s: State, owner: Owner): (r: State)
    ensures r.events.Keys <= s.events.Keys - {owner}
    decreases s.events.Keys - {owner}, 4
  {
    var revoked := Revoke(s, owner);
    revoked.(overflowed := revoked.overflowed + {owner})
  }

  function Stamp(w: Window, id: Id, event: Event): WindowEvent {
    WindowEvent(id, w.generation, w.revision, w.sceneRevision, event)
  }

  function Enqueue(s: State, e: WindowEvent): State
    requires e.window.owner in s.events
  {
    var owner := e.window.owner;
    var queue := s.events[owner];
    var delivery := if owner in s.deliveries then s.deliveries[owner] else Delivery([], []);
    s.(events := s.events[owner := Base(queue, e) + [e]],
       deliveries := s.deliveries[owner := delivery.(emitted := delivery.emitted + [e])])
  }

  function CancelCapture(s: State, id: Id): State {
    if s.capture.Some? && s.capture.value.window == id then Emit(s.(capture := None), id, Cancel) else s
  }

  function CancelCaptures(s: State, ids: seq<Id>): State
    decreases |ids|
  {
    if ids == [] then s else CancelCaptures(CancelCapture(s, ids[0]), ids[1..])
  }

  function SetHover(s: State, next: Option<Hovering>): State {
    if (s.hover.None? && next.None?) ||
       (s.hover.Some? && next.Some? && s.hover.value.window == next.value.window
        && s.hover.value.region == next.value.region)
    then s.(hover := next)
    else
      var left := if s.hover.None? then s
                  else Emit(s, s.hover.value.window, Hover(s.hover.value.region, false));
      var moved := left.(hover := next);
      if next.None? then moved else Emit(moved, next.value.window, Hover(next.value.region, true))
  }

  function RaiseGroup(s: State, id: Id): State {
    s.(stack := OutsideSubtree(s.windows, s.stack, id) + Subtree(s.windows, s.stack, id))
  }

  /** Below every window but its own parent chain: directly above its parent, or at the bottom. */
  function LowerGroup(s: State, id: Id): State {
    var others := OutsideSubtree(s.windows, s.stack, id);
    var index := AboveParent(others, Parent(s.windows, id));
    s.(stack := others[..index] + Subtree(s.windows, s.stack, id) + others[index..])
  }

  function AboveParent(ids: seq<Id>, parent: Option<Id>): (index: nat)
    ensures index <= |ids|
    ensures parent.Some? && parent.value in ids ==> parent.value in ids[..index]
  {
    if parent.None? || ids == [] then 0
    else if ids[0] == parent.value then 1
    else if AboveParent(ids[1..], parent) == 0 then 0
    else
      assert parent.value in ids[1..] ==> parent.value in ids[1..][..AboveParent(ids[1..], parent)];
      assert ids == [ids[0]] + ids[1..];
      1 + AboveParent(ids[1..], parent)
  }

  function RequestFocus(s: State, id: Id): (State, Result<(), Refusal>) {
    if !Eligible(s, id) then (s, Err(Ineligible))
    else
      var raised := RaiseGroup(s, id);
      (ChangeFocus(raised.(focusHistory := Without(s.focusHistory, id) + [id]), Some(id)), Ok(()))
  }

  // ---- Lifecycle ---------------------------------------------------------------------------

  function OwnedWindows(windows: map<Id, Window>, owner: Owner): set<Id> {
    set id | id in windows && id.owner == owner
  }

  function CreateRefusal(s: State, id: Id, generation: u64, options: WindowOptions): Option<Refusal> {
    var modal := TopModal(s);
    if !ValidOptions(options) then Some(BadOptions)
    else if generation == 0 || id.contextId == 0 || id.surfaceId == 0 then Some(ZeroIdentity)
    else if id in s.windows then Some(AlreadyExists)
    else if id.owner in s.overflowed then Some(OwnerRevoked)
    else if id.owner !in s.events && |s.events| + |s.overflowed| >= MAX_OWNERS then Some(OwnerLimit)
    else if |s.windows| >= MAX_WINDOWS || |OwnedWindows(s.windows, id.owner)| >= MAX_WINDOWS_PER_OWNER
    then Some(WindowLimit)
    else if options.parent.Some? && (options.parent.value.owner != id.owner || options.parent.value !in s.windows)
    then Some(BadParent)
    else if options.visible && options.mode.Modal? && modal.Some? && modal.value.owner != id.owner
    then Some(OtherModal)
    else if options.visible && options.mode.Popup? && modal.Some? &&
            !(options.parent.Some? && Descends(s.windows, options.parent.value, modal.value))
    then Some(OutsideModal)
    else None
  }

  function Insert(s: State, id: Id, generation: u64, options: WindowOptions): State {
    var served := if id.owner in s.events then s
                  else s.(events := s.events[id.owner := []],
                          deliveries := s.deliveries[id.owner := Delivery([], [])]);
    served.(windows := s.windows[id := Window(generation, 1, 0, options)], stack := s.stack + [id])
  }

  function Create(s: State, id: Id, generation: u64, options: WindowOptions): (State, Result<(), Refusal>) {
    var refusal := CreateRefusal(s, id, generation, options);
    if refusal.Some? then (s, Err(refusal.value))
    else
      var inserted := Insert(s, id, generation, options);
      if options.visible && !options.mode.Floating? then RequestFocus(inserted, id) else (inserted, Ok(()))
  }

  function PublishScene(s: State, id: Id, generation: u64, sceneRevision: u64): (State, Result<(), Refusal>) {
    if id !in s.windows then (s, Err(Missing))
    else
      var w := s.windows[id];
      if w.generation != generation || sceneRevision == 0 || sceneRevision <= w.sceneRevision then (s, Err(Stale))
      else (s.(windows := s.windows[id := w.(sceneRevision := sceneRevision)]), Ok(()))
  }

  function RemoveOne(s: State, id: Id, reason: DismissReason): State {
    var uncaptured := CancelCapture(s, id);
    var unhovered := if uncaptured.hover.Some? && uncaptured.hover.value.window == id
                     then SetHover(uncaptured, None) else uncaptured;
    var unfocused := if unhovered.focus == Some(id) then ChangeFocus(unhovered, None) else unhovered;
    Forget(Emit(unfocused, id, Dismissed(reason)), id)
  }

  function Forget(s: State, id: Id): State {
    s.(windows := s.windows - {id}, stack := Without(s.stack, id), focusHistory := Without(s.focusHistory, id))
  }

  /** Foremost first, so a child always goes before its parent. */
  function RemoveAll(s: State, ids: seq<Id>): State
    decreases |ids|
  {
    if ids == [] then s
    else RemoveAll(RemoveOne(s, ids[|ids| - 1], ParentClosed), ids[..|ids| - 1])
  }

  function CloseWindow(s: State, id: Id, reason: DismissReason): State {
    var cleared := RemoveAll(s, Without(Subtree(s.windows, s.stack, id), id));
    Restore(RemoveOne(cleared, id, reason))
  }

  function UpdateRefusal(s: State, id: Id, generation: u64, revision: u64, options: WindowOptions): Option<Refusal> {
    var modal := TopModal(s);
    if !ValidOptions(options) then Some(BadOptions)
    else if id !in s.windows then Some(Missing)
    else if s.windows[id].generation != generation || s.windows[id].revision != revision then Some(Stale)
    else if options.parent != s.windows[id].options.parent || options.mode != s.windows[id].options.mode
    then Some(Immutable)
    else if options.visible && options.mode.Modal? && modal.Some? && modal.value.owner != id.owner
    then Some(OtherModal)
    else if options.visible && options.mode.Popup? && modal.Some? && !Descends(s.windows, id, modal.value)
    then Some(OutsideModal)
    else if revision == U64_MAX then Some(Exhausted)
    else None
  }

  function Hide(s: State, id: Id): State {
    var released := CancelCaptures(s, Subtree(s.windows, s.stack, id));
    if released.focus.Some? && Descends(released.windows, released.focus.value, id)
    then Restore(ChangeFocus(released, None)) else released
  }

  function Update(s: State, id: Id, generation: u64, revision: u64, options: WindowOptions)
    : (State, Result<u64, Refusal>)
  {
    var refusal := UpdateRefusal(s, id, generation, revision, options);
    if refusal.Some? then (s, Err(refusal.value))
    else
      var was := s.windows[id];
      var written := s.(windows := s.windows[id := was.(options := options, revision := revision + 1)]);
      var hidden := if was.options.visible && !options.visible then Hide(written, id) else written;
      if !was.options.visible && options.visible && !options.mode.Floating? then
        var (focused, r) := RequestFocus(hidden, id);
        (focused, if r.Err? then Err(r.error) else Ok(revision + 1))
      else (hidden, Ok(revision + 1))
  }

  function Centred(extent: int, size: int): int {
    if extent <= size then 0 else (extent - size + 1) / 2
  }

  function ApplyAction(s: State, owner: Owner, action: Action, viewport: Viewport)
    : (State, Result<Option<u64>, Refusal>)
  {
    var id := Id(owner, action.contextId, action.surfaceId);
    if action.contextId == 0 || action.surfaceId == 0 || action.generation == 0 || action.expectedRevision == 0
    then (s, Err(BadAction))
    else if id !in s.windows then (s, Err(Missing))
    else
      var was := s.windows[id];
      if was.generation != action.generation || was.revision != action.expectedRevision then (s, Err(Stale))
      else if action.action.Close? then (CloseWindow(s, id, Closed), Ok(None))
      else if was.revision == U64_MAX then (s, Err(Exhausted))
      else
        var (acted, bounds) := ActOn(s, id, action.action, viewport);
        if bounds.Err? then (acted, Err(bounds.error))
        else Advance(acted, id, was.revision + 1, bounds.value)
  }

  /** The action itself, and the centred bounds when it asks for some. */
  function ActOn(s: State, id: Id, action: WindowAction, viewport: Viewport): (State, Result<Option<Rect>, Refusal>)
    requires id in s.windows
  {
    match action
    case Focused =>
      var (focused, r) := RequestFocus(s, id);
      (focused, if r.Err? then Err(r.error) else Ok(None))
    case Raise => if !Eligible(s, id) then (s, Err(Ineligible)) else (RaiseGroup(s, id), Ok(None))
    case Lower =>
      if !Eligible(s, id) || TopModal(s).Some? then (s, Err(Ineligible)) else (LowerGroup(s, id), Ok(None))
    case Center =>
      var was := s.windows[id].options.bounds;
      if viewport.width <= 0 || viewport.height <= 0 || viewport.scaleNumerator == 0 || viewport.scaleDenominator == 0
      then (s, Err(BadViewport))
      else
        var bounds := NewRect(Centred(viewport.width, was.width), Centred(viewport.height, was.height),
                              was.width, was.height);
        (s, if bounds.None? then Err(BadGeometry) else Ok(bounds))
    case Close => (s, Ok(None))
  }

  function Advance(s: State, id: Id, revision: u64, bounds: Option<Rect>): (State, Result<Option<u64>, Refusal>) {
    if id !in s.windows then (s, Err(LostDuringAction))
    else if bounds.None? then
      (s.(windows := s.windows[id := s.windows[id].(revision := revision)]), Ok(Some(revision)))
    else (Move(s, id, revision, bounds.value, true), Ok(Some(revision)))
  }

  function Move(s: State, id: Id, revision: u64, bounds: Rect, settled: bool): State
    requires id in s.windows
  {
    var w := s.windows[id];
    var moved := w.(revision := revision, options := w.options.(bounds := bounds));
    Emit(s.(windows := s.windows[id := moved]), id, Geometry(bounds, settled))
  }

  function SetPaneFocus(s: State, focused: bool): State {
    if focused then Restore(s)
    else
      var released := if s.capture.None? then s else Emit(s.(capture := None), s.capture.value.window, Cancel);
      ChangeFocus(released, None).(swallowedButtons := {}, swallowedEscape := false)
  }

  function TakeOverflow(s: State, owner: Owner): (State, bool) {
    (s.(overflowed := s.overflowed - {owner}), owner in s.overflowed)
  }

  function TakeEvent(s: State, owner: Owner): (State, Option<WindowEvent>) {
    if owner !in s.events then (s, None)
    else
      var queue := s.events[owner];
      var rest := if queue == [] then [] else queue[1..];
      var event := if queue == [] then None else Some(queue[0]);
      if rest == [] && OwnedWindows(s.windows, owner) == {} then
        (s.(events := s.events - {owner}, deliveries := s.deliveries - {owner}), event)
      else
        var delivery := if owner in s.deliveries then s.deliveries[owner] else Delivery([], []);
        var taken := if queue == [] then delivery else delivery.(taken := delivery.taken + [queue[0]]);
        (s.(events := s.events[owner := rest], deliveries := s.deliveries[owner := taken]), event)
  }

  // ---- Input -------------------------------------------------------------------------------

  function CapturePointer(s: State, id: Id, position: Point): (State, Result<(), Refusal>) {
    if !Eligible(s, id) || s.focus != Some(id) then (s, Err(Ineligible))
    else
      var cursor := if s.hover.Some? && s.hover.value.window == id then s.hover.value.cursor else None;
      (s.(capture := Some(Capture(id, Input, position, s.windows[id].options.bounds, 0, cursor))), Ok(()))
  }

  function ReleasePointer(s: State, id: Id): State {
    if s.capture.Some? && s.capture.value.window == id then s.(capture := None) else s
  }

  function Keyboard(s: State, event: Event, escape: bool): (State, bool) {
    if escape && s.swallowedEscape then
      (if event.Key? && !event.down then s.(swallowedEscape := false) else s, true)
    else if s.focus.None? || !Eligible(s, s.focus.value) then (s, TopModal(s).Some?)
    else if escape && event.Key? && event.down && !event.repeats
            && !s.windows[s.focus.value].options.mode.Floating? then
      (CloseWindow(s.(swallowedEscape := true), s.focus.value, Escape), true)
    else (Emit(s, s.focus.value, event), true)
  }

  /** A hit test, answering with the region under a window-local point. */
  type HitTest = (Id, Point) -> Option<HitRegion>

  datatype Target = Target(id: Id, local: Point, region: HitRegion)

  function TargetIn(windows: map<Id, Window>, stack: seq<Id>, rest: seq<Id>, position: Point, hit: HitTest)
    : (t: Option<Target>)
    ensures t.Some? ==> t.value.id in windows
  {
    if rest == [] then None
    else
      var id := rest[|rest| - 1];
      var below := TargetIn(windows, stack, rest[..|rest| - 1], position, hit);
      if !EligibleIn(windows, stack, id) || !Contains(windows[id].options.bounds, position) then below
      else
        var local := Local(windows[id].options.bounds, position);
        if local.None? then below
        else
          var region := hit(id, local.value);
          if region.None? || region.value.role.Transparent? then below
          else Some(Target(id, local.value, region.value))
  }

  function TargetAt(s: State, position: Point, hit: HitTest): (t: Option<Target>)
    ensures t.Some? ==> t.value.id in s.windows
  {
    TargetIn(s.windows, s.stack, s.stack, position, hit)
  }

  function Scrolled(s: State, position: Point, scroll: Scroll, modifiers: u32, hit: HitTest): (State, bool) {
    var target := TargetAt(s, position, hit);
    if target.None? then (s, TopModal(s).Some?)
    else
      (Emit(s, target.value.id,
            Wheel(target.value.local, scroll.dx, scroll.dy, modifiers, scroll.precise, scroll.phase)), true)
  }

  function RefreshHover(s: State, position: Point, hit: HitTest): State {
    var target := TargetAt(s, position, hit);
    SetHover(s, if target.None? then None else Some(HoverOf(target.value)))
  }

  function HoverOf(t: Target): Hovering {
    Hovering(t.id, t.region.id, t.region.cursor)
  }

  function Max(a: int, b: int): int {
    if a >= b then a else b
  }

  /** Left, top, right and bottom are bits 0 to 3 of the edge mask. */
  predicate Edge(edges: nat, bit: nat)
    requires bit == 1 || bit == 2 || bit == 4 || bit == 8
  {
    edges / bit % 2 == 1
  }

  /** Where a captured gesture puts its window; the minimum size is the window's current one. */
  function Dragged(c: Capture, options: WindowOptions, p: Point): Option<Rect> {
    var (dx, dy) := (p.x - c.start.x, p.y - c.start.y);
    var b := c.bounds;
    match c.role
    case Drag => NewRect(b.origin.x + dx, b.origin.y + dy, b.width, b.height)
    case Resize(edges) =>
      var leftWidth := if Edge(edges, 1) then Max(b.width - dx, options.minWidth) else b.width;
      var topHeight := if Edge(edges, 2) then Max(b.height - dy, options.minHeight) else b.height;
      NewRect(b.origin.x + b.width - leftWidth, b.origin.y + b.height - topHeight,
              if Edge(edges, 4) then Max(leftWidth + dx, options.minWidth) else leftWidth,
              if Edge(edges, 8) then Max(topHeight + dy, options.minHeight) else topHeight)
    case _ => None
  }

  function Gesture(s: State, c: Capture, p: Point, settled: bool): State {
    if c.window !in s.windows then s
    else
      var w := s.windows[c.window];
      var bounds := Dragged(c, w.options, p);
      if bounds.None? then s
      else if w.revision == U64_MAX then CloseWindow(s, c.window, Closed)
      else Move(s, c.window, w.revision + 1, bounds.value, settled)
  }

  function PointerEvent(report: PointerReport, local: Point, region: u64): Event {
    Pointer(local, region, report.button, report.modifiers, report.clicks, report.pressure)
  }

  predicate Pressed(report: PointerReport) {
    report.button.Some? && report.button.value.down
  }

  predicate Released(report: PointerReport) {
    report.button.Some? && !report.button.value.down
  }

  predicate Draggable(role: HitRole) {
    role.Drag? || role.Resize?
  }

  function PointerInput(s: State, report: PointerReport, hit: HitTest): (State, bool) {
    if report.button.Some? && report.button.value.id in s.swallowedButtons then
      (if report.button.value.down then s
       else s.(swallowedButtons := s.swallowedButtons - {report.button.value.id}), true)
    else if s.capture.Some? then CapturedInput(s, s.capture.value, report, hit)
    else
      var popup := FrontPopup(s);
      if popup.Some? && Pressed(report) && !Contains(s.windows[popup.value].options.bounds, report.position) then
        (CloseWindow(s.(swallowedButtons := s.swallowedButtons + {report.button.value.id}), popup.value, OutsidePress),
         true)
      else
        var target := TargetAt(s, report.position, hit);
        if target.None? then MissedInput(SetHover(s, None), report)
        else (TargetInput(s, target.value, report), true)
  }

  function CapturedInput(s: State, c: Capture, report: PointerReport, hit: HitTest): (State, bool)
    requires s.capture == Some(c)
  {
    if !Eligible(s, c.window) then
      var cancelled := CancelCapture(s, c.window);
      (cancelled, TopModal(cancelled).Some?)
    else
      var routed := RouteCaptured(s, c, report);
      (if Released(report) then RefreshHover(routed.(capture := None), report.position, hit) else routed, true)
  }

  function RouteCaptured(s: State, c: Capture, report: PointerReport): State
    requires c.window in s.windows
  {
    if Draggable(c.role) then Gesture(s, c, report.position, Released(report))
    else
      var local := Local(s.windows[c.window].options.bounds, report.position);
      if local.None? then s else Emit(s, c.window, PointerEvent(report, local.value, c.region))
  }

  function MissedInput(s: State, report: PointerReport): (State, bool) {
    var blocked := TopModal(s).Some?;
    (if !blocked && Pressed(report) then ChangeFocus(s, None).(focusHistory := []) else s, blocked)
  }

  function TargetInput(s: State, t: Target, report: PointerReport): State {
    var pressed := if Pressed(report) then PressOn(s, t, report.position) else s;
    Emit(SetHover(pressed, Some(HoverOf(t))), t.id, PointerEvent(report, t.local, t.region.id))
  }

  function PressOn(s: State, t: Target, position: Point): State {
    var focused := RequestFocus(s, t.id).0;
    if Draggable(t.region.role) && t.id in focused.windows then
      focused.(capture := Some(Capture(t.id, t.region.role, position, focused.windows[t.id].options.bounds,
                                       t.region.id, t.region.cursor)))
    else focused
  }
}
