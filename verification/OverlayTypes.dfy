/** Identities, events and window records of the overlay machine, with its queue accounting. */
module OverlayTypes {
  import opened Wrappers
  import opened Words
  import opened Unicode
  import opened Scalars

  const MAX_WINDOWS: nat := 256
  const MAX_WINDOWS_PER_OWNER: nat := 32
  const MAX_PENDING_EVENTS: nat := 256
  const MAX_EVENT_TEXT_BYTES: nat := 4096
  const MAX_EVENT_QUEUE_BYTES: nat := 128 * 1024
  const MAX_OWNERS: nat := 16
  const MAX_CLICKS: nat := 3
  const MAX_BUTTON: nat := 31
  const KNOWN_MODIFIERS: nat := 63

  datatype Owner = Owner(presenter: nat, sessionId: u64)
  datatype Id = Id(owner: Owner, contextId: u64, surfaceId: u64)

  datatype WindowMode = Floating | Popup | Modal
  datatype DismissReason = Escape | OutsidePress | Closed | OwnerLost | ParentClosed
  datatype ScrollPhase = Steady | Began | Changed | Ended | Cancelled
  datatype HitRole = Input | Drag | Resize(edges: byte) | Transparent
  datatype HitRegion = HitRegion(id: u64, role: HitRole, cursor: Option<nat>)

  datatype Button = Button(id: u16, down: bool)

  datatype Event =
    | Focus(focused: bool)
    | Pointer(position: Point, region: u64, button: Option<Button>, modifiers: u32, clicks: byte,
              pressure: Option<Scalar>)
    | Accessibility(node: u64, action: nat)
    | Hover(region: u64, entered: bool)
    | Wheel(position: Point, dx: Scalar, dy: Scalar, modifiers: u32, precise: bool, phase: ScrollPhase)
    | Key(physical: u32, down: bool, repeats: bool, modifiers: u32)
    | Text(text: Utf8)
    | Ime(preedit: Utf8, selection: Option<(u32, u32)>)
    | Geometry(bounds: Rect, settled: bool)
    | Dismissed(reason: DismissReason)
    | Cancel

  datatype WindowEvent =
    WindowEvent(window: Id, generation: u64, revision: u64, sceneRevision: u64, event: Event)

  datatype WindowOptions =
    WindowOptions(bounds: Rect, mode: WindowMode, visible: bool, parent: Option<Id>,
                  minWidth: Scalar, minHeight: Scalar)

  predicate ValidOptions(o: WindowOptions) {
    ValidRect(o.bounds) && o.minWidth > 0 && o.minHeight > 0 &&
    o.bounds.width >= o.minWidth && o.bounds.height >= o.minHeight
  }

  /** One live window; the map key stands for its identity. */
  datatype Window = Window(generation: u64, revision: u64, sceneRevision: u64, options: WindowOptions)

  datatype PointerReport =
    PointerReport(position: Point, button: Option<Button>, modifiers: u32, clicks: byte, pressure: Option<Scalar>)

  datatype Scroll = Scroll(dx: Scalar, dy: Scalar, precise: bool, phase: ScrollPhase)
  datatype Capture =
    Capture(window: Id, role: HitRole, start: Point, bounds: Rect, region: u64, cursor: Option<nat>)
  datatype Hovering = Hovering(window: Id, region: u64, cursor: Option<nat>)

  datatype WindowAction = Close | Focused | Raise | Lower | Center
  datatype Action =
    Action(contextId: u64, surfaceId: u64, generation: u64, expectedRevision: u64, action: WindowAction)
  datatype Viewport = Viewport(width: Scalar, height: Scalar, scaleNumerator: u32, scaleDenominator: u32)

  datatype Refusal =
    | BadOptions | ZeroIdentity | AlreadyExists | OwnerRevoked | OwnerLimit | WindowLimit | BadParent
    | OtherModal | OutsideModal | Missing | Stale | Immutable | Exhausted | Ineligible | BadAction
    | BadViewport | BadGeometry | LostDuringAction

  // ---- Event accounting --------------------------------------------------------------------

  function EventBytes(e: Event): nat {
    128 + match e
          case Text(text) => |text|
          case Ime(preedit, _) => |preedit|
          case _ => 0
  }

  function QueueBytes(q: seq<WindowEvent>): nat {
    if q == [] then 0 else QueueBytes(q[..|q| - 1]) + EventBytes(q[|q| - 1].event)
  }

  predicate CharBoundary(s: seq<byte>, i: nat) {
    i == 0 || i == |s| || (i < |s| && !Continues(s[i]))
  }

  predicate ValidEvent(e: Event) {
    match e
    case Pointer(_, _, button, modifiers, clicks, pressure) =>
      modifiers <= KNOWN_MODIFIERS && (button.Some? ==> button.value.id <= MAX_BUTTON) && clicks <= MAX_CLICKS &&
      (pressure.Some? ==> 0 <= pressure.value <= ONE)
    case Wheel(_, _, _, modifiers, _, _) => modifiers <= KNOWN_MODIFIERS
    case Key(physical, _, _, modifiers) =>
      modifiers <= KNOWN_MODIFIERS && (physical == 0 || 0x04 <= physical <= 0xe7)
    case Accessibility(node, _) => node != 0
    case Geometry(bounds, _) => ValidRect(bounds)
    case Text(text) => |text| <= MAX_EVENT_TEXT_BYTES
    case Ime(preedit, selection) =>
      |preedit| <= MAX_EVENT_TEXT_BYTES &&
      (selection.Some? ==>
         var (start, end) := selection.value;
         start <= end <= |preedit| && CharBoundary(preedit, start) && CharBoundary(preedit, end))
    case _ => true
  }

  /** Pure motion and unsettled geometry: the only kinds a newer event may replace. */
  predicate Replaceable(e: Event) {
    (e.Pointer? && e.button.None?) || (e.Geometry? && !e.settled)
  }

  /** Whether `next` replaces an immediately preceding `last` of one queue. */
  predicate CanReplace(last: WindowEvent, next: WindowEvent) {
    last.window == next.window && last.sceneRevision == next.sceneRevision &&
    Replaceable(last.event) && Replaceable(next.event) && last.event.Pointer? == next.event.Pointer?
  }

  predicate Coalesces(q: seq<WindowEvent>, e: WindowEvent) {
    q != [] && CanReplace(q[|q| - 1], e)
  }

  /** The queue an arriving event is weighed against. */
  function Base(q: seq<WindowEvent>, e: WindowEvent): seq<WindowEvent> {
    if Coalesces(q, e) then q[..|q| - 1] else q
  }

  predicate Overfull(q: seq<WindowEvent>, e: WindowEvent) {
    |Base(q, e)| >= MAX_PENDING_EVENTS || QueueBytes(Base(q, e)) + EventBytes(e.event) > MAX_EVENT_QUEUE_BYTES
  }
}
