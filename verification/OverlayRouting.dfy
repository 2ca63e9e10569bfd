/** Where input goes: the frontmost taker, never past a modal, and swallowed to its end after a dismissal. */
module OverlayRouting {
  import opened Wrappers
  import opened Words
  import opened Scalars
  import opened OverlayTypes
  import opened OverlayModel
  import opened OverlayInvariant
  import opened OverlayRevocation
  import opened OverlaySafety
  import opened OverlayRuns

  // ---- The frontmost taker -----------------------------------------------------------------

  /** The window would take a pointer at `position`: eligible, under it, and hit by an opaque region. */
  predicate Takes(s: State, id: Id, position: Point, hit: HitTest) {
    Eligible(s, id) && Contains(s.windows[id].options.bounds, position) &&
    var local := Local(s.windows[id].options.bounds, position);
    local.Some? && hit(id, local.value).Some? && !hit(id, local.value).value.role.Transparent?
  }

  function Taken(s: State, id: Id, position: Point, hit: HitTest): Target
    requires Takes(s, id, position, hit)
  {
    var local := Local(s.windows[id].options.bounds, position).value;
    Target(id, local, hit(id, local).value)
  }

  lemma {:induction false} FrontmostIn(s: State, rest: seq<Id>, position: Point, hit: HitTest)
    ensures var t := TargetIn(s.windows, s.stack, rest, position, hit);
            if t.None? then forall k :: 0 <= k < |rest| ==> !Takes(s, rest[k], position, hit)
            else exists k :: 0 <= k < |rest| && Takes(s, rest[k], position, hit) &&
                             t.value == Taken(s, rest[k], position, hit) &&
                             forall j :: k < j < |rest| ==> !Takes(s, rest[j], position, hit)
    decreases |rest|
  {
    hide EligibleIn; hide Contains; hide Local;
    if rest != [] {
      var n := |rest| - 1;
      FrontmostIn(s, rest[..n], position, hit);
      if Takes(s, rest[n], position, hit) {
        assert rest[n] == rest[|rest| - 1];
      }
    }
  }

  /** A pointer goes to the frontmost window that takes it, with that window's own region; nothing else gets it. */
  lemma {:induction false} FrontmostTakes(s: State, position: Point, hit: HitTest)
    ensures var t := TargetAt(s, position, hit);
            if t.None? then forall k :: 0 <= k < |s.stack| ==> !Takes(s, s.stack[k], position, hit)
            else exists k :: 0 <= k < |s.stack| && Takes(s, s.stack[k], position, hit) &&
                             t.value == Taken(s, s.stack[k], position, hit) &&
                             forall j :: k < j < |s.stack| ==> !Takes(s, s.stack[j], position, hit)
  {
    FrontmostIn(s, s.stack, position, hit);
  }

  // ---- Modals ------------------------------------------------------------------------------

  lemma {:induction false} TargetEligible(s: State, rest: seq<Id>, position: Point, hit: HitTest)
    ensures var t := TargetIn(s.windows, s.stack, rest, position, hit); t.Some? ==> Eligible(s, t.value.id)
    decreases |rest|
  {
    hide EligibleIn;
    if rest != [] {
      TargetEligible(s, rest[..|rest| - 1], position, hit);
    }
  }

  lemma {:induction false} PopupEligible(s: State, rest: seq<Id>)
    ensures LastPopup(s.windows, s.stack, rest).Some? ==> Eligible(s, LastPopup(s.windows, s.stack, rest).value)
    decreases |rest|
  {
    hide EligibleIn;
    if rest != [] {
      PopupEligible(s, rest[..|rest| - 1]);
    }
  }

  /** While a modal is up, everything that can be aimed at, focused or dismissed lies below it. */
  lemma {:induction false} ModalConfines(s: State, position: Point, hit: HitTest, id: Id)
    requires TopModal(s).Some?
    ensures var m := TopModal(s).value;
            (TargetAt(s, position, hit).Some? ==> Descends(s.windows, TargetAt(s, position, hit).value.id, m)) &&
            (FrontPopup(s).Some? ==> Descends(s.windows, FrontPopup(s).value, m)) &&
            (FocusCandidate(s).Some? ==> Descends(s.windows, FocusCandidate(s).value, m)) &&
            (RequestFocus(s, id).1.Ok? ==> Descends(s.windows, id, m))
  {
    hide Descends; hide LastModal;
    TargetEligible(s, s.stack, position, hit);
    PopupEligible(s, s.stack);
  }

  /** Keys and scrolling that find no taker below the modal are swallowed whole: consumed, and nothing changes. */
  lemma {:induction false} ModalSwallows(s: State, event: Event, position: Point, scroll: Scroll, modifiers: u32,
                                         hit: HitTest)
    requires TopModal(s).Some?
    ensures s.focus.None? || !Eligible(s, s.focus.value) ==> Keyboard(s, event, false) == (s, true)
    ensures TargetAt(s, position, hit).None? ==> Scrolled(s, position, scroll, modifiers, hit) == (s, true)
  {
    hide EligibleIn; hide TargetIn;
  }

  // ---- Captures end ------------------------------------------------------------------------

  /** A release ends the capture, whatever it set off on the way. */
  lemma {:induction false} ReleaseEndsCapture(s: State, c: Capture, report: PointerReport, hit: HitTest)
    requires Inv(s) && s.capture == Some(c) && Released(report)
    ensures CapturedInput(s, c, report, hit).0.capture.None?
  {
    hide Inv; hide EligibleIn; hide RouteCaptured; hide TargetIn; hide SetHover; hide LastModal; hide CancelCapture;
    if Eligible(s, c.window) {
      EligibleLive(s, c.window);
      LiveOwnerCounts(s, c.window);
      CapturedRoutes(s, c, report);
      var free := RouteCaptured(s, c, report).(capture := None);
      Loosened(RouteCaptured(s, c, report), free);
      SetHoverNoCapture(free, TargetHover(free, report.position, hit));
    } else {
      CancelFrees(s, c.window);
    }
  }

  function TargetHover(s: State, position: Point, hit: HitTest): Option<Hovering> {
    var t := TargetAt(s, position, hit);
    if t.None? then None else Some(HoverOf(t.value))
  }

  lemma {:induction false} CapturedRoutes(s: State, c: Capture, report: PointerReport)
    requires Inv(s) && s.capture == Some(c) && c.window in s.windows && c.window.owner in Owners(s)
    ensures Inv(RouteCaptured(s, c, report))
  {
    hide Inv; hide Gesture; hide Emit; hide ValidEvent; hide Owners;
    GestureSafe(s, c, report.position, Released(report));
    var local := Local(s.windows[c.window].options.bounds, report.position);
    if local.Some? {
      EmitSafe(s, c.window, PointerEvent(report, local.value, c.region));
    }
  }

  lemma {:induction false} CancelFrees(s: State, id: Id)
    requires Inv(s) && s.capture.Some? && s.capture.value.window == id
    ensures CancelCapture(s, id).capture.None?
  {
    hide Inv; hide Emit;
    var free := s.(capture := None);
    Loosened(s, free);
    EmitSafe(free, id, Cancel);
  }

  /** Moving the hover never starts a capture. */
  lemma {:induction false} SetHoverNoCapture(s: State, next: Option<Hovering>)
    requires Inv(s) && s.capture.None?
    ensures SetHover(s, next).capture.None?
  {
    hide Inv; hide Emit;
    var left := if s.hover.None? then s else Emit(s, s.hover.value.window, Hover(s.hover.value.region, false));
    if s.hover.Some? {
      EmitSafe(s, s.hover.value.window, Hover(s.hover.value.region, false));
    }
    var moved := left.(hover := next);
    CursorIgnored(left, moved);
    if next.Some? {
      EmitSafe(moved, next.value.window, Hover(next.value.region, true));
    }
  }

  // ---- Swallowed input ---------------------------------------------------------------------

  ghost predicate SameSwallow(s: State, r: State) {
    r.swallowedButtons == s.swallowedButtons && r.swallowedEscape == s.swallowedEscape
  }

  lemma {:induction false} SetHoverSwallow(s: State, next: Option<Hovering>)
    requires Inv(s)
    ensures SameSwallow(s, SetHover(s, next))
  {
    hide Inv; hide Emit;
    var left := if s.hover.None? then s else Emit(s, s.hover.value.window, Hover(s.hover.value.region, false));
    if s.hover.Some? {
      EmitSafe(s, s.hover.value.window, Hover(s.hover.value.region, false));
    }
    var moved := left.(hover := next);
    CursorIgnored(left, moved);
    if next.Some? {
      EmitSafe(moved, next.value.window, Hover(next.value.region, true));
    }
  }

  lemma {:induction false} CancelSwallow(s: State, id: Id)
    requires Inv(s)
    ensures SameSwallow(s, CancelCapture(s, id))
  {
    hide Inv; hide Emit;
    if s.capture.Some? && s.capture.value.window == id {
      var free := s.(capture := None);
      Loosened(s, free);
      EmitSafe(free, id, Cancel);
    }
  }

  lemma {:induction false} RemoveSwallow(s: State, id: Id, reason: DismissReason)
    requires Inv(s)
    ensures SameSwallow(s, RemoveOne(s, id, reason))
  {
    hide Inv; hide Emit; hide CancelCapture; hide SetHover; hide ChangeFocus; hide Reduced; hide Reported;
    var uncaptured := CancelCapture(s, id);
    CancelSwallow(s, id);
    CancelCaptureSafe(s, id);
    SetHoverSwallow(uncaptured, None);
    SetHoverSafe(uncaptured, None);
    var unhovered := if uncaptured.hover.Some? && uncaptured.hover.value.window == id
                     then SetHover(uncaptured, None) else uncaptured;
    ChangeFocusSafe(unhovered, None);
    var unfocused := if unhovered.focus == Some(id) then ChangeFocus(unhovered, None) else unhovered;
    EmitSafe(unfocused, id, Dismissed(reason));
  }

  lemma {:induction false} RemoveAllSwallow(s: State, ids: seq<Id>)
    requires Inv(s) && Removable(s.windows, ids)
    ensures SameSwallow(s, RemoveAll(s, ids))
    decreases |ids|
  {
    hide Inv; hide RemoveOne; hide Removable;
    if ids != [] {
      var last := ids[|ids| - 1];
      LastRemovable(s, ids);
      RemoveOneSafe(s, last, ParentClosed);
      RemoveSwallow(s, last, ParentClosed);
      RemoveAllSwallow(RemoveOne(s, last, ParentClosed), ids[..|ids| - 1]);
    }
  }

  /** Closing a window, cascades and all, leaves swallowed input swallowed. */
  lemma {:induction false} CloseSwallow(s: State, id: Id, reason: DismissReason)
    requires Inv(s)
    ensures SameSwallow(s, CloseWindow(s, id, reason))
  {
    hide Inv; hide RemoveOne; hide Restore; hide Removable; hide Subtree; hide Without; hide RemoveAll; hide Fewer;
    hide Reduced; hide Reported;
    var children := Without(Subtree(s.windows, s.stack, id), id);
    ChildrenRemovable(s, id);
    RemoveAllSafe(s, children);
    RemoveAllSwallow(s, children);
    var cleared := RemoveAll(s, children);
    RemoveSwallow(cleared, id, reason);
    LastChildFree(s, cleared, children, id);
    RemoveOneSafe(cleared, id, reason);
    RestoreSafe(RemoveOne(cleared, id, reason));
  }

  /**
   A press outside a popup dismisses it and nothing more: repeats of the press and its release are
   swallowed, and the release ends the swallowing.
   */
  lemma {:induction false} OutsidePressSwallowed(s: State, press: PointerReport, release: PointerReport, hit: HitTest)
    requires Inv(s) && Pressed(press) && Released(release) && release.button.value.id == press.button.value.id
    requires press.button.value.id !in s.swallowedButtons && s.capture.None?
    requires FrontPopup(s).Some? && !Contains(s.windows[FrontPopup(s).value].options.bounds, press.position)
    ensures var (pressed, consumed) := PointerInput(s, press, hit);
            consumed && pressed.swallowedButtons == s.swallowedButtons + {press.button.value.id} &&
            PointerInput(pressed, press, hit) == (pressed, true) &&
            PointerInput(pressed, release, hit) == (pressed.(swallowedButtons := s.swallowedButtons), true)
  {
    hide Inv; hide CloseWindow; hide LastPopup; hide TargetIn; hide CapturedInput;
    var marked := s.(swallowedButtons := s.swallowedButtons + {press.button.value.id});
    CursorIgnored(s, marked);
    CloseSwallow(marked, FrontPopup(s).value, OutsidePress);
    assert s.swallowedButtons + {press.button.value.id} - {press.button.value.id} == s.swallowedButtons;
  }

  /** An escape that dismissed a window is swallowed through its repeats, up to and including its release. */
  lemma {:induction false} EscapeSwallowed(s: State, down: Event, up: Event)
    requires Inv(s) && s.focus.Some? && Eligible(s, s.focus.value) && !s.swallowedEscape
    requires !s.windows[s.focus.value].options.mode.Floating?
    requires down.Key? && down.down && !down.repeats && up.Key? && !up.down
    ensures var (dismissed, consumed) := Keyboard(s, down, true);
            consumed && dismissed.swallowedEscape && Keyboard(dismissed, down, true) == (dismissed, true) &&
            Keyboard(dismissed, up, true) == (dismissed.(swallowedEscape := false), true)
  {
    hide Inv; hide CloseWindow; hide EligibleIn;
    var marked := s.(swallowedEscape := true);
    CursorIgnored(s, marked);
    CloseSwallow(marked, s.focus.value, Escape);
  }
}
