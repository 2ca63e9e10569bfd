/**
 Where a stronger invariant would be false: exactly when a focus move, a revocation, a refused creation
 or update, or a drag leaves something behind. Hover changes are the subject of OverlayHover.
 */
module OverlayEdges {
  import opened Wrappers
  import opened Words
  import opened Scalars
  import opened OverlayTypes
  import opened OverlayModel
  import opened OverlayInvariant
  import opened OverlayRevocation
  import opened OverlaySafety
  import opened OverlayRuns

  // ---- Stranded focus ----------------------------------------------------------------------

  /**
   A focus request leaves focus on a live window exactly when the request is refused and focus was
   live before, or it is granted and the farewell does not revoke the very owner being focused.
   */
  lemma {:induction false} RequestStrandsExactly(s: State, id: Id)
    requires Inv(s)
    ensures FocusLive(RequestFocus(s, id).0) <==> if Eligible(s, id) then !Strands(s, id) else FocusLive(s)
  {
    hide Inv; hide Eligible; hide ChangeFocus; hide Subtree; hide OutsideSubtree; hide Without; hide Room;
    if Eligible(s, id) {
      EligibleLive(s, id);
      var raised := RaiseGroup(s, id);
      RaiseGroupSafe(s, id);
      HistorySafe(raised, id);
      FocusStrandedExactly(raised.(focusHistory := Without(s.focusHistory, id) + [id]), id);
    }
  }

  /** Restoring focus strands it under the same condition on the candidate it chooses. */
  lemma {:induction false} RestoreStrandsExactly(s: State)
    requires Inv(s)
    ensures FocusLive(Restore(s)) <==> FocusCandidate(s).None? || !Strands(s, FocusCandidate(s).value)
  {
    hide Inv; hide Eligible; hide ChangeFocus; hide FocusCandidate; hide Strands;
    var next := FocusCandidate(s);
    if next.Some? {
      EligibleLive(s, next.value);
      FocusStrandedExactly(s, next.value);
    } else {
      NoneIsLive(s);
    }
  }

  lemma {:induction false} NoneIsLive(s: State)
    ensures FocusLive(ChangeFocus(s, None))
  {
    hide LeaveFocus;
  }

  // ---- Hover -------------------------------------------------------------------------------

  predicate HoverLive(s: State) {
    s.hover.Some? ==> s.hover.value.window in s.windows
  }

  /** Revocation never clears the hover, so a live hover survives exactly when its owner does not fall. */
  lemma {:induction false} HoverStrandedExactly(s: State, owner: Owner)
    requires Inv(s)
    ensures var live := HoverLive(s) && (s.hover.None? || s.hover.value.window.owner !in Falls(s, owner));
            (HoverLive(Revoke(s, owner)) <==> live) && (HoverLive(Overflow(s, owner)) <==> live)
  {
    hide Inv; hide Revoke; hide Falls;
    RevokeSafe(s, owner);
    RevokeFalls(s, owner);
    if HoverLive(s) && s.hover.Some? {
      OwnerHasQueue(s, s.hover.value.window);
    }
  }

  // ---- A refused creation that leaves its window -------------------------------------------

  /** A walk that starts among windows closed under parents sees only those windows. */
  lemma {:induction false} WalkSame(less: map<Id, Window>, more: map<Id, Window>, id: Id, root: Id, fuel: nat)
    requires Submap(less, more) && id in less
    requires forall x :: x in less && less[x].options.parent.Some? ==> less[x].options.parent.value in less
    ensures DescendsWithin(more, id, root, fuel) == DescendsWithin(less, id, root, fuel)
    ensures VisibleWithin(more, id, fuel) == VisibleWithin(less, id, fuel)
    decreases fuel
  {
    if fuel > 0 && Parent(less, id).Some? {
      WalkSame(less, more, Parent(less, id).value, root, fuel - 1);
    }
  }

  lemma {:induction false} ModalSame(less: map<Id, Window>, more: map<Id, Window>, stack: seq<Id>)
    requires Submap(less, more) && forall id :: id in stack ==> id in less
    requires forall x :: x in less && less[x].options.parent.Some? ==> less[x].options.parent.value in less
    ensures LastModal(more, stack) == LastModal(less, stack)
    decreases |stack|
  {
    if stack != [] {
      var last := stack[|stack| - 1];
      WalkSame(less, more, last, last, MAX_WINDOWS);
      ModalSame(less, more, stack[..|stack| - 1]);
    }
  }

  lemma {:induction false} ParentsClosed(s: State)
    requires Structure(s)
    ensures forall x :: x in s.windows && s.windows[x].options.parent.Some? ==>
              s.windows[x].options.parent.value in s.windows
  {
    forall x | x in s.windows && s.windows[x].options.parent.Some?
      ensures s.windows[x].options.parent.value in s.windows
    {
      Climb(s, x, x);
    }
  }

  /**
   A creation that passes every check still fails exactly when it would take focus under a parent
   that is not effectively visible, and then the window has already been inserted.
   */
  lemma {:induction false} CreateFailsAfterInserting(s: State, id: Id, generation: u64, options: WindowOptions)
    requires Inv(s) && CreateRefusal(s, id, generation, options).None?
    ensures var (r, result) := Create(s, id, generation, options);
            (result.Err? <==> options.visible && !options.mode.Floating? && options.parent.Some?
                              && !EffectivelyVisible(s.windows, options.parent.value)) &&
            (result.Err? ==> r == Insert(s, id, generation, options) && id in r.windows)
  {
    hide Inv; hide CreateRefusal; hide ChangeFocus; hide Eligible;
    if options.visible && !options.mode.Floating? {
      InsertedEligible(s, id, generation, options);
    }
  }

  lemma {:induction false} InsertedEligible(s: State, id: Id, generation: u64, options: WindowOptions)
    requires Inv(s) && CreateRefusal(s, id, generation, options).None?
    requires options.visible && !options.mode.Floating?
    ensures Eligible(Insert(s, id, generation, options), id)
       <==> options.parent.None? || EffectivelyVisible(s.windows, options.parent.value)
  {
    hide Inv; hide LastModal; hide Descends; hide EffectivelyVisible;
    var r := Insert(s, id, generation, options);
    InsertSafe(s, id, generation, options);
    InvStructure(s);
    InvStructure(r);
    ParentsClosed(s);
    Admitted(s, id, generation, options);
    InsertedParent(s, id, generation, options);
    var modal := TopModal(s);
    Climb(r, id, id);
    if modal.Some? {
      Climb(r, id, modal.value);
    }
    if options.parent.Some? {
      InsertedWalks(s, r, options.parent.value, if modal.Some? then modal.value else id);
    }
    InsertedModal(s, id, generation, options);
  }

  lemma {:induction false} InsertedParent(s: State, id: Id, generation: u64, options: WindowOptions)
    requires CreateRefusal(s, id, generation, options).None?
    ensures options.parent.Some? ==> options.parent.value in s.windows
    ensures options.visible && options.mode.Popup? && TopModal(s).Some? ==>
              options.parent.Some? && Descends(s.windows, options.parent.value, TopModal(s).value)
  {
    hide LastModal; hide Descends;
  }

  lemma {:induction false} InsertedWalks(s: State, r: State, parent: Id, root: Id)
    requires Submap(s.windows, r.windows) && parent in s.windows
    requires forall x :: x in s.windows && s.windows[x].options.parent.Some? ==>
               s.windows[x].options.parent.value in s.windows
    ensures Descends(r.windows, parent, root) == Descends(s.windows, parent, root)
    ensures EffectivelyVisible(r.windows, parent) == EffectivelyVisible(s.windows, parent)
  {
    WalkSame(s.windows, r.windows, parent, root, MAX_WINDOWS);
  }

  /** The inserted window is the new top modal when it can be; otherwise the top modal is unchanged. */
  lemma {:induction false} InsertedModal(s: State, id: Id, generation: u64, options: WindowOptions)
    requires Structure(s) && id !in s.windows
    ensures var r := Insert(s, id, generation, options);
            TopModal(r) == if options.mode.Modal? && EffectivelyVisible(r.windows, id) then Some(id) else TopModal(s)
  {
    hide Descends; hide EffectivelyVisible; hide Ordered;
    var r := Insert(s, id, generation, options);
    ParentsClosed(s);
    ModalSame(s.windows, r.windows, s.stack);
    assert r.stack[..|r.stack| - 1] == s.stack;
  }

  // ---- A refused showing that leaves its options -------------------------------------------

  predicate ModalAt(windows: map<Id, Window>, stack: seq<Id>, i: nat)
    requires i < |stack|
  {
    EffectivelyVisible(windows, stack[i]) && windows[stack[i]].options.mode.Modal?
  }

  /** A visible modal in front of `id`. */
  predicate ModalAbove(windows: map<Id, Window>, stack: seq<Id>, id: Id) {
    exists k: nat :: k < |stack| && ModalAt(windows, stack, k) && id in stack[..k]
  }

  lemma {:induction false} ForemostModal(windows: map<Id, Window>, stack: seq<Id>) returns (j: int)
    ensures -1 <= j < |stack| && forall k: nat :: j < k < |stack| ==> !ModalAt(windows, stack, k)
    ensures LastModal(windows, stack) == if j == -1 then None else Some(stack[j])
    ensures j >= 0 ==> ModalAt(windows, stack, j)
    decreases |stack|
  {
    hide EffectivelyVisible;
    if stack == [] {
      j := -1;
    } else if ModalAt(windows, stack, |stack| - 1) {
      j := |stack| - 1;
    } else {
      var front := stack[..|stack| - 1];
      j := ForemostModal(windows, front);
      assert forall k: nat :: k < |front| ==> ModalAt(windows, stack, k) == ModalAt(windows, front, k);
    }
  }

  /** A walk that never meets `id` does not notice what is written to it. */
  lemma {:induction false} WalkAvoids(windows: map<Id, Window>, id: Id, w: Window, from: Id, fuel: nat)
    requires id in windows && !DescendsWithin(windows, from, id, fuel)
    ensures VisibleWithin(windows[id := w], from, fuel) == VisibleWithin(windows, from, fuel)
    decreases fuel
  {
    if fuel > 0 && Parent(windows, from).Some? {
      WalkAvoids(windows, id, w, Parent(windows, from).value, fuel - 1);
    }
  }

  lemma {:induction false} SameDescent(windows: map<Id, Window>, id: Id, w: Window, from: Id, root: Id, fuel: nat)
    requires id in windows && w.options.parent == windows[id].options.parent
    ensures DescendsWithin(windows[id := w], from, root, fuel) == DescendsWithin(windows, from, root, fuel)
    decreases fuel
  {
    if fuel > 0 && Parent(windows, from).Some? {
      SameDescent(windows, id, w, Parent(windows, from).value, root, fuel - 1);
    }
  }

  lemma {:induction false} AncestorBelow(windows: map<Id, Window>, stack: seq<Id>, i: nat, root: Id)
    requires Ordered(windows, {}, stack) && i < |stack| && Descends(windows, stack[i], root)
    ensures root in stack[..i + 1]
  {
    hide Ordered; hide DescendsWithin;
    OrderedPrefix(windows, {}, stack, i + 1);
    assert stack[..i + 1][i] == stack[i];
    if root !in stack[..i + 1] {
      OutOfReach(windows, stack[..i + 1], stack[i], root, MAX_WINDOWS);
    }
  }

  /** What the checks before a write establish for a hidden window about to be shown with record `w`. */
  ghost predicate Showing(s: State, id: Id, w: Window) {
    Inv(s) && id in s.windows && ValidWindow(id, w) && !s.windows[id].options.visible && w.options.visible &&
    w.options.parent == s.windows[id].options.parent && w.options.mode == s.windows[id].options.mode &&
    !w.options.mode.Floating? &&
    (w.options.mode.Popup? && TopModal(s).Some? ==> Descends(s.windows, id, TopModal(s).value))
  }

  /** A visible modal that is below the shown window in the stack was visible before the write too. */
  lemma {:induction false} BelowUnaffected(s: State, id: Id, w: Window, i: nat, k: nat)
    requires Structure(s) && id in s.windows && k < i < |s.stack| && s.stack[i] == id
    ensures ModalAt(s.windows[id := w], s.stack, k) == ModalAt(s.windows, s.stack, k)
  {
    hide DescendsWithin; hide VisibleWithin; hide Ordered;
    OrderedDistinct(s.windows, {}, s.stack);
    if Descends(s.windows, s.stack[k], id) {
      AncestorBelow(s.windows, s.stack, k, id);
      assert false;
    }
    WalkAvoids(s.windows, id, w, s.stack[k], MAX_WINDOWS);
  }

  /** A popup shown above the foremost modal descends from it. */
  lemma {:induction false} ShownUnder(s: State, id: Id, w: Window, shown: map<Id, Window>, i: nat, j: nat)
    requires Showing(s, id, w) && w.options.mode.Popup? && shown == s.windows[id := w]
    requires j < i < |s.stack| && s.stack[i] == id && ModalAt(shown, s.stack, j)
    requires forall k: nat :: j < k < |s.stack| ==> !ModalAt(shown, s.stack, k)
    ensures Descends(shown, id, s.stack[j])
  {
    hide Inv; hide DescendsWithin; hide EffectivelyVisible; hide Ordered; hide LastModal;
    InvStructure(s);
    BelowUnaffected(s, id, w, i, j);
    var m := ForemostModal(s.windows, s.stack);
    StackOrder(s);
    Climb(s, id, id);
    AncestorBelow(s.windows, s.stack, i, s.stack[m]);
    assert m < i;
    BelowUnaffected(s, id, w, i, m);
    SameDescent(s.windows, id, w, id, s.stack[j], MAX_WINDOWS);
  }

  lemma {:induction false} StackOrder(s: State)
    requires Structure(s)
    ensures Ordered(s.windows, {}, s.stack) && Distinct(s.stack)
    ensures forall id :: id in s.windows <==> id in s.stack
  {
    OrderedDistinct(s.windows, {}, s.stack);
  }

  lemma {:induction false} ShownUnblocked(s: State, id: Id, w: Window, shown: map<Id, Window>)
    requires Showing(s, id, w) && shown == s.windows[id := w] && EffectivelyVisible(shown, id)
    requires Structure(s.(windows := shown))
    ensures EligibleIn(shown, s.stack, id) <==> !ModalAbove(shown, s.stack, id)
  {
    hide Inv; hide DescendsWithin; hide EffectivelyVisible; hide Ordered; hide LastModal; hide ValidWindow;
    var r := s.(windows := shown);
    StackOrder(r);
    Climb(r, id, id);
    var i: nat :| i < |s.stack| && s.stack[i] == id;
    var j := ForemostModal(shown, s.stack);
    if j > i {
      if Descends(shown, id, s.stack[j]) {
        AncestorBelow(shown, s.stack, i, s.stack[j]);
      }
      assert ModalAt(shown, s.stack, j) && id in s.stack[..j];
    } else if 0 <= j < i {
      assert !ModalAt(shown, s.stack, i);
      ShownUnder(s, id, w, shown, i, j);
    }
  }

  lemma {:induction false} ShownEligible(s: State, id: Id, w: Window)
    requires Showing(s, id, w)
    ensures var r := s.(windows := s.windows[id := w]);
            Eligible(r, id) <==> (w.options.parent.None? || EffectivelyVisible(s.windows, w.options.parent.value))
                                 && !ModalAbove(r.windows, s.stack, id)
  {
    hide Inv; hide Descends; hide EffectivelyVisible; hide Structure; hide LastModal; hide ModalAbove;
    var r := s.(windows := s.windows[id := w]);
    WindowWritten(s, id, w);
    InvStructure(s);
    InvStructure(r);
    Climb(r, id, id);
    ShownParent(s, id, w);
    if EffectivelyVisible(r.windows, id) {
      ShownUnblocked(s, id, w, r.windows);
    }
  }

  lemma {:induction false} ShownParent(s: State, id: Id, w: Window)
    requires Structure(s) && id in s.windows && w.options.parent == s.windows[id].options.parent
    ensures w.options.parent.Some? ==> EffectivelyVisible(s.windows[id := w], w.options.parent.value)
                                       == EffectivelyVisible(s.windows, w.options.parent.value)
  {
    hide DescendsWithin; hide VisibleWithin; hide Structure;
    if w.options.parent.Some? {
      RootParentOutside(s, id);
      WalkAvoids(s.windows, id, w, w.options.parent.value, MAX_WINDOWS);
    }
  }

  /**
   An update that passes every check still fails exactly when it shows a popup or a modal whose parent
   is not effectively visible, or that would stand behind a visible modal; its options and its new
   revision have then been written.
   */
  lemma {:induction false} UpdateFailsAfterWriting(s: State, id: Id, generation: u64, revision: u64,
                                                   options: WindowOptions)
    requires Inv(s) && UpdateRefusal(s, id, generation, revision, options).None?
    ensures id in s.windows && revision < U64_MAX
    ensures var written := s.windows[id := s.windows[id].(options := options, revision := revision + 1)];
            var (r, result) := Update(s, id, generation, revision, options);
            (result.Err? <==>
               !s.windows[id].options.visible && options.visible && !options.mode.Floating? &&
               ((options.parent.Some? && !EffectivelyVisible(s.windows, options.parent.value))
                || ModalAbove(written, s.stack, id))) &&
            (result.Err? ==> r == s.(windows := written))
  {
    hide Inv; hide LastModal; hide Descends; hide EffectivelyVisible; hide ChangeFocus; hide Hide; hide ModalAbove;
    hide ValidOptions; hide Eligible;
    UpdateAdmitted(s, id, generation, revision, options);
    if !s.windows[id].options.visible && options.visible && !options.mode.Floating? {
      var w := s.windows[id].(options := options, revision := revision + 1);
      WindowValid(s, id);
      ShownEligible(s, id, w);
    }
  }

  lemma {:induction false} UpdateAdmitted(s: State, id: Id, generation: u64, revision: u64, options: WindowOptions)
    requires UpdateRefusal(s, id, generation, revision, options).None?
    ensures id in s.windows && revision < U64_MAX && s.windows[id].revision == revision && ValidRect(options.bounds)
    ensures options.parent == s.windows[id].options.parent && options.mode == s.windows[id].options.mode
    ensures options.visible && options.mode.Popup? && TopModal(s).Some? ==> Descends(s.windows, id, TopModal(s).value)
  {
    hide LastModal; hide Descends;
  }

  // ---- Gestures and the minimum size -------------------------------------------------------

  /**
   A gesture respects the current minimum width exactly when it resizes that axis or started from a
   wide enough rectangle; a drag captured before the minimum was raised restores the old width.
   */
  lemma {:induction false} GestureMinimumExactly(c: Capture, options: WindowOptions, p: Point)
    requires Dragged(c, options, p).Some?
    ensures var r := Dragged(c, options, p).value;
            (r.width >= options.minWidth
             <==> c.bounds.width >= options.minWidth
                  || (c.role.Resize? && (Edge(c.role.edges, 1) || Edge(c.role.edges, 4)))) &&
            (r.height >= options.minHeight
             <==> c.bounds.height >= options.minHeight
                  || (c.role.Resize? && (Edge(c.role.edges, 2) || Edge(c.role.edges, 8))))
  {
    hide Edge;
  }

  /** A left or top resize keeps the opposite edge in place, and a drag keeps the size. */
  lemma {:induction false} GestureAnchors(c: Capture, options: WindowOptions, p: Point)
    requires Dragged(c, options, p).Some?
    ensures var r := Dragged(c, options, p).value;
            ValidRect(r) &&
            (c.role.Drag? ==> r.width == c.bounds.width && r.height == c.bounds.height
                              && r.origin.x - c.bounds.origin.x == p.x - c.start.x
                              && r.origin.y - c.bounds.origin.y == p.y - c.start.y) &&
            (c.role.Resize? && !Edge(c.role.edges, 1) ==> r.origin.x == c.bounds.origin.x) &&
            (c.role.Resize? && !Edge(c.role.edges, 4) ==>
               r.origin.x + r.width == c.bounds.origin.x + c.bounds.width) &&
            (c.role.Resize? && !Edge(c.role.edges, 2) ==> r.origin.y == c.bounds.origin.y) &&
            (c.role.Resize? && !Edge(c.role.edges, 8) ==>
               r.origin.y + r.height == c.bounds.origin.y + c.bounds.height)
  {
    hide Edge;
  }
}
