/** Every public operation of the window machine keeps the invariant, and so does every run. */
module OverlaySafety {
  import opened Wrappers
  import opened Words
  import opened Scalars
  import opened OverlayTypes
  import opened OverlayModel
  import opened OverlayInvariant
  import opened OverlayRevocation

  /**
   From `s` to `r` exactly the windows in `gone` were removed, apart from whole revoked owners, and
   none changed; every owner is still served or reported.
   */
  ghost predicate Fewer(s: State, r: State, gone: set<Id>) {
    r.windows == KeepWindows(s.windows - gone, r.events.Keys) &&
    r.events.Keys <= s.events.Keys && Owners(r) == Owners(s)
  }

  ghost predicate Removes(s: State, r: State, gone: set<Id>) {
    Inv(r) && Fewer(s, r, gone)
  }

  ghost predicate Safe(s: State, r: State) {
    Removes(s, r, {})
  }

  lemma {:induction false} RemovesTwice(s: State, m: State, r: State, first: set<Id>, second: set<Id>, gone: set<Id>)
    requires Removes(s, m, first) && Removes(m, r, second) && gone == first + second
    ensures Removes(s, r, gone)
  {
    hide Inv;
    assert KeepWindows(KeepWindows(s.windows - first, m.events.Keys) - second, r.events.Keys)
        == KeepWindows(s.windows - gone, r.events.Keys);
  }

  lemma {:induction false} SafeTwice(s: State, m: State, r: State)
    requires Safe(s, m) && Safe(m, r)
    ensures Safe(s, r)
  {
    hide Removes;
    RemovesTwice(s, m, r, {}, {}, {});
  }

  lemma {:induction false} CascadeIsSafe(s: State, from: State, r: State)
    requires Cascaded(from, r)
    requires from.windows == s.windows && from.events == s.events && from.overflowed == s.overflowed
    ensures Safe(s, r)
  {
    hide Inv;
    assert s.windows - {} == s.windows;
  }

  /** Service is a matter of the queues and their histories alone. */
  lemma {:induction false} SameQueues(s: State, r: State)
    requires AllServed(s) && r.events == s.events && r.deliveries == s.deliveries
    ensures AllServed(r)
  {
    hide Thinned; hide QueueFine;
    forall owner | owner in r.events ensures OwnerServed(r, owner) {
      assert OwnerServed(s, owner);
    }
  }

  /** Fields that can only shrink what the invariant constrains. */
  lemma {:induction false} Loosened(s: State, r: State)
    requires Inv(s) && SameButCursor(s.(capture := r.capture, focusHistory := r.focusHistory), r)
    requires r.overflowed == s.overflowed
    requires r.capture == s.capture || r.capture.None?
    requires r.focusHistory == s.focusHistory || r.focusHistory == []
    ensures Safe(s, r)
  {
    hide Ordered; hide OwnedWindows; hide ValidWindow; hide AllServed; hide Fewer; hide Distinct;
    SameQueues(s, r);
    NothingGone(s, r);
    LooseHistory(s, r);
  }

  lemma {:induction false} LooseHistory(s: State, r: State)
    requires References(s) && r.windows == s.windows
    requires r.capture == s.capture || r.capture.None?
    requires r.focusHistory == s.focusHistory || r.focusHistory == []
    ensures References(r)
  {
  }

  lemma {:induction false} NothingGone(s: State, r: State)
    requires Queued(s) && r.windows == s.windows && r.events == s.events && r.overflowed == s.overflowed
    ensures Fewer(s, r, {})
  {
    assert s.windows - {} == s.windows && KeepWindows(s.windows, s.events.Keys) == s.windows;
  }

  lemma {:induction false} EmitIsSafe(s: State, id: Id, event: Event)
    requires Inv(s) && (ValidEvent(event) || id.owner in Owners(s))
    ensures Safe(s, Emit(s, id, event))
  {
    hide Inv; hide Emit;
    EmitSafe(s, id, event);
    CascadeIsSafe(s, s, Emit(s, id, event));
  }

  lemma {:induction false} ChangeFocusIsSafe(s: State, next: Option<Id>)
    requires Inv(s)
    ensures Safe(s, ChangeFocus(s, next))
  {
    hide Inv; hide ChangeFocus;
    ChangeFocusSafe(s, next);
    CascadeIsSafe(s, s, ChangeFocus(s, next));
  }

  lemma {:induction false} RestoreIsSafe(s: State)
    requires Inv(s)
    ensures Safe(s, Restore(s))
  {
    hide Inv; hide Restore;
    RestoreSafe(s);
    CascadeIsSafe(s, s, Restore(s));
  }

  // ---- Capture and hover -------------------------------------------------------------------

  lemma {:induction false} CancelCaptureSafe(s: State, id: Id)
    requires Inv(s)
    ensures Safe(s, CancelCapture(s, id))
    ensures CancelCapture(s, id).capture.Some? ==> CancelCapture(s, id).capture.value.window != id
  {
    hide Inv; hide Emit;
    Loosened(s, s);
    if s.capture.Some? && s.capture.value.window == id {
      var free := s.(capture := None);
      Loosened(s, free);
      EmitSafe(free, id, Cancel);
      EmitIsSafe(free, id, Cancel);
      SafeTwice(s, free, Emit(free, id, Cancel));
    }
  }

  lemma {:induction false} CancelCapturesSafe(s: State, ids: seq<Id>)
    requires Inv(s)
    ensures Safe(s, CancelCaptures(s, ids))
    decreases |ids|
  {
    hide Inv; hide CancelCapture;
    Loosened(s, s);
    if ids != [] {
      var one := CancelCapture(s, ids[0]);
      CancelCaptureSafe(s, ids[0]);
      CancelCapturesSafe(one, ids[1..]);
      SafeTwice(s, one, CancelCaptures(s, ids));
    }
  }

  lemma {:induction false} SetHoverSafe(s: State, next: Option<Hovering>)
    requires Inv(s)
    ensures Safe(s, SetHover(s, next))
  {
    hide Inv; hide Emit; hide Fewer;
    Loosened(s, s);
    Loosened(s, s.(hover := next));
    var left := if s.hover.None? then s else Emit(s, s.hover.value.window, Hover(s.hover.value.region, false));
    if s.hover.Some? {
      EmitIsSafe(s, s.hover.value.window, Hover(s.hover.value.region, false));
    }
    var moved := left.(hover := next);
    Loosened(left, moved);
    SafeTwice(s, left, moved);
    if next.Some? {
      EmitIsSafe(moved, next.value.window, Hover(next.value.region, true));
      SafeTwice(s, moved, Emit(moved, next.value.window, Hover(next.value.region, true)));
    }
  }

  // ---- Stacking ----------------------------------------------------------------------------

  /** A stack with the same windows in another good order. */
  lemma {:induction false} Restacked(s: State, stack: seq<Id>)
    requires Inv(s) && Ordered(s.windows, {}, stack) && (forall id :: id in stack <==> id in s.stack)
    ensures Safe(s, s.(stack := stack))
  {
    hide Ordered; hide OwnedWindows; hide ValidWindow; hide Distinct; hide AllServed;
    SameQueues(s, s.(stack := stack));
    NothingGone(s, s.(stack := stack));
  }

  /** Splitting the stack at a subtree: what stays is ordered, and the subtree rests on its root's parent. */
  lemma {:induction false} SplitOrdered(s: State, id: Id, base: set<Id>)
    requires Structure(s) && id in s.windows
    requires base == (if Parent(s.windows, id).Some? then {Parent(s.windows, id).value} else {})
    ensures Ordered(s.windows, {}, OutsideSubtree(s.windows, s.stack, id))
    ensures Ordered(s.windows, base, Subtree(s.windows, s.stack, id))
    ensures Parent(s.windows, id).Some? ==> Parent(s.windows, id).value in OutsideSubtree(s.windows, s.stack, id)
    ensures forall x :: x in OutsideSubtree(s.windows, s.stack, id) && Parent(s.windows, x).Some? ==>
              !Descends(s.windows, Parent(s.windows, x).value, id)
  {
    hide Ordered; hide Descends; hide EffectivelyVisible;
    var inside := (x: Id) => Descends(s.windows, x, id);
    var outside := (x: Id) => !Descends(s.windows, x, id);
    RootParentOutside(s, id);
    forall x | x in s.stack ensures Rests(s.windows, {}, outside, s.windows, {}, x) {
      Climb(s, x, id);
    }
    forall x | x in s.stack ensures Rests(s.windows, {}, inside, s.windows, base, x) {
      Climb(s, x, id);
    }
    FilterOrdered(s.windows, {}, s.stack, outside, s.windows, {});
    FilterOrdered(s.windows, {}, s.stack, inside, s.windows, base);
    forall x | x in s.stack && !Descends(s.windows, x, id) && Parent(s.windows, x).Some?
      ensures !Descends(s.windows, Parent(s.windows, x).value, id)
    {
      Climb(s, x, id);
    }
  }

  /** The parent of a window is never inside that window's own subtree. */
  lemma {:induction false} RootParentOutside(s: State, id: Id)
    requires Structure(s) && id in s.windows
    ensures Descends(s.windows, id, id)
    ensures Parent(s.windows, id).Some? ==>
              Parent(s.windows, id).value in s.stack && !Descends(s.windows, Parent(s.windows, id).value, id)
  {
    Climb(s, id, id);
    if Parent(s.windows, id).Some? {
      NotBelowItself(s.windows, s.stack, id, Parent(s.windows, id).value);
      StackLength(s);
      WalkSettles(s.windows, s.stack, Parent(s.windows, id).value, id, MAX_WINDOWS);
    }
  }

  lemma {:induction false} NotBelowItself(windows: map<Id, Window>, stack: seq<Id>, id: Id, parent: Id)
    requires Ordered(windows, {}, stack) && id in stack && Parent(windows, id) == Some(parent)
    ensures parent in stack && !DescendsWithin(windows, parent, id, |stack|)
    decreases |stack|
  {
    var front, last := stack[..|stack| - 1], stack[|stack| - 1];
    if id == last {
      OutOfReach(windows, front, parent, id, |stack|);
    } else {
      NotBelowItself(windows, front, id, parent);
      WalkSettles(windows, front, parent, id, |stack|);
    }
  }

  /** A walk started inside an ordered stack never leaves it. */
  lemma {:induction false} OutOfReach(windows: map<Id, Window>, stack: seq<Id>, id: Id, outsider: Id, fuel: nat)
    requires Ordered(windows, {}, stack) && id in stack && outsider !in stack
    ensures !DescendsWithin(windows, id, outsider, fuel)
    decreases fuel
  {
    if fuel > 0 && Parent(windows, id).Some? {
      ParentEarlier(windows, {}, stack, id);
      OutOfReach(windows, stack, Parent(windows, id).value, outsider, fuel - 1);
    }
  }

  lemma {:induction false} RaiseGroupSafe(s: State, id: Id)
    requires Inv(s) && id in s.windows
    ensures Safe(s, RaiseGroup(s, id))
  {
    hide Ordered; hide Descends;
    var base := if Parent(s.windows, id).Some? then {Parent(s.windows, id).value} else {};
    var others, group := OutsideSubtree(s.windows, s.stack, id), Subtree(s.windows, s.stack, id);
    SplitOrdered(s, id, base);
    OrderedConcat(s.windows, {}, others, group, base);
    Restacked(s, others + group);
  }

  lemma {:induction false} LowerGroupSafe(s: State, id: Id)
    requires Inv(s) && id in s.windows
    ensures Safe(s, LowerGroup(s, id))
  {
    hide Ordered; hide Descends; hide Inv; hide AboveParent;
    var base := if Parent(s.windows, id).Some? then {Parent(s.windows, id).value} else {};
    var others, group := OutsideSubtree(s.windows, s.stack, id), Subtree(s.windows, s.stack, id);
    assert Structure(s) by { InvStructure(s); }
    SplitOrdered(s, id, base);
    var index := AboveParent(others, Parent(s.windows, id));
    var under, over := others[..index], others[index..];
    assert others == under + over;
    OrderedPrefix(s.windows, {}, others, index);
    OrderedConcat(s.windows, {}, under, group, base);
    OrderedSplice(s.windows, under, group, over);
    Restacked(s, under + group + over);
  }

  lemma {:induction false} InvStructure(s: State)
    requires Inv(s)
    ensures Structure(s)
  {
  }

  /** A run may be spliced in anywhere above what it rests on, if nothing else rests on it. */
  lemma {:induction false} OrderedSplice(windows: map<Id, Window>, under: seq<Id>, group: seq<Id>, over: seq<Id>)
    requires Ordered(windows, {}, under + over) && Ordered(windows, {}, under + group)
    requires forall id :: id in group ==> id !in under && id !in over
    ensures Ordered(windows, {}, under + group + over)
    decreases |over|
  {
    if over == [] {
      assert under + group + over == under + group;
    } else {
      var front, last := over[..|over| - 1], over[|over| - 1];
      assert (under + over)[..|under + over| - 1] == under + front;
      assert (under + group + over)[..|under + group + over| - 1] == under + group + front;
      OrderedSplice(windows, under, group, front);
    }
  }

  lemma {:induction false} RequestFocusSafe(s: State, id: Id)
    requires Inv(s)
    ensures Safe(s, RequestFocus(s, id).0)
    ensures RequestFocus(s, id).1.Err? ==> RequestFocus(s, id).0 == s
  {
    hide Inv; hide Eligible; hide Subtree; hide OutsideSubtree; hide ChangeFocus; hide Fewer;
    Loosened(s, s);
    if Eligible(s, id) {
      EligibleLive(s, id);
      RaiseGroupSafe(s, id);
      Loosened(s, s);
      var raised := RaiseGroup(s, id);
      HistorySafe(raised, id);
      var remembered := raised.(focusHistory := Without(s.focusHistory, id) + [id]);
      ChangeFocusIsSafe(remembered, Some(id));
      SafeTwice(s, raised, remembered);
      SafeTwice(s, remembered, ChangeFocus(remembered, Some(id)));
    }
  }

  lemma {:induction false} HistorySafe(s: State, id: Id)
    requires Inv(s) && id in s.windows
    ensures Safe(s, s.(focusHistory := Without(s.focusHistory, id) + [id]))
  {
    hide Ordered; hide OwnedWindows; hide ValidWindow; hide AllServed; hide Filter;
    var history := Without(s.focusHistory, id);
    FilterDistinct(s.focusHistory, (x: Id) => x != id);
    assert id !in history && Distinct(history + [id]);
    SameQueues(s, s.(focusHistory := history + [id]));
    NothingGone(s, s.(focusHistory := history + [id]));
  }

  // ---- Removal -----------------------------------------------------------------------------

  ghost predicate Childless(s: State, id: Id) {
    ChildlessIn(s.windows, id)
  }

  lemma {:induction false} ForgetSafe(s: State, id: Id)
    requires Inv(s) && Childless(s, id) && NotCapturing(s, id)
    ensures Removes(s, Forget(s, id), {id})
  {
    hide Forest; hide Bounded; hide AllServed; hide References; hide Without; hide Childless; hide Fewer; hide Counted;
    var r := Forget(s, id);
    ForgetForest(s, id);
    ForgetBounded(s, id);
    ForgetReferences(s, id);
    ForgetFewer(s, id);
    SameQueues(s, r);
  }

  lemma {:induction false} ForgetFewer(s: State, id: Id)
    requires Queued(s) && Counted(s)
    ensures Queued(Forget(s, id)) && Counted(Forget(s, id)) && Fewer(s, Forget(s, id), {id})
  {
    hide Filter;
    assert KeepWindows(s.windows - {id}, s.events.Keys) == s.windows - {id};
    assert Owners(Forget(s, id)) == Owners(s);
  }

  lemma {:induction false} ForgetReferences(s: State, id: Id)
    requires References(s) && NotCapturing(s, id)
    ensures References(Forget(s, id))
  {
    hide Filter; hide Distinct;
    FilterDistinct(s.focusHistory, (x: Id) => x != id);
  }

  lemma {:induction false} ForgetForest(s: State, id: Id)
    requires Forest(s) && Childless(s, id)
    ensures Forest(Forget(s, id))
  {
    hide Ordered;
    var r := Forget(s, id);
    var other := (x: Id) => x != id;
    forall x | x in s.stack ensures Rests(s.windows, {}, other, r.windows, {}, x) {
    }
    FilterOrdered(s.windows, {}, s.stack, other, r.windows, {});
  }

  lemma {:induction false} ForgetBounded(s: State, id: Id)
    requires Bounded(s)
    ensures Bounded(Forget(s, id))
  {
    hide ValidWindow;
    var r := Forget(s, id);
    SmallerSet(r.windows.Keys, s.windows.Keys);
    forall owner ensures |OwnedWindows(r.windows, owner)| <= MAX_WINDOWS_PER_OWNER {
      SmallerSet(OwnedWindows(r.windows, owner), OwnedWindows(s.windows, owner));
    }
  }

  lemma {:induction false} ChildlessStays(s: State, r: State, id: Id)
    requires Fewer(s, r, {}) && Childless(s, id)
    ensures Childless(r, id)
  {
  }

  /** Everything removal does before the record itself goes. */
  function Farewell(s: State, id: Id, reason: DismissReason): State {
    var uncaptured := CancelCapture(s, id);
    var unhovered := if uncaptured.hover.Some? && uncaptured.hover.value.window == id
                     then SetHover(uncaptured, None) else uncaptured;
    var unfocused := if unhovered.focus == Some(id) then ChangeFocus(unhovered, None) else unhovered;
    Emit(unfocused, id, Dismissed(reason))
  }

  ghost predicate NotCapturing(s: State, id: Id) {
    s.capture.Some? ==> s.capture.value.window != id
  }

  lemma {:induction false} ReleasedSafe(s: State, id: Id)
    requires Inv(s)
    ensures var uncaptured := CancelCapture(s, id);
            var r := if uncaptured.hover.Some? && uncaptured.hover.value.window == id
                     then SetHover(uncaptured, None) else uncaptured;
            Safe(s, r) && NotCapturing(r, id)
  {
    hide Inv; hide SetHover; hide CancelCapture; hide Fewer;
    var uncaptured := CancelCapture(s, id);
    CancelCaptureSafe(s, id);
    SetHoverSafe(uncaptured, None);
    SetHoverCapture(uncaptured, None);
    SafeTwice(s, uncaptured, SetHover(uncaptured, None));
  }

  lemma {:induction false} FarewellSafe(s: State, id: Id, reason: DismissReason)
    requires Inv(s)
    ensures Safe(s, Farewell(s, id, reason)) && NotCapturing(Farewell(s, id, reason), id)
  {
    hide Inv; hide Emit; hide ChangeFocus; hide SetHover; hide CancelCapture; hide Fewer; hide NotCapturing;
    var uncaptured := CancelCapture(s, id);
    var unhovered := if uncaptured.hover.Some? && uncaptured.hover.value.window == id
                     then SetHover(uncaptured, None) else uncaptured;
    ReleasedSafe(s, id);
    var unfocused := if unhovered.focus == Some(id) then ChangeFocus(unhovered, None) else unhovered;
    Loosened(unhovered, unhovered);
    ChangeFocusIsSafe(unhovered, None);
    FocusCapture(unhovered, None, id);
    SafeTwice(s, unhovered, unfocused);
    EmitIsSafe(unfocused, id, Dismissed(reason));
    EmitCapture(unfocused, id, Dismissed(reason), id);
    SafeTwice(s, unfocused, Emit(unfocused, id, Dismissed(reason)));
  }

  lemma {:induction false} EmitCapture(s: State, id: Id, event: Event, other: Id)
    requires Inv(s) && ValidEvent(event) && NotCapturing(s, other)
    ensures NotCapturing(Emit(s, id, event), other)
  {
    hide Inv; hide Emit;
    EmitSafe(s, id, event);
  }

  lemma {:induction false} FocusCapture(s: State, next: Option<Id>, other: Id)
    requires Inv(s) && NotCapturing(s, other)
    ensures NotCapturing(ChangeFocus(s, next), other)
  {
    hide Inv; hide ChangeFocus;
    ChangeFocusSafe(s, next);
  }

  lemma {:induction false} RemoveOneSafe(s: State, id: Id, reason: DismissReason)
    requires Inv(s) && Childless(s, id)
    ensures Removes(s, RemoveOne(s, id, reason), {id})
  {
    hide Inv; hide Emit; hide ChangeFocus; hide SetHover; hide CancelCapture; hide Fewer; hide Childless;
    var told := Farewell(s, id, reason);
    FarewellSafe(s, id, reason);
    assert RemoveOne(s, id, reason) == Forget(told, id);
    ChildlessStays(s, told, id);
    ForgetSafe(told, id);
    RemovesTwice(s, told, Forget(told, id), {}, {id}, {id});
  }

  /** Hover changes never establish a capture. */
  lemma {:induction false} SetHoverCapture(s: State, next: Option<Hovering>)
    requires Inv(s)
    ensures SetHover(s, next).capture.None? || SetHover(s, next).capture == s.capture
  {
    hide Inv; hide Emit;
    var left := if s.hover.None? then s else Emit(s, s.hover.value.window, Hover(s.hover.value.region, false));
    if s.hover.Some? {
      EmitSafe(s, s.hover.value.window, Hover(s.hover.value.region, false));
    }
    var moved := left.(hover := next);
    Loosened(left, moved);
    if next.Some? {
      EmitSafe(moved, next.value.window, Hover(next.value.region, true));
    }
  }

  /** Listed windows can be removed from the last to the first without ever orphaning a child. */
  ghost predicate Removable(windows: map<Id, Window>, ids: seq<Id>)
    decreases |ids|
  {
    ids == [] ||
    (ChildlessIn(windows, ids[|ids| - 1]) && Removable(windows - {ids[|ids| - 1]}, ids[..|ids| - 1]))
  }

  ghost predicate ChildlessIn(windows: map<Id, Window>, id: Id) {
    forall x :: x in windows ==> windows[x].options.parent != Some(id)
  }

  ghost predicate Submap(less: map<Id, Window>, more: map<Id, Window>) {
    forall x :: x in less ==> x in more && less[x] == more[x]
  }

  lemma {:induction false} RemovableFewer(less: map<Id, Window>, more: map<Id, Window>, ids: seq<Id>)
    requires Removable(more, ids) && Submap(less, more)
    ensures Removable(less, ids)
    decreases |ids|
  {
    if ids != [] {
      RemovableFewer(less - {ids[|ids| - 1]}, more - {ids[|ids| - 1]}, ids[..|ids| - 1]);
    }
  }

  /** An ordered list that contains the live children of its members is removable. */
  lemma {:induction false} OrderedRemovable(windows: map<Id, Window>, live: map<Id, Window>, root: Id, ids: seq<Id>)
    requires Ordered(windows, {root}, ids) && Submap(live, windows)
    requires forall x :: x in live && live[x].options.parent.Some? && live[x].options.parent.value in ids ==> x in ids
    ensures Removable(live, ids)
    decreases |ids|
  {
    if ids != [] {
      var front, last := ids[..|ids| - 1], ids[|ids| - 1];
      assert ids == front + [last];
      forall x | x in live ensures live[x].options.parent != Some(last) {
        if x in front && Parent(windows, x).Some? {
          ParentEarlier(windows, {root}, front, x);
        }
      }
      OrderedRemovable(windows, live - {last}, root, front);
    }
  }

  lemma {:induction false} RemoveAllSafe(s: State, ids: seq<Id>)
    requires Inv(s) && Removable(s.windows, ids)
    ensures Removes(s, RemoveAll(s, ids), set id | id in ids)
    decreases |ids|
  {
    hide Inv; hide RemoveOne; hide Fewer;
    if ids == [] {
      Loosened(s, s);
      assert (set id | id in ids) == {};
    } else {
      var front, last := ids[..|ids| - 1], ids[|ids| - 1];
      var one := RemoveOne(s, last, ParentClosed);
      RemoveOneSafe(s, last, ParentClosed);
      FewerSubmap(s, one, last);
      RemovableFewer(one.windows, s.windows - {last}, front);
      RemoveAllSafe(one, front);
      assert ids == front + [last];
      RemovesTwice(s, one, RemoveAll(s, ids), {last}, set id | id in front, set id | id in ids);
    }
  }

  lemma {:induction false} FewerSubmap(s: State, r: State, id: Id)
    requires Fewer(s, r, {id})
    ensures Submap(r.windows, s.windows - {id})
  {
  }

  /**
   Closing removes exactly the window and its descendants. Any other window that goes belongs to an
   owner the close revoked by overflow.
   */
  lemma {:induction false} CloseSafe(s: State, id: Id, reason: DismissReason)
    requires Inv(s)
    ensures Removes(s, CloseWindow(s, id, reason), set x | x in s.windows && Descends(s.windows, x, id))
  {
    hide Inv; hide RemoveOne; hide RemoveAll; hide Restore; hide Descends; hide Fewer;
    var ids := Without(Subtree(s.windows, s.stack, id), id);
    var below := set x | x in ids;
    var cleared := RemoveAll(s, ids);
    InvStructure(s);
    if id in s.windows {
      SubtreeListed(s, id);
      RemoveAllSafe(s, ids);
      ClearedChildless(s, cleared, id);
    } else {
      StrangerHasNothing(s, id);
      RemoveAllSafe(s, ids);
      assert below == {};
      ChildlessStays(s, cleared, id);
    }
    RemoveOneSafe(cleared, id, reason);
    var removed := RemoveOne(cleared, id, reason);
    RemovesTwice(s, cleared, removed, below, {id}, below + {id});
    RestoreIsSafe(removed);
    RemovesTwice(s, removed, Restore(removed), below + {id}, {}, below + {id});
    SubtreeMembers(s, id);
    SameRemoval(s, Restore(removed), below + {id}, set x | x in s.windows && Descends(s.windows, x, id));
  }

  lemma {:induction false} SameRemoval(s: State, r: State, gone: set<Id>, live: set<Id>)
    requires Removes(s, r, gone) && live == gone * s.windows.Keys
    ensures Removes(s, r, live)
  {
    hide Inv;
    assert s.windows - gone == s.windows - live;
  }

  lemma {:induction false} SubtreeMembers(s: State, id: Id)
    requires Structure(s)
    ensures (set x | x in s.windows && Descends(s.windows, x, id))
         == ((set x | x in Without(Subtree(s.windows, s.stack, id), id)) + {id}) * s.windows.Keys
  {
    hide DescendsWithin; hide Ordered;
    if id in s.windows {
      RootParentOutside(s, id);
    }
  }

  lemma {:induction false} StrangerHasNothing(s: State, id: Id)
    requires Structure(s) && id !in s.windows
    ensures Without(Subtree(s.windows, s.stack, id), id) == [] && Childless(s, id)
  {
    hide Ordered;
    forall x | x in s.stack ensures !Descends(s.windows, x, id) {
      OutOfReach(s.windows, s.stack, x, id, MAX_WINDOWS);
    }
    var group := Without(Subtree(s.windows, s.stack, id), id);
    MemberOrEmpty(group);
    forall x | x in s.windows ensures s.windows[x].options.parent != Some(id) {
      if s.windows[x].options.parent == Some(id) {
        ParentEarlier(s.windows, {}, s.stack, x);
      }
    }
  }

  lemma {:induction false} MemberOrEmpty(ids: seq<Id>)
    ensures ids == [] || exists id :: id in ids
  {
    if ids != [] {
      assert ids[0] in ids;
    }
  }

  lemma {:induction false} SubtreeListed(s: State, id: Id)
    requires Structure(s) && id in s.windows
    ensures Removable(s.windows, Without(Subtree(s.windows, s.stack, id), id))
  {
    hide Ordered; hide Descends;
    var keep := (x: Id) => Descends(s.windows, x, id) && x != id;
    var ids := Without(Subtree(s.windows, s.stack, id), id);
    FilterTwice(s.stack, (x: Id) => Descends(s.windows, x, id), (x: Id) => x != id, keep);
    forall x | x in s.stack ensures Rests(s.windows, {}, keep, s.windows, {id}, x) {
      Climb(s, x, id);
    }
    FilterOrdered(s.windows, {}, s.stack, keep, s.windows, {id});
    RootParentOutside(s, id);
    forall x | x in s.windows && s.windows[x].options.parent.Some? && s.windows[x].options.parent.value in ids
      ensures x in ids
    {
      Climb(s, x, id);
    }
    OrderedRemovable(s.windows, s.windows, id, ids);
  }

  lemma {:induction false} ClearedChildless(s: State, cleared: State, id: Id)
    requires Structure(s) && id in s.windows
    requires Fewer(s, cleared, set x | x in Without(Subtree(s.windows, s.stack, id), id))
    ensures Childless(cleared, id)
  {
    hide Ordered; hide Descends;
    RootParentOutside(s, id);
    forall x | x in s.windows && s.windows[x].options.parent == Some(id)
      ensures x in Without(Subtree(s.windows, s.stack, id), id)
    {
      Climb(s, x, id);
    }
  }

  lemma {:induction false} ChildrenRemovable(s: State, id: Id)
    requires Inv(s)
    ensures Removable(s.windows, Without(Subtree(s.windows, s.stack, id), id))
  {
    hide Subtree; hide Structure;
    InvStructure(s);
    if id in s.windows {
      SubtreeListed(s, id);
    } else {
      StrangerHasNothing(s, id);
    }
  }

  lemma {:induction false} LastRemovable(s: State, ids: seq<Id>)
    requires Inv(s) && ids != [] && Removable(s.windows, ids)
    ensures Childless(s, ids[|ids| - 1])
    ensures Removable(RemoveOne(s, ids[|ids| - 1], ParentClosed).windows, ids[..|ids| - 1])
  {
    hide Inv; hide RemoveOne;
    var last := ids[|ids| - 1];
    RemoveOneSafe(s, last, ParentClosed);
    FewerSubmap(s, RemoveOne(s, last, ParentClosed), last);
    RemovableFewer(RemoveOne(s, last, ParentClosed).windows, s.windows - {last}, ids[..|ids| - 1]);
  }

  lemma {:induction false} LastChildFree(s: State, cleared: State, children: seq<Id>, id: Id)
    requires Inv(s) && children == Without(Subtree(s.windows, s.stack, id), id)
    requires Removes(s, cleared, set x | x in children)
    ensures Childless(cleared, id)
  {
    hide Subtree;
    InvStructure(s);
    if id in s.windows {
      ClearedChildless(s, cleared, id);
    } else {
      StrangerHasNothing(s, id);
      assert (set x | x in children) == {};
      ChildlessStays(s, cleared, id);
    }
  }
}
