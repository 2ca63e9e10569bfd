/** What every reachable state of the window machine satisfies, and the order lemmas behind it. */
module OverlayInvariant {
  import opened Wrappers
  import opened Words
  import opened Scalars
  import opened OverlayTypes
  import opened OverlayModel

  // ---- The invariant -----------------------------------------------------------------------

  /**
   `ids` has no duplicates and every window in it comes after its parent; parents may also lie in
   `below`. With nothing below, a stack in this order has acyclic parents.
   */
  ghost predicate Ordered(windows: map<Id, Window>, below: set<Id>, ids: seq<Id>) {
    ids == [] ||
    (var front, last := ids[..|ids| - 1], ids[|ids| - 1];
     Ordered(windows, below, front) && last !in front && last !in below &&
     (Parent(windows, last).Some? ==> Parent(windows, last).value in below || Parent(windows, last).value in front))
  }

  ghost predicate Distinct(ids: seq<Id>) {
    forall i, j :: 0 <= i < j < |ids| ==> ids[i] != ids[j]
  }

  ghost predicate Forest(s: State) {
    Ordered(s.windows, {}, s.stack) &&
    (forall id :: id in s.windows <==> id in s.stack) &&
    (forall id :: id in s.windows && s.windows[id].options.parent.Some? ==>
       s.windows[id].options.parent.value.owner == id.owner)
  }

  ghost predicate ValidWindow(id: Id, w: Window) {
    id.contextId != 0 && id.surfaceId != 0 && w.generation != 0 && w.revision != 0 && ValidRect(w.options.bounds)
  }

  ghost predicate Bounded(s: State) {
    |s.windows| <= MAX_WINDOWS &&
    (forall owner :: |OwnedWindows(s.windows, owner)| <= MAX_WINDOWS_PER_OWNER) &&
    (forall id :: id in s.windows ==> ValidWindow(id, s.windows[id]))
  }

  ghost predicate References(s: State) {
    (s.capture.Some? ==> s.capture.value.window in s.windows) &&
    (forall id :: id in s.focusHistory ==> id in s.windows) && Distinct(s.focusHistory)
  }

  function Owners(s: State): set<Owner> {
    s.events.Keys + s.overflowed
  }

  /** Every window's owner has a queue, and only open queues have a delivery history. */
  ghost predicate Queued(s: State) {
    (forall id :: id in s.windows ==> id.owner in s.events) && s.deliveries.Keys == s.events.Keys
  }

  ghost predicate Counted(s: State) {
    s.events.Keys !! s.overflowed && |Owners(s)| <= MAX_OWNERS
  }

  ghost predicate QueueFine(owner: Owner, q: seq<WindowEvent>) {
    |q| <= MAX_PENDING_EVENTS && QueueBytes(q) <= MAX_EVENT_QUEUE_BYTES &&
    forall i :: 0 <= i < |q| ==> q[i].window.owner == owner && ValidEvent(q[i].event)
  }

  /**
   `out` is `emitted` without some replaceable events, each of which was immediately followed by
   the event that replaced it.
   */
  ghost predicate Thinned(emitted: seq<WindowEvent>, out: seq<WindowEvent>)
    decreases |emitted|
  {
    if emitted == [] then out == []
    else
      var n, m := |emitted|, |out|;
      m > 0 && out[m - 1] == emitted[n - 1] &&
      (Thinned(emitted[..n - 1], out[..m - 1]) ||
       (n > 1 && CanReplace(emitted[n - 2], emitted[n - 1]) &&
        Thinned(emitted[..n - 1], out[..m - 1] + [emitted[n - 2]])))
  }

  ghost predicate OwnerServed(s: State, owner: Owner)
    requires owner in s.events
  {
    QueueFine(owner, s.events[owner]) && owner in s.deliveries &&
    Thinned(s.deliveries[owner].emitted, s.deliveries[owner].taken + s.events[owner])
  }

  ghost predicate AllServed(s: State) {
    forall owner :: owner in s.events ==> OwnerServed(s, owner)
  }

  ghost predicate Structure(s: State) {
    Forest(s) && Bounded(s) && References(s) && Queued(s)
  }

  ghost predicate Inv(s: State) {
    Structure(s) && Counted(s) && AllServed(s)
  }

  // ---- Selections --------------------------------------------------------------------------

  lemma {:induction false} FilterAll(ids: seq<Id>, keep: Id -> bool)
    requires forall id :: id in ids ==> keep(id)
    ensures Filter(ids, keep) == ids
    decreases |ids|
  {
    if ids != [] {
      FilterAll(ids[..|ids| - 1], keep);
      assert ids == ids[..|ids| - 1] + [ids[|ids| - 1]];
    }
  }

  lemma {:induction false} FilterTwice(ids: seq<Id>, first: Id -> bool, second: Id -> bool, both: Id -> bool)
    requires forall id :: id in ids ==> (both(id) <==> first(id) && second(id))
    ensures Filter(Filter(ids, first), second) == Filter(ids, both)
    decreases |ids|
  {
    if ids != [] {
      var front, last := ids[..|ids| - 1], ids[|ids| - 1];
      FilterTwice(front, first, second, both);
      if first(last) {
        assert (Filter(front, first) + [last])[..|Filter(front, first)|] == Filter(front, first);
      }
    }
  }

  lemma {:induction false} FilterDistinct(ids: seq<Id>, keep: Id -> bool)
    requires Distinct(ids)
    ensures Distinct(Filter(ids, keep))
    decreases |ids|
  {
    if ids != [] {
      FilterDistinct(ids[..|ids| - 1], keep);
    }
  }

  lemma {:induction false} ServedAll(ids: seq<Id>, owners: set<Owner>)
    requires forall id :: id in ids ==> id.owner in owners
    ensures Served(ids, owners) == ids
  {
    FilterAll(ids, (id: Id) => id.owner in owners);
  }

  lemma {:induction false} ServedTwice(ids: seq<Id>, more: set<Owner>, fewer: set<Owner>)
    requires fewer <= more
    ensures Served(Served(ids, more), fewer) == Served(ids, fewer)
  {
    FilterTwice(ids, (id: Id) => id.owner in more, (id: Id) => id.owner in fewer, (id: Id) => id.owner in fewer);
  }

  lemma {:induction false} UnownedIsServed(ids: seq<Id>, owner: Owner, owners: set<Owner>)
    requires forall id :: id in ids ==> id.owner in owners
    ensures Unowned(ids, owner) == Served(ids, owners - {owner})
  {
    FilterTwice(ids, (id: Id) => true, (id: Id) => id.owner != owner, (id: Id) => id.owner in owners - {owner});
    FilterAll(ids, (id: Id) => true);
  }

  // ---- Order -------------------------------------------------------------------------------

  /** A kept window rests on a kept parent, or on one in `base`. */
  ghost predicate Rests(windows: map<Id, Window>, below: set<Id>, keep: Id -> bool,
                        kept: map<Id, Window>, base: set<Id>, id: Id)
  {
    var parent := Parent(windows, id);
    keep(id) ==>
      id !in base && Parent(kept, id) == parent &&
      (parent.Some? ==> parent.value in base || (parent.value !in below && keep(parent.value)))
  }

  /** A selection stays ordered when every kept window's parent is kept too, or lies below. */
  lemma {:induction false} FilterOrdered(windows: map<Id, Window>, below: set<Id>, ids: seq<Id>, keep: Id -> bool,
                                         kept: map<Id, Window>, base: set<Id>)
    requires Ordered(windows, below, ids)
    requires forall id :: id in ids ==> Rests(windows, below, keep, kept, base, id)
    ensures Ordered(kept, base, Filter(ids, keep))
    decreases |ids|
  {
    if ids != [] {
      var front, last := ids[..|ids| - 1], ids[|ids| - 1];
      FilterOrdered(windows, below, front, keep, kept, base);
      assert Rests(windows, below, keep, kept, base, last);
      if keep(last) {
        assert (Filter(front, keep) + [last])[..|Filter(front, keep)|] == Filter(front, keep);
      }
    }
  }

  /** Order depends on the windows only through their parents. */
  lemma {:induction false} OrderedSameParents(windows: map<Id, Window>, other: map<Id, Window>, below: set<Id>, ids: seq<Id>)
    requires Ordered(windows, below, ids)
    requires forall id :: id in ids ==> Parent(other, id) == Parent(windows, id)
    ensures Ordered(other, below, ids)
    decreases |ids|
  {
    if ids != [] {
      OrderedSameParents(windows, other, below, ids[..|ids| - 1]);
    }
  }

  /** Two ordered runs concatenate when the second may rest on the first. */
  lemma {:induction false} OrderedConcat(windows: map<Id, Window>, below: set<Id>, a: seq<Id>, b: seq<Id>, base: set<Id>)
    requires Ordered(windows, below, a) && Ordered(windows, base, b)
    requires forall id :: id in b ==> id !in a && id !in below
    requires forall id :: id in b && Parent(windows, id).Some? && Parent(windows, id).value in base ==>
               Parent(windows, id).value in below || Parent(windows, id).value in a
    ensures Ordered(windows, below, a + b)
    decreases |b|
  {
    if b == [] {
      assert a + b == a;
    } else {
      var front, last := b[..|b| - 1], b[|b| - 1];
      OrderedConcat(windows, below, a, front, base);
      assert (a + b)[..|a + b| - 1] == a + front;
    }
  }

  lemma {:induction false} OrderedDistinct(windows: map<Id, Window>, below: set<Id>, ids: seq<Id>)
    requires Ordered(windows, below, ids)
    ensures Distinct(ids) && |set id | id in ids| == |ids|
    decreases |ids|
  {
    if ids != [] {
      var front, last := ids[..|ids| - 1], ids[|ids| - 1];
      OrderedDistinct(windows, below, front);
      assert (set id | id in ids) == (set id | id in front) + {last};
    }
  }

  lemma {:induction false} OrderedPrefix(windows: map<Id, Window>, below: set<Id>, ids: seq<Id>, k: nat)
    requires Ordered(windows, below, ids) && k <= |ids|
    ensures Ordered(windows, below, ids[..k])
    decreases |ids|
  {
    if k < |ids| {
      OrderedPrefix(windows, below, ids[..|ids| - 1], k);
      assert ids[..|ids| - 1][..k] == ids[..k];
    } else {
      assert ids[..k] == ids;
    }
  }

  lemma {:induction false} ParentEarlier(windows: map<Id, Window>, below: set<Id>, ids: seq<Id>, child: Id)
    requires Ordered(windows, below, ids) && child in ids && Parent(windows, child).Some?
    ensures Parent(windows, child).value in below || Parent(windows, child).value in ids
    decreases |ids|
  {
    if child != ids[|ids| - 1] {
      ParentEarlier(windows, below, ids[..|ids| - 1], child);
    }
  }

  // ---- Walks -------------------------------------------------------------------------------

  /** A walk started inside an ordered stack is decided within as many steps as the stack is long. */
  lemma {:induction false} WalkSettles(windows: map<Id, Window>, stack: seq<Id>, id: Id, root: Id, fuel: nat)
    requires Ordered(windows, {}, stack) && id in stack && fuel >= |stack|
    ensures DescendsWithin(windows, id, root, fuel) == DescendsWithin(windows, id, root, |stack|)
    ensures VisibleWithin(windows, id, fuel) == VisibleWithin(windows, id, |stack|)
    decreases |stack|
  {
    var front, last := stack[..|stack| - 1], stack[|stack| - 1];
    if id != last {
      WalkSettles(windows, front, id, root, fuel);
      WalkSettles(windows, front, id, root, |stack|);
    } else if Parent(windows, id).Some? {
      WalkSettles(windows, front, Parent(windows, id).value, root, fuel - 1);
    }
  }

  lemma {:induction false} StackLength(s: State)
    requires Forest(s)
    ensures |s.stack| == |s.windows|
  {
    OrderedDistinct(s.windows, {}, s.stack);
    assert (set id | id in s.stack) == s.windows.Keys;
  }

  /** The 256-step walks are one-step recursive: the cut-off is never felt. */
  lemma {:induction false} Climb(s: State, id: Id, root: Id)
    requires Structure(s) && id in s.windows
    ensures var parent := s.windows[id].options.parent;
            (parent.Some? ==> parent.value in s.windows) &&
            (Descends(s.windows, id, root) <==> id == root || (parent.Some? && Descends(s.windows, parent.value, root))) &&
            (EffectivelyVisible(s.windows, id) <==>
               s.windows[id].options.visible && (parent.None? || EffectivelyVisible(s.windows, parent.value)))
  {
    StackLength(s);
    var parent := s.windows[id].options.parent;
    if parent.Some? {
      ClimbIn(s.windows, s.stack, id, root);
    }
  }

  lemma {:induction false} ClimbIn(windows: map<Id, Window>, stack: seq<Id>, id: Id, root: Id)
    requires Ordered(windows, {}, stack) && |stack| <= MAX_WINDOWS && id in stack && Parent(windows, id).Some?
    ensures Parent(windows, id).value in stack
    ensures DescendsWithin(windows, Parent(windows, id).value, root, MAX_WINDOWS - 1)
         == Descends(windows, Parent(windows, id).value, root)
    ensures VisibleWithin(windows, Parent(windows, id).value, MAX_WINDOWS - 1)
         == EffectivelyVisible(windows, Parent(windows, id).value)
    decreases |stack|
  {
    var front, last := stack[..|stack| - 1], stack[|stack| - 1];
    if id != last {
      ClimbIn(windows, front, id, root);
    } else {
      WalkSettles(windows, front, Parent(windows, id).value, root, MAX_WINDOWS - 1);
      WalkSettles(windows, front, Parent(windows, id).value, root, MAX_WINDOWS);
    }
  }
}
