/**
 Bounded, coalescing delivery of observations. A full queue drops its oldest entry, and the drop is
 told before anything else is.
 */
module Observation {
  import opened Wrappers
  import opened Words

  /** A 64-bit class mask, as the set of its one bits. */
  type Mask = set<nat>

  const KNOWN_MASK: Mask := {0, 1, 2, 3, 4}

  datatype Key = Key(recordType: u16, contextId: u64, objectId: u64)

  /** Encoded payload fields: carried, never looked into. */
  type Payload = seq<byte>

  datatype Entry = Entry(key: Key, bits: Mask, payload: Payload)
  datatype Loss = Loss(first: u64, classes: Mask)
  datatype State = State(mask: Mask, capacity: nat, sequence: u64, entries: seq<Entry>, lost: Option<Loss>)

  /** What goes out: a gap report, or a record with its delivery number. */
  datatype Told =
    | Gap(firstLost: u64, classes: Mask, sequence: u64)
    | Record(recordType: u16, objectId: u64, payload: Payload, sequence: u64)

  datatype Op = Subscribe(mask: Mask) | Push(bits: Mask, key: Key, payload: Payload) | Drain

  function Initial(capacity: u64): State {
    State({}, if capacity == 0 then 1 else capacity, 0, [], None)
  }

  // ---- Steps -------------------------------------------------------------------------------

  /** `saturating_add(1)` */
  function Bump(n: u64): u64 {
    if n == U64_MAX then n else n + 1
  }

  function Listening(entries: seq<Entry>, mask: Mask): (kept: seq<Entry>)
    ensures |kept| <= |entries|
    ensures forall e :: e in kept <==> e in entries && e.bits * mask != {}
  {
    if entries == [] then []
    else
      var front, last := Listening(entries[..|entries| - 1], mask), entries[|entries| - 1];
      assert entries == entries[..|entries| - 1] + [last];
      if last.bits * mask != {} then front + [last] else front
  }

  function SubscribeTo(s: State, mask: Mask): (State, bool) {
    if !(mask <= KNOWN_MASK) then (s, false)
    else (s.(mask := mask, entries := Listening(s.entries, mask)), true)
  }

  /** Position of the first entry with this key, or the length when there is none. */
  function Find(entries: seq<Entry>, key: Key): (i: nat)
    ensures i <= |entries| && (i < |entries| ==> entries[i].key == key)
    ensures forall j :: 0 <= j < i ==> entries[j].key != key
  {
    if entries == [] || entries[0].key == key then 0 else 1 + Find(entries[1..], key)
  }

  function NoteLoss(s: State, classes: Mask): State {
    s.(lost := Some(if s.lost.Some? then Loss(s.lost.value.first, s.lost.value.classes + classes)
                    else Loss(Bump(s.sequence), classes)))
  }

  predicate Crowded(s: State) {
    |s.entries| >= s.capacity
  }

  /** The entry a new key pushes out, when there is one. */
  function Evicted(s: State, op: Op): Option<Entry> {
    if op.Push? && s.mask * op.bits != {} && Find(s.entries, op.key) == |s.entries| && Crowded(s) && s.entries != []
    then Some(s.entries[0]) else None
  }

  function PushOnto(s: State, bits: Mask, key: Key, payload: Payload): (State, bool) {
    if s.mask * bits == {} then (s, false)
    else
      var i := Find(s.entries, key);
      if i < |s.entries| then (s.(entries := s.entries[i := s.entries[i].(payload := payload)]), true)
      else
        var room := if !Crowded(s) then s
                    else if s.entries == [] then NoteLoss(s, {})
                    else NoteLoss(s.(entries := s.entries[1..]), s.entries[0].bits);
        (room.(entries := room.entries + [Entry(key, bits, payload)]), true)
  }

  function DrainNext(s: State): (State, Option<Told>) {
    var next := Bump(s.sequence);
    if s.lost.Some? then
      (s.(lost := None, sequence := next), Some(Gap(s.lost.value.first, s.lost.value.classes, next)))
    else if s.entries == [] then (s, None)
    else
      var e := s.entries[0];
      (s.(entries := s.entries[1..], sequence := next), Some(Record(e.key.recordType, e.key.objectId, e.payload, next)))
  }

  function Step(s: State, op: Op): State {
    match op
    case Subscribe(mask) => SubscribeTo(s, mask).0
    case Push(bits, key, payload) => PushOnto(s, bits, key, payload).0
    case Drain => DrainNext(s).0
  }

  function After(capacity: u64, ops: seq<Op>): State {
    if ops == [] then Initial(capacity) else Step(After(capacity, ops[..|ops| - 1]), ops[|ops| - 1])
  }

  // ---- The invariant -----------------------------------------------------------------------

  ghost predicate KeysDistinct(entries: seq<Entry>) {
    forall i, j :: 0 <= i < j < |entries| ==> entries[i].key != entries[j].key
  }

  ghost predicate AllListened(entries: seq<Entry>, mask: Mask) {
    forall i :: 0 <= i < |entries| ==> entries[i].bits * mask != {}
  }

  /** Keys are unique, the queue is within capacity, everything queued is listened to. */
  ghost predicate Inv(s: State) {
    s.capacity >= 1 && |s.entries| <= s.capacity && s.mask <= KNOWN_MASK && KeysDistinct(s.entries) &&
    AllListened(s.entries, s.mask) && (s.lost.Some? ==> s.lost.value.first == Bump(s.sequence))
  }

  lemma {:induction false} DistinctAppend(entries: seq<Entry>, last: Entry)
    requires KeysDistinct(entries) && forall i :: 0 <= i < |entries| ==> entries[i].key != last.key
    ensures KeysDistinct(entries + [last])
  {
  }

  lemma {:induction false} ListeningFine(entries: seq<Entry>, mask: Mask)
    requires KeysDistinct(entries)
    ensures KeysDistinct(Listening(entries, mask)) && AllListened(Listening(entries, mask), mask)
    decreases |entries|
  {
    hide KeysDistinct;
    if entries != [] {
      var front, last := entries[..|entries| - 1], entries[|entries| - 1];
      LastDistinct(entries);
      ListeningFine(front, mask);
      var kept := Listening(front, mask);
      forall i | 0 <= i < |kept| ensures kept[i].key != last.key {
        assert kept[i] in kept;
      }
      DistinctAppend(kept, last);
    }
  }

  lemma {:induction false} LastDistinct(entries: seq<Entry>)
    requires KeysDistinct(entries) && entries != []
    ensures KeysDistinct(entries[..|entries| - 1])
    ensures forall e :: e in entries[..|entries| - 1] ==> e.key != entries[|entries| - 1].key
  {
  }

  lemma {:induction false} StepSafe(s: State, op: Op)
    requires Inv(s)
    ensures Inv(Step(s, op))
  {
    match op
    case Subscribe(mask) => ListeningFine(s.entries, mask);
    case Push(bits, key, payload) => PushSafe(s, bits, key, payload);
    case Drain =>
  }

  lemma {:induction false} PushSafe(s: State, bits: Mask, key: Key, payload: Payload)
    requires Inv(s)
    ensures Inv(PushOnto(s, bits, key, payload).0)
  {
    var i := Find(s.entries, key);
    if s.mask * bits != {} && i == |s.entries| {
      DistinctAppend(if Crowded(s) && s.entries != [] then s.entries[1..] else s.entries, Entry(key, bits, payload));
    }
  }

  lemma {:induction false} RunSafe(capacity: u64, ops: seq<Op>)
    ensures Inv(After(capacity, ops))
    decreases |ops|
  {
    hide Inv; hide Step;
    if ops == [] {
      InitialSafe(capacity);
    } else {
      RunSafe(capacity, ops[..|ops| - 1]);
      StepSafe(After(capacity, ops[..|ops| - 1]), ops[|ops| - 1]);
    }
  }

  lemma {:induction false} InitialSafe(capacity: u64)
    ensures Inv(Initial(capacity))
  {
  }

  // ---- Delivery numbers --------------------------------------------------------------------

  /** Everything a run told, in order. */
  function ToldBy(capacity: u64, ops: seq<Op>): seq<Told> {
    if ops == [] then []
    else
      var before := ToldBy(capacity, ops[..|ops| - 1]);
      var s := After(capacity, ops[..|ops| - 1]);
      if ops[|ops| - 1].Drain? && DrainNext(s).1.Some? then before + [DrainNext(s).1.value] else before
  }

  /** `n`, or the end of the counter once that is passed. */
  function Saturated(n: nat): u64 {
    if n > U64_MAX then U64_MAX else n
  }

  /** The numbers told are 1, 2, 3, ... up to the end of the counter, and every gap names its own. */
  lemma {:induction false} NumbersConsecutive(capacity: u64, ops: seq<Op>)
    ensures var told := ToldBy(capacity, ops);
            After(capacity, ops).sequence == Saturated(|told|) &&
            forall i :: 0 <= i < |told| ==>
              told[i].sequence == Saturated(i + 1) && (told[i].Gap? ==> told[i].firstLost == Saturated(i + 1))
    decreases |ops|
  {
    hide Listening; hide Find;
    if ops != [] {
      var front := ops[..|ops| - 1];
      NumbersConsecutive(capacity, front);
      RunSafe(capacity, front);
    }
  }

  // ---- Nothing is lost in silence ----------------------------------------------------------

  function At(capacity: u64, ops: seq<Op>, n: nat): State
    requires n <= |ops|
  {
    After(capacity, ops[..n])
  }

  /** Operation `i` queued its payload. */
  ghost predicate Accepted(capacity: u64, ops: seq<Op>, i: nat) {
    i < |ops| && ops[i].Push? && At(capacity, ops, i).mask * ops[i].bits != {}
  }

  /** An entry of `s` holds exactly what `op` pushed. */
  ghost predicate Holds(s: State, op: Op, e: Entry)
    requires op.Push?
  {
    e in s.entries && e.key == op.key && e.payload == op.payload
  }

  ghost predicate Held(s: State, op: Op)
    requires op.Push?
  {
    exists e :: Holds(s, op, e)
  }

  /** Handed out whole by operation `d`. */
  ghost predicate Delivered(capacity: u64, ops: seq<Op>, op: Op, d: nat)
    requires op.Push?
  {
    d < |ops| && ops[d].Drain? &&
    var s := At(capacity, ops, d);
    s.entries != [] && s.entries[0].key == op.key &&
    DrainNext(s).1 == Some(Record(op.key.recordType, op.key.objectId, op.payload, Bump(s.sequence)))
  }

  /** Evicted by operation `d` in favour of another key. */
  ghost predicate PushedOut(capacity: u64, ops: seq<Op>, op: Op, d: nat, e: Entry)
    requires op.Push?
  {
    d < |ops| && Holds(At(capacity, ops, d), op, e) && Evicted(At(capacity, ops, d), ops[d]) == Some(e)
  }

  /** A gap told after operation `d`, or still pending, covers `classes`. */
  ghost predicate GapCovers(capacity: u64, ops: seq<Op>, d: nat, classes: Mask) {
    (var lost := After(capacity, ops).lost; lost.Some? && classes <= lost.value.classes) ||
    exists g :: d < g < |ops| && GapToldAt(capacity, ops, g, classes)
  }

  ghost predicate GapToldAt(capacity: u64, ops: seq<Op>, g: nat, classes: Mask) {
    g < |ops| && ops[g].Drain? &&
    var out := DrainNext(At(capacity, ops, g)).1;
    out.Some? && out.value.Gap? && classes <= out.value.classes
  }

  /** Dropped by operation `d`, a subscription that no longer listens to its class. */
  ghost predicate Unsubscribed(capacity: u64, ops: seq<Op>, op: Op, d: nat, e: Entry)
    requires op.Push?
  {
    d < |ops| && Holds(At(capacity, ops, d), op, e) && ops[d].Subscribe? && ops[d].mask <= KNOWN_MASK &&
    e.bits * ops[d].mask == {}
  }

  /** What became of the payload operation `j` pushed. */
  ghost predicate Settled(capacity: u64, ops: seq<Op>, j: nat)
    requires j < |ops| && ops[j].Push?
  {
    Held(After(capacity, ops), ops[j]) ||
    (exists d :: j < d && Delivered(capacity, ops, ops[j], d)) ||
    (exists d, e :: j < d && PushedOut(capacity, ops, ops[j], d, e) && GapCovers(capacity, ops, d, e.bits)) ||
    (exists d, e :: j < d && Unsubscribed(capacity, ops, ops[j], d, e))
  }

  /** Operation `j` is an accepted push of the same key as `i`, no older than it, and is settled. */
  ghost predicate Answers(capacity: u64, ops: seq<Op>, i: nat, j: nat)
    requires i < |ops| && ops[i].Push?
  {
    i <= j && Accepted(capacity, ops, j) && ops[j].key == ops[i].key && Settled(capacity, ops, j)
  }

  // ---- One more operation ------------------------------------------------------------------

  lemma {:induction false} Prefixes(capacity: u64, ops: seq<Op>, n: nat)
    requires n < |ops|
    ensures At(capacity, ops[..|ops| - 1], n) == At(capacity, ops, n)
  {
    assert ops[..|ops| - 1][..n] == ops[..n];
  }

  /** An entry stays queued, leaves under a gap, is handed out, or falls to a subscription. */
  ghost predicate KeptOrTold(s: State, op: Op, e: Entry) {
    var r := Step(s, op);
    e in r.entries ||
    (Evicted(s, op) == Some(e) && r.lost.Some? && e.bits <= r.lost.value.classes) ||
    (op.Drain? && s.lost.None? && s.entries != [] && s.entries[0] == e) ||
    (op.Subscribe? && op.mask <= KNOWN_MASK && e.bits * op.mask == {})
  }

  /** What one operation does to an entry that is queued before it. */
  lemma {:induction false} EntryStep(s: State, op: Op, e: Entry)
    requires Inv(s) && e in s.entries
    ensures KeptOrTold(s, op, e) || (op.Push? && s.mask * op.bits != {} && op.key == e.key)
  {
    var i :| 0 <= i < |s.entries| && s.entries[i] == e;
    if op.Drain? && s.lost.None? && i > 0 {
      assert s.entries[1..][i - 1] == e;
    }
    if op.Push? && op.key != e.key {
      PushKeeps(s, op, i);
    }
  }

  lemma {:induction false} PushKeeps(s: State, op: Op, i: nat)
    requires Inv(s) && i < |s.entries| && op.Push? && op.key != s.entries[i].key
    ensures var r := Step(s, op);
            s.entries[i] in r.entries ||
            (Evicted(s, op) == Some(s.entries[i]) && r.lost.Some? && s.entries[i].bits <= r.lost.value.classes)
  {
    var r := Step(s, op);
    var found := Find(s.entries, op.key);
    if s.mask * op.bits != {} {
      if found < |s.entries| {
        assert r.entries[i] == s.entries[i];
      } else if !Crowded(s) {
        assert r.entries[i] == s.entries[i];
      } else if i > 0 {
        assert r.entries[i - 1] == s.entries[i];
      }
    }
  }

  /** An accepted push is in the queue right after it. */
  lemma {:induction false} PushHolds(s: State, op: Op)
    requires Inv(s) && op.Push? && s.mask * op.bits != {}
    ensures Held(Step(s, op), op)
  {
    var r := Step(s, op);
    var found := Find(s.entries, op.key);
    var at := if found < |s.entries| then found else |r.entries| - 1;
    assert Holds(r, op, r.entries[at]);
  }

  lemma {:induction false} GapPersists(capacity: u64, ops: seq<Op>, d: nat, classes: Mask)
    requires d + 1 < |ops| && GapCovers(capacity, ops[..|ops| - 1], d, classes)
    ensures GapCovers(capacity, ops, d, classes)
  {
    var front, last := ops[..|ops| - 1], |ops| - 1;
    var s := After(capacity, front);
    Prefixes(capacity, ops, last);
    assert At(capacity, ops, last) == s;
    if s.lost.Some? && classes <= s.lost.value.classes {
      if ops[last].Drain? {
        assert GapToldAt(capacity, ops, last, classes);
      } else {
        LossGrows(s, ops[last], classes);
      }
    } else {
      var g :| d < g < |front| && GapToldAt(capacity, front, g, classes);
      Prefixes(capacity, ops, g);
      assert GapToldAt(capacity, ops, g, classes);
    }
  }

  lemma {:induction false} LossGrows(s: State, op: Op, classes: Mask)
    requires s.lost.Some? && classes <= s.lost.value.classes && !op.Drain?
    ensures Step(s, op).lost.Some? && classes <= Step(s, op).lost.value.classes
  {
  }

  lemma {:induction false} FatePersists(capacity: u64, ops: seq<Op>, j: nat)
    requires j + 1 < |ops| && ops[j].Push? && Settled(capacity, ops[..|ops| - 1], j)
    ensures Settled(capacity, ops, j) || Held(After(capacity, ops[..|ops| - 1]), ops[j])
  {
    hide Holds; hide GapCovers; hide DrainNext; hide Evicted;
    var front := ops[..|ops| - 1];
    if d :| j < d && Delivered(capacity, front, ops[j], d) {
      Prefixes(capacity, ops, d);
      assert Delivered(capacity, ops, ops[j], d);
    } else if d, e :| j < d && PushedOut(capacity, front, ops[j], d, e) && GapCovers(capacity, front, d, e.bits) {
      Prefixes(capacity, ops, d);
      GapPersists(capacity, ops, d, e.bits);
      assert PushedOut(capacity, ops, ops[j], d, e);
    } else if d, e :| j < d && Unsubscribed(capacity, front, ops[j], d, e) {
      Prefixes(capacity, ops, d);
      assert Unsubscribed(capacity, ops, ops[j], d, e);
    }
  }

  lemma {:induction false} HeldStep(capacity: u64, ops: seq<Op>, j: nat, e: Entry)
    requires j + 1 < |ops| && ops[j].Push? && Holds(After(capacity, ops[..|ops| - 1]), ops[j], e)
    ensures Settled(capacity, ops, j) || (Accepted(capacity, ops, |ops| - 1) && ops[|ops| - 1].key == ops[j].key)
  {
    var last := |ops| - 1;
    var s := After(capacity, ops[..last]);
    RunSafe(capacity, ops[..last]);
    EntryStep(s, ops[last], e);
    assert At(capacity, ops, last) == s;
    if KeptOrTold(s, ops[last], e) {
      SettledStep(capacity, ops, j, e);
    }
  }

  lemma {:induction false} SettledStep(capacity: u64, ops: seq<Op>, j: nat, e: Entry)
    requires j + 1 < |ops| && ops[j].Push? && Holds(After(capacity, ops[..|ops| - 1]), ops[j], e)
    requires KeptOrTold(After(capacity, ops[..|ops| - 1]), ops[|ops| - 1], e)
    ensures Settled(capacity, ops, j)
  {
    hide Evicted;
    var last := |ops| - 1;
    var s, op := After(capacity, ops[..last]), ops[last];
    var r := Step(s, op);
    assert At(capacity, ops, last) == s && After(capacity, ops) == r;
    if e in r.entries {
      assert Holds(r, ops[j], e);
    } else if Evicted(s, op) == Some(e) && r.lost.Some? && e.bits <= r.lost.value.classes {
      assert PushedOut(capacity, ops, ops[j], last, e) && GapCovers(capacity, ops, last, e.bits);
    } else if op.Drain? && s.lost.None? {
      assert Delivered(capacity, ops, ops[j], last);
    } else {
      assert Unsubscribed(capacity, ops, ops[j], last, e);
    }
  }

  /**
   Every accepted push has its payload, or a newer one of its key, still queued, handed out, evicted
   under a gap told afterwards or still pending, or dropped by a later subscription.
   */
  lemma {:induction false} NoSilentLoss(capacity: u64, ops: seq<Op>, i: nat)
    requires Accepted(capacity, ops, i)
    ensures exists j :: Answers(capacity, ops, i, j)
    decreases |ops|
  {
    hide Settled; hide Holds; hide Step;
    var last := |ops| - 1;
    var front := ops[..last];
    assert At(capacity, ops, last) == After(capacity, front);
    if i == last {
      LastAnswers(capacity, ops, i);
    } else {
      Prefixes(capacity, ops, i);
      NoSilentLoss(capacity, front, i);
      var j: nat :| Answers(capacity, front, i, j);
      Prefixes(capacity, ops, j);
      FatePersists(capacity, ops, j);
      if Settled(capacity, ops, j) {
        assert Answers(capacity, ops, i, j);
      } else {
        var e :| Holds(After(capacity, front), ops[j], e);
        HeldStep(capacity, ops, j, e);
        LastAnswers(capacity, ops, i);
      }
    }
  }

  lemma {:induction false} LastAnswers(capacity: u64, ops: seq<Op>, i: nat)
    requires i < |ops| && ops[i].Push? && Accepted(capacity, ops, |ops| - 1) && ops[|ops| - 1].key == ops[i].key
    ensures Answers(capacity, ops, i, |ops| - 1)
  {
    hide Step;
    var last := |ops| - 1;
    RunSafe(capacity, ops[..last]);
    assert At(capacity, ops, last) == After(capacity, ops[..last]);
    PushHolds(After(capacity, ops[..last]), ops[last]);
    assert After(capacity, ops) == Step(After(capacity, ops[..last]), ops[last]);
  }

  /** A coalesced payload stays filed under the class its key was first queued with. */
  lemma {:induction false} CoalescingKeepsClass(s: State, bits: Mask, key: Key, payload: Payload)
    requires s.mask * bits != {} && Find(s.entries, key) < |s.entries|
    ensures var i := Find(s.entries, key);
            var r := PushOnto(s, bits, key, payload).0;
            |r.entries| == |s.entries| && r.entries[i] == Entry(key, s.entries[i].bits, payload) &&
            (forall j :: 0 <= j < |s.entries| && j != i ==> r.entries[j] == s.entries[j]) && r.lost == s.lost
  {
  }
}
