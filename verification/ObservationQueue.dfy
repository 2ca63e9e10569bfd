/** The queue object: its methods move the state exactly as the steps of Observation say. */
module ObservationQueue {
  import opened Wrappers
  import opened Words
  import opened Observation

  /** A full drain: the pending gap, then every entry in order. */
  function DrainAll(s: State): (State, seq<Told>)
    decreases |s.entries|, s.lost.Some?
  {
    var (r, told) := DrainNext(s);
    if told.None? then (s, [])
    else
      var (end, others) := DrainAll(r);
      (end, [told.value] + others)
  }

  /** `told`, from position `skip` on, is one record an entry, in order. */
  ghost predicate TellsEntries(told: seq<Told>, skip: nat, entries: seq<Entry>) {
    |told| == skip + |entries| &&
    forall i :: 0 <= i < |entries| ==> TellsEntry(told[skip + i], entries[i])
  }

  ghost predicate TellsEntry(told: Told, e: Entry) {
    told.Record? && told.recordType == e.key.recordType && told.objectId == e.key.objectId && told.payload == e.payload
  }

  lemma {:induction false} DrainAllStep(s: State)
    ensures var (r, told) := DrainNext(s);
            DrainAll(s) == if told.None? then (s, []) else (DrainAll(r).0, [told.value] + DrainAll(r).1)
  {
    hide DrainNext;
  }

  /** It empties the queue and tells every queued payload in order, after the gap if one was pending. */
  lemma {:induction false} DrainAllTells(s: State)
    ensures var (r, told) := DrainAll(s);
            r.entries == [] && r.lost.None? && TellsEntries(told, if s.lost.Some? then 1 else 0, s.entries) &&
            (s.lost.Some? ==> told[0].Gap? && told[0].classes == s.lost.value.classes)
    decreases |s.entries|, s.lost.Some?
  {
    hide DrainAll;
    DrainAllStep(s);
    var r, next := DrainNext(s).0, DrainNext(s).1;
    if next.Some? {
      DrainAllTells(r);
      var told, others := DrainAll(s).1, DrainAll(r).1;
      var skip := if s.lost.Some? then 1 else 0;
      forall i | 0 <= i < |s.entries| ensures TellsEntry(told[skip + i], s.entries[i]) {
        if s.lost.Some? {
          assert told[1 + i] == others[i] && TellsEntry(others[i], r.entries[i]);
        } else if i > 0 {
          assert told[i] == others[i - 1] && TellsEntry(others[i - 1], r.entries[i - 1]);
        }
      }
    }
  }

  class ObservationQueue {
    var mask: Mask
    const capacity: nat
    var sequence: u64
    var entries: seq<Entry>
    var lost: Option<Loss>

    constructor (limit: u64)
      ensures Valid() && St() == Initial(limit)
    {
      mask, sequence, entries, lost := {}, 0, [], None;
      capacity := if limit == 0 then 1 else limit;
    }

    ghost function St(): State
      reads this
    {
      State(mask, capacity, sequence, entries, lost)
    }

    ghost predicate Valid()
      reads this
    {
      Inv(St())
    }

    method Subscribe(newMask: Mask) returns (accepted: bool)
      requires Valid()
      modifies this`mask, this`entries
      ensures Valid() && (St(), accepted) == SubscribeTo(old(St()), newMask)
    {
      hide Inv; hide Listening;
      StepSafe(St(), Op.Subscribe(newMask));
      if !(newMask <= KNOWN_MASK) {
        return false;
      }
      mask := newMask;
      entries := Listening(entries, newMask);
      return true;
    }

    method Push(bits: Mask, key: Key, payload: Payload) returns (queued: bool)
      requires Valid()
      modifies this`entries, this`lost
      ensures Valid() && (St(), queued) == PushOnto(old(St()), bits, key, payload)
    {
      hide Inv; hide Find;
      StepSafe(St(), Op.Push(bits, key, payload));
      if mask * bits == {} {
        return false;
      }
      var i := FindEntry(key);
      if i < |entries| {
        entries := entries[i := entries[i].(payload := payload)];
        return true;
      }
      if |entries| >= capacity {
        var classes: Mask := {};
        if entries != [] {
          classes := entries[0].bits;
          entries := entries[1..];
        }
        RecordLoss(classes);
      }
      entries := entries + [Entry(key, bits, payload)];
      return true;
    }

    method FindEntry(key: Key) returns (i: nat)
      ensures i == Find(entries, key)
    {
      i := 0;
      assert entries[0..] == entries;
      while i < |entries| && entries[i].key != key
        invariant i <= |entries| && Find(entries, key) == i + Find(entries[i..], key)
      {
        assert entries[i..][1..] == entries[i + 1..];
        i := i + 1;
      }
    }

    method RecordLoss(classes: Mask)
      modifies this`lost
      ensures St() == NoteLoss(old(St()), classes)
    {
      if lost.Some? {
        lost := Some(lost.value.(classes := lost.value.classes + classes));
      } else {
        lost := Some(Loss(Bump(sequence), classes));
      }
    }

    method TakeNext() returns (told: Option<Told>)
      requires Valid()
      modifies this`sequence, this`entries, this`lost
      ensures Valid() && (St(), told) == DrainNext(old(St()))
    {
      hide Inv;
      StepSafe(St(), Op.Drain);
      if lost.Some? {
        var loss := lost.value;
        lost := None;
        sequence := Bump(sequence);
        return Some(Gap(loss.first, loss.classes, sequence));
      }
      if entries == [] {
        return None;
      }
      var entry := entries[0];
      entries := entries[1..];
      sequence := Bump(sequence);
      return Some(Record(entry.key.recordType, entry.key.objectId, entry.payload, sequence));
    }

    method TakeAll() returns (told: seq<Told>)
      requires Valid()
      modifies this`sequence, this`entries, this`lost
      ensures Valid() && (St(), told) == DrainAll(old(St()))
    {
      hide Inv; hide DrainNext; hide DrainAll;
      told := [];
      ghost var was := St();
      assert [] + DrainAll(was).1 == DrainAll(was).1;
      var more := true;
      while more
        invariant Valid()
        invariant DrainAll(was) == if more then (DrainAll(St()).0, told + DrainAll(St()).1) else (St(), told)
        decreases more, |entries|, lost.Some?
      {
        ghost var others := DrainAll(DrainNext(St()).0).1;
        DrainShrinks(St());
        DrainAllStep(St());
        var next := TakeNext();
        if next.None? {
          more := false;
          assert told + [] == told;
        } else {
          assert told + ([next.value] + others) == told + [next.value] + others;
          told := told + [next.value];
        }
      }
    }
  }

  lemma {:induction false} DrainShrinks(s: State)
    ensures var (r, told) := DrainNext(s);
            if told.None? then r == s
            else |r.entries| < |s.entries| || (|r.entries| == |s.entries| && s.lost.Some? && r.lost.None?)
  {
  }
}
