/**
 The byte-preserving map codec: a canonical map is split into parsed known fields and byte-exact
 unknown fields, and merged back. The split loses nothing and the merge restores the bytes.
 */
module CborPreserving {
  import opened Wrappers
  import opened Words
  import opened Cbor
  import opened CborRoundTrip

  datatype KnownField = KnownField(key: u64, value: Value, encoded: seq<byte>)
  datatype PreservedField = PreservedField(key: u64, encoded: seq<byte>)
  datatype PreservingMap = PreservingMap(known: seq<KnownField>, preserved: seq<PreservedField>)

  function KnownEntries(known: seq<KnownField>): (entries: seq<Entry>)
    ensures |entries| == |known|
    ensures forall i :: 0 <= i < |known| ==> entries[i] == Entry(known[i].key, known[i].value)
  {
    if known == [] then [] else [Entry(known[0].key, known[0].value)] + KnownEntries(known[1..])
  }

  function PreservedKeys(preserved: seq<PreservedField>): (keys: seq<u64>)
    ensures |keys| == |preserved|
    ensures forall i :: 0 <= i < |keys| ==> keys[i] == preserved[i].key
  {
    seq(|preserved|, i requires 0 <= i < |preserved| => preserved[i].key)
  }

  // ---- Splitting ---------------------------------------------------------------------------

  function Prepend(key: u64, value: Value, encoded: seq<byte>, isKnown: bool, m: PreservingMap): PreservingMap {
    if isKnown then m.(known := [KnownField(key, value, encoded)] + m.known)
    else m.(preserved := [PreservedField(key, encoded)] + m.preserved)
  }

  function SplitEntries(b: seq<byte>, count: nat, knownKeys: seq<u64>, previous: Option<u64>)
    : (r: Reading<PreservingMap>)
    ensures r.Ok? ==> |r.value.0.known| + |r.value.0.preserved| == count
    decreases count
  {
    if count == 0 then Ok((PreservingMap([], []), b))
    else
      var (key, tail) :- DecodeKey(b, 1, previous);
      var (value, next) :- DecodeValue(tail, 1);
      var (m, rest) :- SplitEntries(next, count - 1, knownKeys, Some(key));
      Ok((Prepend(key, value, tail[..|tail| - |next|], key in knownKeys, m), rest))
  }

  function DecodePreserving(b: seq<byte>, knownKeys: seq<u64>): Result<PreservingMap, CborError> {
    if !StrictlySorted(knownKeys) then Err(KnownKeysUnsorted)
    else if b == [] then Err(UnexpectedEnd)
    else if b[0] / 32 != 5 then Err(NotAMap)
    else
      var (count, tail) :- ContainerLength(b[0] % 32, b[1..], 2);
      var (m, rest) :- SplitEntries(tail, count, knownKeys, None);
      if rest != [] then Err(TrailingBytes) else Ok(m)
  }

  // ---- Merging -----------------------------------------------------------------------------

  function CheckPreserved(preserved: seq<PreservedField>): Result<(), CborError> {
    if preserved == [] then Ok(())
    else
      match DecodeAtDepth(preserved[0].encoded, 1)
      case Err(cause) => Err(PreservedInvalid(cause))
      case Ok(_) => CheckPreserved(preserved[1..])
  }

  function MergeBytes(known: seq<Entry>, preserved: seq<PreservedField>): Result<seq<byte>, CborError>
    decreases |known| + |preserved|
  {
    if known == [] && preserved == [] then Ok([])
    else if known != [] && preserved != [] && known[0].key == preserved[0].key then Err(KeysCollide)
    else if preserved == [] || (known != [] && known[0].key < preserved[0].key) then
      var first :- EncodeEntry(known[0], 1);
      var others :- MergeBytes(known[1..], preserved);
      Ok(first + others)
    else
      var others :- MergeBytes(known, preserved[1..]);
      Ok(Head(0, preserved[0].key) + preserved[0].encoded + others)
  }

  function EncodePreserving(known: seq<Entry>, preserved: seq<PreservedField>): Result<seq<byte>, CborError> {
    if |known| + |preserved| > MAX_CONTAINER_LENGTH then Err(ContainerTooLong)
    else if !StrictlySorted(Keys(known)) || !StrictlySorted(PreservedKeys(preserved)) then Err(KeysUnsorted)
    else
      var _ :- CheckPreserved(preserved);
      var body :- MergeBytes(known, preserved);
      Ok(Head(5, |known| + |preserved|) + body)
  }

  // ---- The split is the decoded map, partitioned -------------------------------------------

  function Encoding(v: Value): seq<byte> {
    if EncodeValue(v, 1).Ok? then EncodeValue(v, 1).value else []
  }

  /** What a lossless split of decoded entries has to be. */
  function Partition(entries: seq<Entry>, knownKeys: seq<u64>): PreservingMap {
    if entries == [] then PreservingMap([], [])
    else
      var e := entries[0];
      Prepend(e.key, e.value, Encoding(e.value), e.key in knownKeys, Partition(entries[1..], knownKeys))
  }

  lemma {:induction false} SplitIsPartition(b: seq<byte>, count: nat, knownKeys: seq<u64>, previous: Option<u64>)
    ensures SplitEntries(b, count, knownKeys, previous).Ok? <==> DecodeEntries(b, count, 1, previous).Ok?
    ensures DecodeEntries(b, count, 1, previous).Ok? ==>
              var (entries, rest) := DecodeEntries(b, count, 1, previous).value;
              SplitEntries(b, count, knownKeys, previous) == Ok((Partition(entries, knownKeys), rest))
    decreases count
  {
    hide DecodeBody; hide EncodeValue;
    if count > 0 && DecodeKey(b, 1, previous).Ok? {
      var (key, tail) := DecodeKey(b, 1, previous).value;
      if DecodeValue(tail, 1).Ok? {
        var (value, next) := DecodeValue(tail, 1).value;
        SplitIsPartition(next, count - 1, knownKeys, Some(key));
        EncodesDecoded(tail, 1, value, next);
        assert tail[..|tail| - |next|] == Encoding(value);
        if DecodeEntries(next, count - 1, 1, Some(key)).Ok? {
          var entries := DecodeEntries(b, count, 1, previous).value.0;
          assert entries[1..] == DecodeEntries(next, count - 1, 1, Some(key)).value.0;
        }
      }
    }
  }

  /** The preserving decoder accepts exactly the maps `Decode` accepts, and partitions their entries. */
  lemma {:induction false} PreservingAcceptsMaps(b: seq<byte>, knownKeys: seq<u64>)
    requires StrictlySorted(knownKeys)
    ensures DecodePreserving(b, knownKeys).Ok? <==> Decode(b).Ok? && Decode(b).value.Map?
    ensures Decode(b).Ok? && Decode(b).value.Map? ==>
              DecodePreserving(b, knownKeys) == Ok(Partition(Decode(b).value.entries, knownKeys))
  {
    if b != [] && b[0] / 32 == 5 {
      assert DecodeValue(b, 0) == DecodeBody(5, b[0] % 32, b[1..], 0);
      var header := ContainerLength(b[0] % 32, b[1..], 2);
      if header.Ok? {
        SplitIsPartition(header.value.1, header.value.0, knownKeys, None);
      }
    } else if Decode(b).Ok? {
      assert DecodeValue(b, 0) == DecodeBody(b[0] / 32, b[0] % 32, b[1..], 0);
    }
  }

  // ---- Splitting then merging --------------------------------------------------------------

  predicate AllAbove(m: PreservingMap, bound: u64) {
    (forall i :: 0 <= i < |m.known| ==> bound < m.known[i].key) &&
    (forall i :: 0 <= i < |m.preserved| ==> bound < m.preserved[i].key)
  }

  predicate Sorted(m: PreservingMap) {
    StrictlySorted(Keys(KnownEntries(m.known))) && StrictlySorted(PreservedKeys(m.preserved))
  }

  /** `m` passes the merge's checks and merges to the bytes of `b` before `rest`. */
  predicate MergesTo(m: PreservingMap, b: seq<byte>, rest: seq<byte>) {
    Sorted(m) && CheckPreserved(m.preserved).Ok? &&
    MergeBytes(KnownEntries(m.known), m.preserved).Ok? &&
    b == MergeBytes(KnownEntries(m.known), m.preserved).value + rest
  }

  lemma {:induction false} SplitThenMerge(b: seq<byte>, count: nat, knownKeys: seq<u64>, previous: Option<u64>,
                                          m: PreservingMap, rest: seq<byte>)
    requires SplitEntries(b, count, knownKeys, previous) == Ok((m, rest))
    ensures MergesTo(m, b, rest)
    ensures previous.Some? ==> AllAbove(m, previous.value)
    decreases count
  {
    hide DecodeBody; hide EncodeValue; hide Head; hide MergesTo;
    if count == 0 {
      NothingMerges(rest);
    } else {
      var (key, tail) := DecodeKey(b, 1, previous).value;
      var (value, next) := DecodeValue(tail, 1).value;
      var others := SplitEntries(next, count - 1, knownKeys, Some(key)).value.0;
      SplitThenMerge(next, count - 1, knownKeys, Some(key), others, rest);
      EncodesEntry(b, 1, Entry(key, value), tail, next);
      EncodesDecoded(tail, 1, value, next);
      assert tail[..|tail| - |next|] == Encoding(value);
      MergePrepended(Entry(key, value), key in knownKeys, others, b, next, rest);
    }
  }

  lemma {:induction false} NothingMerges(rest: seq<byte>)
    ensures MergesTo(PreservingMap([], []), rest, rest)
  {
    assert [] + rest == rest;
  }

  /** Putting one entry with a smaller key in front keeps the checks and prepends its bytes. */
  lemma {:induction false} MergePrepended(e: Entry, isKnown: bool, others: PreservingMap,
                                          b: seq<byte>, next: seq<byte>, rest: seq<byte>)
    requires EncodeEntry(e, 1).Ok? && Normal(e.value) && b == EncodeEntry(e, 1).value + next
    requires MergesTo(others, next, rest) && AllAbove(others, e.key)
    ensures MergesTo(Prepend(e.key, e.value, Encoding(e.value), isKnown, others), b, rest)
  {
    hide EncodeValue; hide Head; hide DecodeValue;
    var m := Prepend(e.key, e.value, Encoding(e.value), isKnown, others);
    var merged := MergeBytes(KnownEntries(others.known), others.preserved).value;
    assert b == EncodeEntry(e, 1).value + merged + rest;
    if isKnown {
      assert KnownEntries(m.known)[1..] == KnownEntries(others.known);
      SortedCons(KnownEntries(m.known));
    } else {
      PreservedPrepended(e, others.preserved);
      assert m.preserved[1..] == others.preserved;
    }
  }

  lemma {:induction false} PreservedPrepended(e: Entry, preserved: seq<PreservedField>)
    requires EncodeEntry(e, 1).Ok? && Normal(e.value)
    requires StrictlySorted(PreservedKeys(preserved)) && CheckPreserved(preserved).Ok?
    requires forall i :: 0 <= i < |preserved| ==> e.key < preserved[i].key
    ensures var longer := [PreservedField(e.key, Encoding(e.value))] + preserved;
            StrictlySorted(PreservedKeys(longer)) && CheckPreserved(longer).Ok?
  {
    hide EncodeValue; hide Head; hide DecodeValue;
    var longer := [PreservedField(e.key, Encoding(e.value))] + preserved;
    DecodesEncoded(e.value, 1, []);
    assert Encoding(e.value) + [] == Encoding(e.value);
    assert longer[1..] == preserved;
    assert forall i :: 0 < i < |longer| ==> PreservedKeys(longer)[i] == PreservedKeys(preserved)[i - 1];
  }

  /** Merging the two halves of any split restores the original bytes, whatever keys were known. */
  lemma {:induction false} MergeRestoresBytes(b: seq<byte>, knownKeys: seq<u64>)
    requires DecodePreserving(b, knownKeys).Ok?
    ensures var m := DecodePreserving(b, knownKeys).value;
            EncodePreserving(KnownEntries(m.known), m.preserved) == Ok(b)
  {
    hide Argument; hide Head; hide SplitEntries; hide MergeBytes;
    var m := DecodePreserving(b, knownKeys).value;
    var (count, tail) := ContainerLength(b[0] % 32, b[1..], 2).value;
    SplitThenMerge(tail, count, knownKeys, None, m, []);
    HeadWrites(b, count, tail);
    var merged := MergeBytes(KnownEntries(m.known), m.preserved).value;
    assert merged + [] == merged;
  }

  // ---- Merging then splitting --------------------------------------------------------------

  predicate Disjoint(known: seq<Entry>, preserved: seq<PreservedField>) {
    forall i, j :: 0 <= i < |known| && 0 <= j < |preserved| ==> known[i].key != preserved[j].key
  }

  /** On sorted halves the merge fails only on a shared key or an unencodable known value. */
  lemma {:induction false} MergeOkExactly(known: seq<Entry>, preserved: seq<PreservedField>)
    requires StrictlySorted(Keys(known)) && StrictlySorted(PreservedKeys(preserved))
    ensures MergeBytes(known, preserved).Ok?
       <==> Disjoint(known, preserved) && forall i :: 0 <= i < |known| ==> Encodable(known[i].value, 1)
    decreases |known| + |preserved|
  {
    if known == [] && preserved == [] {
    } else if known != [] && preserved != [] && known[0].key == preserved[0].key {
    } else if preserved == [] || (known != [] && known[0].key < preserved[0].key) {
      if preserved != [] {
        SortedAbove(PreservedKeys(preserved), known[0].key);
      }
      SortedCons(known);
      MergeOkExactly(known[1..], preserved);
      EncodableEntry(known[0], 1);
      assert known == [known[0]] + known[1..];
    } else {
      SortedAbove(Keys(known), preserved[0].key);
      PreservedTail(preserved);
      MergeOkExactly(known, preserved[1..]);
      assert preserved == [preserved[0]] + preserved[1..];
    }
  }

  predicate Above(keys: seq<u64>, bound: Option<int>) {
    bound.Some? ==> forall i :: 0 <= i < |keys| ==> bound.value < keys[i]
  }

  /** A bound below the head of a sorted list is below all of it. */
  lemma {:induction false} SortedAbove(keys: seq<u64>, bound: int)
    requires StrictlySorted(keys) && (keys != [] ==> bound < keys[0])
    ensures Above(keys, Some(bound)) && (keys != [] ==> StrictlySorted(keys[1..]))
    decreases |keys|
  {
    if keys != [] {
      assert forall i :: 0 < i < |keys| - 1 ==> keys[i] < keys[i + 1];
      assert |keys| > 1 ==> keys[0] < keys[1];
      SortedAbove(keys[1..], keys[0]);
      assert keys == [keys[0]] + keys[1..];
    }
  }

  function KnownFields(known: seq<Entry>): (fields: seq<KnownField>)
    ensures |fields| == |known|
  {
    if known == [] then []
    else
      var e := known[0];
      [KnownField(e.key, Normalize(e.value), Encoding(e.value))] + KnownFields(known[1..])
  }

  lemma {:induction false} PreservedTail(preserved: seq<PreservedField>)
    requires preserved != [] && StrictlySorted(PreservedKeys(preserved))
    ensures StrictlySorted(PreservedKeys(preserved[1..]))
    ensures Above(PreservedKeys(preserved[1..]), Some(preserved[0].key))
  {
    var keys := PreservedKeys(preserved);
    assert PreservedKeys(preserved[1..]) == keys[1..];
    SortedAbove(keys, -1);
    assert |keys| > 1 ==> keys[0] < keys[1];
    SortedAbove(keys[1..], keys[0]);
  }

  lemma {:induction false} KnownTail(known: seq<Entry>)
    requires known != [] && StrictlySorted(Keys(known))
    ensures StrictlySorted(Keys(known[1..])) && Above(Keys(known[1..]), Some(known[0].key))
  {
    SortedCons(known);
    SortedAbove(Keys(known[1..]), known[0].key);
  }

  /** `knownKeys` names every key of the known half and none of the other's. */
  predicate Separates(knownKeys: seq<u64>, known: seq<Entry>, preserved: seq<PreservedField>) {
    (forall i :: 0 <= i < |known| ==> known[i].key in knownKeys) &&
    (forall i :: 0 <= i < |preserved| ==> preserved[i].key !in knownKeys)
  }

  /** Every key still to be merged lies above `previous`, and `knownKeys` tells the halves apart. */
  predicate Ahead(known: seq<Entry>, preserved: seq<PreservedField>, knownKeys: seq<u64>, previous: Option<u64>) {
    StrictlySorted(Keys(known)) && Above(Keys(known), previous) &&
    StrictlySorted(PreservedKeys(preserved)) && Above(PreservedKeys(preserved), previous) &&
    Separates(knownKeys, known, preserved)
  }

  /** The merged bytes, followed by `rest`, split back into the two halves. */
  predicate Splits(known: seq<Entry>, preserved: seq<PreservedField>, knownKeys: seq<u64>,
                   previous: Option<u64>, rest: seq<byte>)
    requires MergeBytes(known, preserved).Ok?
  {
    SplitEntries(MergeBytes(known, preserved).value + rest, |known| + |preserved|, knownKeys, previous)
    == Ok((PreservingMap(KnownFields(known), preserved), rest))
  }

  lemma {:induction false} MergeThenSplit(known: seq<Entry>, preserved: seq<PreservedField>, knownKeys: seq<u64>,
                                          previous: Option<u64>, rest: seq<byte>)
    requires Ahead(known, preserved, knownKeys, previous)
    requires CheckPreserved(preserved).Ok? && MergeBytes(known, preserved).Ok?
    ensures Splits(known, preserved, knownKeys, previous, rest)
    decreases |known| + |preserved|
  {
    hide DecodeValue; hide EncodeValue; hide DecodeKey;
    if known == [] && preserved == [] {
      assert [] + rest == rest;
    } else if preserved == [] || (known != [] && known[0].key < preserved[0].key) {
      KnownTail(known);
      if preserved != [] {
        SortedAbove(PreservedKeys(preserved), known[0].key);
      }
      MergeThenSplit(known[1..], preserved, knownKeys, Some(known[0].key), rest);
      KnownSplits(known, preserved, knownKeys, previous, rest);
    } else {
      PreservedTail(preserved);
      SortedAbove(Keys(known), preserved[0].key);
      MergeThenSplit(known, preserved[1..], knownKeys, Some(preserved[0].key), rest);
      PreservedSplits(known, preserved, knownKeys, previous, rest);
    }
  }

  lemma {:induction false} KnownSplits(known: seq<Entry>, preserved: seq<PreservedField>, knownKeys: seq<u64>,
                    previous: Option<u64>, rest: seq<byte>)
    requires known != [] && MergeBytes(known, preserved).Ok? && Ahead(known, preserved, knownKeys, previous)
    requires preserved != [] ==> known[0].key < preserved[0].key
    requires Splits(known[1..], preserved, knownKeys, Some(known[0].key), rest)
    ensures Splits(known, preserved, knownKeys, previous, rest)
  {
    hide EncodeValue; hide DecodeKey; hide DecodeValue; hide SplitEntries; hide Head;
    var tail := MergeBytes(known[1..], preserved).value + rest;
    EntrySplits(known[0], tail, |known| + |preserved|, knownKeys, previous);
    assert MergeBytes(known, preserved).value + rest == EncodeEntry(known[0], 1).value + tail;
  }

  lemma {:induction false} PreservedSplits(known: seq<Entry>, preserved: seq<PreservedField>, knownKeys: seq<u64>,
                        previous: Option<u64>, rest: seq<byte>)
    requires preserved != [] && MergeBytes(known, preserved).Ok? && Ahead(known, preserved, knownKeys, previous)
    requires CheckPreserved(preserved).Ok? && (known != [] ==> preserved[0].key < known[0].key)
    requires Splits(known, preserved[1..], knownKeys, Some(preserved[0].key), rest)
    ensures Splits(known, preserved, knownKeys, previous, rest)
  {
    hide EncodeValue; hide DecodeKey; hide DecodeValue; hide SplitEntries; hide Head;
    var p := preserved[0];
    var e := Entry(p.key, DecodeAtDepth(p.encoded, 1).value);
    var tail := MergeBytes(known, preserved[1..]).value + rest;
    EncodesDecoded(p.encoded, 1, e.value, []);
    assert p.encoded == EncodeValue(e.value, 1).value;
    EntrySplits(e, tail, |known| + |preserved|, knownKeys, previous);
    assert MergeBytes(known, preserved).value + rest == EncodeEntry(e, 1).value + tail;
    assert preserved == [p] + preserved[1..];
  }

  /** One entry in front of a tail splits off on its side, with its exact bytes. */
  lemma {:induction false} EntrySplits(e: Entry, tail: seq<byte>, count: nat, knownKeys: seq<u64>, previous: Option<u64>)
    requires count > 0 && SplitEntries(tail, count - 1, knownKeys, Some(e.key)).Ok?
    requires EncodeEntry(e, 1).Ok? && (previous.Some? ==> previous.value < e.key)
    ensures SplitEntries(EncodeEntry(e, 1).value + tail, count, knownKeys, previous)
         == var split := SplitEntries(tail, count - 1, knownKeys, Some(e.key)).value;
            Ok((Prepend(e.key, Normalize(e.value), Encoding(e.value), e.key in knownKeys, split.0), split.1))
  {
    DecodesEntry(e, 1, tail, previous);
    var encoded := EncodeValue(e.value, 1).value;
    assert (encoded + tail)[..|encoded|] == encoded;
  }

  /** A split puts an entry on the known side exactly when its key is known. */
  lemma {:induction false} SplitSides(b: seq<byte>, count: nat, knownKeys: seq<u64>, previous: Option<u64>)
    requires SplitEntries(b, count, knownKeys, previous).Ok?
    ensures var m := SplitEntries(b, count, knownKeys, previous).value.0;
            Separates(knownKeys, KnownEntries(m.known), m.preserved)
    decreases count
  {
    hide DecodeValue; hide DecodeKey;
    if count > 0 {
      var (key, tail) := DecodeKey(b, 1, previous).value;
      var (value, next) := DecodeValue(tail, 1).value;
      SplitSides(next, count - 1, knownKeys, Some(key));
    }
  }

  lemma {:induction false} FieldKeys(known: seq<Entry>)
    ensures forall i :: 0 <= i < |known| ==> KnownFields(known)[i].key == known[i].key
    decreases |known|
  {
    hide EncodeValue;
    if known != [] {
      FieldKeys(known[1..]);
    }
  }

  /**
   Splitting a merge gives both halves back, bytes included, exactly when the list split by names every
   key of the known half and none of the preserved one.
   */
  lemma {:induction false} SplitRestoresHalves(known: seq<Entry>, preserved: seq<PreservedField>, knownKeys: seq<u64>)
    requires EncodePreserving(known, preserved).Ok? && StrictlySorted(knownKeys)
    ensures DecodePreserving(EncodePreserving(known, preserved).value, knownKeys)
            == Ok(PreservingMap(KnownFields(known), preserved))
       <==> Separates(knownKeys, known, preserved)
  {
    hide EncodeValue; hide SplitEntries; hide MergeBytes; hide CheckPreserved; hide Head; hide Argument;
    hide KnownFields;
    var body := MergeBytes(known, preserved).value;
    var count := |known| + |preserved|;
    MergeLength(known, preserved);
    HeadReads(5, count, body);
    var b := Head(5, count) + body;
    assert ContainerLength(b[0] % 32, b[1..], 2) == Ok((count, body));
    if Separates(knownKeys, known, preserved) {
      MergeSplits(known, preserved, knownKeys);
    }
    if SplitEntries(body, count, knownKeys, None) == Ok((PreservingMap(KnownFields(known), preserved), [])) {
      RestoredSeparates(known, preserved, knownKeys, body, count);
    }
  }

  lemma {:induction false} RestoredSeparates(known: seq<Entry>, preserved: seq<PreservedField>, knownKeys: seq<u64>,
                                             body: seq<byte>, count: nat)
    requires SplitEntries(body, count, knownKeys, None) == Ok((PreservingMap(KnownFields(known), preserved), []))
    ensures Separates(knownKeys, known, preserved)
  {
    hide SplitEntries; hide KnownFields;
    SplitSides(body, count, knownKeys, None);
    FieldKeys(known);
    forall i | 0 <= i < |known| ensures known[i].key in knownKeys {
      assert KnownEntries(KnownFields(known))[i].key == known[i].key;
    }
  }

  lemma {:induction false} MergeSplits(known: seq<Entry>, preserved: seq<PreservedField>, knownKeys: seq<u64>)
    requires EncodePreserving(known, preserved).Ok? && Separates(knownKeys, known, preserved)
    ensures SplitEntries(MergeBytes(known, preserved).value, |known| + |preserved|, knownKeys, None)
         == Ok((PreservingMap(KnownFields(known), preserved), []))
  {
    hide EncodeValue; hide SplitEntries; hide MergeBytes; hide CheckPreserved; hide Head;
    var body := MergeBytes(known, preserved).value;
    MergeThenSplit(known, preserved, knownKeys, None, []);
    assert body + [] == body;
  }

  lemma {:induction false} MergeLength(known: seq<Entry>, preserved: seq<PreservedField>)
    requires CheckPreserved(preserved).Ok? && MergeBytes(known, preserved).Ok?
    ensures |MergeBytes(known, preserved).value| >= 2 * (|known| + |preserved|)
    decreases |known| + |preserved|
  {
    if known == [] && preserved == [] {
    } else if preserved == [] || (known != [] && known[0].key < preserved[0].key) {
      MergeLength(known[1..], preserved);
    } else {
      MergeLength(known, preserved[1..]);
      assert DecodeValue(preserved[0].encoded, 1).Ok?;
    }
  }
}
