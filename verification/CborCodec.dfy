/** The buffer-filling encoder and the cursor-driven decoder, proved against the reference forms. */
module CborCodec {
  import opened Wrappers
  import opened Words
  import opened Unicode
  import opened Cbor
  import opened CborPreserving

  // What a loop has done, in front of what the reference form says about the rest. --------------

  function Then(done: seq<byte>, rest: Result<seq<byte>, CborError>): Result<seq<byte>, CborError> {
    match rest
    case Ok(e) => Ok(done + e)
    case Err(x) => Err(x)
  }

  function After<T>(done: seq<T>, rest: Reading<seq<T>>): Reading<seq<T>> {
    match rest
    case Ok(reading) => Ok((done + reading.0, reading.1))
    case Err(x) => Err(x)
  }

  function Join(done: PreservingMap, rest: Reading<PreservingMap>): Reading<PreservingMap> {
    match rest
    case Ok(reading) =>
      Ok((PreservingMap(done.known + reading.0.known, done.preserved + reading.0.preserved), reading.1))
    case Err(x) => Err(x)
  }

  lemma {:induction false} ThenSteps(done: seq<byte>, more: seq<byte>, rest: Result<seq<byte>, CborError>)
    ensures Then([], rest) == rest && Then(done, Then(more, rest)) == Then(done + more, rest)
  {
    if rest.Ok? {
      assert [] + rest.value == rest.value;
      assert done + (more + rest.value) == done + more + rest.value;
    }
  }

  lemma {:induction false} AfterSteps<T>(done: seq<T>, more: seq<T>, rest: Reading<seq<T>>)
    ensures After([], rest) == rest && After(done, After(more, rest)) == After(done + more, rest)
  {
    if rest.Ok? {
      assert [] + rest.value.0 == rest.value.0;
      assert done + (more + rest.value.0) == done + more + rest.value.0;
    }
  }

  lemma {:induction false} JoinSteps(done: PreservingMap, key: u64, value: Value, encoded: seq<byte>, isKnown: bool,
                                     rest: Reading<PreservingMap>)
    ensures Join(PreservingMap([], []), rest) == rest
    ensures var more := if isKnown then done.(known := done.known + [KnownField(key, value, encoded)])
                        else done.(preserved := done.preserved + [PreservedField(key, encoded)]);
            rest.Ok? ==> Join(done, Ok((Prepend(key, value, encoded, isKnown, rest.value.0), rest.value.1))) == Join(more, rest)
  {
    if rest.Ok? {
      var m := rest.value.0;
      assert [] + m.known == m.known && [] + m.preserved == m.preserved;
      if isKnown {
        assert done.known + ([KnownField(key, value, encoded)] + m.known)
            == done.known + [KnownField(key, value, encoded)] + m.known;
      } else {
        assert done.preserved + ([PreservedField(key, encoded)] + m.preserved)
            == done.preserved + [PreservedField(key, encoded)] + m.preserved;
      }
    }
  }

  class Encoder {
    var bytes: seq<byte>

    constructor ()
      ensures bytes == []
    {
      bytes := [];
    }

    /** Whether a run from `before` produced what `spec` says; a failed run leaves partial output. */
    ghost predicate Produced(before: seq<byte>, r: Result<(), CborError>, spec: Result<seq<byte>, CborError>)
      reads this
    {
      match spec
      case Ok(e) => r.Ok? && bytes == before + e
      case Err(x) => r == Err(x)
    }

    method MajorLength(major: nat, value: u64)
      requires major < 8
      modifies this
      ensures bytes == old(bytes) + Head(major, value)
    {
      var prefix := major * 32;
      if value <= 23 {
        bytes := bytes + [prefix + value];
      } else if value <= U8_MAX {
        bytes := bytes + [prefix + 24];
        bytes := bytes + [value];
      } else if value <= U16_MAX {
        bytes := bytes + [prefix + 25];
        bytes := bytes + BigEndian(value, 2);
      } else if value <= U32_MAX {
        bytes := bytes + [prefix + 26];
        bytes := bytes + BigEndian(value, 4);
      } else {
        bytes := bytes + [prefix + 27];
        bytes := bytes + BigEndian(value, 8);
      }
    }

    method Integer(i: i64)
      modifies this
      ensures bytes == old(bytes) + EncodeInteger(i)
    {
      if i >= 0 {
        MajorLength(0, i);
      } else {
        MajorLength(1, -1 - i);
      }
    }

    method Str(major: nat, s: seq<byte>) returns (r: Result<(), CborError>)
      requires major < 8
      modifies this
      ensures Produced(old(bytes), r,
                       if |s| > MAX_VALUE_LENGTH then Err(ValueTooLong) else Ok(Head(major, |s|) + s))
    {
      if |s| > MAX_VALUE_LENGTH {
        return Err(ValueTooLong);
      }
      MajorLength(major, |s|);
      bytes := bytes + s;
      return Ok(());
    }

    method Value(v: Value, depth: nat) returns (r: Result<(), CborError>)
      modifies this
      ensures Produced(old(bytes), r, EncodeValue(v, depth))
      decreases v
    {
      if depth > MAX_DEPTH {
        return Err(TooDeep);
      }
      match v {
        case Unsigned(n) => MajorLength(0, n);
        case Negative(i) => Integer(i);
        case Bytes(s) => r := Str(2, s); return;
        case Text(s) => r := Str(3, s); return;
        case Array(items) =>
          if |items| > MAX_CONTAINER_LENGTH {
            return Err(ContainerTooLong);
          }
          MajorLength(4, |items|);
          r := Items(items, depth + 1);
          return;
        case Map(entries) =>
          if |entries| > MAX_CONTAINER_LENGTH {
            return Err(ContainerTooLong);
          }
          if !StrictlySorted(Keys(entries)) {
            return Err(KeysUnsorted);
          }
          MajorLength(5, |entries|);
          r := Entries(entries, depth + 1);
          return;
        case Bool(b) => bytes := bytes + [if b then 0xf5 else 0xf4];
        case Null => bytes := bytes + [0xf6];
      }
      return Ok(());
    }

    method Items(items: seq<Value>, depth: nat) returns (r: Result<(), CborError>)
      modifies this
      ensures Produced(old(bytes), r, EncodeItems(items, depth))
      decreases items
    {
      hide EncodeValue;
      ghost var done := [];
      var i := 0;
      assert items[0..] == items;
      ThenSteps([], [], EncodeItems(items, depth));
      while i < |items|
        invariant 0 <= i <= |items|
        invariant bytes == old(bytes) + done
        invariant EncodeItems(items, depth) == Then(done, EncodeItems(items[i..], depth))
      {
        assert items[i..][1..] == items[i + 1..];
        ThenSteps(done, EncodeValue(items[i], depth).GetOr([]), EncodeItems(items[i + 1..], depth));
        r := Value(items[i], depth);
        if r.Err? {
          return;
        }
        done := done + EncodeValue(items[i], depth).value;
        i := i + 1;
      }
      return Ok(());
    }

    method Entries(entries: seq<Entry>, depth: nat) returns (r: Result<(), CborError>)
      modifies this
      ensures Produced(old(bytes), r, EncodeEntries(entries, depth))
      decreases entries
    {
      hide EncodeEntry;
      ghost var done := [];
      var i := 0;
      assert entries[0..] == entries;
      ThenSteps([], [], EncodeEntries(entries, depth));
      while i < |entries|
        invariant 0 <= i <= |entries|
        invariant bytes == old(bytes) + done
        invariant EncodeEntries(entries, depth) == Then(done, EncodeEntries(entries[i..], depth))
      {
        assert entries[i..][1..] == entries[i + 1..];
        ThenSteps(done, EncodeEntry(entries[i], depth).GetOr([]), EncodeEntries(entries[i + 1..], depth));
        r := OneEntry(entries[i], depth);
        if r.Err? {
          return;
        }
        done := done + EncodeEntry(entries[i], depth).value;
        i := i + 1;
      }
      return Ok(());
    }

    method OneEntry(entry: Entry, depth: nat) returns (r: Result<(), CborError>)
      modifies this
      ensures Produced(old(bytes), r, EncodeEntry(entry, depth))
      decreases entry
    {
      hide EncodeValue;
      MajorLength(0, entry.key);
      r := Value(entry.value, depth);
    }

    /** Reuses the buffer: previous contents are gone, and a failed encode leaves it empty. */
    method EncodeInto(v: Value) returns (r: Result<(), CborError>)
      modifies this
      ensures match Encode(v)
              case Ok(e) => r.Ok? && bytes == e
              case Err(x) => r == Err(x) && bytes == []
    {
      hide EncodeValue;
      bytes := [];
      r := Value(v, 0);
      if r.Err? {
        bytes := [];
      }
    }

    /** The merge loop of the preserving encoder, over both halves at once. */
    method Merge(known: seq<Entry>, preserved: seq<PreservedField>) returns (r: Result<(), CborError>)
      modifies this
      ensures Produced(old(bytes), r, MergeBytes(known, preserved))
    {
      hide EncodeEntry; hide Head;
      ghost var done := [];
      var i, j := 0, 0;
      assert known[0..] == known && preserved[0..] == preserved;
      ThenSteps([], [], MergeBytes(known, preserved));
      while i < |known| || j < |preserved|
        invariant 0 <= i <= |known| && 0 <= j <= |preserved|
        invariant bytes == old(bytes) + done
        invariant MergeBytes(known, preserved) == Then(done, MergeBytes(known[i..], preserved[j..]))
        decreases |known| - i + |preserved| - j
      {
        if i < |known| && j < |preserved| && known[i].key == preserved[j].key {
          return Err(KeysCollide);
        }
        if j == |preserved| || (i < |known| && known[i].key < preserved[j].key) {
          assert known[i..][1..] == known[i + 1..];
          ThenSteps(done, EncodeEntry(known[i], 1).GetOr([]), MergeBytes(known[i + 1..], preserved[j..]));
          r := OneEntry(known[i], 1);
          if r.Err? {
            return;
          }
          done := done + EncodeEntry(known[i], 1).value;
          i := i + 1;
        } else {
          assert preserved[j..][1..] == preserved[j + 1..];
          ThenSteps(done, Head(0, preserved[j].key) + preserved[j].encoded, MergeBytes(known[i..], preserved[j + 1..]));
          MajorLength(0, preserved[j].key);
          bytes := bytes + preserved[j].encoded;
          done := done + (Head(0, preserved[j].key) + preserved[j].encoded);
          j := j + 1;
        }
      }
      return Ok(());
    }
  }

  method EncodeCbor(v: Value) returns (r: Result<seq<byte>, CborError>)
    ensures r == Encode(v)
  {
    hide EncodeValue;
    var encoder := new Encoder();
    var status := encoder.EncodeInto(v);
    if status.Err? {
      return Err(status.error);
    }
    return Ok(encoder.bytes);
  }

  method EncodePreservingMap(known: seq<Entry>, preserved: seq<PreservedField>)
    returns (r: Result<seq<byte>, CborError>)
    ensures r == EncodePreserving(known, preserved)
  {
    hide MergeBytes; hide DecodeValue;
    if |known| + |preserved| > MAX_CONTAINER_LENGTH {
      return Err(ContainerTooLong);
    }
    if !StrictlySorted(Keys(known)) || !StrictlySorted(PreservedKeys(preserved)) {
      return Err(KeysUnsorted);
    }
    var i := 0;
    assert preserved[0..] == preserved;
    while i < |preserved|
      invariant 0 <= i <= |preserved|
      invariant CheckPreserved(preserved) == CheckPreserved(preserved[i..])
    {
      assert preserved[i..][1..] == preserved[i + 1..];
      var value := DecodeCborAtDepth(preserved[i].encoded, 1);
      if value.Err? {
        return Err(PreservedInvalid(value.error));
      }
      i := i + 1;
    }
    var encoder := new Encoder();
    encoder.MajorLength(5, |known| + |preserved|);
    assert encoder.bytes == Head(5, |known| + |preserved|);
    var status := encoder.Merge(known, preserved);
    if status.Err? {
      return Err(status.error);
    }
    return Ok(encoder.bytes);
  }

  class Decoder {
    const bytes: seq<byte>
    var offset: nat

    constructor (bytes: seq<byte>)
      ensures this.bytes == bytes && offset == 0
    {
      this.bytes := bytes;
      offset := 0;
    }

    ghost predicate Valid()
      reads this
    {
      offset <= |bytes|
    }

    ghost function Remaining(): seq<byte>
      requires Valid()
      reads this
    {
      bytes[offset..]
    }

    /** Whether the cursor moved exactly past what `spec` read; after an error it is not used again. */
    ghost predicate Consumed<T>(r: Result<T, CborError>, spec: Reading<T>)
      reads this
    {
      Valid() &&
      match spec
      case Ok(reading) => r == Ok(reading.0) && Remaining() == reading.1
      case Err(x) => r == Err(x)
    }

    method TakeBytes(count: nat) returns (r: Result<seq<byte>, CborError>)
      requires Valid()
      modifies this
      ensures Consumed(r, Take(old(Remaining()), count))
    {
      if offset + count > |bytes| {
        return Err(UnexpectedEnd);
      }
      var start := offset;
      offset := offset + count;
      assert bytes[start..offset] == old(Remaining())[..count];
      return Ok(bytes[start..offset]);
    }

    method ReadWide(width: nat, floor: u64) returns (r: Result<u64, CborError>)
      requires Valid() && (width == 1 || width == 2 || width == 4 || width == 8)
      modifies this
      ensures Consumed(r, WideArgument(old(Remaining()), width, floor))
    {
      var raw := TakeBytes(width);
      if raw.Err? {
        return Err(raw.error);
      }
      Pow256Values();
      var value := FromBigEndian(raw.value);
      if value <= floor {
        return Err(NonShortest);
      }
      return Ok(value);
    }

    method ReadArgument(additional: nat) returns (r: Result<u64, CborError>)
      requires Valid()
      modifies this
      ensures Consumed(r, Argument(additional, old(Remaining())))
    {
      hide WideArgument;
      if additional <= 23 {
        return Ok(additional);
      } else if additional == 24 {
        r := ReadWide(1, 23);
      } else if additional == 25 {
        r := ReadWide(2, U8_MAX);
      } else if additional == 26 {
        r := ReadWide(4, U16_MAX);
      } else if additional == 27 {
        r := ReadWide(8, U32_MAX);
      } else {
        return Err(Unsupported);
      }
    }

    method ReadLength(additional: nat) returns (r: Result<nat, CborError>)
      requires Valid()
      modifies this
      ensures Consumed(r, Length(additional, old(Remaining())))
    {
      hide Argument;
      var value := ReadArgument(additional);
      if value.Err? {
        return Err(value.error);
      }
      if value.value > MAX_VALUE_LENGTH {
        return Err(ValueTooLong);
      }
      return Ok(value.value);
    }

    method ReadContainerLength(additional: nat, itemBytes: nat) returns (r: Result<nat, CborError>)
      requires Valid()
      modifies this
      ensures Consumed(r, ContainerLength(additional, old(Remaining()), itemBytes))
    {
      hide Length;
      var length := ReadLength(additional);
      if length.Err? {
        return length;
      }
      if length.value > MAX_CONTAINER_LENGTH {
        return Err(ContainerTooLong);
      }
      if length.value * itemBytes > |bytes| - offset {
        return Err(LengthExceedsInput);
      }
      return length;
    }

    method ReadValue(depth: nat) returns (r: Result<Value, CborError>)
      requires Valid()
      modifies this
      ensures Consumed(r, DecodeValue(old(Remaining()), depth))
      decreases |bytes| - offset, 0
    {
      hide DecodeBody;
      if depth > MAX_DEPTH {
        return Err(TooDeep);
      }
      if offset == |bytes| {
        return Err(UnexpectedEnd);
      }
      var initial := bytes[offset];
      offset := offset + 1;
      assert old(Remaining())[1..] == Remaining();
      r := ReadBody(initial / 32, initial % 32, depth);
    }

    method ReadBody(major: nat, additional: nat, depth: nat) returns (r: Result<Value, CborError>)
      requires Valid()
      modifies this
      ensures Consumed(r, DecodeBody(major, additional, old(Remaining()), depth))
      decreases |bytes| - offset, 3
    {
      hide Argument; hide Length; hide ContainerLength; hide DecodeItems; hide DecodeEntries;
      if major == 0 || major == 1 {
        var argument := ReadArgument(additional);
        if argument.Err? {
          return Err(argument.error);
        }
        if major == 0 {
          return Ok(Unsigned(argument.value));
        }
        if argument.value > I64_MAX {
          return Err(NegativeOutOfRange);
        }
        return Ok(Negative(-1 - argument.value));
      } else if major == 2 || major == 3 {
        r := ReadString(major, additional, depth);
      } else if major == 4 {
        var length := ReadContainerLength(additional, 1);
        if length.Err? {
          return Err(length.error);
        }
        var items := ReadItems(length.value, depth + 1);
        if items.Err? {
          return Err(items.error);
        }
        return Ok(Array(items.value));
      } else if major == 5 {
        var length := ReadContainerLength(additional, 2);
        if length.Err? {
          return Err(length.error);
        }
        var entries := ReadEntries(length.value, depth + 1);
        if entries.Err? {
          return Err(entries.error);
        }
        return Ok(Map(entries.value));
      } else if major == 7 && additional == 20 {
        return Ok(Bool(false));
      } else if major == 7 && additional == 21 {
        return Ok(Bool(true));
      } else if major == 7 && additional == 22 {
        return Ok(Null);
      } else {
        return Err(Unsupported);
      }
    }

    method ReadString(major: nat, additional: nat, depth: nat) returns (r: Result<Value, CborError>)
      requires Valid() && 2 <= major <= 3
      modifies this
      ensures Consumed(r, DecodeBody(major, additional, old(Remaining()), depth))
    {
      hide Length;
      var length := ReadLength(additional);
      if length.Err? {
        return Err(length.error);
      }
      var s := TakeBytes(length.value);
      if s.Err? {
        return Err(s.error);
      }
      if major == 2 {
        return Ok(Bytes(s.value));
      }
      if !IsUtf8(s.value) {
        return Err(NotUtf8);
      }
      return Ok(Text(s.value));
    }

    method ReadItems(count: nat, depth: nat) returns (r: Result<seq<Value>, CborError>)
      requires Valid()
      modifies this
      ensures Consumed(r, DecodeItems(old(Remaining()), count, depth))
      decreases |bytes| - offset, 1
    {
      hide DecodeValue;
      ghost var start := Remaining();
      var items := [];
      var i := 0;
      AfterSteps([], [], DecodeItems(start, count, depth));
      while i < count
        invariant 0 <= i <= count && Valid() && |Remaining()| <= |start|
        invariant DecodeItems(start, count, depth) == After(items, DecodeItems(Remaining(), count - i, depth))
      {
        var item := ReadValue(depth);
        if item.Err? {
          return Err(item.error);
        }
        AfterSteps(items, [item.value], DecodeItems(Remaining(), count - i - 1, depth));
        items := items + [item.value];
        i := i + 1;
      }
      assert items + [] == items;
      return Ok(items);
    }

    method ReadKey(depth: nat, previous: Option<u64>) returns (r: Result<u64, CborError>)
      requires Valid()
      modifies this
      ensures Consumed(r, DecodeKey(old(Remaining()), depth, previous))
      decreases |bytes| - offset, 1
    {
      hide DecodeValue;
      var key := ReadValue(depth);
      if key.Err? {
        return Err(key.error);
      }
      if !key.value.Unsigned? {
        return Err(KeyNotUnsigned);
      }
      if previous.Some? && previous.value >= key.value.n {
        return Err(KeysUnsorted);
      }
      return Ok(key.value.n);
    }

    method ReadEntries(count: nat, depth: nat) returns (r: Result<seq<Entry>, CborError>)
      requires Valid()
      modifies this
      ensures Consumed(r, DecodeEntries(old(Remaining()), count, depth, None))
      decreases |bytes| - offset, 2
    {
      hide DecodeValue; hide DecodeKey;
      ghost var start := Remaining();
      var entries := [];
      var previous := None;
      var i := 0;
      AfterSteps([], [], DecodeEntries(start, count, depth, None));
      while i < count
        invariant 0 <= i <= count && Valid() && |Remaining()| <= |start|
        invariant DecodeEntries(start, count, depth, None)
               == After(entries, DecodeEntries(Remaining(), count - i, depth, previous))
      {
        var key := ReadKey(depth, previous);
        if key.Err? {
          return Err(key.error);
        }
        previous := Some(key.value);
        var value := ReadValue(depth);
        if value.Err? {
          return Err(value.error);
        }
        AfterSteps(entries, [Entry(key.value, value.value)], DecodeEntries(Remaining(), count - i - 1, depth, previous));
        entries := entries + [Entry(key.value, value.value)];
        i := i + 1;
      }
      assert entries + [] == entries;
      return Ok(entries);
    }
  }

  method DecodeCborAtDepth(bytes: seq<byte>, depth: nat) returns (r: Result<Value, CborError>)
    ensures r == DecodeAtDepth(bytes, depth)
  {
    hide DecodeValue;
    var decoder := new Decoder(bytes);
    assert decoder.Remaining() == bytes;
    r := decoder.ReadValue(depth);
    if r.Ok? && decoder.offset != |bytes| {
      return Err(TrailingBytes);
    }
  }

  method DecodePreservingMap(bytes: seq<byte>, knownKeys: seq<u64>) returns (r: Result<PreservingMap, CborError>)
    ensures r == DecodePreserving(bytes, knownKeys)
  {
    hide ContainerLength; hide DecodeKey; hide DecodeValue;
    if !StrictlySorted(knownKeys) {
      return Err(KnownKeysUnsorted);
    }
    if bytes == [] {
      return Err(UnexpectedEnd);
    }
    var initial := bytes[0];
    if initial / 32 != 5 {
      return Err(NotAMap);
    }
    var decoder := new Decoder(bytes);
    decoder.offset := 1;
    var length := decoder.ReadContainerLength(initial % 32, 2);
    if length.Err? {
      return Err(length.error);
    }
    var count := length.value;
    ghost var start := decoder.Remaining();
    var known, preserved := [], [];
    var previous := None;
    var i := 0;
    JoinSteps(PreservingMap([], []), 0, Null, [], true, SplitEntries(start, count, knownKeys, None));
    while i < count
      invariant 0 <= i <= count && decoder.Valid()
      invariant SplitEntries(start, count, knownKeys, None)
             == Join(PreservingMap(known, preserved),
                     SplitEntries(decoder.Remaining(), count - i, knownKeys, previous))
    {
      var key := decoder.ReadKey(1, previous);
      if key.Err? {
        return Err(key.error);
      }
      previous := Some(key.value);
      var from := decoder.offset;
      var value := decoder.ReadValue(1);
      if value.Err? {
        return Err(value.error);
      }
      var encoded := bytes[from..decoder.offset];
      assert bytes[from..][..|bytes[from..]| - |decoder.Remaining()|] == encoded;
      JoinSteps(PreservingMap(known, preserved), key.value, value.value, encoded, key.value in knownKeys,
                SplitEntries(decoder.Remaining(), count - i - 1, knownKeys, previous));
      if key.value in knownKeys {
        known := known + [KnownField(key.value, value.value, encoded)];
      } else {
        preserved := preserved + [PreservedField(key.value, encoded)];
      }
      i := i + 1;
    }
    assert known + [] == known && preserved + [] == preserved;
    if decoder.offset != |bytes| {
      return Err(TrailingBytes);
    }
    return Ok(PreservingMap(known, preserved));
  }
}
