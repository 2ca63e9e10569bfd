/** CBOR is a bijection between encodable normal values and accepted byte strings. */
module CborRoundTrip {
  import opened Wrappers
  import opened Words
  import opened Unicode
  import opened Cbor

  // ---- What can be encoded -----------------------------------------------------------------

  /** The declarative reading of the encoder's checks. */
  predicate Encodable(v: Value, depth: nat) {
    depth <= MAX_DEPTH &&
    match v
    case Bytes(s) => |s| <= MAX_VALUE_LENGTH
    case Text(s) => |s| <= MAX_VALUE_LENGTH
    case Array(items) =>
      |items| <= MAX_CONTAINER_LENGTH && forall i :: 0 <= i < |items| ==> Encodable(items[i], depth + 1)
    case Map(entries) =>
      |entries| <= MAX_CONTAINER_LENGTH && StrictlySorted(Keys(entries)) &&
      forall i :: 0 <= i < |entries| ==> Encodable(entries[i].value, depth + 1)
    case _ => true
  }

  lemma {:induction false} EncodableExactly(v: Value, depth: nat)
    ensures EncodeValue(v, depth).Ok? <==> Encodable(v, depth)
    decreases v
  {
    match v
    case Array(items) => EncodableItems(items, depth + 1);
    case Map(entries) => EncodableEntries(entries, depth + 1);
    case _ =>
  }

  lemma {:induction false} EncodableItems(items: seq<Value>, depth: nat)
    ensures EncodeItems(items, depth).Ok? <==> forall i :: 0 <= i < |items| ==> Encodable(items[i], depth)
    decreases items
  {
    if items != [] {
      EncodableExactly(items[0], depth);
      EncodableItems(items[1..], depth);
      assert items == [items[0]] + items[1..];
    }
  }

  lemma {:induction false} EncodableEntries(entries: seq<Entry>, depth: nat)
    ensures EncodeEntries(entries, depth).Ok?
       <==> forall i :: 0 <= i < |entries| ==> Encodable(entries[i].value, depth)
    decreases entries
  {
    if entries != [] {
      EncodableEntry(entries[0], depth);
      EncodableEntries(entries[1..], depth);
      assert entries == [entries[0]] + entries[1..];
    }
  }

  lemma {:induction false} EncodableEntry(entry: Entry, depth: nat)
    ensures EncodeEntry(entry, depth).Ok? <==> Encodable(entry.value, depth)
    decreases entry
  {
    EncodableExactly(entry.value, depth);
  }

  // ---- Normal values -----------------------------------------------------------------------

  /** A `Negative` whose payload is not below zero is written as an unsigned integer. */
  function Normalize(v: Value): (n: Value)
    ensures v.Unsigned? ==> n == v
    decreases v
  {
    match v
    case Negative(i) => if i >= 0 then Unsigned(i) else v
    case Array(items) => Array(NormalizeItems(items))
    case Map(entries) => Map(NormalizeEntries(entries))
    case _ => v
  }

  function NormalizeItems(items: seq<Value>): (n: seq<Value>)
    ensures |n| == |items|
    decreases items
  {
    if items == [] then [] else [Normalize(items[0])] + NormalizeItems(items[1..])
  }

  function NormalizeEntries(entries: seq<Entry>): (n: seq<Entry>)
    ensures Keys(n) == Keys(entries)
    decreases entries
  {
    if entries == [] then []
    else
      var others := NormalizeEntries(entries[1..]);
      assert forall i :: 0 < i < |entries| ==> Keys(entries)[i] == Keys(entries[1..])[i - 1];
      [NormalizeEntry(entries[0])] + others
  }

  function NormalizeEntry(entry: Entry): Entry
    decreases entry
  {
    Entry(entry.key, Normalize(entry.value))
  }

  predicate Normal(v: Value) {
    Normalize(v) == v
  }

  /** Normal means exactly that every `Negative` inside is below zero. */
  predicate NegativesBelowZero(v: Value) {
    match v
    case Negative(i) => i < 0
    case Array(items) => forall i :: 0 <= i < |items| ==> NegativesBelowZero(items[i])
    case Map(entries) => forall i :: 0 <= i < |entries| ==> NegativesBelowZero(entries[i].value)
    case _ => true
  }

  lemma {:induction false} NormalExactly(v: Value)
    ensures Normal(v) <==> NegativesBelowZero(v)
    decreases v
  {
    match v
    case Array(items) => NormalItems(items);
    case Map(entries) => NormalEntries(entries);
    case _ =>
  }

  lemma {:induction false} NormalItems(items: seq<Value>)
    ensures NormalizeItems(items) == items <==> forall i :: 0 <= i < |items| ==> NegativesBelowZero(items[i])
    decreases items
  {
    hide NegativesBelowZero; hide Normalize;
    if items != [] {
      NormalExactly(items[0]);
      NormalItems(items[1..]);
      ConsEqual(Normalize(items[0]), NormalizeItems(items[1..]), items[0], items[1..]);
      assert items == [items[0]] + items[1..];
    }
  }

  lemma {:induction false} NormalEntries(entries: seq<Entry>)
    ensures NormalizeEntries(entries) == entries
       <==> forall i :: 0 <= i < |entries| ==> NegativesBelowZero(entries[i].value)
    decreases entries
  {
    hide NegativesBelowZero; hide Normalize; hide Keys;
    if entries != [] {
      NormalEntry(entries[0]);
      NormalEntries(entries[1..]);
      ConsEqual(NormalizeEntry(entries[0]), NormalizeEntries(entries[1..]), entries[0], entries[1..]);
      assert entries == [entries[0]] + entries[1..];
    }
  }

  lemma {:induction false} ConsEqual<T>(x: T, a: seq<T>, y: T, b: seq<T>)
    ensures [x] + a == [y] + b <==> x == y && a == b
  {
    assert ([x] + a)[0] == x && ([y] + b)[0] == y;
    assert ([x] + a)[1..] == a && ([y] + b)[1..] == b;
  }

  lemma {:induction false} NormalEntry(entry: Entry)
    ensures NormalizeEntry(entry) == entry <==> NegativesBelowZero(entry.value)
    decreases entry
  {
    NormalExactly(entry.value);
  }

  // ---- Heads -------------------------------------------------------------------------------

  /** A written head reads back, whatever follows it. */
  lemma {:induction false} HeadReads(major: nat, n: u64, rest: seq<byte>)
    requires major < 8
    ensures var b := Head(major, n) + rest;
            b[0] / 32 == major && Argument(b[0] % 32, b[1..]) == Ok((n, rest))
  {
    Pow256Values();
    var b := Head(major, n) + rest;
    assert b[1..] == Head(major, n)[1..] + rest;
    if n > 23 {
      var width := if n <= U8_MAX then 1 else if n <= U16_MAX then 2 else if n <= U32_MAX then 4 else 8;
      var wide := BigEndian(n, width);
      assert BigEndian(n, 1) == BigEndian(n / 256, 0) + [n % 256];
      assert Head(major, n)[1..] == wide;
      assert (wide + rest)[..width] == wide && (wide + rest)[width..] == rest;
    }
  }

  /** Only the shortest head is read, so reading determines the bytes. */
  lemma {:induction false} HeadWrites(b: seq<byte>, n: u64, rest: seq<byte>)
    requires b != [] && Argument(b[0] % 32, b[1..]) == Ok((n, rest))
    ensures b == Head(b[0] / 32, n) + rest
  {
    hide BigEndian; hide FromBigEndian; hide WideArgument; hide Pow256;
    Pow256Values();
    var additional := b[0] % 32;
    assert b == [b[0]] + b[1..] && b[0] == b[0] / 32 * 32 + additional;
    if additional > 23 {
      var width := if additional == 24 then 1 else if additional == 25 then 2 else if additional == 26 then 4 else 8;
      var wide := BigEndian(n, width);
      if additional == 24 {
        OneByte(n);
      }
      assert b[1..] == wide + rest;
      assert Head(b[0] / 32, n) == [b[0]] + wide;
    }
  }

  lemma {:induction false} OneByte(n: byte)
    ensures BigEndian(n, 1) == [n]
  {
    assert BigEndian(n / 256, 0) == [];
  }

  /** Bytes of argument behind the initial byte. */
  function ArgumentWidth(n: u64): nat {
    if n <= 23 then 0 else if n <= U8_MAX then 1 else if n <= U16_MAX then 2 else if n <= U32_MAX then 4 else 8
  }

  function InitialByte(n: u64): byte {
    if n <= 23 then n else if n <= U8_MAX then 24 else if n <= U16_MAX then 25 else if n <= U32_MAX then 26 else 27
  }

  lemma {:induction false} HeadShape(n: u64)
    ensures Head(0, n) == [InitialByte(n)] + if n <= 23 then [] else BigEndian(n, ArgumentWidth(n))
    ensures n > 23 ==> n < Pow256(ArgumentWidth(n))
  {
    hide BigEndian; hide Pow256;
    Pow256Values();
    if 23 < n <= U8_MAX {
      OneByte(n);
    }
  }

  lemma {:induction false} FirstByteDecides(x: byte, y: byte, a: seq<byte>, b: seq<byte>)
    ensures BytesLess([x] + a, [y] + b) <==> x < y || (x == y && BytesLess(a, b))
  {
    assert ([x] + a)[1..] == a && ([y] + b)[1..] == b;
  }

  lemma {:induction false} NotLessThanItself(a: seq<byte>)
    ensures !BytesLess(a, a)
  {
    if a != [] {
      NotLessThanItself(a[1..]);
    }
  }

  /** Section 4.2.1 of RFC 8949: numeric key order is the bytewise order of the encoded keys. */
  lemma {:induction false} KeyOrder(a: u64, b: u64)
    ensures BytesLess(Head(0, a), Head(0, b)) <==> a < b
  {
    hide BigEndian; hide Head; hide BytesLess; hide Pow256;
    HeadShape(a);
    HeadShape(b);
    var x := if a <= 23 then [] else BigEndian(a, ArgumentWidth(a));
    var y := if b <= 23 then [] else BigEndian(b, ArgumentWidth(b));
    FirstByteDecides(InitialByte(a), InitialByte(b), x, y);
    if InitialByte(a) == InitialByte(b) {
      if a <= 23 {
        NotLessThanItself([]);
      } else {
        BigEndianOrder(a, b, ArgumentWidth(a));
      }
    }
  }

  // ---- Decoding what was encoded -----------------------------------------------------------

  lemma {:induction false} DecodesEncoded(v: Value, depth: nat, rest: seq<byte>)
    requires EncodeValue(v, depth).Ok?
    ensures DecodeValue(EncodeValue(v, depth).value + rest, depth) == Ok((Normalize(v), rest))
    decreases v
  {
    hide DecodeValue; hide EncodeValue;
    match v {
      case Array(items) => DecodesArray(items, depth, rest);
      case Map(entries) => DecodesMap(entries, depth, rest);
      case _ => DecodesFlat(v, depth, rest);
    }
  }

  lemma {:induction false} DecodesFlat(v: Value, depth: nat, rest: seq<byte>)
    requires !v.Array? && !v.Map? && EncodeValue(v, depth).Ok?
    ensures DecodeValue(EncodeValue(v, depth).value + rest, depth) == Ok((Normalize(v), rest))
  {
    hide DecodeItems; hide DecodeEntries; hide Head; hide Argument;
    match v {
      case Unsigned(n) => HeadReads(0, n, rest);
      case Negative(i) => if i >= 0 { HeadReads(0, i, rest); } else { HeadReads(1, -1 - i, rest); }
      case Bytes(s) => DecodesString(2, s, rest);
      case Text(s) => DecodesString(3, s, rest);
      case Bool(b) =>
        var byte := if b then 0xf5 else 0xf4;
        assert ([byte] + rest)[1..] == rest;
      case Null => assert ([0xf6] + rest)[1..] == rest;
      case _ =>
    }
  }

  lemma {:induction false} DecodesArray(items: seq<Value>, depth: nat, rest: seq<byte>)
    requires EncodeValue(Array(items), depth).Ok?
    ensures DecodeValue(EncodeValue(Array(items), depth).value + rest, depth)
         == Ok((Array(NormalizeItems(items)), rest))
    decreases items, 1
  {
    hide DecodeItems; hide EncodeItems; hide Head; hide Argument;
    var body := EncodeItems(items, depth + 1).value;
    HeadReads(4, |items|, body + rest);
    assert Head(4, |items|) + body + rest == Head(4, |items|) + (body + rest);
    DecodesItems(items, depth + 1, rest);
  }

  lemma {:induction false} DecodesMap(entries: seq<Entry>, depth: nat, rest: seq<byte>)
    requires EncodeValue(Map(entries), depth).Ok?
    ensures DecodeValue(EncodeValue(Map(entries), depth).value + rest, depth)
         == Ok((Map(NormalizeEntries(entries)), rest))
    decreases entries, 1
  {
    hide DecodeEntries; hide EncodeEntries; hide Head; hide Argument;
    var body := EncodeEntries(entries, depth + 1).value;
    HeadReads(5, |entries|, body + rest);
    assert Head(5, |entries|) + body + rest == Head(5, |entries|) + (body + rest);
    DecodesEntries(entries, depth + 1, rest, None);
  }

  lemma {:induction false} DecodesString(major: nat, s: seq<byte>, rest: seq<byte>)
    requires major < 8 && |s| <= MAX_VALUE_LENGTH
    ensures var b := Head(major, |s|) + s + rest;
            b[0] / 32 == major && Length(b[0] % 32, b[1..]) == Ok((|s|, s + rest))
    ensures Take(s + rest, |s|) == Ok((s, rest))
  {
    HeadReads(major, |s|, s + rest);
    assert Head(major, |s|) + s + rest == Head(major, |s|) + (s + rest);
    assert (s + rest)[..|s|] == s && (s + rest)[|s|..] == rest;
  }

  lemma {:induction false} DecodesItems(items: seq<Value>, depth: nat, rest: seq<byte>)
    requires EncodeItems(items, depth).Ok?
    ensures DecodeItems(EncodeItems(items, depth).value + rest, |items|, depth) == Ok((NormalizeItems(items), rest))
    decreases items, 0
  {
    hide DecodeValue; hide EncodeValue;
    if items == [] {
      assert [] + rest == rest;
    } else {
      var first := EncodeValue(items[0], depth).value;
      var others := EncodeItems(items[1..], depth).value;
      assert first + others + rest == first + (others + rest);
      DecodesEncoded(items[0], depth, others + rest);
      DecodesItems(items[1..], depth, rest);
    }
  }

  lemma {:induction false} DecodesEntries(entries: seq<Entry>, depth: nat, rest: seq<byte>, previous: Option<u64>)
    requires EncodeEntries(entries, depth).Ok? && StrictlySorted(Keys(entries))
    requires previous.Some? && entries != [] ==> previous.value < entries[0].key
    ensures DecodeEntries(EncodeEntries(entries, depth).value + rest, |entries|, depth, previous)
         == Ok((NormalizeEntries(entries), rest))
    decreases entries, 0
  {
    hide DecodeKey; hide DecodeValue; hide EncodeEntry;
    if entries == [] {
      assert [] + rest == rest;
    } else {
      var others := EncodeEntries(entries[1..], depth).value;
      var tail := others + rest;
      DecodesEntry(entries[0], depth, tail, previous);
      assert EncodeEntry(entries[0], depth).value + others + rest == EncodeEntry(entries[0], depth).value + tail;
      SortedCons(entries);
      DecodesEntries(entries[1..], depth, rest, Some(entries[0].key));
    }
  }

  lemma {:induction false} DecodesEntry(entry: Entry, depth: nat, tail: seq<byte>, previous: Option<u64>)
    requires EncodeEntry(entry, depth).Ok?
    requires previous.Some? ==> previous.value < entry.key
    ensures var value := EncodeValue(entry.value, depth).value;
            DecodeKey(EncodeEntry(entry, depth).value + tail, depth, previous) == Ok((entry.key, value + tail)) &&
            DecodeValue(value + tail, depth) == Ok((Normalize(entry.value), tail))
    decreases entry
  {
    var value := EncodeValue(entry.value, depth).value;
    assert Head(0, entry.key) + value + tail == Head(0, entry.key) + (value + tail);
    HeadReads(0, entry.key, value + tail);
    assert depth <= MAX_DEPTH;
    assert DecodeValue(Head(0, entry.key) + (value + tail), depth) == Ok((Unsigned(entry.key), value + tail));
    DecodesEncoded(entry.value, depth, tail);
  }

  // ---- Encoding what was decoded -----------------------------------------------------------

  /** `v` is normal and its encoding is what `b` holds before `rest`. */
  predicate Spells(b: seq<byte>, v: Value, depth: nat, rest: seq<byte>) {
    Normal(v) && EncodeValue(v, depth).Ok? && b == EncodeValue(v, depth).value + rest
  }

  predicate SpellsItems(b: seq<byte>, items: seq<Value>, depth: nat, rest: seq<byte>) {
    NormalizeItems(items) == items && EncodeItems(items, depth).Ok? && b == EncodeItems(items, depth).value + rest
  }

  predicate SpellsEntries(b: seq<byte>, entries: seq<Entry>, depth: nat, rest: seq<byte>) {
    NormalizeEntries(entries) == entries && StrictlySorted(Keys(entries)) &&
    EncodeEntries(entries, depth).Ok? && b == EncodeEntries(entries, depth).value + rest
  }

  lemma {:induction false} EncodesDecoded(b: seq<byte>, depth: nat, v: Value, rest: seq<byte>)
    requires DecodeValue(b, depth) == Ok((v, rest))
    ensures Spells(b, v, depth, rest)
    decreases |b|, 1
  {
    if b[0] / 32 == 4 {
      EncodesArray(b, depth, v, rest);
    } else if b[0] / 32 == 5 {
      EncodesMap(b, depth, v, rest);
    } else {
      EncodesFlat(b, depth, v, rest);
    }
  }

  lemma {:induction false} EncodesFlat(b: seq<byte>, depth: nat, v: Value, rest: seq<byte>)
    requires DecodeValue(b, depth) == Ok((v, rest)) && b[0] / 32 != 4 && b[0] / 32 != 5
    ensures Spells(b, v, depth, rest)
  {
    var major, additional := b[0] / 32, b[0] % 32;
    assert DecodeBody(major, additional, b[1..], depth) == Ok((v, rest));
    if major > 5 {
      assert b == [b[0]] + rest;
    } else if major >= 2 {
      EncodesString(b, depth, v, rest);
    } else {
      HeadWrites(b, Argument(additional, b[1..]).value.0, rest);
    }
  }

  lemma {:induction false} EncodesString(b: seq<byte>, depth: nat, v: Value, rest: seq<byte>)
    requires DecodeValue(b, depth) == Ok((v, rest)) && 2 <= b[0] / 32 <= 3
    ensures Spells(b, v, depth, rest)
  {
    hide Head; hide Argument; hide Utf8Width;
    var (n, tail) := Length(b[0] % 32, b[1..]).value;
    HeadWrites(b, n, tail);
    assert b == Head(b[0] / 32, n) + tail[..n] + rest;
  }

  lemma {:induction false} EncodesArray(b: seq<byte>, depth: nat, v: Value, rest: seq<byte>)
    requires DecodeValue(b, depth) == Ok((v, rest)) && b[0] / 32 == 4
    ensures Spells(b, v, depth, rest)
    decreases |b|, 0
  {
    hide DecodeItems; hide Head; hide Argument;
    var (count, tail) := ContainerLength(b[0] % 32, b[1..], 1).value;
    HeadWrites(b, count, tail);
    EncodesItems(tail, count, depth + 1, v.items, rest);
    assert b == Head(4, count) + EncodeItems(v.items, depth + 1).value + rest;
  }

  lemma {:induction false} EncodesMap(b: seq<byte>, depth: nat, v: Value, rest: seq<byte>)
    requires DecodeValue(b, depth) == Ok((v, rest)) && b[0] / 32 == 5
    ensures Spells(b, v, depth, rest)
    decreases |b|, 0
  {
    hide DecodeEntries; hide Head; hide Argument;
    var (count, tail) := ContainerLength(b[0] % 32, b[1..], 2).value;
    HeadWrites(b, count, tail);
    EncodesEntries(tail, count, depth + 1, None, v.entries, rest);
    assert b == Head(5, count) + EncodeEntries(v.entries, depth + 1).value + rest;
  }

  lemma {:induction false} EncodesItems(b: seq<byte>, count: nat, depth: nat, items: seq<Value>, rest: seq<byte>)
    requires DecodeItems(b, count, depth) == Ok((items, rest))
    ensures SpellsItems(b, items, depth, rest)
    decreases |b|, 2, count
  {
    hide DecodeBody; hide EncodeValue;
    if count > 0 {
      var (first, tail) := DecodeValue(b, depth).value;
      EncodesDecoded(b, depth, first, tail);
      EncodesItems(tail, count - 1, depth, items[1..], rest);
    }
  }

  lemma {:induction false} EncodesEntries(b: seq<byte>, count: nat, depth: nat, previous: Option<u64>,
                                          entries: seq<Entry>, rest: seq<byte>)
    requires DecodeEntries(b, count, depth, previous) == Ok((entries, rest))
    ensures SpellsEntries(b, entries, depth, rest)
    ensures previous.Some? && entries != [] ==> previous.value < entries[0].key
    decreases |b|, 3, count
  {
    hide DecodeBody; hide EncodeValue;
    if count > 0 {
      var (key, tail) := DecodeKey(b, depth, previous).value;
      var (value, next) := DecodeValue(tail, depth).value;
      var others := entries[1..];
      assert entries == [Entry(key, value)] + others;
      EncodesEntry(b, depth, entries[0], tail, next);
      EncodesEntries(next, count - 1, depth, Some(key), others, rest);
      SpellsCons(b, entries, depth, next, rest);
    }
  }

  lemma {:induction false} SpellsCons(b: seq<byte>, entries: seq<Entry>, depth: nat, next: seq<byte>, rest: seq<byte>)
    requires entries != [] && SpellsEntries(next, entries[1..], depth, rest)
    requires |entries| > 1 ==> entries[0].key < entries[1].key
    requires NormalizeEntry(entries[0]) == entries[0] && EncodeEntry(entries[0], depth).Ok?
    requires b == EncodeEntry(entries[0], depth).value + next
    ensures SpellsEntries(b, entries, depth, rest)
  {
    SortedCons(entries);
    assert b == EncodeEntry(entries[0], depth).value + EncodeEntries(entries[1..], depth).value + rest;
  }

  lemma {:induction false} EncodesEntry(b: seq<byte>, depth: nat, entry: Entry, tail: seq<byte>, rest: seq<byte>)
    requires DecodeValue(b, depth) == Ok((Unsigned(entry.key), tail))
    requires DecodeValue(tail, depth) == Ok((entry.value, rest))
    ensures NormalizeEntry(entry) == entry && EncodeEntry(entry, depth).Ok?
    ensures b == EncodeEntry(entry, depth).value + rest
    decreases |b|, 2
  {
    hide DecodeValue; hide Head;
    EncodesDecoded(b, depth, Unsigned(entry.key), tail);
    EncodesDecoded(tail, depth, entry.value, rest);
  }

  lemma {:induction false} SortedCons(entries: seq<Entry>)
    requires entries != []
    ensures StrictlySorted(Keys(entries))
       <==> StrictlySorted(Keys(entries[1..])) && (|entries| > 1 ==> entries[0].key < entries[1].key)
  {
    assert forall i :: 0 <= i < |entries| - 1 ==> Keys(entries[1..])[i] == Keys(entries)[i + 1];
    assert StrictlySorted(Keys(entries)) && |entries| > 1 ==> Keys(entries)[0] < Keys(entries)[1];
    if StrictlySorted(Keys(entries[1..])) && |entries| > 1 && entries[0].key < entries[1].key {
      forall i | 0 < i < |entries| ensures Keys(entries)[i - 1] < Keys(entries)[i] {
        assert i > 1 ==> Keys(entries[1..])[i - 2] < Keys(entries[1..])[i - 1];
      }
    }
  }

  // ---- The bijection -----------------------------------------------------------------------

  /** Decoding undoes encoding, up to misfiled non-negative `Negative` payloads. */
  lemma {:induction false} EncodeThenDecode(v: Value)
    requires Encode(v).Ok?
    ensures Decode(Encode(v).value) == Ok(Normalize(v))
    ensures Decode(Encode(v).value) == Ok(v) <==> NegativesBelowZero(v)
  {
    DecodesEncoded(v, 0, []);
    assert Encode(v).value + [] == Encode(v).value;
    NormalExactly(v);
  }

  /** Every accepted byte string is the one encoding of its value. */
  lemma {:induction false} DecodeThenEncode(b: seq<byte>)
    requires Decode(b).Ok?
    ensures Encode(Decode(b).value) == Ok(b) && NegativesBelowZero(Decode(b).value)
  {
    var v := Decode(b).value;
    EncodesDecoded(b, 0, v, []);
    assert Encode(v).value + [] == Encode(v).value;
    NormalExactly(v);
  }

  /** Hence no two accepted byte strings carry the same value. */
  lemma {:induction false} DecodeInjective(a: seq<byte>, b: seq<byte>)
    requires Decode(a).Ok? && Decode(a) == Decode(b)
    ensures a == b
  {
    DecodeThenEncode(a);
    DecodeThenEncode(b);
  }
}
