/**
 The canonical CBOR subset: a deterministic profile of RFC 8949 with unsigned map keys, no tags,
 no floats and no indefinite lengths. `EncodeValue` and `DecodeValue` are the reference forms;
 CborCodec.dfy holds the buffer-filling encoder and the cursor-driven decoder that refine them.
 */
module Cbor {
  import opened Wrappers
  import opened Words
  import opened Unicode

  const MAX_DEPTH := 16
  const MAX_VALUE_LENGTH := 16 * 1024 * 1024
  const MAX_CONTAINER_LENGTH := 4096

  datatype CborError =
    | TooDeep
    | ValueTooLong
    | ContainerTooLong
    | KeysUnsorted
    | KeysCollide
    | PreservedInvalid(cause: CborError)
    | UnexpectedEnd
    | NonShortest
    | NegativeOutOfRange
    | NotUtf8
    | KeyNotUnsigned
    | LengthExceedsInput
    | Unsupported
    | TrailingBytes
    | NotAMap
    | KnownKeysUnsorted

  datatype Value =
    | Unsigned(n: u64)
    | Negative(i: i64)
    | Bytes(bytes: seq<byte>)
    | Text(text: Utf8)
    | Array(items: seq<Value>)
    | Map(entries: seq<Entry>)
    | Bool(b: bool)
    | Null

  datatype Entry = Entry(key: u64, value: Value)

  /** Bytes still to be read, after a value of type T was taken off the front. */
  type Reading<+T> = Result<(T, seq<byte>), CborError>

  predicate StrictlySorted(keys: seq<u64>) {
    forall i :: 0 < i < |keys| ==> keys[i - 1] < keys[i]
  }

  function Keys(entries: seq<Entry>): (keys: seq<u64>)
    ensures |keys| == |entries|
    ensures forall i :: 0 <= i < |keys| ==> keys[i] == entries[i].key
  {
    seq(|entries|, i requires 0 <= i < |entries| => entries[i].key)
  }

  // ---- Encoding ----------------------------------------------------------------------------

  /** The initial byte and its shortest-form argument. */
  function Head(major: nat, value: u64): (head: seq<byte>)
    requires major < 8
    ensures |head| >= 1
  {
    if value <= 23 then [major * 32 + value]
    else if value <= U8_MAX then [major * 32 + 24] + [value]
    else if value <= U16_MAX then [major * 32 + 25] + BigEndian(value, 2)
    else if value <= U32_MAX then [major * 32 + 26] + BigEndian(value, 4)
    else [major * 32 + 27] + BigEndian(value, 8)
  }

  function EncodeInteger(i: i64): seq<byte> {
    if i >= 0 then Head(0, i) else Head(1, -1 - i)
  }

  function EncodeValue(v: Value, depth: nat): (r: Result<seq<byte>, CborError>)
    ensures r.Ok? ==> |r.value| >= 1
    decreases v
  {
    if depth > MAX_DEPTH then Err(TooDeep)
    else
      match v
      case Unsigned(n) => Ok(Head(0, n))
      case Negative(i) => Ok(EncodeInteger(i))
      case Bytes(s) => if |s| > MAX_VALUE_LENGTH then Err(ValueTooLong) else Ok(Head(2, |s|) + s)
      case Text(s) => if |s| > MAX_VALUE_LENGTH then Err(ValueTooLong) else Ok(Head(3, |s|) + s)
      case Array(items) =>
        if |items| > MAX_CONTAINER_LENGTH then Err(ContainerTooLong)
        else
          var body :- EncodeItems(items, depth + 1);
          Ok(Head(4, |items|) + body)
      case Map(entries) =>
        if |entries| > MAX_CONTAINER_LENGTH then Err(ContainerTooLong)
        else if !StrictlySorted(Keys(entries)) then Err(KeysUnsorted)
        else
          var body :- EncodeEntries(entries, depth + 1);
          Ok(Head(5, |entries|) + body)
      case Bool(b) => Ok([if b then 0xf5 else 0xf4])
      case Null => Ok([0xf6])
  }

  function EncodeItems(items: seq<Value>, depth: nat): (r: Result<seq<byte>, CborError>)
    ensures r.Ok? ==> |r.value| >= |items|
    decreases items
  {
    if items == [] then Ok([])
    else
      var first :- EncodeValue(items[0], depth);
      var others :- EncodeItems(items[1..], depth);
      Ok(first + others)
  }

  function EncodeEntries(entries: seq<Entry>, depth: nat): (r: Result<seq<byte>, CborError>)
    ensures r.Ok? ==> |r.value| >= 2 * |entries|
    decreases entries
  {
    if entries == [] then Ok([])
    else
      var first :- EncodeEntry(entries[0], depth);
      var others :- EncodeEntries(entries[1..], depth);
      Ok(first + others)
  }

  function EncodeEntry(entry: Entry, depth: nat): (r: Result<seq<byte>, CborError>)
    ensures r.Ok? ==> |r.value| >= 2
    decreases entry
  {
    var encoded :- EncodeValue(entry.value, depth);
    Ok(Head(0, entry.key) + encoded)
  }

  function Encode(v: Value): Result<seq<byte>, CborError> {
    EncodeValue(v, 0)
  }

  // ---- Decoding ----------------------------------------------------------------------------

  function Take(b: seq<byte>, count: nat): (r: Reading<seq<byte>>)
    ensures r.Ok? <==> count <= |b|
    ensures r.Ok? ==> b == r.value.0 + r.value.1 && |r.value.0| == count
  {
    if count > |b| then Err(UnexpectedEnd) else Ok((b[..count], b[count..]))
  }

  /** An argument in `width` bytes, refused unless it needs more than `floor`. */
  function WideArgument(b: seq<byte>, width: nat, floor: u64): (r: Reading<u64>)
    requires width == 1 || width == 2 || width == 4 || width == 8
    ensures r.Ok? ==> b == BigEndian(r.value.0, width) + r.value.1 && floor < r.value.0 < Pow256(width)
  {
    var (raw, rest) :- Take(b, width);
    Pow256Values();
    BigEndianOfReading(raw);
    var value := FromBigEndian(raw);
    if value <= floor then Err(NonShortest) else Ok((value, rest))
  }

  function Argument(additional: nat, b: seq<byte>): (r: Reading<u64>)
    ensures r.Ok? ==> |r.value.1| <= |b|
  {
    if additional <= 23 then Ok((additional, b))
    else if additional == 24 then WideArgument(b, 1, 23)
    else if additional == 25 then WideArgument(b, 2, U8_MAX)
    else if additional == 26 then WideArgument(b, 4, U16_MAX)
    else if additional == 27 then WideArgument(b, 8, U32_MAX)
    else Err(Unsupported)
  }

  function Length(additional: nat, b: seq<byte>): (r: Reading<nat>)
    ensures r.Ok? ==> |r.value.1| <= |b|
  {
    var (n, rest) :- Argument(additional, b);
    if n > MAX_VALUE_LENGTH then Err(ValueTooLong) else Ok((n, rest))
  }

  /** A container length the remaining input could hold at `itemBytes` per item. */
  function ContainerLength(additional: nat, b: seq<byte>, itemBytes: nat): (r: Reading<nat>)
    ensures r.Ok? ==> |r.value.1| <= |b|
  {
    var (n, rest) :- Length(additional, b);
    if n > MAX_CONTAINER_LENGTH then Err(ContainerTooLong)
    else if n * itemBytes > |rest| then Err(LengthExceedsInput)
    else Ok((n, rest))
  }

  function DecodeValue(b: seq<byte>, depth: nat): (r: Reading<Value>)
    ensures r.Ok? ==> |r.value.1| < |b|
    decreases |b|, 0
  {
    if depth > MAX_DEPTH then Err(TooDeep)
    else if b == [] then Err(UnexpectedEnd)
    else DecodeBody(b[0] / 32, b[0] % 32, b[1..], depth)
  }

  function DecodeBody(major: nat, additional: nat, b: seq<byte>, depth: nat): (r: Reading<Value>)
    ensures r.Ok? ==> |r.value.1| <= |b|
    decreases |b|, 2
  {
    if major == 0 then
      var (n, rest) :- Argument(additional, b);
      Ok((Unsigned(n), rest))
    else if major == 1 then
      var (n, rest) :- Argument(additional, b);
      if n > I64_MAX then Err(NegativeOutOfRange) else Ok((Negative(-1 - n), rest))
    else if major == 2 then
      var (n, tail) :- Length(additional, b);
      var (s, rest) :- Take(tail, n);
      Ok((Bytes(s), rest))
    else if major == 3 then
      var (n, tail) :- Length(additional, b);
      var (s, rest) :- Take(tail, n);
      if IsUtf8(s) then Ok((Text(s), rest)) else Err(NotUtf8)
    else if major == 4 then
      var (n, tail) :- ContainerLength(additional, b, 1);
      var (items, rest) :- DecodeItems(tail, n, depth + 1);
      Ok((Array(items), rest))
    else if major == 5 then
      var (n, tail) :- ContainerLength(additional, b, 2);
      var (entries, rest) :- DecodeEntries(tail, n, depth + 1, None);
      Ok((Map(entries), rest))
    else if major == 7 && additional == 20 then Ok((Bool(false), b))
    else if major == 7 && additional == 21 then Ok((Bool(true), b))
    else if major == 7 && additional == 22 then Ok((Null, b))
    else Err(Unsupported)
  }

  function DecodeItems(b: seq<byte>, count: nat, depth: nat): (r: Reading<seq<Value>>)
    ensures r.Ok? ==> |r.value.1| <= |b| && |r.value.0| == count
    decreases |b|, 1, count
  {
    if count == 0 then Ok(([], b))
    else
      var (first, tail) :- DecodeValue(b, depth);
      var (others, rest) :- DecodeItems(tail, count - 1, depth);
      Ok(([first] + others, rest))
  }

  /** One map key, which must be unsigned and above the previous one. */
  function DecodeKey(b: seq<byte>, depth: nat, previous: Option<u64>): (r: Reading<u64>)
    ensures r.Ok? ==> |r.value.1| < |b|
    ensures r.Ok? && previous.Some? ==> previous.value < r.value.0
    decreases |b|, 1
  {
    var (key, tail) :- DecodeValue(b, depth);
    if !key.Unsigned? then Err(KeyNotUnsigned)
    else if previous.Some? && previous.value >= key.n then Err(KeysUnsorted)
    else Ok((key.n, tail))
  }

  function DecodeEntries(b: seq<byte>, count: nat, depth: nat, previous: Option<u64>)
    : (r: Reading<seq<Entry>>)
    ensures r.Ok? ==> |r.value.1| <= |b| && |r.value.0| == count
    decreases |b|, 2, count
  {
    if count == 0 then Ok(([], b))
    else
      var (key, tail) :- DecodeKey(b, depth, previous);
      var (value, next) :- DecodeValue(tail, depth);
      var (others, rest) :- DecodeEntries(next, count - 1, depth, Some(key));
      Ok(([Entry(key, value)] + others, rest))
  }

  function DecodeAtDepth(b: seq<byte>, depth: nat): Result<Value, CborError> {
    var (v, rest) :- DecodeValue(b, depth);
    if rest != [] then Err(TrailingBytes) else Ok(v)
  }

  function Decode(b: seq<byte>): Result<Value, CborError> {
    DecodeAtDepth(b, 0)
  }
}
