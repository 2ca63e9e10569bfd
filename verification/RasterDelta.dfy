/**
 Raster delta frames: a 48-byte header, one 32-byte descriptor an operation, then the overwrite
 payloads in order. Zstandard is a parameter; everything else is fixed-layout and big-endian.
 */
module RasterDelta {
  import opened Wrappers
  import opened Words

  const FLAG_ZSTD: u32 := 2
  const FLAG_DELTA: u32 := 4
  const KIND_OVERWRITE: u32 := 1
  const KIND_COPY: u32 := 2
  const OPERATION_LIMIT: nat := 16
  const PREFIX_SIZE: nat := 48
  const OPERATION_SIZE: nat := 32
  const HARD_MAX_RECORD_BODY: nat := 64 * 1024 * 1024

  datatype ErrorKind = InvalidInput | InvalidData

  datatype Operation =
    | Overwrite(x: u32, y: u32, width: u32, height: u32, rgba: seq<byte>)
    | Copy(x: u32, y: u32, width: u32, height: u32, sourceX: u32, sourceY: u32)

  datatype Header = Header(epoch: u32, frameId: u64, baseFrameId: u64, ptsUs: i64, durationUs: u64)
  datatype Frame = Frame(header: Header, compressed: bool, operations: seq<Operation>)

  /** The frame the operations apply to, and how many of them the presenter allows. */
  datatype Source = Source(width: u32, height: u32, limit: u32)

  /** The compressor, and the decompressor for a known output length; either may refuse. */
  datatype Zstd = Zstd(deflate: seq<byte> -> Option<seq<byte>>, inflate: (seq<byte>, nat) -> Option<seq<byte>>)

  datatype Descriptor = Descriptor(kind: u32, x: u32, y: u32, width: u32, height: u32, sourceX: u32, sourceY: u32,
                                   length: u32)
  datatype Piece = Piece(descriptor: Descriptor, payload: seq<byte>)

  // ---- Fixed-width fields ------------------------------------------------------------------

  function Word(v: u32): (s: seq<byte>)
    ensures |s| == 4 && FromBigEndian(s) == v
  {
    Pow256Values();
    BigEndian(v, 4)
  }

  function Long(v: u64): (s: seq<byte>)
    ensures |s| == 8 && FromBigEndian(s) == v
  {
    Pow256Values();
    BigEndian(v, 8)
  }

  /** Two's complement. */
  function Unsigned(v: i64): u64 {
    if v < 0 then v + U64_MAX + 1 else v
  }

  function Signed(v: u64): i64 {
    if v > I64_MAX then v - U64_MAX - 1 else v
  }

  function WordAt(b: seq<byte>, at: nat): u32
    requires at + 4 <= |b|
  {
    Pow256Values();
    FromBigEndian(b[at..at + 4])
  }

  function LongAt(b: seq<byte>, at: nat): u64
    requires at + 8 <= |b|
  {
    Pow256Values();
    FromBigEndian(b[at..at + 8])
  }

  lemma {:induction false} WordBack(b: seq<byte>, at: nat)
    requires at + 4 <= |b|
    ensures Word(WordAt(b, at)) == b[at..at + 4]
  {
    BigEndianOfReading(b[at..at + 4]);
  }

  lemma {:induction false} LongBack(b: seq<byte>, at: nat)
    requires at + 8 <= |b|
    ensures Long(LongAt(b, at)) == b[at..at + 8]
  {
    BigEndianOfReading(b[at..at + 8]);
  }

  function DescriptorBytes(d: Descriptor): (s: seq<byte>)
    ensures |s| == OPERATION_SIZE
  {
    Word(d.kind) + Word(d.x) + Word(d.y) + Word(d.width) + Word(d.height) + Word(d.sourceX) + Word(d.sourceY)
    + Word(d.length)
  }

  function DescriptorAt(b: seq<byte>, at: nat): Descriptor
    requires at + OPERATION_SIZE <= |b|
  {
    Descriptor(WordAt(b, at), WordAt(b, at + 4), WordAt(b, at + 8), WordAt(b, at + 12), WordAt(b, at + 16),
               WordAt(b, at + 20), WordAt(b, at + 24), WordAt(b, at + 28))
  }

  lemma {:induction false} DescriptorReads(d: Descriptor)
    ensures DescriptorAt(DescriptorBytes(d), 0) == d
  {
    hide Word;
    var s := DescriptorBytes(d);
    assert s[0..4] == Word(d.kind) && s[4..8] == Word(d.x) && s[8..12] == Word(d.y) && s[12..16] == Word(d.width);
    assert s[16..20] == Word(d.height) && s[20..24] == Word(d.sourceX);
    assert s[24..28] == Word(d.sourceY) && s[28..32] == Word(d.length);
  }

  lemma {:induction false} DescriptorWrites(b: seq<byte>, at: nat)
    requires at + OPERATION_SIZE <= |b|
    ensures DescriptorBytes(DescriptorAt(b, at)) == b[at..at + OPERATION_SIZE]
  {
    hide Word; hide WordAt;
    WordBack(b, at); WordBack(b, at + 4); WordBack(b, at + 8); WordBack(b, at + 12);
    WordBack(b, at + 16); WordBack(b, at + 20); WordBack(b, at + 24); WordBack(b, at + 28);
  }

  function PrefixBytes(h: Header, compressed: bool, count: u32): (s: seq<byte>)
    ensures |s| == PREFIX_SIZE
  {
    Word(h.epoch) + Word(if compressed then FLAG_DELTA + FLAG_ZSTD else FLAG_DELTA) + Long(h.frameId)
    + Long(h.baseFrameId) + Long(Unsigned(h.ptsUs)) + Long(h.durationUs) + Word(count) + Word(0)
  }

  function HeaderAt(b: seq<byte>): Header
    requires |b| >= PREFIX_SIZE
  {
    Header(WordAt(b, 0), LongAt(b, 8), LongAt(b, 16), Signed(LongAt(b, 24)), LongAt(b, 32))
  }

  lemma {:induction false} PrefixReads(h: Header, compressed: bool, count: u32, rest: seq<byte>)
    ensures var b := PrefixBytes(h, compressed, count) + rest;
            HeaderAt(b) == h && WordAt(b, 4) == (if compressed then FLAG_DELTA + FLAG_ZSTD else FLAG_DELTA) &&
            WordAt(b, 40) == count && WordAt(b, 44) == 0
  {
    hide Word; hide Long;
    var b := PrefixBytes(h, compressed, count) + rest;
    var flags := if compressed then FLAG_DELTA + FLAG_ZSTD else FLAG_DELTA;
    assert b[0..4] == Word(h.epoch) && b[4..8] == Word(flags) && b[8..16] == Long(h.frameId);
    assert b[16..24] == Long(h.baseFrameId) && b[24..32] == Long(Unsigned(h.ptsUs)) && b[32..40] == Long(h.durationUs);
    assert b[40..44] == Word(count) && b[44..48] == Word(0);
  }

  lemma {:induction false} PrefixWrites(b: seq<byte>, compressed: bool)
    requires |b| >= PREFIX_SIZE && WordAt(b, 44) == 0
    requires WordAt(b, 4) == if compressed then FLAG_DELTA + FLAG_ZSTD else FLAG_DELTA
    ensures PrefixBytes(HeaderAt(b), compressed, WordAt(b, 40)) == b[..PREFIX_SIZE]
  {
    hide Word; hide Long; hide WordAt; hide LongAt;
    WordBack(b, 0); WordBack(b, 4); LongBack(b, 8); LongBack(b, 16); LongBack(b, 24); LongBack(b, 32);
    WordBack(b, 40); WordBack(b, 44);
    assert Unsigned(Signed(LongAt(b, 24))) == LongAt(b, 24);
    assert b[..8] == b[0..4] + b[4..8];
    assert b[..24] == b[..8] + b[8..16] + b[16..24];
    assert b[..40] == b[..24] + b[24..32] + b[32..40];
    assert b[..PREFIX_SIZE] == b[..40] + b[40..44] + b[44..48];
  }

  // ---- Rectangles --------------------------------------------------------------------------

  /** Bytes of an RGBA rectangle, when they fit 32 bits. */
  function PixelBytes(width: u32, height: u32): Option<u32> {
    if width == 0 || height == 0 || width * height * 4 > U32_MAX then None else Some(width * height * 4)
  }

  predicate Inside(x: u32, y: u32, width: u32, height: u32, source: Source) {
    width != 0 && height != 0 && x + width <= U32_MAX && x + width <= source.width && y + height <= U32_MAX &&
    y + height <= source.height
  }

  // ---- Building ----------------------------------------------------------------------------

  function Payload(rgba: seq<byte>, compress: bool, z: Zstd): Result<seq<byte>, ErrorKind> {
    if !compress then Ok(rgba)
    else
      match z.deflate(rgba)
      case None => Err(InvalidData)
      case Some(bytes) => Ok(bytes)
  }

  function BuildPiece(op: Operation, source: Source, compress: bool, z: Zstd): Result<Piece, ErrorKind> {
    if !Inside(op.x, op.y, op.width, op.height, source) then Err(InvalidInput)
    else
      match op
      case Overwrite(x, y, width, height, rgba) =>
        if PixelBytes(width, height) != Some(|rgba|) then Err(InvalidInput)
        else
          var payload :- Payload(rgba, compress, z);
          if |payload| > U32_MAX then Err(InvalidInput)
          else Ok(Piece(Descriptor(KIND_OVERWRITE, x, y, width, height, 0, 0, |payload|), payload))
      case Copy(x, y, width, height, sourceX, sourceY) =>
        if !Inside(sourceX, sourceY, width, height, source) then Err(InvalidInput)
        else Ok(Piece(Descriptor(KIND_COPY, x, y, width, height, sourceX, sourceY, 0), []))
  }

  function BuildPieces(ops: seq<Operation>, source: Source, compress: bool, z: Zstd): (r: Result<seq<Piece>, ErrorKind>)
    ensures (r.Ok? ==> |r.value| == |ops| &&
                       forall i :: 0 <= i < |ops| ==> BuildPiece(ops[i], source, compress, z) == Ok(r.value[i]))
  {
    if ops == [] then Ok([])
    else
      var first :- BuildPiece(ops[0], source, compress, z);
      var others :- BuildPieces(ops[1..], source, compress, z);
      Ok([first] + others)
  }

  function Descriptors(pieces: seq<Piece>): (s: seq<byte>)
    ensures |s| == |pieces| * OPERATION_SIZE
  {
    if pieces == [] then [] else DescriptorBytes(pieces[0].descriptor) + Descriptors(pieces[1..])
  }

  function Payloads(pieces: seq<Piece>): seq<byte> {
    if pieces == [] then [] else pieces[0].payload + Payloads(pieces[1..])
  }

  function Body(h: Header, compressed: bool, pieces: seq<Piece>): seq<byte>
    requires |pieces| <= OPERATION_LIMIT
  {
    PrefixBytes(h, compressed, |pieces|) + Descriptors(pieces) + Payloads(pieces)
  }

  predicate GoodLimit(limit: u32) {
    1 <= limit <= OPERATION_LIMIT
  }

  function Build(h: Header, source: Source, ops: seq<Operation>, compress: bool, z: Zstd): Result<seq<byte>, ErrorKind> {
    if !GoodLimit(source.limit) || h.frameId == 0 || h.baseFrameId == 0 || source.width == 0 || source.height == 0
       || |ops| == 0 || |ops| > source.limit then Err(InvalidInput)
    else
      var pieces :- BuildPieces(ops, source, compress, z);
      var body := Body(h, compress, pieces);
      if |body| > HARD_MAX_RECORD_BODY then Err(InvalidInput) else Ok(body)
  }

  // ---- Parsing -----------------------------------------------------------------------------

  /** What the parser demands of one descriptor. */
  predicate Acceptable(d: Descriptor, source: Source, compressed: bool) {
    Inside(d.x, d.y, d.width, d.height, source) && PixelBytes(d.width, d.height).Some? &&
    ((d.kind == KIND_OVERWRITE && d.sourceX == 0 && d.sourceY == 0 &&
      (compressed || PixelBytes(d.width, d.height) == Some(d.length))) ||
     (d.kind == KIND_COPY && d.length == 0 && Inside(d.sourceX, d.sourceY, d.width, d.height, source)))
  }

  /** Each descriptor takes its payload off the front; nothing may be left over. */
  function Cut(count: nat, descriptors: seq<byte>, tail: seq<byte>, source: Source, compressed: bool)
    : Result<seq<Piece>, ErrorKind>
    requires |descriptors| == count * OPERATION_SIZE
  {
    if count == 0 then if tail == [] then Ok([]) else Err(InvalidData)
    else
      var d := DescriptorAt(descriptors, 0);
      if !Acceptable(d, source, compressed) || d.length > |tail| then Err(InvalidData)
      else
        var others :- Cut(count - 1, descriptors[OPERATION_SIZE..], tail[d.length..], source, compressed);
        Ok([Piece(d, tail[..d.length])] + others)
  }

  /** A four-byte magic number reserved for skippable frames, little-endian, or no room for one. */
  predicate Skippable(b: seq<byte>) {
    |b| < 4 || (b[0] / 16 == 5 && b[1] == 0x2a && b[2] == 0x4d && b[3] == 0x18)
  }

  function Pixels(d: Descriptor, payload: seq<byte>, compressed: bool, z: Zstd): Result<seq<byte>, ErrorKind>
    requires PixelBytes(d.width, d.height).Some?
  {
    var expected := PixelBytes(d.width, d.height).value;
    if !compressed then Ok(payload)
    else if Skippable(payload) then Err(InvalidData)
    else
      match z.inflate(payload, expected)
      case None => Err(InvalidData)
      case Some(rgba) => if |rgba| != expected then Err(InvalidData) else Ok(rgba)
  }

  function ReadPiece(p: Piece, compressed: bool, z: Zstd): Result<Operation, ErrorKind>
    requires PixelBytes(p.descriptor.width, p.descriptor.height).Some?
  {
    var d := p.descriptor;
    if d.kind == KIND_OVERWRITE then
      var rgba :- Pixels(d, p.payload, compressed, z);
      Ok(Overwrite(d.x, d.y, d.width, d.height, rgba))
    else Ok(Copy(d.x, d.y, d.width, d.height, d.sourceX, d.sourceY))
  }

  predicate Sized(pieces: seq<Piece>) {
    forall i :: 0 <= i < |pieces| ==> PixelBytes(pieces[i].descriptor.width, pieces[i].descriptor.height).Some?
  }

  function ReadPieces(pieces: seq<Piece>, compressed: bool, z: Zstd): (r: Result<seq<Operation>, ErrorKind>)
    requires Sized(pieces)
    ensures (r.Ok? ==> |r.value| == |pieces| &&
                       forall i :: 0 <= i < |pieces| ==> ReadPiece(pieces[i], compressed, z) == Ok(r.value[i]))
    ensures r.Err? ==> exists i :: 0 <= i < |pieces| && ReadPiece(pieces[i], compressed, z).Err?
  {
    if pieces == [] then Ok([])
    else
      var first :- ReadPiece(pieces[0], compressed, z);
      assert pieces == [pieces[0]] + pieces[1..];
      var others :- ReadPieces(pieces[1..], compressed, z);
      Ok([first] + others)
  }

  lemma {:induction false} CutSized(count: nat, descriptors: seq<byte>, tail: seq<byte>, source: Source, compressed: bool)
    requires |descriptors| == count * OPERATION_SIZE && Cut(count, descriptors, tail, source, compressed).Ok?
    ensures Sized(Cut(count, descriptors, tail, source, compressed).value)
  {
    hide DescriptorAt; hide Inside; hide PixelBytes;
    if count != 0 {
      var d := DescriptorAt(descriptors, 0);
      CutSized(count - 1, descriptors[OPERATION_SIZE..], tail[d.length..], source, compressed);
    }
  }

  predicate GoodPrefix(b: seq<byte>, source: Source)
    requires |b| >= PREFIX_SIZE
  {
    (WordAt(b, 4) == FLAG_DELTA || WordAt(b, 4) == FLAG_DELTA + FLAG_ZSTD) && LongAt(b, 16) != 0 &&
    WordAt(b, 44) == 0 && 1 <= WordAt(b, 40) <= source.limit && PREFIX_SIZE + WordAt(b, 40) * OPERATION_SIZE <= |b|
  }

  function Parse(b: seq<byte>, source: Source, z: Zstd): Result<Frame, ErrorKind> {
    if !GoodLimit(source.limit) || source.width == 0 || source.height == 0 || |b| < PREFIX_SIZE || !GoodPrefix(b, source)
    then Err(InvalidData)
    else
      var start := PREFIX_SIZE + WordAt(b, 40) * OPERATION_SIZE;
      var compressed := WordAt(b, 4) != FLAG_DELTA;
      var pieces :- Cut(WordAt(b, 40), b[PREFIX_SIZE..start], b[start..], source, compressed);
      CutSized(WordAt(b, 40), b[PREFIX_SIZE..start], b[start..], source, compressed);
      var ops :- ReadPieces(pieces, compressed, z);
      Ok(Frame(HeaderAt(b), compressed, ops))
  }

  // ---- Cutting and joining -----------------------------------------------------------------

  predicate Fits(p: Piece, source: Source, compressed: bool) {
    Acceptable(p.descriptor, source, compressed) && p.descriptor.length == |p.payload|
  }

  /** Joined pieces are cut apart again exactly when each is acceptable. */
  lemma {:induction false} CutJoined(pieces: seq<Piece>, source: Source, compressed: bool)
    requires forall i :: 0 <= i < |pieces| ==> pieces[i].descriptor.length == |pieces[i].payload|
    ensures Cut(|pieces|, Descriptors(pieces), Payloads(pieces), source, compressed)
         == if forall i :: 0 <= i < |pieces| ==> Fits(pieces[i], source, compressed) then Ok(pieces) else Err(InvalidData)
    decreases |pieces|
  {
    hide Acceptable; hide DescriptorBytes; hide DescriptorAt;
    if pieces != [] {
      var first, others := pieces[0], pieces[1..];
      var head := DescriptorBytes(first.descriptor);
      HeadOfJoined(first.descriptor, Descriptors(others));
      assert Payloads(pieces)[|first.payload|..] == Payloads(others);
      CutJoined(others, source, compressed);
      assert pieces == [first] + others;
      if !Fits(first, source, compressed) {
        assert !Fits(pieces[0], source, compressed);
      } else {
        assert (forall i :: 0 <= i < |pieces| ==> Fits(pieces[i], source, compressed))
          <==> forall i :: 0 <= i < |others| ==> Fits(others[i], source, compressed);
      }
    }
  }

  lemma {:induction false} HeadOfJoined(d: Descriptor, rest: seq<byte>)
    ensures DescriptorAt(DescriptorBytes(d) + rest, 0) == d
    ensures (DescriptorBytes(d) + rest)[OPERATION_SIZE..] == rest
  {
    DescriptorReads(d);
    SamePrefix(DescriptorBytes(d), rest);
  }

  lemma {:induction false} SamePrefix(head: seq<byte>, rest: seq<byte>)
    requires |head| == OPERATION_SIZE
    ensures DescriptorAt(head + rest, 0) == DescriptorAt(head, 0)
  {
    var b := head + rest;
    assert b[0..4] == head[0..4] && b[4..8] == head[4..8] && b[8..12] == head[8..12] && b[12..16] == head[12..16];
    assert b[16..20] == head[16..20] && b[20..24] == head[20..24];
    assert b[24..28] == head[24..28] && b[28..32] == head[28..32];
  }

  /** What was cut tiles what it was cut from, with nothing between or after. */
  lemma {:induction false} JoinCut(count: nat, descriptors: seq<byte>, tail: seq<byte>, source: Source, compressed: bool)
    requires |descriptors| == count * OPERATION_SIZE && Cut(count, descriptors, tail, source, compressed).Ok?
    ensures var pieces := Cut(count, descriptors, tail, source, compressed).value;
            Descriptors(pieces) == descriptors && Payloads(pieces) == tail &&
            forall i :: 0 <= i < |pieces| ==> Fits(pieces[i], source, compressed)
  {
    hide Acceptable; hide DescriptorBytes; hide DescriptorAt;
    if count != 0 {
      var d := DescriptorAt(descriptors, 0);
      JoinCut(count - 1, descriptors[OPERATION_SIZE..], tail[d.length..], source, compressed);
      DescriptorWrites(descriptors, 0);
    }
  }

  // ---- Round trips -------------------------------------------------------------------------

  /** The compressor's output is taken back by the decompressor, as itself. */
  ghost predicate Recovers(z: Zstd, rgba: seq<byte>) {
    z.deflate(rgba).Some? ==>
      !Skippable(z.deflate(rgba).value) && z.inflate(z.deflate(rgba).value, |rgba|) == Some(rgba)
  }

  ghost predicate Recovered(op: Operation, compress: bool, z: Zstd) {
    compress && op.Overwrite? ==> Recovers(z, op.rgba)
  }

  ghost predicate Lossless(ops: seq<Operation>, compress: bool, z: Zstd) {
    forall i :: 0 <= i < |ops| ==> Recovered(ops[i], compress, z)
  }

  /** Copies the parser sizes as if they carried pixels, which the builder never does. */
  predicate Sizable(op: Operation) {
    op.Copy? ==> PixelBytes(op.width, op.height).Some?
  }

  lemma {:induction false} PieceReads(op: Operation, source: Source, compress: bool, z: Zstd)
    requires BuildPiece(op, source, compress, z).Ok?
    ensures var p := BuildPiece(op, source, compress, z).value;
            p.descriptor.length == |p.payload| && (Fits(p, source, compress) <==> Sizable(op)) &&
            (Sizable(op) ==> PixelBytes(p.descriptor.width, p.descriptor.height).Some? &&
                             (ReadPiece(p, compress, z) == Ok(op) <==> Recovered(op, compress, z)))
  {
    hide Skippable;
  }

  lemma {:induction false} PieceWrites(p: Piece, source: Source, z: Zstd)
    requires Fits(p, source, false)
    ensures BuildPiece(ReadPiece(p, false, z).value, source, false, z) == Ok(p)
  {
  }

  lemma {:induction false} BuildsPieces(ops: seq<Operation>, pieces: seq<Piece>, source: Source, compress: bool, z: Zstd)
    requires |pieces| == |ops| && forall i :: 0 <= i < |ops| ==> BuildPiece(ops[i], source, compress, z) == Ok(pieces[i])
    ensures BuildPieces(ops, source, compress, z) == Ok(pieces)
    decreases |ops|
  {
    hide BuildPiece;
    if ops != [] {
      BuildsPieces(ops[1..], pieces[1..], source, compress, z);
      assert pieces == [pieces[0]] + pieces[1..];
    }
  }

  lemma {:induction false} ReadsPieces(pieces: seq<Piece>, ops: seq<Operation>, compress: bool, z: Zstd)
    requires Sized(pieces) && |pieces| == |ops|
    ensures ReadPieces(pieces, compress, z) == Ok(ops)
       <==> forall i :: 0 <= i < |ops| ==> ReadPiece(pieces[i], compress, z) == Ok(ops[i])
  {
    hide ReadPiece;
    var r := ReadPieces(pieces, compress, z);
    if forall i :: 0 <= i < |ops| ==> ReadPiece(pieces[i], compress, z) == Ok(ops[i]) {
      forall i | 0 <= i < |ops| ensures r.Ok? && r.value[i] == ops[i] {
        assert ReadPiece(pieces[i], compress, z) == Ok(ops[i]);
      }
      assert r.Ok?;
      assert r.value == ops;
    }
  }

  lemma {:induction false} BodyParts(h: Header, compressed: bool, pieces: seq<Piece>)
    requires 0 < |pieces| <= OPERATION_LIMIT
    ensures var b := Body(h, compressed, pieces);
            var start := PREFIX_SIZE + |pieces| * OPERATION_SIZE;
            |b| >= start && HeaderAt(b) == h && WordAt(b, 40) == |pieces| && WordAt(b, 44) == 0 &&
            WordAt(b, 4) == (if compressed then FLAG_DELTA + FLAG_ZSTD else FLAG_DELTA) &&
            b[PREFIX_SIZE..start] == Descriptors(pieces) && b[start..] == Payloads(pieces)
  {
    hide Descriptors; hide Payloads; hide PrefixBytes; hide HeaderAt; hide WordAt;
    var b := Body(h, compressed, pieces);
    PrefixReads(h, compressed, |pieces|, Descriptors(pieces) + Payloads(pieces));
    assert b == PrefixBytes(h, compressed, |pieces|) + (Descriptors(pieces) + Payloads(pieces));
  }

  /**
   A built frame parses back to the same header and operations exactly when every copied rectangle
   would fit 32 bits as pixels and every compressed payload decompresses to what went in; a larger
   copy makes the parser refuse what the builder made.
   */
  lemma {:induction false} BuiltParses(h: Header, source: Source, ops: seq<Operation>, compress: bool, z: Zstd)
    requires Build(h, source, ops, compress, z).Ok?
    ensures var r := Parse(Build(h, source, ops, compress, z).value, source, z);
            var sizable := forall i :: 0 <= i < |ops| ==> Sizable(ops[i]);
            (r == Ok(Frame(h, compress, ops)) <==> sizable && Lossless(ops, compress, z)) &&
            (!sizable ==> r == Err(InvalidData))
  {
    hide Body; hide Cut; hide HeaderAt; hide WordAt; hide LongAt; hide BuildPiece; hide ReadPiece; hide Fits;
    hide Sizable; hide Descriptors; hide Payloads; hide Recovered;
    var pieces := BuildPieces(ops, source, compress, z).value;
    var b := Body(h, compress, pieces);
    forall i | 0 <= i < |ops|
      ensures pieces[i].descriptor.length == |pieces[i].payload|
      ensures Fits(pieces[i], source, compress) <==> Sizable(ops[i])
      ensures Sizable(ops[i]) ==> ReadsExactly(pieces[i], ops[i], compress, z) {
      PieceReads(ops[i], source, compress, z);
    }
    BodyParts(h, compress, pieces);
    BaseId(b);
    CutJoined(pieces, source, compress);
    if forall i :: 0 <= i < |ops| ==> Sizable(ops[i]) {
      forall i | 0 <= i < |ops| ensures ReadsExactly(pieces[i], ops[i], compress, z) {
        assert Sizable(ops[i]);
      }
      ReadsPieces(pieces, ops, compress, z);
    } else {
      var i :| 0 <= i < |ops| && !Sizable(ops[i]);
      assert !Fits(pieces[i], source, compress);
    }
  }

  ghost predicate ReadsExactly(p: Piece, op: Operation, compress: bool, z: Zstd) {
    PixelBytes(p.descriptor.width, p.descriptor.height).Some? &&
    (ReadPiece(p, compress, z) == Ok(op) <==> Recovered(op, compress, z))
  }

  lemma {:induction false} BaseId(b: seq<byte>)
    requires |b| >= PREFIX_SIZE
    ensures LongAt(b, 16) == HeaderAt(b).baseFrameId && LongAt(b, 8) == HeaderAt(b).frameId
  {
  }

  /** A copy of 65536 by 65536 pixels inside a source that large: built, but not parsed. */
  lemma {:induction false} HugeCopyRefused(z: Zstd)
    ensures var source := Source(0x10000, 0x10000, 16);
            var r := Build(Header(0, 1, 1, 0, 0), source, [Copy(0, 0, 0x10000, 0x10000, 0, 0)], false, z);
            r.Ok? && Parse(r.value, source, z).Err?
  {
    hide Word; hide Long; hide Parse;
    var source := Source(0x10000, 0x10000, 16);
    var ops := [Copy(0, 0, 0x10000, 0x10000, 0, 0)];
    var h := Header(0, 1, 1, 0, 0);
    assert ops[1..] == [];
    assert BuildPieces(ops[1..], source, false, z) == Ok([]);
    var pieces := BuildPieces(ops, source, false, z).value;
    assert pieces[1..] == [];
    assert pieces[0].payload == [] && Payloads(pieces[1..]) == [];
    assert Payloads(pieces) == pieces[0].payload + Payloads(pieces[1..]) == [];
    assert |Body(h, false, pieces)| == PREFIX_SIZE + OPERATION_SIZE;
    assert !Sizable(ops[0]);
    BuiltParses(h, source, ops, false, z);
  }

  /** An uncompressed frame that parses re-encodes to its own bytes, given an ID and a legal size. */
  lemma {:induction false} ParsedRebuilds(b: seq<byte>, source: Source, z: Zstd)
    requires Parse(b, source, z).Ok? && !Parse(b, source, z).value.compressed
    ensures var f := Parse(b, source, z).value;
            Build(f.header, source, f.operations, false, z)
            == if f.header.frameId != 0 && |b| <= HARD_MAX_RECORD_BODY then Ok(b) else Err(InvalidInput)
  {
    hide HeaderAt; hide WordAt; hide LongAt; hide BuildPiece; hide ReadPiece; hide Fits; hide Descriptors;
    hide Payloads; hide PrefixBytes; hide Cut;
    var f := Parse(b, source, z).value;
    var start := PREFIX_SIZE + WordAt(b, 40) * OPERATION_SIZE;
    var pieces := Cut(WordAt(b, 40), b[PREFIX_SIZE..start], b[start..], source, false).value;
    JoinCut(WordAt(b, 40), b[PREFIX_SIZE..start], b[start..], source, false);
    CutSized(WordAt(b, 40), b[PREFIX_SIZE..start], b[start..], source, false);
    forall i | 0 <= i < |pieces| ensures BuildPiece(f.operations[i], source, false, z) == Ok(pieces[i]) {
      assert Fits(pieces[i], source, false) && ReadPiece(pieces[i], false, z) == Ok(f.operations[i]);
      PieceWrites(pieces[i], source, z);
    }
    BuildsPieces(f.operations, pieces, source, false, z);
    BaseId(b);
    PrefixWrites(b, false);
    assert |Descriptors(pieces)| == |pieces| * OPERATION_SIZE;
    assert |pieces| == WordAt(b, 40);
    assert b == b[..PREFIX_SIZE] + b[PREFIX_SIZE..start] + b[start..];
  }
}
