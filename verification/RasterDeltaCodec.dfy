/** The builder fills a descriptor buffer in place; the parser walks a cursor and then decodes. */
module RasterDeltaCodec {
  import opened Wrappers
  import opened Words
  import opened RasterDelta

  /** `bytes` written over `s` from `at` on. */
  function Spliced(s: seq<byte>, at: nat, bytes: seq<byte>): (r: seq<byte>)
    requires at + |bytes| <= |s|
    ensures |r| == |s|
  {
    s[..at] + bytes + s[at + |bytes|..]
  }

  /** Adjacent writes are one write. */
  lemma {:induction false} SpliceNext(s: seq<byte>, at: nat, x: seq<byte>, y: seq<byte>)
    requires at + |x| + |y| <= |s|
    ensures Spliced(Spliced(s, at, x), at + |x|, y) == Spliced(s, at, x + y)
  {
    var m := Spliced(s, at, x);
    assert m[..at + |x|] == s[..at] + x;
    assert m[at + |x| + |y|..] == s[at + |x| + |y|..];
  }

  method Put(a: array<byte>, at: nat, bytes: seq<byte>)
    requires at + |bytes| <= a.Length
    modifies a
    ensures a[..] == Spliced(old(a[..]), at, bytes)
  {
    for i := 0 to |bytes|
      invariant forall k :: 0 <= k < a.Length ==> a[k] == if at <= k < at + i then bytes[k - at] else old(a[k])
    {
      a[at + i] := bytes[i];
    }
  }

  /** Extends a write that ended at `at + |x|`. */
  method PutNext(a: array<byte>, ghost was: seq<byte>, at: nat, ghost x: seq<byte>, from: nat, y: seq<byte>)
    requires from == at + |x| && from + |y| <= a.Length == |was| && a[..] == Spliced(was, at, x)
    modifies a
    ensures a[..] == Spliced(was, at, x + y)
  {
    SpliceNext(was, at, x, y);
    Put(a, from, y);
  }

  method PutDescriptor(a: array<byte>, at: nat, d: Descriptor)
    requires at + OPERATION_SIZE <= a.Length
    modifies a
    ensures a[..] == Spliced(old(a[..]), at, DescriptorBytes(d))
  {
    hide Word; hide Spliced;
    ghost var was := a[..];
    Put(a, at, Word(d.kind));
    ghost var x := Word(d.kind);
    PutNext(a, was, at, x, at + 4, Word(d.x));
    x := x + Word(d.x);
    PutNext(a, was, at, x, at + 8, Word(d.y));
    x := x + Word(d.y);
    PutNext(a, was, at, x, at + 12, Word(d.width));
    x := x + Word(d.width);
    PutNext(a, was, at, x, at + 16, Word(d.height));
    x := x + Word(d.height);
    PutNext(a, was, at, x, at + 20, Word(d.sourceX));
    x := x + Word(d.sourceX);
    PutNext(a, was, at, x, at + 24, Word(d.sourceY));
    x := x + Word(d.sourceY);
    PutNext(a, was, at, x, at + 28, Word(d.length));
  }

  method PutPrefix(a: array<byte>, h: Header, compressed: bool, count: u32)
    requires a.Length == PREFIX_SIZE
    modifies a
    ensures a[..] == PrefixBytes(h, compressed, count)
  {
    hide Word; hide Long; hide Spliced;
    ghost var was := a[..];
    var flags := if compressed then FLAG_DELTA + FLAG_ZSTD else FLAG_DELTA;
    Put(a, 0, Word(h.epoch));
    ghost var x := Word(h.epoch);
    PutNext(a, was, 0, x, 4, Word(flags));
    x := x + Word(flags);
    PutNext(a, was, 0, x, 8, Long(h.frameId));
    x := x + Long(h.frameId);
    PutNext(a, was, 0, x, 16, Long(h.baseFrameId));
    x := x + Long(h.baseFrameId);
    PutNext(a, was, 0, x, 24, Long(Unsigned(h.ptsUs)));
    x := x + Long(Unsigned(h.ptsUs));
    PutNext(a, was, 0, x, 32, Long(h.durationUs));
    x := x + Long(h.durationUs);
    PutNext(a, was, 0, x, 40, Word(count));
    x := x + Word(count);
    PutNext(a, was, 0, x, 44, Word(0));
    SpliceAll(was, x + Word(0));
  }

  lemma {:induction false} SpliceAll(s: seq<byte>, bytes: seq<byte>)
    requires |s| == |bytes|
    ensures Spliced(s, 0, bytes) == bytes
  {
  }

  function Prepend<T>(done: seq<T>, r: Result<seq<T>, ErrorKind>): Result<seq<T>, ErrorKind> {
    match r
    case Err(e) => Err(e)
    case Ok(others) => Ok(done + others)
  }

  lemma {:induction false} PrependMore<T>(done: seq<T>, next: T, r: Result<seq<T>, ErrorKind>)
    ensures Prepend(done, Prepend([next], r)) == Prepend(done + [next], r)
  {
    if r.Ok? {
      assert done + ([next] + r.value) == done + [next] + r.value;
    }
  }

  lemma {:induction false} BuildNext(ops: seq<Operation>, i: nat, source: Source, compress: bool, z: Zstd)
    requires i < |ops|
    ensures BuildPieces(ops[i..], source, compress, z)
         == match BuildPiece(ops[i], source, compress, z)
            case Err(e) => Err(e)
            case Ok(p) => Prepend([p], BuildPieces(ops[i + 1..], source, compress, z))
  {
    hide BuildPiece;
    assert ops[i..][1..] == ops[i + 1..];
  }

  lemma {:induction false} DescriptorsGrow(pieces: seq<Piece>, next: Piece)
    ensures Descriptors(pieces + [next]) == Descriptors(pieces) + DescriptorBytes(next.descriptor)
    ensures Payloads(pieces + [next]) == Payloads(pieces) + next.payload
  {
    hide DescriptorBytes;
    if pieces == [] {
      assert [next][1..] == [];
    } else {
      DescriptorsGrow(pieces[1..], next);
      assert (pieces + [next])[1..] == pieces[1..] + [next];
    }
  }

  method BuildDelta(h: Header, source: Source, ops: seq<Operation>, compress: bool, z: Zstd)
    returns (r: Result<seq<byte>, ErrorKind>)
    ensures r == Build(h, source, ops, compress, z)
  {
    hide BuildPiece; hide DescriptorBytes; hide PrefixBytes; hide Descriptors; hide Payloads; hide BuildPieces;
    if !GoodLimit(source.limit) || h.frameId == 0 || h.baseFrameId == 0 || source.width == 0 || source.height == 0
       || |ops| == 0 || |ops| > source.limit {
      return Err(InvalidInput);
    }
    var descriptors := new byte[|ops| * OPERATION_SIZE](_ => 0);
    var payloads: seq<seq<byte>> := [];
    ghost var pieces: seq<Piece> := [];
    Nothing(ops, source, compress, z);
    var i := 0;
    while i < |ops|
      invariant 0 <= i <= |ops| && |pieces| == i && |payloads| == i
      invariant descriptors[..i * OPERATION_SIZE] == Descriptors(pieces)
      invariant forall k :: 0 <= k < i ==> payloads[k] == pieces[k].payload
      invariant BuildPieces(ops, source, compress, z) == Prepend(pieces, BuildPieces(ops[i..], source, compress, z))
    {
      BuildNext(ops, i, source, compress, z);
      var piece := BuildPiece(ops[i], source, compress, z);
      if piece.Err? {
        return Err(piece.error);
      }
      ghost var before := descriptors[..];
      PutDescriptor(descriptors, i * OPERATION_SIZE, piece.value.descriptor);
      assert descriptors[..(i + 1) * OPERATION_SIZE]
          == before[..i * OPERATION_SIZE] + DescriptorBytes(piece.value.descriptor);
      payloads := payloads + [piece.value.payload];
      DescriptorsGrow(pieces, piece.value);
      PrependMore(pieces, piece.value, BuildPieces(ops[i + 1..], source, compress, z));
      pieces := pieces + [piece.value];
      i := i + 1;
    }
    Everything(ops, pieces, source, compress, z);
    var prefix := new byte[PREFIX_SIZE](_ => 0);
    PutPrefix(prefix, h, compress, |ops|);
    var body := prefix[..] + descriptors[..];
    body := AppendAll(body, payloads, pieces);
    assert descriptors[..] == descriptors[..i * OPERATION_SIZE];
    if |body| > HARD_MAX_RECORD_BODY {
      return Err(InvalidInput);
    }
    return Ok(body);
  }

  method AppendAll(start: seq<byte>, payloads: seq<seq<byte>>, ghost pieces: seq<Piece>) returns (body: seq<byte>)
    requires |payloads| == |pieces| && forall k :: 0 <= k < |pieces| ==> payloads[k] == pieces[k].payload
    ensures body == start + Payloads(pieces)
  {
    hide Descriptors; hide DescriptorBytes;
    body := start;
    assert pieces[..0] == [];
    for i := 0 to |payloads|
      invariant body == start + Payloads(pieces[..i])
    {
      DescriptorsGrow(pieces[..i], pieces[i]);
      assert pieces[..i + 1] == pieces[..i] + [pieces[i]];
      body := body + payloads[i];
    }
    assert pieces[..|payloads|] == pieces;
  }

  lemma {:induction false} Nothing(ops: seq<Operation>, source: Source, compress: bool, z: Zstd)
    ensures Descriptors([]) == []
    ensures BuildPieces(ops, source, compress, z) == Prepend([], BuildPieces(ops[0..], source, compress, z))
  {
    hide BuildPiece;
    assert ops[0..] == ops;
    match BuildPieces(ops, source, compress, z)
    case Ok(pieces) => assert [] + pieces == pieces;
    case Err(_) =>
  }

  lemma {:induction false} Everything(ops: seq<Operation>, pieces: seq<Piece>, source: Source, compress: bool, z: Zstd)
    requires BuildPieces(ops, source, compress, z) == Prepend(pieces, BuildPieces(ops[|ops|..], source, compress, z))
    ensures BuildPieces(ops, source, compress, z) == Ok(pieces)
  {
    assert ops[|ops|..] == [];
    assert pieces + [] == pieces;
  }

  // ---- Parsing -----------------------------------------------------------------------------

  lemma {:induction false} CutNext(b: seq<byte>, i: nat, count: nat, offset: nat, source: Source, compressed: bool)
    requires i < count && PREFIX_SIZE + count * OPERATION_SIZE <= offset <= |b|
    ensures var start := PREFIX_SIZE + count * OPERATION_SIZE;
            var at := PREFIX_SIZE + i * OPERATION_SIZE;
            var d := DescriptorAt(b, at);
            Cut(count - i, b[at..start], b[offset..], source, compressed)
            == if !Acceptable(d, source, compressed) || offset + d.length > |b| then Err(InvalidData)
               else Prepend([Piece(d, b[offset..offset + d.length])],
                            Cut(count - i - 1, b[at + OPERATION_SIZE..start], b[offset + d.length..], source, compressed))
  {
    hide Acceptable; hide WordAt;
    var start := PREFIX_SIZE + count * OPERATION_SIZE;
    var at := PREFIX_SIZE + i * OPERATION_SIZE;
    SliceDescriptor(b, at, start);
    var d := DescriptorAt(b, at);
    assert b[at..start][OPERATION_SIZE..] == b[at + OPERATION_SIZE..start];
    if offset + d.length <= |b| {
      assert b[offset..][d.length..] == b[offset + d.length..];
      assert b[offset..][..d.length] == b[offset..offset + d.length];
    }
  }

  lemma {:induction false} SliceDescriptor(b: seq<byte>, at: nat, end: nat)
    requires at + OPERATION_SIZE <= end <= |b|
    ensures DescriptorAt(b[at..end], 0) == DescriptorAt(b, at)
  {
    hide WordAt;
    SliceWord(b, at, end, 0); SliceWord(b, at, end, 4); SliceWord(b, at, end, 8); SliceWord(b, at, end, 12);
    SliceWord(b, at, end, 16); SliceWord(b, at, end, 20); SliceWord(b, at, end, 24); SliceWord(b, at, end, 28);
  }

  lemma {:induction false} SliceWord(b: seq<byte>, at: nat, end: nat, k: nat)
    requires at + k + 4 <= end <= |b|
    ensures WordAt(b[at..end], k) == WordAt(b, at + k)
  {
    var x, y := b[at..end][k..k + 4], b[at + k..at + k + 4];
    forall j | 0 <= j < 4 ensures x[j] == y[j] {
      assert x[j] == b[at..end][k + j] == b[at + k + j];
    }
    assert x == y;
  }

  /** First pass: check every descriptor and record where its payload lies. */
  method CutBody(b: seq<byte>, count: nat, source: Source, compressed: bool) returns (r: Result<seq<Piece>, ErrorKind>)
    requires PREFIX_SIZE + count * OPERATION_SIZE <= |b|
    ensures var start := PREFIX_SIZE + count * OPERATION_SIZE;
            r == Cut(count, b[PREFIX_SIZE..start], b[start..], source, compressed)
  {
    hide Acceptable; hide Cut; hide DescriptorAt;
    var start := PREFIX_SIZE + count * OPERATION_SIZE;
    ghost var goal := Cut(count, b[PREFIX_SIZE..start], b[start..], source, compressed);
    var pieces: seq<Piece> := [];
    var offset := start;
    PrependNone(goal);
    for i := 0 to count
      invariant start <= offset <= |b|
      invariant goal == Prepend(pieces, Cut(count - i, b[PREFIX_SIZE + i * OPERATION_SIZE..start], b[offset..], source, compressed))
    {
      var at := PREFIX_SIZE + i * OPERATION_SIZE;
      var d := DescriptorAt(b, at);
      CutNext(b, i, count, offset, source, compressed);
      if !Acceptable(d, source, compressed) || offset + d.length > |b| {
        return Err(InvalidData);
      }
      var piece := Piece(d, b[offset..offset + d.length]);
      PrependMore(pieces, piece,
                  Cut(count - i - 1, b[at + OPERATION_SIZE..start], b[offset + d.length..], source, compressed));
      pieces := pieces + [piece];
      offset := offset + d.length;
    }
    CutEnd(b[offset..], source, compressed);
    assert b[start..start] == [];
    if offset != |b| {
      return Err(InvalidData);
    }
    assert pieces + [] == pieces;
    return Ok(pieces);
  }

  lemma {:induction false} PrependNone(r: Result<seq<Piece>, ErrorKind>)
    ensures Prepend([], r) == r
  {
    if r.Ok? {
      assert [] + r.value == r.value;
    }
  }

  lemma {:induction false} CutEnd(tail: seq<byte>, source: Source, compressed: bool)
    ensures Cut(0, [], tail, source, compressed) == if tail == [] then Ok([]) else Err(InvalidData)
  {
  }

  lemma {:induction false} ReadNext(pieces: seq<Piece>, i: nat, compressed: bool, z: Zstd)
    requires Sized(pieces) && i < |pieces|
    ensures Sized(pieces[i..]) && Sized(pieces[i + 1..])
    ensures ReadPieces(pieces[i..], compressed, z)
         == match ReadPiece(pieces[i], compressed, z)
            case Err(e) => Err(e)
            case Ok(op) => Prepend([op], ReadPieces(pieces[i + 1..], compressed, z))
  {
    hide ReadPiece;
    assert pieces[i..][1..] == pieces[i + 1..];
  }

  /** Second pass: turn each recorded piece into an operation, inflating where needed. */
  method ReadBody(pieces: seq<Piece>, compressed: bool, z: Zstd) returns (r: Result<seq<Operation>, ErrorKind>)
    requires Sized(pieces)
    ensures r == ReadPieces(pieces, compressed, z)
  {
    hide ReadPiece; hide ReadPieces; hide PixelBytes;
    var ops: seq<Operation> := [];
    assert pieces[0..] == pieces;
    if ReadPieces(pieces, compressed, z).Ok? {
      assert [] + ReadPieces(pieces, compressed, z).value == ReadPieces(pieces, compressed, z).value;
    }
    for i := 0 to |pieces|
      invariant Sized(pieces[i..])
      invariant ReadPieces(pieces, compressed, z) == Prepend(ops, ReadPieces(pieces[i..], compressed, z))
    {
      ReadNext(pieces, i, compressed, z);
      var op := ReadPiece(pieces[i], compressed, z);
      if op.Err? {
        return Err(op.error);
      }
      PrependMore(ops, op.value, ReadPieces(pieces[i + 1..], compressed, z));
      ops := ops + [op.value];
    }
    ReadEnd(pieces[|pieces|..], compressed, z);
    assert ops + [] == ops;
    return Ok(ops);
  }

  lemma {:induction false} ReadEnd(pieces: seq<Piece>, compressed: bool, z: Zstd)
    requires pieces == []
    ensures Sized(pieces) && ReadPieces(pieces, compressed, z) == Ok([])
  {
  }

  method ParseDelta(b: seq<byte>, source: Source, z: Zstd) returns (r: Result<Frame, ErrorKind>)
    ensures r == Parse(b, source, z)
  {
    hide Cut; hide ReadPieces; hide HeaderAt; hide WordAt; hide LongAt; hide PixelBytes; hide Sized;
    if !GoodLimit(source.limit) || source.width == 0 || source.height == 0 || |b| < PREFIX_SIZE
       || !GoodPrefix(b, source) {
      return Err(InvalidData);
    }
    var count := WordAt(b, 40);
    var compressed := WordAt(b, 4) != FLAG_DELTA;
    var pieces := CutBody(b, count, source, compressed);
    if pieces.Err? {
      return Err(pieces.error);
    }
    var start := PREFIX_SIZE + count * OPERATION_SIZE;
    CutSized(count, b[PREFIX_SIZE..start], b[start..], source, compressed);
    var ops := ReadBody(pieces.value, compressed, z);
    if ops.Err? {
      return Err(ops.error);
    }
    return Ok(Frame(HeaderAt(b), compressed, ops.value));
  }
}
