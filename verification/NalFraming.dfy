/**
 H.264 framing: NAL units behind start codes (Annex B of ITU-T H.264), behind four-byte lengths, and
 inside an avcC record, with the conversions between them.
 */
module NalFraming {
  import opened Wrappers
  import opened Words

  const MAX_H264_EXTRADATA: nat := 4096
  const SPS: nat := 7
  const PPS: nat := 8

  type Nal = seq<byte>

  /** The source's one error kind here; its message text is not modelled. */
  datatype Invalid = Invalid

  // ---- Start codes -------------------------------------------------------------------------

  predicate LongCodeAt(d: seq<byte>, i: nat) {
    i + 4 <= |d| && d[i] == 0 && d[i + 1] == 0 && d[i + 2] == 0 && d[i + 3] == 1
  }

  predicate ShortCodeAt(d: seq<byte>, i: nat) {
    i + 3 <= |d| && d[i] == 0 && d[i + 1] == 0 && d[i + 2] == 1
  }

  predicate CodeAt(d: seq<byte>, i: nat) {
    LongCodeAt(d, i) || ShortCodeAt(d, i)
  }

  /** The first start code and its length, taking the four-byte form where both would do. */
  function FindFrom(d: seq<byte>, i: nat): (found: Option<(nat, nat)>)
    requires i <= |d|
    ensures found.Some? ==> i <= found.value.0 && 3 <= found.value.1 && found.value.0 + found.value.1 <= |d|
    decreases |d| - i
  {
    if i == |d| then None
    else if LongCodeAt(d, i) then Some((i, 4))
    else if ShortCodeAt(d, i) then Some((i, 3))
    else FindFrom(d, i + 1)
  }

  /** No start code lies in `[from, to)`. */
  ghost predicate NoCode(d: seq<byte>, from: nat, to: nat) {
    forall j :: from <= j < to ==> !CodeAt(d, j)
  }

  lemma {:induction false} FindsFirst(d: seq<byte>, i: nat)
    requires i <= |d|
    ensures var found := FindFrom(d, i);
            if found.None? then NoCode(d, i, |d|)
            else NoCode(d, i, found.value.0) && CodeAt(d, found.value.0) &&
                 found.value.1 == if LongCodeAt(d, found.value.0) then 4 else 3
    decreases |d| - i
  {
    hide LongCodeAt; hide ShortCodeAt;
    if i < |d| && !CodeAt(d, i) {
      FindsFirst(d, i + 1);
    }
  }

  /** Only one place can be the first start code. */
  lemma {:induction false} FoundAt(d: seq<byte>, i: nat)
    requires i <= |d| && NoCode(d, 0, i) && (i < |d| ==> CodeAt(d, i))
    ensures EndOfNal(d) == i
    ensures i < |d| ==> FindStartCode(d) == Some((i, if LongCodeAt(d, i) then 4 else 3))
    ensures i == |d| ==> FindStartCode(d).None?
  {
    hide LongCodeAt; hide ShortCodeAt;
    FindsFirst(d, 0);
  }

  function FindStartCode(d: seq<byte>): Option<(nat, nat)> {
    FindFrom(d, 0)
  }

  function Stripped(s: seq<byte>): (r: seq<byte>)
    ensures |r| <= |s| && r == s[..|r|]
    ensures r != [] ==> r[|r| - 1] != 0
  {
    if s != [] && s[|s| - 1] == 0 then Stripped(s[..|s| - 1]) else s
  }

  function EndOfNal(d: seq<byte>): (end: nat)
    ensures end <= |d|
  {
    if FindStartCode(d).Some? then FindStartCode(d).value.0 else |d|
  }

  /** The NAL units of an Annex B buffer, without their trailing zero padding. */
  function Nals(d: seq<byte>): seq<Nal>
    decreases |d|
  {
    var code := FindStartCode(d);
    if code.None? then []
    else
      var rest := d[code.value.0 + code.value.1..];
      var nal := Stripped(rest[..EndOfNal(rest)]);
      (if nal == [] then [] else [nal]) + Nals(rest[EndOfNal(rest)..])
  }

  function AnnexB(nals: seq<Nal>): seq<byte> {
    if nals == [] then [] else [0, 0, 0, 1] + nals[0] + AnnexB(nals[1..])
  }

  // ---- Splitting undoes joining exactly on clean units -------------------------------------

  /** Nothing a splitter could mistake: no start code inside and no zero at the end. */
  ghost predicate Clean(nal: Nal) {
    nal != [] && nal[|nal| - 1] != 0 && forall i :: 0 <= i < |nal| ==> !ShortCodeAt(nal, i)
  }

  ghost predicate AllClean(nals: seq<Nal>) {
    forall i :: 0 <= i < |nals| ==> Clean(nals[i])
  }

  /** Whatever is split, every unit that comes out is clean. */
  lemma {:induction false} NalsClean(d: seq<byte>)
    ensures AllClean(Nals(d))
    decreases |d|
  {
    hide Clean; hide FindStartCode; hide EndOfNal;
    var code := FindStartCode(d);
    if code.Some? {
      CodeInside(d);
      var rest := d[code.value.0 + code.value.1..];
      NalsClean(rest[EndOfNal(rest)..]);
      StrippedClean(rest);
    }
  }

  lemma {:induction false} CodeInside(d: seq<byte>)
    ensures FindStartCode(d).Some? ==>
              FindStartCode(d).value.0 + FindStartCode(d).value.1 <= |d| && FindStartCode(d).value.1 > 0
  {
  }

  lemma {:induction false} StrippedClean(rest: seq<byte>)
    ensures var nal := Stripped(rest[..EndOfNal(rest)]); nal == [] || Clean(nal)
  {
    hide LongCodeAt; hide Stripped;
    FindsFirst(rest, 0);
    var nal := Stripped(rest[..EndOfNal(rest)]);
    forall i | 0 <= i < |nal| ensures !ShortCodeAt(nal, i) {
      assert !CodeAt(rest, i);
    }
  }

  /** Behind a clean unit the next start code is found where it is, never earlier. */
  lemma {:induction false} FirstCode(nal: Nal, tail: seq<byte>)
    requires Clean(nal) && (tail == [] || LongCodeAt(tail, 0))
    ensures nal != [] && EndOfNal(nal + tail) == |nal| && Stripped(nal) == nal
  {
    hide FindStartCode;
    var d := nal + tail;
    forall i | 0 <= i < |nal| ensures !CodeAt(d, i) {
      CleanHides(nal, tail, i);
    }
    if tail != [] {
      assert LongCodeAt(d, |nal|);
    }
    FoundAt(d, |nal|);
  }

  lemma {:induction false} CleanHides(nal: Nal, tail: seq<byte>, i: nat)
    requires Clean(nal) && i < |nal|
    ensures !CodeAt(nal + tail, i)
  {
    var d := nal + tail;
    assert d[|nal| - 1] == nal[|nal| - 1] != 0;
    assert !ShortCodeAt(nal, i) && (i + 1 < |nal| ==> !ShortCodeAt(nal, i + 1));
  }

  lemma {:induction false} SplitJoined(nals: seq<Nal>)
    requires AllClean(nals)
    ensures Nals(AnnexB(nals)) == nals
  {
    hide Clean; hide FindStartCode; hide EndOfNal; hide LongCodeAt; hide Stripped; hide Nals;
    var d := AnnexB(nals);
    if nals == [] {
      NalsOfNothing();
    } else {
      var nal, tail := nals[0], AnnexB(nals[1..]);
      SplitJoined(nals[1..]);
      if nals[1..] != [] {
        CodeAtFront(nals[1..]);
      }
      FirstCode(nal, tail);
      assert Clean(nal);
      NalsStep(nal, tail);
    }
  }

  lemma {:induction false} NalsOfNothing()
    ensures Nals([]) == []
  {
    FoundAt([], 0);
  }

  lemma {:induction false} NalsStep(nal: Nal, tail: seq<byte>)
    requires nal != [] && EndOfNal(nal + tail) == |nal| && Stripped(nal) == nal
    ensures Nals([0, 0, 0, 1] + nal + tail) == [nal] + Nals(tail)
  {
    hide Stripped; hide FindStartCode; hide EndOfNal;
    var d := [0, 0, 0, 1] + nal + tail;
    assert LongCodeAt(d, 0);
    FoundAt(d, 0);
    assert d[4..] == nal + tail;
    assert (nal + tail)[|nal|..] == tail;
    assert (nal + tail)[..|nal|] == nal;
  }

  lemma {:induction false} CodeAtFront(nals: seq<Nal>)
    requires nals != []
    ensures LongCodeAt(AnnexB(nals), 0)
  {
  }

  /** The units come back exactly when all of them are clean. */
  lemma {:induction false} SplitJoinedExactly(nals: seq<Nal>)
    ensures Nals(AnnexB(nals)) == nals <==> AllClean(nals)
  {
    hide Clean;
    NalsClean(AnnexB(nals));
    if AllClean(nals) {
      SplitJoined(nals);
    }
  }

  // ---- Length prefixes ---------------------------------------------------------------------

  /** Units a four-byte length can announce. */
  predicate Announceable(nals: seq<Nal>) {
    forall i :: 0 <= i < |nals| ==> 0 < |nals[i]| <= U32_MAX
  }

  function LengthPrefixed(nals: seq<Nal>): seq<byte> {
    if nals == [] then [] else BigEndian(|nals[0]|, 4) + nals[0] + LengthPrefixed(nals[1..])
  }

  /** The units of a length-prefixed buffer, which must be consumed exactly. */
  function Chop(unit: seq<byte>): (nals: Result<seq<Nal>, Invalid>)
    decreases |unit|
  {
    if unit == [] then Ok([])
    else if |unit| < 4 then Err(Invalid)
    else
      var length := FromBigEndian(unit[..4]);
      if length == 0 || 4 + length > |unit| then Err(Invalid)
      else
        var others :- Chop(unit[4 + length..]);
        Ok([unit[4..4 + length]] + others)
  }

  function FromLengthPrefixed(unit: seq<byte>): Result<seq<byte>, Invalid> {
    var nals :- Chop(unit);
    if nals == [] then Err(Invalid) else Ok(AnnexB(nals))
  }

  lemma {:induction false} ChopJoined(nals: seq<Nal>)
    requires Announceable(nals)
    ensures Chop(LengthPrefixed(nals)) == Ok(nals)
  {
    if nals != [] {
      ChopJoined(nals[1..]);
      ChopFirst(nals[0], LengthPrefixed(nals[1..]));
      assert nals == [nals[0]] + nals[1..];
    }
  }

  lemma {:induction false} ChopFirst(nal: Nal, rest: seq<byte>)
    requires 0 < |nal| <= U32_MAX && Chop(rest).Ok?
    ensures Chop(BigEndian(|nal|, 4) + nal + rest) == Ok([nal] + Chop(rest).value)
  {
    hide BigEndian; hide FromBigEndian; hide Chop;
    Pow256Values();
    var prefix := BigEndian(|nal|, 4);
    var unit := prefix + nal + rest;
    assert unit[..4] == prefix;
    assert unit[4..4 + |nal|] == nal;
    assert unit[4 + |nal|..] == rest;
    ChopStep(unit, |nal|);
  }

  lemma {:induction false} ChopStep(unit: seq<byte>, length: nat)
    requires 4 + length <= |unit| && length > 0 && FromBigEndian(unit[..4]) == length && Chop(unit[4 + length..]).Ok?
    ensures Chop(unit) == Ok([unit[4..4 + length]] + Chop(unit[4 + length..]).value)
  {
    hide FromBigEndian;
  }

  lemma {:induction false} JoinChopped(unit: seq<byte>)
    requires Chop(unit).Ok?
    ensures Announceable(Chop(unit).value) && LengthPrefixed(Chop(unit).value) == unit
    decreases |unit|
  {
    hide Chop; hide LengthPrefixed; hide FromBigEndian; hide Announceable;
    ChopOpens(unit);
    if unit == [] {
      JoinNothing();
    } else {
      var length := FromBigEndian(unit[..4]);
      JoinChopped(unit[4 + length..]);
      JoinStep(unit, length, Chop(unit[4 + length..]).value);
    }
  }

  lemma {:induction false} ChopOpens(unit: seq<byte>)
    requires Chop(unit).Ok?
    ensures unit == [] ==> Chop(unit).value == []
    ensures (unit != [] ==>
               |unit| >= 4 &&
               var length := FromBigEndian(unit[..4]);
               0 < length && 4 + length <= |unit| && Chop(unit[4 + length..]).Ok? &&
               Chop(unit).value == [unit[4..4 + length]] + Chop(unit[4 + length..]).value)
  {
    hide FromBigEndian;
  }

  lemma {:induction false} JoinNothing()
    ensures Announceable([]) && LengthPrefixed([]) == []
  {
  }

  lemma {:induction false} JoinStep(unit: seq<byte>, length: nat, others: seq<Nal>)
    requires 0 < length && 4 + length <= |unit| && length == FromBigEndian(unit[..4])
    requires Announceable(others) && LengthPrefixed(others) == unit[4 + length..]
    ensures Announceable([unit[4..4 + length]] + others) && LengthPrefixed([unit[4..4 + length]] + others) == unit
  {
    hide BigEndian; hide FromBigEndian;
    Pow256Values();
    BigEndianOfReading(unit[..4]);
    var nal := unit[4..4 + length];
    assert ([nal] + others)[1..] == others;
    assert unit == unit[..4] + nal + unit[4 + length..];
  }

  /** Accepts exactly the nonempty joins of nonempty units, and writes those units behind start codes. */
  lemma {:induction false} LengthPrefixedExactly(unit: seq<byte>, out: seq<byte>)
    ensures FromLengthPrefixed(unit) == Ok(out)
       <==> exists nals :: nals != [] && Announceable(nals) && unit == LengthPrefixed(nals) && out == AnnexB(nals)
  {
    if FromLengthPrefixed(unit) == Ok(out) {
      JoinChopped(unit);
      var nals := Chop(unit).value;
      assert nals != [] && Announceable(nals) && unit == LengthPrefixed(nals) && out == AnnexB(nals);
    }
    forall nals | nals != [] && Announceable(nals) && unit == LengthPrefixed(nals) && out == AnnexB(nals)
      ensures FromLengthPrefixed(unit) == Ok(out) {
      ChopJoined(nals);
    }
  }

  /**
   Split up again, a converted length-prefixed buffer gives the units it announced exactly when each of
   them is clean. The conversion itself takes any nonempty units.
   */
  lemma {:induction false} ConvertedSplits(nals: seq<Nal>)
    requires nals != [] && Announceable(nals)
    ensures var r := FromLengthPrefixed(LengthPrefixed(nals));
            r.Ok? && (Nals(r.value) == nals <==> AllClean(nals))
  {
    hide Nals; hide AllClean; hide LengthPrefixed; hide AnnexB;
    LengthPrefixedExactly(LengthPrefixed(nals), AnnexB(nals));
    SplitJoinedExactly(nals);
  }

  // ---- Normalization -----------------------------------------------------------------------

  function EnsureAnnexB(unit: seq<byte>): Result<seq<byte>, Invalid> {
    if unit == [] then Err(Invalid) else if CodeAt(unit, 0) then Ok(unit) else FromLengthPrefixed(unit)
  }

  predicate ReadsAsStartCode(length: nat) {
    length == 1 || 256 <= length <= 511
  }

  lemma {:induction false} LastByte(n: nat, width: nat)
    ensures BigEndian(n, width + 1) == BigEndian(n / 256, width) + [n % 256]
  {
  }

  function Digits(a: int, b: int, c: int, d: int): int {
    16777216 * a + 65536 * b + 256 * c + d
  }

  /** The four length bytes are the digits of the length. */
  lemma {:induction false} LengthBytes(n: nat)
    requires n <= U32_MAX
    ensures var b := BigEndian(n, 4);
            n == Digits(b[0], b[1], b[2], b[3])
  {
    hide BigEndian;
    var high := n / 256;
    var higher := high / 256;
    var highest := higher / 256;
    LastByte(n, 3);
    LastByte(high, 2);
    LastByte(higher, 1);
    LastByte(highest, 0);
  }

  lemma {:induction false} DigitsOfCode(n: nat, a: byte, b: byte, c: byte, d: byte)
    requires n == Digits(a, b, c, d)
    ensures a == 0 && b == 0 && (c == 1 || (c == 0 && d == 1)) <==> ReadsAsStartCode(n)
    ensures a == 0 && b == 0 && c == 0 && d == 1 <==> n == 1
  {
  }

  lemma {:induction false} CodeInFront(b: seq<byte>, rest: seq<byte>)
    requires |b| == 4
    ensures CodeAt(b + rest, 0) <==> b[0] == 0 && b[1] == 0 && (b[2] == 1 || (b[2] == 0 && b[3] == 1))
    ensures b == [0, 0, 0, 1] <==> b[0] == 0 && b[1] == 0 && b[2] == 0 && b[3] == 1
  {
  }

  lemma {:induction false} LengthLooksLikeCode(nals: seq<Nal>)
    requires nals != [] && Announceable(nals)
    ensures CodeAt(LengthPrefixed(nals), 0) <==> ReadsAsStartCode(|nals[0]|)
    ensures BigEndian(|nals[0]|, 4) == [0, 0, 0, 1] <==> |nals[0]| == 1
  {
    hide BigEndian; hide FromBigEndian; hide Pow256; hide ReadsAsStartCode; hide CodeAt; hide Digits;
    var n := |nals[0]|;
    var b := BigEndian(n, 4);
    LengthBytes(n);
    DigitsOfCode(n, b[0], b[1], b[2], b[3]);
    CodeInFront(b, nals[0] + LengthPrefixed(nals[1..]));
    assert LengthPrefixed(nals) == b + (nals[0] + LengthPrefixed(nals[1..]));
  }

  /** The two framings of the same units coincide exactly when every unit is one byte. */
  lemma {:induction false} FramingsCoincide(nals: seq<Nal>)
    requires Announceable(nals)
    ensures LengthPrefixed(nals) == AnnexB(nals) <==> forall i :: 0 <= i < |nals| ==> |nals[i]| == 1
  {
    hide BigEndian;
    if nals != [] {
      var n, others := |nals[0]|, nals[1..];
      FramingsCoincide(others);
      LengthLooksLikeCode(nals);
      FramesSplit(BigEndian(n, 4), [0, 0, 0, 1], nals[0], LengthPrefixed(others), AnnexB(others));
      assert nals == [nals[0]] + others;
      assert (forall i :: 0 <= i < |nals| ==> |nals[i]| == 1) <==> n == 1 && forall i :: 0 <= i < |others| ==> |others[i]| == 1;
    }
  }

  lemma {:induction false} FramesSplit(p: seq<byte>, q: seq<byte>, nal: Nal, x: seq<byte>, y: seq<byte>)
    requires |p| == |q|
    ensures p + nal + x == q + nal + y <==> p == q && x == y
  {
    var a, b := p + nal + x, q + nal + y;
    assert a[..|p|] == p && b[..|q|] == q;
    assert a[|p| + |nal|..] == x && b[|q| + |nal|..] == y;
  }

  /**
   Normalizing length-prefixed units gives their Annex B form unless the first length happens to
   read as a start code, and then only if every unit is a single byte.
   */
  lemma {:induction false} NormalizesExactly(nals: seq<Nal>)
    requires nals != [] && Announceable(nals)
    ensures EnsureAnnexB(LengthPrefixed(nals)) == Ok(AnnexB(nals))
       <==> !ReadsAsStartCode(|nals[0]|) || forall i :: 0 <= i < |nals| ==> |nals[i]| == 1
  {
    hide CodeAt;
    ChopJoined(nals);
    LengthLooksLikeCode(nals);
    FramingsCoincide(nals);
  }

  /** A 256-byte unit: its length reads as a start code, so it passes through unconverted. */
  lemma {:induction false} NormalizesWrongly(nal: Nal)
    requires |nal| == 256
    ensures EnsureAnnexB(LengthPrefixed([nal])) == Ok(LengthPrefixed([nal])) != Ok(AnnexB([nal]))
  {
    hide CodeAt;
    LengthLooksLikeCode([nal]);
    NormalizesExactly([nal]);
  }

  // ---- avcC records ------------------------------------------------------------------------

  function FirstOfKind(nals: seq<Nal>, kind: nat): (nal: Option<Nal>)
    ensures nal.Some? ==> nal.value in nals && nal.value != [] && nal.value[0] % 32 == kind
  {
    if nals == [] then None
    else if nals[0] != [] && nals[0][0] % 32 == kind then Some(nals[0])
    else FirstOfKind(nals[1..], kind)
  }

  function Record(sps: Nal, pps: Nal): seq<byte>
    requires 4 <= |sps| <= U16_MAX && |pps| <= U16_MAX
  {
    [1, sps[1], sps[2], sps[3], 0xff, 0xe1] + BigEndian(|sps|, 2) + sps + [1] + BigEndian(|pps|, 2) + pps
  }

  function RecordOf(nals: seq<Nal>): Result<seq<byte>, Invalid> {
    var sps := FirstOfKind(nals, SPS);
    var pps := FirstOfKind(nals, PPS);
    if sps.None? || |sps.value| < 4 || pps.None? || |sps.value| > U16_MAX || |pps.value| > U16_MAX
       || 11 + |sps.value| + |pps.value| > MAX_H264_EXTRADATA then Err(Invalid)
    else Ok(Record(sps.value, pps.value))
  }

  function AvccFromAnnexB(extradata: seq<byte>): Result<seq<byte>, Invalid> {
    RecordOf(Nals(extradata))
  }

  /** One nonempty unit behind a two-byte length, and where the next one starts. */
  function TakeNal(avcc: seq<byte>, at: nat): (r: Result<(Nal, nat), Invalid>)
    requires at <= |avcc|
    ensures r.Ok? ==> at < r.value.1 <= |avcc|
  {
    if at + 2 > |avcc| then Err(Invalid)
    else
      var length := FromBigEndian(avcc[at..at + 2]);
      if length == 0 || at + 2 + length > |avcc| then Err(Invalid)
      else Ok((avcc[at + 2..at + 2 + length], at + 2 + length))
  }

  function TakeNals(avcc: seq<byte>, at: nat, count: nat, kind: nat): (r: Result<(seq<Nal>, nat), Invalid>)
    requires at <= |avcc|
    ensures r.Ok? ==> at <= r.value.1 <= |avcc|
    decreases count
  {
    if count == 0 then Ok(([], at))
    else
      var taken :- TakeNal(avcc, at);
      if taken.0[0] % 32 != kind then Err(Invalid)
      else
        var others :- TakeNals(avcc, taken.1, count - 1, kind);
        Ok(([taken.0] + others.0, others.1))
  }

  function AnnexBFromAvcc(avcc: seq<byte>): Result<seq<byte>, Invalid> {
    if |avcc| < 7 || avcc[0] != 1 || avcc[5] % 32 == 0 then Err(Invalid)
    else
      var sps :- TakeNals(avcc, 6, avcc[5] % 32, SPS);
      if sps.1 == |avcc| || avcc[sps.1] == 0 then Err(Invalid)
      else
        var pps :- TakeNals(avcc, sps.1 + 1, avcc[sps.1], PPS);
        Ok(AnnexB(sps.0 + pps.0))
  }

  lemma {:induction false} TakesNal(head: seq<byte>, nal: Nal, rest: seq<byte>)
    requires 0 < |nal| <= U16_MAX
    ensures TakeNal(head + BigEndian(|nal|, 2) + nal + rest, |head|) == Ok((nal, |head| + 2 + |nal|))
  {
    Pow256Values();
    var avcc := head + BigEndian(|nal|, 2) + nal + rest;
    assert avcc[|head|..|head| + 2] == BigEndian(|nal|, 2);
    assert avcc[|head| + 2..|head| + 2 + |nal|] == nal;
  }

  lemma {:induction false} TakesOne(avcc: seq<byte>, at: nat, kind: nat, nal: Nal, end: nat)
    requires at <= |avcc| && TakeNal(avcc, at) == Ok((nal, end)) && nal != [] && nal[0] % 32 == kind
    ensures TakeNals(avcc, at, 1, kind) == Ok(([nal], end))
  {
    hide TakeNal;
    assert TakeNals(avcc, end, 0, kind) == Ok(([], end));
    assert [nal] + [] == [nal];
  }

  /** A record opens into exactly the two parameter sets it was made of. */
  lemma {:induction false} RecordOpens(sps: Nal, pps: Nal)
    requires 4 <= |sps| <= U16_MAX && 0 < |pps| <= U16_MAX && sps[0] % 32 == SPS && pps[0] % 32 == PPS
    ensures AnnexBFromAvcc(Record(sps, pps)) == Ok(AnnexB([sps, pps]))
  {
    hide TakeNal; hide TakeNals; hide AnnexB;
    var avcc := Record(sps, pps);
    var head := [1, sps[1], sps[2], sps[3], 0xff, 0xe1];
    var tail := [1] + BigEndian(|pps|, 2) + pps;
    TakesNal(head, sps, tail);
    assert avcc == head + BigEndian(|sps|, 2) + sps + tail;
    TakesOne(avcc, 6, SPS, sps, 8 + |sps|);
    var front := head + BigEndian(|sps|, 2) + sps + [1];
    TakesNal(front, pps, []);
    assert avcc == front + BigEndian(|pps|, 2) + pps + [];
    assert |front| == 9 + |sps| && front[|front| - 1] == 1;
    assert avcc[8 + |sps|] == 1;
    TakesOne(avcc, 9 + |sps|, PPS, pps, |avcc|);
    assert [sps] + [pps] == [sps, pps];
  }

  lemma {:induction false} PairKinds(sps: Nal, pps: Nal)
    requires sps != [] && pps != [] && sps[0] % 32 == SPS && pps[0] % 32 == PPS
    ensures FirstOfKind([sps, pps], SPS) == Some(sps) && FirstOfKind([sps, pps], PPS) == Some(pps)
  {
    assert [sps, pps][1..] == [pps];
  }

  /** Every record built from Annex B survives the trip back and forth, byte for byte. */
  lemma {:induction false} RecordRoundTrip(extradata: seq<byte>)
    requires AvccFromAnnexB(extradata).Ok?
    ensures var avcc := AvccFromAnnexB(extradata).value;
            AnnexBFromAvcc(avcc).Ok? && AvccFromAnnexB(AnnexBFromAvcc(avcc).value) == Ok(avcc)
  {
    hide Nals; hide Record; hide AnnexBFromAvcc; hide Clean;
    var nals := Nals(extradata);
    var sps, pps := FirstOfKind(nals, SPS).value, FirstOfKind(nals, PPS).value;
    NalsClean(extradata);
    RecordOpens(sps, pps);
    SplitJoined([sps, pps]);
    PairKinds(sps, pps);
  }
}
