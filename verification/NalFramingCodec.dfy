/** The same conversions as the cursor loops that perform them. */
module NalFramingCodec {
  import opened Wrappers
  import opened Words
  import opened NalFraming

  lemma {:induction false} AnnexBGrows(nals: seq<Nal>, next: Nal)
    ensures AnnexB(nals + [next]) == AnnexB(nals) + [0, 0, 0, 1] + next
  {
    if nals == [] {
      assert [next][1..] == [];
    } else {
      AnnexBGrows(nals[1..], next);
      assert (nals + [next])[1..] == nals[1..] + [next];
    }
  }

  function Prepend(done: seq<Nal>, r: Result<seq<Nal>, Invalid>): Result<seq<Nal>, Invalid> {
    match r
    case Err(e) => Err(e)
    case Ok(others) => Ok(done + others)
  }

  lemma {:induction false} PrependMore(done: seq<Nal>, next: Nal, r: Result<seq<Nal>, Invalid>)
    ensures Prepend(done, Prepend([next], r)) == Prepend(done + [next], r)
  {
    if r.Ok? {
      assert done + ([next] + r.value) == done + [next] + r.value;
    }
  }

  lemma {:induction false} PrependEnds(r: Result<seq<Nal>, Invalid>, nals: seq<Nal>)
    ensures Prepend([], r) == r && Prepend(nals, Ok([])) == Ok(nals)
  {
    if r.Ok? {
      assert [] + r.value == r.value;
    }
    assert nals + [] == nals;
  }

  lemma {:induction false} ChopNext(unit: seq<byte>, at: nat)
    requires at < |unit|
    ensures Chop(unit[at..])
         == if at + 4 > |unit| then Err(Invalid)
            else
              var length := FromBigEndian(unit[at..at + 4]);
              if length == 0 || at + 4 + length > |unit| then Err(Invalid)
              else Prepend([unit[at + 4..at + 4 + length]], Chop(unit[at + 4 + length..]))
  {
    hide FromBigEndian;
    var rest := unit[at..];
    if at + 4 <= |unit| {
      assert rest[..4] == unit[at..at + 4];
      var length := FromBigEndian(unit[at..at + 4]);
      if at + 4 + length <= |unit| {
        assert rest[4 + length..] == unit[at + 4 + length..];
        assert rest[4..4 + length] == unit[at + 4..at + 4 + length];
      }
    }
  }

  method ConvertLengthPrefixed(unit: seq<byte>) returns (r: Result<seq<byte>, Invalid>)
    ensures r == FromLengthPrefixed(unit)
  {
    hide Chop; hide FromBigEndian; hide AnnexB;
    var annexb: seq<byte> := [];
    ghost var nals: seq<Nal> := [];
    var cursor := 0;
    assert unit[0..] == unit;
    PrependEnds(Chop(unit), []);
    Empty();
    while cursor < |unit|
      invariant 0 <= cursor <= |unit| && annexb == AnnexB(nals) && |annexb| >= |nals|
      invariant Chop(unit) == Prepend(nals, Chop(unit[cursor..]))
    {
      ChopNext(unit, cursor);
      if cursor + 4 > |unit| {
        return Err(Invalid);
      }
      var length := FromBigEndian(unit[cursor..cursor + 4]);
      if length == 0 {
        return Err(Invalid);
      }
      cursor := cursor + 4;
      if cursor + length > |unit| {
        return Err(Invalid);
      }
      var nal := unit[cursor..cursor + length];
      AnnexBGrows(nals, nal);
      PrependMore(nals, nal, Chop(unit[cursor + length..]));
      annexb := annexb + [0, 0, 0, 1] + nal;
      nals := nals + [nal];
      cursor := cursor + length;
    }
    assert unit[cursor..] == [];
    PrependEnds(Chop([]), nals);
    if annexb == [] {
      return Err(Invalid);
    }
    return Ok(annexb);
  }

  lemma {:induction false} Empty()
    ensures Chop([]) == Ok([]) && AnnexB([]) == [] && Nals([]) == []
  {
    NalsOfNothing();
  }

  method NormalizeUnit(unit: seq<byte>) returns (r: Result<seq<byte>, Invalid>)
    ensures r == EnsureAnnexB(unit)
  {
    hide FromLengthPrefixed;
    if unit == [] {
      return Err(Invalid);
    }
    if LongCodeAt(unit, 0) || ShortCodeAt(unit, 0) {
      return Ok(unit);
    }
    r := ConvertLengthPrefixed(unit);
  }

  method SplitNals(d: seq<byte>) returns (nals: seq<Nal>)
    ensures nals == Nals(d)
  {
    hide Nals; hide FindStartCode; hide EndOfNal; hide Stripped;
    nals := [];
    var data := d;
    var code := FindStartCode(data);
    SplitStep(data);
    assert [] + Nals(d) == Nals(d);
    while code.Some?
      invariant code == FindStartCode(data) && Nals(d) == nals + Nals(data)
      invariant code.None? ==> Nals(data) == []
      decreases |data|
    {
      SplitStep(data);
      CodeInside(data);
      var rest := data[code.value.0 + code.value.1..];
      var end := EndOfNal(rest);
      var nal := StripZeros(rest[..end]);
      ghost var before, others := nals, Nals(rest[end..]);
      if nal != [] {
        nals := nals + [nal];
      }
      assert before + ((if nal == [] then [] else [nal]) + others) == nals + others;
      data := rest[end..];
      code := FindStartCode(data);
      SplitStep(data);
    }
  }

  lemma {:induction false} SplitStep(d: seq<byte>)
    ensures FindStartCode(d).None? ==> Nals(d) == []
    ensures (FindStartCode(d).Some? && FindStartCode(d).value.0 + FindStartCode(d).value.1 <= |d| ==>
               var rest := d[FindStartCode(d).value.0 + FindStartCode(d).value.1..];
               var nal := Stripped(rest[..EndOfNal(rest)]);
               Nals(d) == (if nal == [] then [] else [nal]) + Nals(rest[EndOfNal(rest)..]))
  {
    hide FindFrom; hide Stripped; hide EndOfNal;
  }

  method StripZeros(s: seq<byte>) returns (nal: Nal)
    ensures nal == Stripped(s)
  {
    nal := s;
    while nal != [] && nal[|nal| - 1] == 0
      invariant Stripped(nal) == Stripped(s)
      decreases |nal|
    {
      nal := nal[..|nal| - 1];
    }
  }

  method BuildRecord(extradata: seq<byte>) returns (r: Result<seq<byte>, Invalid>)
    ensures r == AvccFromAnnexB(extradata)
  {
    hide Nals; hide FirstOfKind; hide BigEndian;
    var nals := SplitNals(extradata);
    var sps := FirstOfKind(nals, SPS);
    var pps := FirstOfKind(nals, PPS);
    if sps.None? || |sps.value| < 4 || pps.None? || |sps.value| > U16_MAX || |pps.value| > U16_MAX
       || 11 + |sps.value| + |pps.value| > MAX_H264_EXTRADATA {
      return Err(Invalid);
    }
    var s, p := sps.value, pps.value;
    var avcc: seq<byte> := [1, s[1], s[2], s[3], 0xff, 0xe1];
    avcc := avcc + BigEndian(|s|, 2);
    avcc := avcc + s;
    avcc := avcc + [1];
    avcc := avcc + BigEndian(|p|, 2);
    avcc := avcc + p;
    return Ok(avcc);
  }

  function PrependTaken(done: seq<Nal>, r: Result<(seq<Nal>, nat), Invalid>): Result<(seq<Nal>, nat), Invalid> {
    match r
    case Err(e) => Err(e)
    case Ok(taken) => Ok((done + taken.0, taken.1))
  }

  /** `count` units of one kind off the record, from `at` on. */
  method TakeSets(avcc: seq<byte>, at: nat, count: nat, kind: nat) returns (r: Result<(seq<Nal>, nat), Invalid>)
    requires at <= |avcc|
    ensures r == TakeNals(avcc, at, count, kind)
  {
    hide TakeNal;
    var sets: seq<Nal> := [];
    var cursor: nat := at;
    TakenEnds(TakeNals(avcc, at, count, kind));
    for i := 0 to count
      invariant cursor <= |avcc|
      invariant TakeNals(avcc, at, count, kind) == PrependTaken(sets, TakeNals(avcc, cursor, count - i, kind))
    {
      var taken := TakeNal(avcc, cursor);
      if taken.Err? {
        return Err(taken.error);
      }
      TakenNonempty(avcc, cursor);
      if taken.value.0[0] % 32 != kind {
        return Err(Invalid);
      }
      TakenMore(sets, taken.value.0, TakeNals(avcc, taken.value.1, count - i - 1, kind));
      sets := sets + [taken.value.0];
      cursor := taken.value.1;
    }
    assert sets + [] == sets;
    return Ok((sets, cursor));
  }

  lemma {:induction false} TakenEnds(r: Result<(seq<Nal>, nat), Invalid>)
    ensures PrependTaken([], r) == r
  {
    if r.Ok? {
      assert [] + r.value.0 == r.value.0;
    }
  }

  lemma {:induction false} TakenMore(done: seq<Nal>, next: Nal, r: Result<(seq<Nal>, nat), Invalid>)
    ensures PrependTaken(done, PrependTaken([next], r)) == PrependTaken(done + [next], r)
  {
    if r.Ok? {
      assert done + ([next] + r.value.0) == done + [next] + r.value.0;
    }
  }

  lemma {:induction false} TakenNonempty(avcc: seq<byte>, at: nat)
    requires at <= |avcc| && TakeNal(avcc, at).Ok?
    ensures TakeNal(avcc, at).value.0 != []
  {
  }

  method OpenRecord(avcc: seq<byte>) returns (r: Result<seq<byte>, Invalid>)
    ensures r == AnnexBFromAvcc(avcc)
  {
    hide TakeNals; hide AnnexB;
    if |avcc| < 7 || avcc[0] != 1 || avcc[5] % 32 == 0 {
      return Err(Invalid);
    }
    var sps := TakeSets(avcc, 6, avcc[5] % 32, SPS);
    if sps.Err? {
      return Err(sps.error);
    }
    if sps.value.1 == |avcc| || avcc[sps.value.1] == 0 {
      return Err(Invalid);
    }
    var pps := TakeSets(avcc, sps.value.1 + 1, avcc[sps.value.1], PPS);
    if pps.Err? {
      return Err(pps.error);
    }
    var sets := sps.value.0 + pps.value.0;
    var annexb: seq<byte> := [];
    Empty();
    assert sets[..0] == [];
    for i := 0 to |sets|
      invariant annexb == AnnexB(sets[..i])
    {
      AnnexBGrows(sets[..i], sets[i]);
      assert sets[..i + 1] == sets[..i] + [sets[i]];
      annexb := annexb + [0, 0, 0, 1] + sets[i];
    }
    assert sets[..|sets|] == sets;
    return Ok(annexb);
  }
}
