/** What makes a command list a scene, said without the counters and stacks the checks keep. */
module VectorScene {
  import opened Wrappers
  import opened Words
  import opened Scalars
  import opened Cbor
  import opened CborRoundTrip
  import opened OverlayTypes
  import opened VectorTypes
  import opened VectorCodec
  import opened VectorRoundTrip
  import opened VectorRewrite

  /** The seven negotiated ceilings a scene is weighed against. */
  datatype Limits = Limits(sceneBytes: u64, commands: u64, pathSegments: u64, totalSegments: u64, stackDepth: u64,
                           textBytes: u64, gradientStops: u64)

  const PROFILE := Limits(MAX_SCENE_BYTES, MAX_COMMANDS, MAX_PATH_SEGMENTS, MAX_TOTAL_SEGMENTS, MAX_STACK_DEPTH,
                          MAX_TEXT_BYTES, MAX_GRADIENT_STOPS)

  // ---- Positions in a command list ---------------------------------------------------------

  /** Saves less restores among the first `n` commands. */
  function SaveDepth(cs: seq<Command>, n: nat): int
    requires n <= |cs|
  {
    if n == 0 then 0
    else SaveDepth(cs, n - 1) + (if cs[n - 1].Save? then 1 else if cs[n - 1].Restore? then -1 else 0)
  }

  /** The innermost save before `n` that no restore has closed. */
  function OpenSave(cs: seq<Command>, n: nat): (save: Option<nat>)
    requires n <= |cs|
    ensures save.Some? ==> save.value < n && cs[save.value].Save?
  {
    if n == 0 then None
    else if cs[n - 1].Save? then Some(n - 1)
    else if cs[n - 1].Restore? then
      var closed := OpenSave(cs, n - 1);
      if closed.None? then None else OpenSave(cs, closed.value)
    else OpenSave(cs, n - 1)
  }

  /** Clips in force after `n` commands: a restore brings back those of its own save. */
  function ClipDepth(cs: seq<Command>, n: nat): nat
    requires n <= |cs|
  {
    if n == 0 then 0
    else if cs[n - 1].Clip? then ClipDepth(cs, n - 1) + 1
    else if cs[n - 1].Restore? then
      var save := OpenSave(cs, n - 1);
      if save.None? then 0 else ClipDepth(cs, save.value)
    else ClipDepth(cs, n - 1)
  }

  function Segments(c: Command): nat {
    if PathOf(c).Some? then |c.path.segments| else 0
  }

  function SegmentTotal(cs: seq<Command>, n: nat): nat
    requires n <= |cs|
  {
    if n == 0 then 0 else SegmentTotal(cs, n - 1) + Segments(cs[n - 1])
  }

  function TextTotal(cs: seq<Command>, n: nat): nat
    requires n <= |cs|
  {
    if n == 0 then 0 else TextTotal(cs, n - 1) + if cs[n - 1].DrawText? then |cs[n - 1].run.text| else 0
  }

  lemma {:induction false} TotalsGrow(cs: seq<Command>, n: nat, m: nat)
    requires n <= m <= |cs|
    ensures SegmentTotal(cs, n) <= SegmentTotal(cs, m) && TextTotal(cs, n) <= TextTotal(cs, m)
    decreases m
  {
    if n < m {
      TotalsGrow(cs, n, m - 1);
    }
  }

  // ---- Validity ----------------------------------------------------------------------------

  ghost predicate StageFine(cs: seq<Command>, n: nat, l: Limits)
    requires n <= |cs|
  {
    0 <= SaveDepth(cs, n) <= l.stackDepth && ClipDepth(cs, n) <= l.stackDepth
  }

  ghost predicate TotalsFine(cs: seq<Command>, n: nat, l: Limits)
    requires n <= |cs|
  {
    SegmentTotal(cs, n) <= l.totalSegments && TextTotal(cs, n) <= l.textBytes
  }

  ghost predicate FreshHit(cs: seq<Command>, i: nat)
    requires i < |cs|
  {
    cs[i].Hit? ==> forall j :: 0 <= j < i && cs[j].Hit? ==> cs[j].id != cs[i].id
  }

  ghost predicate StagesFine(cs: seq<Command>, n: nat, l: Limits)
    requires n <= |cs|
  {
    forall i :: 0 <= i <= n ==> StageFine(cs, i, l)
  }

  /** The first `n` commands are beyond reproach. */
  ghost predicate FineUpTo(cs: seq<Command>, n: nat)
    requires n <= |cs|
  {
    StagesFine(cs, n, PROFILE) &&
    (forall i :: 0 <= i < n ==> ValidCommand(cs[i]) && FreshHit(cs, i)) &&
    TotalsFine(cs, n, PROFILE)
  }

  /** A complete scene: fine commands, balanced saves, bounded nesting and bounded totals. */
  ghost predicate ValidScene(cs: seq<Command>) {
    |cs| <= MAX_COMMANDS && FineUpTo(cs, |cs|) && SaveDepth(cs, |cs|) == 0
  }

  predicate CommandWithin(c: Command, l: Limits) {
    Segments(c) <= l.pathSegments &&
    ((c.Fill? || c.Stroke? || c.StyledStroke?) && (c.brush.Linear? || c.brush.Radial?) ==>
       |c.brush.stops| <= l.gradientStops)
  }

  /** The scene respects negotiated ceilings, which may lie below the profile's. */
  ghost predicate SceneWithin(cs: seq<Command>, l: Limits) {
    |cs| <= l.commands && TotalsFine(cs, |cs|, l) &&
    StagesFine(cs, |cs|, l) &&
    (forall i :: 0 <= i < |cs| ==> CommandWithin(cs[i], l))
  }

  /** The profile's ceilings add nothing to validity. */
  lemma {:induction false} ValidWithinProfile(cs: seq<Command>)
    requires ValidScene(cs)
    ensures SceneWithin(cs, PROFILE)
  {
    forall i | 0 <= i < |cs| ensures CommandWithin(cs[i], PROFILE) {
      assert ValidCommand(cs[i]);
    }
  }

  // ---- The scene codec ---------------------------------------------------------------------

  function SceneValue(cs: seq<Command>): Value {
    Array(Values(CommandValue, cs))
  }

  ghost function EncodeScene(cs: seq<Command>): Parsed<seq<byte>> {
    if !ValidScene(cs) then Err(InvalidScene)
    else
      match Encode(SceneValue(cs))
      case Err(_) => Err(InvalidScene)
      case Ok(bytes) => if |bytes| > MAX_SCENE_BYTES then Err(InvalidScene) else Ok(bytes)
  }

  ghost function SceneOf(v: Value): Parsed<seq<Command>> {
    if !v.Array? || |v.items| > MAX_COMMANDS then Err(InvalidScene)
    else
      var cs :- ParseAll(ParseCommand, v.items);
      if ValidScene(cs) then Ok(cs) else Err(InvalidScene)
  }

  ghost function DecodeScene(bytes: seq<byte>): Parsed<seq<Command>> {
    if |bytes| > MAX_SCENE_BYTES then Err(InvalidScene)
    else
      match Decode(bytes)
      case Err(_) => Err(InvalidScene)
      case Ok(v) => SceneOf(v)
  }

  /** CBOR's depth and container ceilings never stop a valid scene: only its byte count can. */
  lemma {:induction false} OnlyBytesRefuse(cs: seq<Command>)
    requires ValidScene(cs)
    ensures Encode(SceneValue(cs)).Ok? && NegativesBelowZero(SceneValue(cs))
    ensures EncodeScene(cs).Ok? <==> |Encode(SceneValue(cs)).value| <= MAX_SCENE_BYTES
  {
    hide ValidCommand; hide CommandValue; hide StageFine; hide Carried;
    forall i | 0 <= i < |cs| ensures Carried(CommandValue(cs[i]), 1) {
      assert ValidCommand(cs[i]);
      if cs[i].DrawText? {
        TotalsGrow(cs, i + 1, |cs|);
      }
      CommandCarried(cs[i], 1);
    }
    TupleCarried(Values(CommandValue, cs), 0);
    SceneCarried(cs);
  }

  lemma {:induction false} SceneCarried(cs: seq<Command>)
    requires Carried(SceneValue(cs), 0)
    ensures Encode(SceneValue(cs)).Ok? && NegativesBelowZero(SceneValue(cs))
  {
    hide CommandValue;
    EncodableExactly(SceneValue(cs), 0);
  }

  /** Decoding gives back every scene that was encoded. */
  lemma {:induction false} SceneRoundTrip(cs: seq<Command>)
    requires EncodeScene(cs).Ok?
    ensures DecodeScene(EncodeScene(cs).value) == Ok(cs)
  {
    hide ValidCommand; hide CommandValue; hide ParseCommand; hide StageFine;
    OnlyBytesRefuse(cs);
    EncodeThenDecode(SceneValue(cs));
    var values := Values(CommandValue, cs);
    forall i | 0 <= i < |cs| ensures ParseCommand(values[i]) == Ok(cs[i]) {
      assert ValidCommand(cs[i]);
      CommandReads(cs[i]);
    }
    ListReads(ParseCommand, values, cs);
  }

  ghost predicate SpellsSomeDefault(values: seq<Value>) {
    exists i :: 0 <= i < |values| && SpellsDefault(values[i])
  }

  lemma {:induction false} ReadIsNormal(bytes: seq<byte>)
    requires DecodeScene(bytes).Ok?
    ensures Decode(bytes).Ok? && Decode(bytes).value.Array? && Encode(Decode(bytes).value) == Ok(bytes)
    ensures var values := Decode(bytes).value.items;
            ParseAll(ParseCommand, values) == DecodeScene(bytes) &&
            forall i :: 0 <= i < |values| ==> NegativesBelowZero(values[i])
  {
    hide ValidScene; hide ParseCommand;
    DecodeThenEncode(bytes);
  }

  /**
   Whatever a receiver accepts it can send on in no more bytes, and in the same bytes exactly when
   nothing in it spelled out a default.
   */
  lemma {:induction false} ReceivedSceneResends(bytes: seq<byte>)
    requires DecodeScene(bytes).Ok?
    ensures var cs := DecodeScene(bytes).value;
            EncodeScene(cs).Ok? && |EncodeScene(cs).value| <= |bytes| &&
            (EncodeScene(cs) == Ok(bytes) <==> !SpellsSomeDefault(Decode(bytes).value.items))
  {
    hide ValidScene; hide CommandValue; hide ParseCommand; hide SpellsDefault; hide NoLonger;
    var cs := DecodeScene(bytes).value;
    ReadIsNormal(bytes);
    var values := Decode(bytes).value.items;
    var rewritten := Values(CommandValue, cs);
    forall i | 0 <= i < |values|
      ensures NoLonger(rewritten[i], values[i], 1) && (rewritten[i] == values[i] <==> !SpellsDefault(values[i])) {
      assert ParseCommand(values[i]) == Ok(cs[i]);
      CommandNoLonger(values[i], 1);
      RewriteExactly(values[i]);
    }
    TupleNoLonger(rewritten, values, 0);
    SceneNoLonger(cs, values);
    OnlyBytesRefuse(cs);
    EncodeThenDecode(SceneValue(cs));
    assert rewritten == values <==> !SpellsSomeDefault(values);
  }

  lemma {:induction false} SceneNoLonger(cs: seq<Command>, values: seq<Value>)
    requires NoLonger(SceneValue(cs), Array(values), 0) && Encode(Array(values)).Ok?
    ensures Encode(SceneValue(cs)).Ok? && |Encode(SceneValue(cs)).value| <= |Encode(Array(values)).value|
  {
    hide EncodeValue;
  }
}
