/** The canvas object: commands are pushed one at a time and the whole list is checked in one pass. */
module VectorCanvas {
  import opened Wrappers
  import opened Words
  import opened Scalars
  import opened Cbor
  import opened CborCodec
  import opened OverlayTypes
  import opened VectorTypes
  import opened VectorCodec
  import opened VectorScene

  /** The stack holds, innermost last, the clip count at each open save. */
  ghost predicate StackTracks(cs: seq<Command>, n: nat, stack: seq<nat>)
    requires n <= |cs|
    decreases |stack|
  {
    var save := OpenSave(cs, n);
    if stack == [] then save.None?
    else save.Some? && stack[|stack| - 1] == ClipDepth(cs, save.value) &&
         StackTracks(cs, save.value, stack[..|stack| - 1])
  }

  lemma {:induction false} StackStep(cs: seq<Command>, n: nat, stack: seq<nat>)
    requires n < |cs| && StackTracks(cs, n, stack) && |stack| == SaveDepth(cs, n)
    ensures cs[n].Save? ==> StackTracks(cs, n + 1, stack + [ClipDepth(cs, n)])
    ensures cs[n].Restore? && stack != [] ==> StackTracks(cs, n + 1, stack[..|stack| - 1])
    ensures cs[n].Restore? && stack != [] ==> ClipDepth(cs, n + 1) == stack[|stack| - 1]
    ensures !cs[n].Save? && !cs[n].Restore? ==> StackTracks(cs, n + 1, stack)
  {
    assert (stack + [ClipDepth(cs, n)])[..|stack|] == stack;
  }

  /** What one command does to the counters. */
  lemma {:induction false} CounterStep(cs: seq<Command>, n: nat)
    requires n < |cs|
    ensures (SaveDepth(cs, n + 1)
             == SaveDepth(cs, n) + if cs[n].Save? then 1 else if cs[n].Restore? then -1 else 0)
    ensures !cs[n].Restore? ==> ClipDepth(cs, n + 1) == ClipDepth(cs, n) + if cs[n].Clip? then 1 else 0
    ensures SegmentTotal(cs, n + 1) == SegmentTotal(cs, n) + Segments(cs[n])
    ensures TextTotal(cs, n + 1) == TextTotal(cs, n) + if cs[n].DrawText? then |cs[n].run.text| else 0
  {
  }

  lemma {:induction false} OverTotal(cs: seq<Command>, n: nat, l: Limits)
    requires n <= |cs| && !TotalsFine(cs, n, l)
    ensures !TotalsFine(cs, |cs|, l)
  {
    TotalsGrow(cs, n, |cs|);
  }

  /** One refused command, stage or total refuses the scene. */
  lemma {:induction false} Refuted(cs: seq<Command>, n: nat)
    requires n < |cs|
    requires !StageFine(cs, n + 1, PROFILE) || !ValidCommand(cs[n]) || !FreshHit(cs, n) || !TotalsFine(cs, n + 1, PROFILE)
    ensures !ValidScene(cs)
  {
    hide StageFine; hide ValidCommand; hide FreshHit;
    if !TotalsFine(cs, n + 1, PROFILE) {
      OverTotal(cs, n + 1, PROFILE);
    }
  }

  lemma {:induction false} PathRefused(cs: seq<Command>, n: nat)
    requires n < |cs| && PathOf(cs[n]).Some? && !ValidPath(cs[n].path)
    ensures !ValidScene(cs)
  {
    hide StageFine; hide FreshHit; hide ValidPath;
  }

  ghost predicate HitsSeen(cs: seq<Command>, n: nat, hits: set<u64>)
    requires n <= |cs|
  {
    forall id :: id in hits <==> exists j :: 0 <= j < n && cs[j].Hit? && cs[j].id == id
  }

  lemma {:induction false} FreshExactly(cs: seq<Command>, n: nat, hits: set<u64>)
    requires n < |cs| && HitsSeen(cs, n, hits)
    ensures FreshHit(cs, n) <==> (cs[n].Hit? ==> cs[n].id !in hits)
    ensures HitsSeen(cs, n + 1, if cs[n].Hit? then hits + {cs[n].id} else hits)
  {
  }

  /** One more command beyond reproach. */
  lemma {:induction false} FineStep(cs: seq<Command>, n: nat)
    requires n < |cs| && FineUpTo(cs, n) && ValidCommand(cs[n]) && FreshHit(cs, n)
    requires StageFine(cs, n + 1, PROFILE) && TotalsFine(cs, n + 1, PROFILE)
    ensures FineUpTo(cs, n + 1)
  {
    hide StageFine; hide ValidCommand; hide FreshHit; hide TotalsFine;
  }

  lemma {:induction false} NoHits(cs: seq<Command>)
    ensures HitsSeen(cs, 0, {})
  {
  }

  /** A restore can only bring back a clip count that was fine at its save. */
  lemma {:induction false} RestoredFine(cs: seq<Command>, n: nat, l: Limits)
    requires n < |cs| && StagesFine(cs, n, l) && cs[n].Restore?
    ensures ClipDepth(cs, n + 1) <= l.stackDepth
  {
    var save := OpenSave(cs, n);
    if save.Some? {
      assert StageFine(cs, save.value, l);
    }
  }

  lemma {:induction false} FineStages(cs: seq<Command>, n: nat)
    requires n <= |cs| && FineUpTo(cs, n)
    ensures StagesFine(cs, n, PROFILE)
  {
  }

  lemma {:induction false} FineExactly(cs: seq<Command>)
    ensures FineUpTo(cs, 0)
    ensures ValidScene(cs) <==> |cs| <= MAX_COMMANDS && FineUpTo(cs, |cs|) && SaveDepth(cs, |cs|) == 0
  {
  }

  class Canvas {
    var commands: seq<Command>

    constructor ()
      ensures commands == []
    {
      commands := [];
    }

    method Push(command: Command) returns (r: Result<(), InvalidScene>)
      modifies this
      ensures r.Ok? <==> |old(commands)| < MAX_COMMANDS
      ensures commands == if r.Ok? then old(commands) + [command] else old(commands)
    {
      if |commands| >= MAX_COMMANDS {
        return Err(InvalidScene);
      }
      commands := commands + [command];
      return Ok(());
    }

    /** The command's own fields, apart from its path. */
    method CheckCommand(c: Command, hits: set<u64>, texts: nat) returns (fine: bool)
      ensures (fine && (PathOf(c).Some? ==> ValidPath(c.path)) <==>
               ValidCommand(c) && (c.Hit? ==> c.id !in hits) && (c.DrawText? ==> texts + |c.run.text| <= MAX_TEXT_BYTES))
    {
      match c {
        case Fill(_, brush) => fine := ValidBrush(brush);
        case Stroke(_, brush, width) => fine := ValidBrush(brush) && width > 0;
        case StyledStroke(_, brush, style) => fine := ValidBrush(brush) && ValidStyle(style);
        case Hit(id, _, role, _) =>
          fine := id != 0 && id !in hits && (role.Resize? ==> role.edges != 0 && role.edges <= 15);
        case DrawText(run) => fine := texts + |run.text| <= MAX_TEXT_BYTES && ValidText(run);
        case TextLayout(layout, _) => fine := layout != 0;
        case DrawImage(asset, rect, _) => fine := asset != 0 && ValidRect(rect);
        case CastShadow(shadow) => fine := ValidShadow(shadow);
        case _ => fine := true;
      }
    }

    method Validate() returns (r: Result<(), InvalidScene>)
      ensures r.Ok? <==> ValidScene(commands)
    {
      hide ValidCommand; hide ValidPath; hide ValidScene; hide FineUpTo; hide FreshHit; hide HitsSeen;
      hide StackTracks; hide SaveDepth; hide ClipDepth; hide OpenSave; hide SegmentTotal; hide TextTotal; hide StagesFine;
      var cs := commands;
      FineExactly(cs);
      if |cs| > MAX_COMMANDS {
        return Err(InvalidScene);
      }
      var clips: nat, segments: nat, texts: nat := 0, 0, 0;
      var stack: seq<nat> := [];
      var hits: set<u64> := {};
      var i := 0;
      NoHits(cs);
      StackEmpty(cs);
      while i < |cs|
        invariant 0 <= i <= |cs| && FineUpTo(cs, i) && StageFine(cs, i, PROFILE) && TotalsFine(cs, i, PROFILE)
        invariant StackTracks(cs, i, stack) && |stack| == SaveDepth(cs, i) && clips == ClipDepth(cs, i)
        invariant segments == SegmentTotal(cs, i) && texts == TextTotal(cs, i)
        invariant HitsSeen(cs, i, hits)
      {
        var c := cs[i];
        StackStep(cs, i, stack);
        CounterStep(cs, i);
        var fine := CheckCommand(c, hits, texts);
        FreshExactly(cs, i, hits);
        if !fine {
          if PathOf(c).Some? && !ValidPath(c.path) {
            PathRefused(cs, i);
          } else {
            Refuted(cs, i);
          }
          return Err(InvalidScene);
        }
        if c.Clip? {
          clips := clips + 1;
          if clips > MAX_STACK_DEPTH {
            Refuted(cs, i);
            return Err(InvalidScene);
          }
        } else if c.Save? {
          stack := stack + [clips];
          if |stack| > MAX_STACK_DEPTH {
            Refuted(cs, i);
            return Err(InvalidScene);
          }
        } else if c.Restore? {
          if stack == [] {
            Refuted(cs, i);
            return Err(InvalidScene);
          }
          FineStages(cs, i);
          RestoredFine(cs, i, PROFILE);
          clips, stack := stack[|stack| - 1], stack[..|stack| - 1];
        } else if c.DrawText? {
          texts := texts + |c.run.text|;
        } else if c.Hit? {
          hits := hits + {c.id};
        }
        if PathOf(c).Some? {
          var path := ValidatePath(c.path);
          if path.Err? {
            PathRefused(cs, i);
            return Err(InvalidScene);
          }
          segments := segments + |c.path.segments|;
        }
        if segments > MAX_TOTAL_SEGMENTS {
          Refuted(cs, i);
          return Err(InvalidScene);
        }
        FineStep(cs, i);
        i := i + 1;
      }
      if stack != [] {
        return Err(InvalidScene);
      }
      return Ok(());
    }

    /** The same walk against negotiated ceilings, after the scene has proved valid and short enough. */
    method ValidateWithLimits(l: Limits) returns (r: Result<(), InvalidScene>)
      ensures (r.Ok? <==> EncodeScene(commands).Ok? && |EncodeScene(commands).value| <= l.sceneBytes &&
                          SceneWithin(commands, l))
    {
      hide ValidScene; hide EncodeScene; hide CommandWithin;
      hide StackTracks; hide SaveDepth; hide ClipDepth; hide OpenSave; hide SegmentTotal; hide TextTotal; hide StagesFine;
      var cs := commands;
      var bytes := EncodeCanvas();
      if bytes.Err? || |cs| > l.commands || |bytes.value| > l.sceneBytes {
        return Err(InvalidScene);
      }
      EncodedIsValid(cs);
      WithinExactly(cs, l);
      var clips: nat, segments: nat, texts: nat := 0, 0, 0;
      var stack: seq<nat> := [];
      var i := 0;
      StackEmpty(cs);
      while i < |cs|
        invariant 0 <= i <= |cs| && WithinUpTo(cs, i, l) && StageFine(cs, i, l)
        invariant StackTracks(cs, i, stack) && |stack| == SaveDepth(cs, i) && clips == ClipDepth(cs, i)
        invariant segments == SegmentTotal(cs, i) && texts == TextTotal(cs, i)
      {
        var c := cs[i];
        StackStep(cs, i, stack);
        CounterStep(cs, i);
        ValidStage(cs, i + 1);
        if c.Save? {
          stack := stack + [clips];
          if |stack| > l.stackDepth {
            WithinRefuted(cs, i, l);
            return Err(InvalidScene);
          }
        } else if c.Restore? {
          RestoredFine(cs, i, l);
          clips, stack := stack[|stack| - 1], stack[..|stack| - 1];
        } else if c.Clip? {
          clips := clips + 1;
          if clips > l.stackDepth {
            WithinRefuted(cs, i, l);
            return Err(InvalidScene);
          }
        } else if c.DrawText? {
          texts := texts + |c.run.text|;
        }
        if !CommandWithin(c, l) {
          WithinRefuted(cs, i, l);
          return Err(InvalidScene);
        }
        segments := segments + Segments(c);
        WithinStep(cs, i, l);
        i := i + 1;
      }
      if segments > l.totalSegments || texts > l.textBytes {
        return Err(InvalidScene);
      }
      return Ok(());
    }

    method EncodeCanvas() returns (r: Result<seq<byte>, InvalidScene>)
      ensures r == EncodeScene(commands)
    {
      hide ValidScene; hide CommandValue; hide EncodeValue;
      var valid := Validate();
      if valid.Err? {
        return Err(InvalidScene);
      }
      var bytes := EncodeCbor(SceneValue(commands));
      if bytes.Err? || |bytes.value| > MAX_SCENE_BYTES {
        return Err(InvalidScene);
      }
      return Ok(bytes.value);
    }

    static method DecodeCanvas(bytes: seq<byte>) returns (r: Result<Canvas, InvalidScene>)
      ensures r.Ok? <==> DecodeScene(bytes).Ok?
      ensures r.Ok? ==> fresh(r.value) && DecodeScene(bytes) == Ok(r.value.commands)
    {
      hide ValidScene; hide ParseCommand; hide DecodeAtDepth;
      if |bytes| > MAX_SCENE_BYTES {
        return Err(InvalidScene);
      }
      var v := DecodeCborAtDepth(bytes, 0);
      if v.Err? || !v.value.Array? || |v.value.items| > MAX_COMMANDS {
        return Err(InvalidScene);
      }
      var parsed := ParseAll(ParseCommand, v.value.items);
      if parsed.Err? {
        return Err(InvalidScene);
      }
      var canvas := new Canvas();
      canvas.commands := parsed.value;
      var valid := canvas.Validate();
      if valid.Err? {
        return Err(InvalidScene);
      }
      return Ok(canvas);
    }
  }

  ghost predicate WithinUpTo(cs: seq<Command>, n: nat, l: Limits)
    requires n <= |cs|
  {
    StagesFine(cs, n, l) && (forall i :: 0 <= i < n ==> CommandWithin(cs[i], l))
  }

  lemma {:induction false} WithinExactly(cs: seq<Command>, l: Limits)
    requires ValidScene(cs)
    ensures WithinUpTo(cs, 0, l)
    ensures SceneWithin(cs, l) <==> |cs| <= l.commands && TotalsFine(cs, |cs|, l) && WithinUpTo(cs, |cs|, l)
  {
  }

  lemma {:induction false} WithinStep(cs: seq<Command>, n: nat, l: Limits)
    requires n < |cs| && WithinUpTo(cs, n, l)
    ensures (WithinUpTo(cs, n + 1, l) <==> StageFine(cs, n + 1, l) && CommandWithin(cs[n], l))
  {
    hide StageFine; hide CommandWithin;
  }

  lemma {:induction false} WithinRefuted(cs: seq<Command>, n: nat, l: Limits)
    requires n < |cs| && !(StageFine(cs, n + 1, l) && CommandWithin(cs[n], l))
    ensures !SceneWithin(cs, l)
  {
    hide StageFine; hide CommandWithin; hide TotalsFine;
  }

  lemma {:induction false} EncodedIsValid(cs: seq<Command>)
    requires EncodeScene(cs).Ok?
    ensures ValidScene(cs)
  {
    hide ValidScene; hide Encode;
  }

  lemma {:induction false} StackEmpty(cs: seq<Command>)
    ensures StackTracks(cs, 0, []) && SaveDepth(cs, 0) == 0 && ClipDepth(cs, 0) == 0
    ensures SegmentTotal(cs, 0) == 0 && TextTotal(cs, 0) == 0
  {
  }

  lemma {:induction false} ValidStage(cs: seq<Command>, n: nat)
    requires ValidScene(cs) && n <= |cs|
    ensures StageFine(cs, n, PROFILE)
  {
  }

  /** Under the profile's own ceilings, passing the limits is the same as encoding at all. */
  lemma {:induction false} ProfileLimitsAddNothing(cs: seq<Command>)
    ensures (EncodeScene(cs).Ok? && |EncodeScene(cs).value| <= PROFILE.sceneBytes && SceneWithin(cs, PROFILE)
             <==> EncodeScene(cs).Ok?)
  {
    hide ValidScene; hide Encode; hide SceneWithin;
    if EncodeScene(cs).Ok? {
      ValidWithinProfile(cs);
    }
  }

  // ---- Path builder ------------------------------------------------------------------------

  /** Builds a path a segment at a time and remembers that something went wrong until the end. */
  class PathBuilder {
    var segments: seq<Segment>
    var evenOdd: bool
    var failed: bool
    /** Every segment asked for, in order; `None` where a coordinate was out of range. */
    ghost var asked: seq<Option<Segment>>

    constructor ()
      ensures Valid() && asked == [] && !evenOdd
    {
      segments, evenOdd, failed, asked := [], false, false, [];
    }

    ghost predicate Valid()
      reads this
    {
      (failed <==> Broken(asked)) &&
      (!failed ==> |segments| == |asked| && forall i :: 0 <= i < |asked| ==> asked[i] == Some(segments[i]))
    }

    method Append(segment: Option<Segment>)
      requires Valid()
      modifies this
      ensures Valid() && asked == old(asked) + [segment] && evenOdd == old(evenOdd)
    {
      BrokenStep(asked, segment);
      asked := asked + [segment];
      if segment.None? || |segments| >= MAX_PATH_SEGMENTS {
        failed := true;
      } else {
        segments := segments + [segment.value];
      }
    }

    method MoveTo(x: int, y: int)
      requires Valid()
      modifies this
      ensures Valid() && asked == old(asked) + [MoveAt(NewPoint(x, y))] && evenOdd == old(evenOdd)
    {
      Append(MoveAt(NewPoint(x, y)));
    }

    method LineTo(x: int, y: int)
      requires Valid()
      modifies this
      ensures Valid() && asked == old(asked) + [LineAt(NewPoint(x, y))] && evenOdd == old(evenOdd)
    {
      Append(LineAt(NewPoint(x, y)));
    }

    method QuadTo(cx: int, cy: int, x: int, y: int)
      requires Valid()
      modifies this
      ensures Valid() && asked == old(asked) + [QuadAt(NewPoint(cx, cy), NewPoint(x, y))] && evenOdd == old(evenOdd)
    {
      Append(QuadAt(NewPoint(cx, cy), NewPoint(x, y)));
    }

    method CubicTo(aX: int, aY: int, bX: int, bY: int, x: int, y: int)
      requires Valid()
      modifies this
      ensures Valid() && evenOdd == old(evenOdd)
      ensures asked == old(asked) + [CubicAt(NewPoint(aX, aY), NewPoint(bX, bY), NewPoint(x, y))]
    {
      Append(CubicAt(NewPoint(aX, aY), NewPoint(bX, bY), NewPoint(x, y)));
    }

    method Close()
      requires Valid()
      modifies this
      ensures Valid() && asked == old(asked) + [Some(ClosePath)] && evenOdd == old(evenOdd)
    {
      Append(Some(ClosePath));
    }

    method EvenOdd()
      requires Valid()
      modifies this`evenOdd
      ensures Valid() && evenOdd
    {
      evenOdd := true;
    }

    /** Succeeds exactly when every request was representable and they spell a valid path: that path. */
    method Build() returns (r: Result<Path, InvalidScene>)
      requires Valid()
      ensures r.Ok? <==> !Broken(asked) && ValidPath(Path(Requested(asked), evenOdd))
      ensures r.Ok? ==> r.value == Path(Requested(asked), evenOdd)
    {
      hide ValidPath;
      if failed {
        return Err(InvalidScene);
      }
      var path := Path(segments, evenOdd);
      assert segments == Requested(asked);
      var valid := ValidatePath(path);
      if valid.Err? {
        return Err(InvalidScene);
      }
      return Ok(path);
    }
  }

  function MoveAt(p: Option<Point>): Option<Segment> {
    if p.Some? then Some(Move(p.value)) else None
  }

  function LineAt(p: Option<Point>): Option<Segment> {
    if p.Some? then Some(Line(p.value)) else None
  }

  function QuadAt(a: Option<Point>, p: Option<Point>): Option<Segment> {
    if a.Some? && p.Some? then Some(Quad(a.value, p.value)) else None
  }

  function CubicAt(a: Option<Point>, b: Option<Point>, p: Option<Point>): Option<Segment> {
    if a.Some? && b.Some? && p.Some? then Some(Cubic(a.value, b.value, p.value)) else None
  }

  /** Something asked for could not be had: a coordinate out of range, or too many segments. */
  ghost predicate Broken(asked: seq<Option<Segment>>) {
    |asked| > MAX_PATH_SEGMENTS || exists i :: 0 <= i < |asked| && asked[i].None?
  }

  ghost function Requested(asked: seq<Option<Segment>>): (segments: seq<Segment>)
    requires !Broken(asked)
    ensures |segments| == |asked| && forall i :: 0 <= i < |asked| ==> asked[i] == Some(segments[i])
  {
    seq(|asked|, i requires 0 <= i < |asked| => asked[i].value)
  }

  lemma {:induction false} BrokenStep(asked: seq<Option<Segment>>, next: Option<Segment>)
    ensures Broken(asked + [next]) <==> Broken(asked) || next.None? || |asked| >= MAX_PATH_SEGMENTS
  {
    var more := asked + [next];
    assert more[|asked|] == next;
    if Broken(asked) && |asked| <= MAX_PATH_SEGMENTS {
      var i :| 0 <= i < |asked| && asked[i].None?;
      assert more[i].None?;
    }
  }
}
