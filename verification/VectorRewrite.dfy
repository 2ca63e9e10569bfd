/** Writing a command that was read: the same value unless it spelled out a default, and never a longer one. */
module VectorRewrite {
  import opened Wrappers
  import opened Words
  import opened Unicode
  import opened Scalars
  import opened Cbor
  import opened CborRoundTrip
  import opened OverlayTypes
  import opened VectorTypes
  import opened VectorCodec

  /** A gradient that states the default colour space, which writers leave out. */
  predicate NamesDefaultSpace(v: Value) {
    v.Array? && |v.items| == 5 && (v.items[0] == Unsigned(1) || v.items[0] == Unsigned(2)) && v.items[4] == Unsigned(0)
  }

  /** An empty dash list, which writers spell as null. */
  predicate EmptyDashes(v: Value) {
    v.Array? && Tagged(v.items, 12, 9) && v.items[7] == Array([])
  }

  predicate HasBrush(v: Value) {
    v.Array? && (Tagged(v.items, 0, 3) || Tagged(v.items, 1, 4) || Tagged(v.items, 12, 9))
  }

  /** The only spellings a reader accepts that no writer produces. */
  predicate SpellsDefault(v: Value) {
    (HasBrush(v) && NamesDefaultSpace(v.items[2])) || EmptyDashes(v)
  }

  // ---- What was read is written back -------------------------------------------------------

  lemma {:induction false} ScalarWrites(v: Value)
    requires NegativesBelowZero(v) && ParseScalar(v).Ok?
    ensures Integer(ParseScalar(v).value) == v
  {
  }

  lemma {:induction false} PointWrites(v: Value)
    requires NegativesBelowZero(v) && ParsePoint(v).Ok?
    ensures PointValue(ParsePoint(v).value) == v
  {
    ScalarWrites(v.items[0]);
    ScalarWrites(v.items[1]);
    assert v.items == [v.items[0], v.items[1]];
  }

  lemma {:induction false} RectWrites(v: Value)
    requires NegativesBelowZero(v) && ParseRect(v).Ok?
    ensures RectValue(ParseRect(v).value) == v
  {
    hide ParsePoint; hide PointValue;
    PointWrites(v.items[0]);
    ScalarWrites(v.items[1]);
    ScalarWrites(v.items[2]);
    assert v.items == [v.items[0], v.items[1], v.items[2]];
  }

  /** A list is rebuilt from its elements. */
  lemma {:induction false} ListWrites<T>(parse: Value -> Parsed<T>, write: T -> Value, values: seq<Value>)
    requires ParseAll(parse, values).Ok?
    requires forall i :: 0 <= i < |values| && parse(values[i]).Ok? ==> write(parse(values[i]).value) == values[i]
    ensures Values(write, ParseAll(parse, values).value) == values
  {
    var items := ParseAll(parse, values).value;
    forall i | 0 <= i < |values| ensures write(items[i]) == values[i] {
      assert parse(values[i]) == Ok(items[i]);
    }
  }

  lemma {:induction false} SegmentWrites(v: Value)
    requires NegativesBelowZero(v) && ParseSegment(v).Ok?
    ensures SegmentValue(ParseSegment(v).value) == v
  {
    hide ParsePoint; hide PointValue;
    var a := v.items;
    forall i | 0 < i < |a| && ParsePoint(a[i]).Ok? ensures PointValue(ParsePoint(a[i]).value) == a[i] {
      PointWrites(a[i]);
    }
    assert a == SegmentValue(ParseSegment(v).value).items;
  }

  lemma {:induction false} PathWrites(v: Value)
    requires NegativesBelowZero(v) && ParsePath(v).Ok?
    ensures PathValue(ParsePath(v).value) == v
  {
    hide ParseSegment; hide SegmentValue;
    var list := v.items[1].items;
    assert NegativesBelowZero(v.items[1]);
    forall i | 0 <= i < |list| && ParseSegment(list[i]).Ok?
      ensures SegmentValue(ParseSegment(list[i]).value) == list[i] {
      SegmentWrites(list[i]);
    }
    ListWrites(ParseSegment, SegmentValue, list);
    assert v.items == [v.items[0], v.items[1]];
  }

  lemma {:induction false} StopWrites(v: Value)
    requires ParseStop(v).Ok?
    ensures StopValue(ParseStop(v).value) == v
  {
    assert v.items == [v.items[0], v.items[1]];
  }

  lemma {:induction false} StopsWrite(v: Value)
    requires ParseStops(v).Ok?
    ensures Array(Values(StopValue, ParseStops(v).value)) == v
  {
    hide ParseStop; hide StopValue;
    forall i | 0 <= i < |v.items| && ParseStop(v.items[i]).Ok?
      ensures StopValue(ParseStop(v.items[i]).value) == v.items[i] {
      StopWrites(v.items[i]);
    }
    ListWrites(ParseStop, StopValue, v.items);
  }

  lemma {:induction false} ScalarsWrite(v: Value)
    requires NegativesBelowZero(v) && ParseScalars(v).Ok?
    ensures ScalarsValue(ParseScalars(v).value) == v
  {
    hide ParseScalar; hide Integer;
    forall i | 0 <= i < |v.items| && ParseScalar(v.items[i]).Ok?
      ensures Integer(ParseScalar(v.items[i]).value) == v.items[i] {
      ScalarWrites(v.items[i]);
    }
    ListWrites(ParseScalar, Integer, v.items);
  }

  /** A brush comes back as read, less a default colour space at its end. */
  lemma {:induction false} BrushWrites(v: Value)
    requires NegativesBelowZero(v) && ParseBrush(v).Ok?
    ensures BrushValue(ParseBrush(v).value) == if NamesDefaultSpace(v) then Array(v.items[..4]) else v
  {
    hide ParsePoint; hide PointValue; hide ParseScalar; hide Integer; hide ParseStops; hide Values;
    hide ParseScalars; hide ScalarsValue;
    var a := v.items;
    var b := ParseBrush(v).value;
    match b {
      case Solid(_) =>
      case Linear(_, _, _, _) =>
        PointWrites(a[1]);
        PointWrites(a[2]);
        StopsWrite(a[3]);
      case Radial(_, _, _, _) =>
        PointWrites(a[1]);
        ScalarWrites(a[2]);
        StopsWrite(a[3]);
      case ImageBrush(_, transform, _) =>
        if transform.Some? {
          ScalarsWrite(a[2]);
        }
    }
    assert BrushValue(b).items == if NamesDefaultSpace(v) then a[..4] else a;
  }

  lemma {:induction false} TextWrites(a: seq<Value>)
    requires Tagged(a, 7, 9) && NegativesBelowZero(Array(a)) && ParseText(a).Ok?
    ensures CommandValue(ParseText(a).value) == Array(a)
  {
    hide ParsePoint; hide PointValue; hide ParseScalar; hide Integer;
    var t := ParseText(a).value.run;
    PointWrites(a[2]);
    ScalarWrites(a[3]);
    if !a[8].Null? {
      ScalarWrites(a[8]);
    }
    assert TextValue(t).items == a;
  }

  lemma {:induction false} ShadowWrites(a: seq<Value>)
    requires Tagged(a, 11, 8) && NegativesBelowZero(Array(a)) && ParseShadow(a).Ok?
    ensures CommandValue(ParseShadow(a).value) == Array(a)
  {
    hide ParsePoint; hide PointValue; hide ParseScalar; hide Integer; hide ParseRect; hide RectValue;
    hide ParseScalars; hide ScalarsValue;
    RectWrites(a[1]);
    ScalarsWrite(a[2]);
    PointWrites(a[4]);
    ScalarWrites(a[5]);
    ScalarWrites(a[6]);
    assert ShadowValue(ParseShadow(a).value.shadow).items == a;
  }

  lemma {:induction false} StyledWrites(a: seq<Value>)
    requires Tagged(a, 12, 9) && NegativesBelowZero(Array(a)) && ParseStyled(a).Ok?
    ensures ParseStyled(a).value.StyledStroke?
    ensures var c := ParseStyled(a).value;
            var dashes := if a[7] == Array([]) then Null else a[7];
            CommandValue(c) == Array(a[2 := BrushValue(c.brush)][7 := dashes])
  {
    hide ParsePath; hide PathValue; hide ParseBrush; hide BrushValue; hide ParseScalar; hide Integer;
    hide ParseScalars; hide ScalarsValue;
    var c := ParseStyled(a).value;
    PathWrites(a[1]);
    ScalarWrites(a[3]);
    ScalarWrites(a[6]);
    ScalarWrites(a[8]);
    if !a[7].Null? {
      ScalarsWrite(a[7]);
      ScalarsCount(a[7]);
    }
    var dashes := if a[7] == Array([]) then Null else a[7];
    assert CommandValue(c).items == a[2 := BrushValue(c.brush)][7 := dashes];
  }

  lemma {:induction false} ScalarsCount(v: Value)
    requires ParseScalars(v).Ok?
    ensures v.Array? && |ParseScalars(v).value| == |v.items|
  {
  }

  lemma {:induction false} HitWrites(a: seq<Value>)
    requires (Tagged(a, 9, 4) || Tagged(a, 9, 5)) && NegativesBelowZero(Array(a)) && ParseHit(a).Ok?
    ensures CommandValue(ParseHit(a).value) == Array(a)
  {
    hide ParsePath; hide PathValue;
    PathWrites(a[2]);
    assert CommandValue(ParseHit(a).value).items == a;
  }

  /** What `CommandValue` makes of a command read from `v`. */
  function Rewritten(v: Value): Value
    requires ParseCommand(v).Ok?
  {
    var c := ParseCommand(v).value;
    var plain := if HasBrush(v) then v.items[2 := BrushValue(c.brush)] else v.items;
    Array(if EmptyDashes(v) then plain[7 := Null] else plain)
  }

  lemma {:induction false} CommandWrites(v: Value)
    requires NegativesBelowZero(v) && ParseCommand(v).Ok?
    ensures CommandValue(ParseCommand(v).value) == Rewritten(v)
  {
    hide ParsePath; hide PathValue; hide ParseBrush; hide BrushValue; hide ParsePoint; hide PointValue;
    hide ParseScalar; hide Integer; hide ParseRect; hide RectValue; hide ParseText; hide TextValue;
    hide ParseShadow; hide ShadowValue; hide ParseStyled; hide StyledValue; hide ParseHit;
    hide ParseScalars; hide ScalarsValue;
    var a := v.items;
    if Tagged(a, 0, 3) {
      PathWrites(a[1]);
    } else if Tagged(a, 1, 4) {
      PathWrites(a[1]);
      ScalarWrites(a[3]);
    } else if Tagged(a, 4, 2) {
      ScalarsWrite(a[1]);
    } else if Tagged(a, 5, 2) {
      PathWrites(a[1]);
    } else if Tagged(a, 7, 9) {
      TextWrites(a);
    } else if Tagged(a, 10, 3) {
      PointWrites(a[2]);
    } else if Tagged(a, 8, 4) {
      RectWrites(a[2]);
    } else if Tagged(a, 9, 4) || Tagged(a, 9, 5) {
      HitWrites(a);
    } else if Tagged(a, 11, 8) {
      ShadowWrites(a);
    } else if Tagged(a, 12, 9) {
      StyledWrites(a);
    }
    assert CommandValue(ParseCommand(v).value).items == Rewritten(v).items;
  }

  /** Exactly the spelled-out defaults are lost. */
  lemma {:induction false} RewriteExactly(v: Value)
    requires NegativesBelowZero(v) && ParseCommand(v).Ok?
    ensures CommandValue(ParseCommand(v).value) == v <==> !SpellsDefault(v)
  {
    hide ParsePath; hide ParseBrush; hide ParsePoint; hide ParseScalar; hide ParseRect; hide ParseText;
    hide ParseShadow; hide ParseStyled; hide ParseHit; hide ParseScalars; hide CommandValue; hide BrushValue;
    CommandWrites(v);
    if HasBrush(v) {
      ReadBrush(v);
    }
    assert Rewritten(v) == v <==> Rewritten(v).items == v.items;
    if SpellsDefault(v) {
      assert Rewritten(v).items[2] != v.items[2] || Rewritten(v).items[7] != v.items[7];
    }
  }

  lemma {:induction false} ReadBrush(v: Value)
    requires NegativesBelowZero(v) && ParseCommand(v).Ok? && HasBrush(v)
    ensures HasPath(ParseCommand(v).value)
    ensures (BrushValue(ParseCommand(v).value.brush)
             == if NamesDefaultSpace(v.items[2]) then Array(v.items[2].items[..4]) else v.items[2])
  {
    hide ParsePath; hide ParseBrush; hide ParseScalar; hide BrushValue; hide ParseScalars;
    BrushWrites(v.items[2]);
  }

  predicate HasPath(c: Command) {
    c.Fill? || c.Stroke? || c.StyledStroke?
  }

  // ---- Length ------------------------------------------------------------------------------

  /** Wherever `from` can be encoded so can `to`, in no more bytes. */
  predicate NoLonger(to: Value, from: Value, depth: nat) {
    EncodeValue(from, depth).Ok? ==>
      EncodeValue(to, depth).Ok? && |EncodeValue(to, depth).value| <= |EncodeValue(from, depth).value|
  }

  lemma {:induction false} ItemsNoLonger(to: seq<Value>, from: seq<Value>, depth: nat)
    requires |to| == |from| && forall i :: 0 <= i < |to| ==> NoLonger(to[i], from[i], depth)
    requires EncodeItems(from, depth).Ok?
    ensures EncodeItems(to, depth).Ok? && |EncodeItems(to, depth).value| <= |EncodeItems(from, depth).value|
  {
    if to != [] {
      assert NoLonger(to[0], from[0], depth);
      forall i | 0 <= i < |to| - 1 ensures NoLonger(to[1..][i], from[1..][i], depth) {
        assert NoLonger(to[i + 1], from[i + 1], depth);
      }
      ItemsNoLonger(to[1..], from[1..], depth);
    }
  }

  lemma {:induction false} PrefixNoLonger(items: seq<Value>, n: nat, depth: nat)
    requires n <= |items| && EncodeItems(items, depth).Ok?
    ensures EncodeItems(items[..n], depth).Ok?
    ensures |EncodeItems(items[..n], depth).value| <= |EncodeItems(items, depth).value|
  {
    if n > 0 {
      PrefixNoLonger(items[1..], n - 1, depth);
      assert items[..n][1..] == items[1..][..n - 1];
    }
  }

  lemma {:induction false} TupleNoLonger(to: seq<Value>, from: seq<Value>, depth: nat)
    requires |to| == |from| && forall i :: 0 <= i < |to| ==> to[i] == from[i] || NoLonger(to[i], from[i], depth + 1)
    ensures NoLonger(Array(to), Array(from), depth)
  {
    hide Head;
    if EncodeValue(Array(from), depth).Ok? {
      ItemsNoLonger(to, from, depth + 1);
    }
  }

  lemma {:induction false} TruncatedNoLonger(a: seq<Value>, depth: nat)
    requires |a| == 5
    ensures NoLonger(Array(a[..4]), Array(a), depth)
  {
    if EncodeValue(Array(a), depth).Ok? {
      PrefixNoLonger(a, 4, depth + 1);
    }
  }

  lemma {:induction false} CommandNoLonger(v: Value, depth: nat)
    requires NegativesBelowZero(v) && ParseCommand(v).Ok?
    ensures NoLonger(CommandValue(ParseCommand(v).value), v, depth)
  {
    hide ParseCommand; hide CommandValue; hide NoLonger; hide BrushValue;
    CommandWrites(v);
    IsArray(v);
    if HasBrush(v) {
      ReadBrush(v);
      if NamesDefaultSpace(v.items[2]) {
        TruncatedNoLonger(v.items[2].items, depth + 1);
      }
    }
    if EmptyDashes(v) {
      NullNoLonger(depth + 1);
    }
    TupleNoLonger(Rewritten(v).items, v.items, depth);
  }

  lemma {:induction false} NullNoLonger(depth: nat)
    ensures NoLonger(Null, Array([]), depth)
  {
  }

  lemma {:induction false} IsArray(v: Value)
    requires ParseCommand(v).Ok?
    ensures v.Array?
  {
  }
}
