/** Reading a written command gives it back; writing a read one restores its value unless a default was spelled out. */
module VectorRoundTrip {
  import opened Wrappers
  import opened Words
  import opened Unicode
  import opened Scalars
  import opened Cbor
  import opened CborRoundTrip
  import opened OverlayTypes
  import opened VectorTypes
  import opened VectorCodec

  // ---- Written commands read back ----------------------------------------------------------

  lemma {:induction false} ScalarReads(n: Scalar)
    ensures ParseScalar(Integer(n)) == Ok(n)
  {
    assert InRange(n);
  }

  lemma {:induction false} PointReads(p: Point)
    ensures ParsePoint(PointValue(p)) == Ok(p)
  {
    ScalarReads(p.x);
    ScalarReads(p.y);
  }

  lemma {:induction false} RectReads(r: Rect)
    ensures ParseRect(RectValue(r)) == Ok(r)
  {
    PointReads(r.origin);
    ScalarReads(r.width);
    ScalarReads(r.height);
  }

  lemma {:induction false} SegmentReads(s: Segment)
    ensures ParseSegment(SegmentValue(s)) == Ok(s)
  {
    hide PointValue; hide ParsePoint;
    match s
    case Move(to) => PointReads(to);
    case Line(to) => PointReads(to);
    case Quad(a, to) => PointReads(a); PointReads(to);
    case Cubic(a, b, to) => PointReads(a); PointReads(b); PointReads(to);
    case ClosePath =>
  }

  lemma {:induction false} PathReads(p: Path)
    requires |p.segments| <= MAX_PATH_SEGMENTS
    ensures ParsePath(PathValue(p)) == Ok(p)
  {
    hide SegmentValue; hide ParseSegment;
    var values := Values(SegmentValue, p.segments);
    forall i | 0 <= i < |p.segments| ensures ParseSegment(values[i]) == Ok(p.segments[i]) {
      SegmentReads(p.segments[i]);
    }
    ListReads(ParseSegment, values, p.segments);
  }

  lemma {:induction false} StopsRead(stops: seq<GradientStop>)
    requires |stops| <= MAX_GRADIENT_STOPS
    ensures ParseStops(Array(Values(StopValue, stops))) == Ok(stops)
  {
    ListReads(ParseStop, Values(StopValue, stops), stops);
  }

  lemma {:induction false} ScalarsRead(terms: seq<Scalar>)
    ensures ParseScalars(ScalarsValue(terms)) == Ok(terms)
  {
    hide Integer; hide ParseScalar;
    var values := Values(Integer, terms);
    forall i | 0 <= i < |terms| ensures ParseScalar(values[i]) == Ok(terms[i]) {
      ScalarReads(terms[i]);
    }
    ListReads(ParseScalar, values, terms);
  }

  lemma {:induction false} BrushReads(b: Brush)
    requires ValidBrush(b)
    ensures ParseBrush(BrushValue(b)) == Ok(b)
  {
    hide PointValue; hide ParsePoint; hide Integer; hide ParseScalar; hide ParseStops; hide Values; hide ScalarsValue;
    hide ParseScalars;
    match b
    case Solid(_) =>
    case Linear(start, end, stops, _) => PointReads(start); PointReads(end); StopsRead(stops);
    case Radial(center, radius, stops, _) => PointReads(center); ScalarReads(radius); StopsRead(stops);
    case ImageBrush(_, transform, _) =>
      if transform.Some? {
        ScalarsRead(transform.value);
        ScalarsShape(transform.value);
      }
  }

  lemma {:induction false} ScalarsShape(terms: seq<Scalar>)
    ensures ScalarsValue(terms).Array? && |ScalarsValue(terms).items| == |terms|
  {
  }

  lemma {:induction false} TextReads(t: TextRun)
    ensures ParseText(TextValue(t).items) == Ok(DrawText(t))
  {
    hide PointValue; hide ParsePoint;
    PointReads(t.origin);
    ScalarReads(t.size);
    if t.maxWidth.Some? {
      ScalarReads(t.maxWidth.value);
    }
  }

  lemma {:induction false} ShadowReads(s: Shadow)
    ensures ParseShadow(ShadowValue(s).items) == Ok(CastShadow(s))
  {
    hide PointValue; hide ParsePoint; hide RectValue; hide ParseRect; hide Integer; hide ParseScalar;
    hide ScalarsValue; hide ParseScalars;
    RectReads(s.rect);
    ScalarsRead(s.radii);
    PointReads(s.offset);
    ScalarReads(s.blur);
    ScalarReads(s.spread);
  }

  lemma {:induction false} StyledReads(p: Path, b: Brush, s: StrokeStyle)
    requires |p.segments| <= MAX_PATH_SEGMENTS && ValidBrush(b)
    ensures ParseStyled(StyledValue(p, b, s).items) == Ok(StyledStroke(p, b, s))
  {
    hide PathValue; hide ParsePath; hide BrushValue; hide ParseBrush; hide Integer; hide ParseScalar;
    hide ParseScalars; hide ScalarsValue; hide ValidBrush;
    PathReads(p);
    BrushReads(b);
    ScalarReads(s.width);
    ScalarReads(s.miterLimit);
    ScalarReads(s.dashOffset);
    ScalarsRead(s.dashes);
    ScalarsShape(s.dashes);
  }

  lemma {:induction false} HitReads(id: u64, p: Path, role: HitRole, cursor: Option<CursorShape>)
    requires |p.segments| <= MAX_PATH_SEGMENTS && (role.Resize? ==> 1 <= role.edges <= 15)
    ensures ParseHit(CommandValue(Hit(id, p, role, cursor)).items) == Ok(Hit(id, p, role, cursor))
  {
    hide PathValue; hide ParsePath;
    PathReads(p);
  }

  lemma {:induction false} CommandReads(c: Command)
    requires ValidCommand(c)
    ensures ParseCommand(CommandValue(c)) == Ok(c)
  {
    hide PathValue; hide ParsePath; hide BrushValue; hide ParseBrush; hide PointValue; hide ParsePoint;
    hide Integer; hide ParseScalar; hide RectValue; hide ParseRect; hide ParseText; hide ParseShadow;
    hide ParseStyled; hide ParseHit; hide ScalarsValue; hide ParseScalars; hide ValidBrush; hide SubpathOpen;
    match c
    case Fill(p, b) => PathReads(p); BrushReads(b);
    case Stroke(p, b, w) => PathReads(p); BrushReads(b); ScalarReads(w);
    case Transformed(t) => ScalarsRead(t);
    case Clip(p) => PathReads(p);
    case DrawText(t) => TextReads(t);
    case TextLayout(_, origin) => PointReads(origin);
    case DrawImage(_, rect, _) => RectReads(rect);
    case Hit(id, p, role, cursor) => HitReads(id, p, role, cursor);
    case CastShadow(s) => ShadowReads(s);
    case StyledStroke(p, b, s) => StyledReads(p, b, s);
    case _ =>
  }

  // ---- Written commands are encodable ------------------------------------------------------

  /** CBOR accepts `v` at `depth` and gives it back unchanged. */
  predicate Carried(v: Value, depth: nat) {
    Encodable(v, depth) && NegativesBelowZero(v)
  }

  predicate AllCarried(values: seq<Value>, depth: nat) {
    forall i :: 0 <= i < |values| ==> Carried(values[i], depth)
  }

  lemma {:induction false} ArrayCarried(values: seq<Value>, depth: nat)
    requires depth < MAX_DEPTH && |values| <= MAX_CONTAINER_LENGTH && AllCarried(values, depth + 1)
    ensures Carried(Array(values), depth)
  {
    forall i | 0 <= i < |values| ensures Encodable(values[i], depth + 1) && NegativesBelowZero(values[i]) {
      assert Carried(values[i], depth + 1);
    }
  }

  /** Values without parts. */
  predicate Leaf(v: Value) {
    v.Unsigned? || v.Bool? || v.Null? || (v.Negative? && v.i < 0) || (v.Text? && |v.text| <= MAX_VALUE_LENGTH)
  }

  lemma {:induction false} LeafCarried(v: Value, depth: nat)
    requires Leaf(v) && depth <= MAX_DEPTH
    ensures Carried(v, depth)
  {
  }

  lemma {:induction false} LeavesCarried(values: seq<Value>, depth: nat)
    requires depth <= MAX_DEPTH && forall i :: 0 <= i < |values| ==> Leaf(values[i]) || Carried(values[i], depth)
    ensures AllCarried(values, depth)
  {
    hide Carried; hide Leaf;
    forall i | 0 <= i < |values| ensures Carried(values[i], depth) {
      if Leaf(values[i]) {
        LeafCarried(values[i], depth);
      }
    }
  }

  lemma {:induction false} TupleCarried(values: seq<Value>, depth: nat)
    requires depth < MAX_DEPTH && |values| <= MAX_CONTAINER_LENGTH
    requires forall i :: 0 <= i < |values| ==> Leaf(values[i]) || Carried(values[i], depth + 1)
    ensures Carried(Array(values), depth)
  {
    hide Carried; hide Leaf;
    LeavesCarried(values, depth + 1);
    ArrayCarried(values, depth);
  }

  lemma {:induction false} PointCarried(p: Point, depth: nat)
    requires depth < MAX_DEPTH
    ensures Carried(PointValue(p), depth)
  {
    hide Carried;
    TupleCarried(PointValue(p).items, depth);
  }

  lemma {:induction false} RectCarried(r: Rect, depth: nat)
    requires depth + 1 < MAX_DEPTH
    ensures Carried(RectValue(r), depth)
  {
    hide PointValue; hide Carried;
    PointCarried(r.origin, depth + 1);
    TupleCarried(RectValue(r).items, depth);
  }

  lemma {:induction false} SegmentCarried(s: Segment, depth: nat)
    requires depth + 1 < MAX_DEPTH
    ensures Carried(SegmentValue(s), depth)
  {
    hide PointValue; hide Carried;
    if s.Quad? || s.Cubic? {
      PointCarried(s.a, depth + 1);
    }
    if s.Cubic? {
      PointCarried(s.b, depth + 1);
    }
    if !s.ClosePath? {
      PointCarried(s.to, depth + 1);
    }
    TupleCarried(SegmentValue(s).items, depth);
  }

  lemma {:induction false} PathCarried(p: Path, depth: nat)
    requires depth + 3 < MAX_DEPTH && |p.segments| <= MAX_PATH_SEGMENTS
    ensures Carried(PathValue(p), depth)
  {
    hide SegmentValue; hide Carried;
    forall i | 0 <= i < |p.segments| ensures Carried(SegmentValue(p.segments[i]), depth + 2) {
      SegmentCarried(p.segments[i], depth + 2);
    }
    TupleCarried(Values(SegmentValue, p.segments), depth + 1);
    TupleCarried(PathValue(p).items, depth);
  }

  lemma {:induction false} StopsCarried(stops: seq<GradientStop>, depth: nat)
    requires depth + 1 < MAX_DEPTH && |stops| <= MAX_GRADIENT_STOPS
    ensures Carried(Array(Values(StopValue, stops)), depth)
  {
    hide Carried;
    forall i | 0 <= i < |stops| ensures Carried(StopValue(stops[i]), depth + 1) {
      TupleCarried(StopValue(stops[i]).items, depth + 1);
    }
    TupleCarried(Values(StopValue, stops), depth);
  }

  lemma {:induction false} ScalarsCarried(terms: seq<Scalar>, depth: nat)
    requires depth < MAX_DEPTH && |terms| <= MAX_CONTAINER_LENGTH
    ensures Carried(ScalarsValue(terms), depth)
  {
    hide Carried;
    TupleCarried(Values(Integer, terms), depth);
  }

  lemma {:induction false} BrushCarried(b: Brush, depth: nat)
    requires depth + 2 < MAX_DEPTH && ValidBrush(b)
    ensures Carried(BrushValue(b), depth)
  {
    hide PointValue; hide ScalarsValue; hide Values; hide Carried;
    match b {
      case Solid(_) =>
      case Linear(start, end, stops, _) =>
        PointCarried(start, depth + 1);
        PointCarried(end, depth + 1);
        StopsCarried(stops, depth + 1);
      case Radial(center, _, stops, _) =>
        PointCarried(center, depth + 1);
        StopsCarried(stops, depth + 1);
      case ImageBrush(_, transform, _) =>
        if transform.Some? {
          ScalarsCarried(transform.value, depth + 1);
        }
    }
    TupleCarried(BrushValue(b).items, depth);
  }

  lemma {:induction false} TextCarried(t: TextRun, depth: nat)
    requires depth + 1 < MAX_DEPTH && |t.text| <= MAX_VALUE_LENGTH && |t.family| <= MAX_VALUE_LENGTH
    ensures Carried(TextValue(t), depth)
  {
    hide PointValue; hide Carried;
    PointCarried(t.origin, depth + 1);
    TupleCarried(TextValue(t).items, depth);
  }

  lemma {:induction false} ShadowCarried(s: Shadow, depth: nat)
    requires depth + 2 < MAX_DEPTH
    ensures Carried(ShadowValue(s), depth)
  {
    hide PointValue; hide RectValue; hide ScalarsValue; hide Carried;
    RectCarried(s.rect, depth + 1);
    PointCarried(s.offset, depth + 1);
    ScalarsCarried(s.radii, depth + 1);
    TupleCarried(ShadowValue(s).items, depth);
  }

  lemma {:induction false} StyledCarried(p: Path, b: Brush, s: StrokeStyle, depth: nat)
    requires depth + 4 < MAX_DEPTH && |p.segments| <= MAX_PATH_SEGMENTS && ValidBrush(b) && ValidStyle(s)
    ensures Carried(StyledValue(p, b, s), depth)
  {
    hide PathValue; hide BrushValue; hide ScalarsValue; hide ValidBrush; hide Carried;
    PathCarried(p, depth + 1);
    BrushCarried(b, depth + 1);
    ScalarsCarried(s.dashes, depth + 1);
    TupleCarried(StyledValue(p, b, s).items, depth);
  }

  lemma {:induction false} CommandCarried(c: Command, depth: nat)
    requires depth + 4 < MAX_DEPTH && ValidCommand(c)
    requires c.DrawText? ==> |c.run.text| <= MAX_TEXT_BYTES
    ensures Carried(CommandValue(c), depth)
  {
    hide PathValue; hide BrushValue; hide PointValue; hide RectValue; hide ScalarsValue; hide ValidBrush;
    hide SubpathOpen; hide TextValue; hide ShadowValue; hide StyledValue; hide Carried; hide ValidStyle;
    if PathOf(c).Some? {
      PathCarried(c.path, depth + 1);
    }
    match c {
      case DrawText(t) => TextCarried(t, depth);
      case CastShadow(s) => ShadowCarried(s, depth);
      case StyledStroke(p, b, s) => StyledCarried(p, b, s, depth);
      case Fill(_, b) => BrushCarried(b, depth + 1);
      case Stroke(_, b, _) => BrushCarried(b, depth + 1);
      case Transformed(t) => ScalarsCarried(t, depth + 1);
      case TextLayout(_, origin) => PointCarried(origin, depth + 1);
      case DrawImage(_, rect, _) => RectCarried(rect, depth + 1);
      case _ =>
    }
    if !c.DrawText? && !c.CastShadow? && !c.StyledStroke? {
      TupleCarried(CommandValue(c).items, depth);
    }
  }
}
