/** The command codec over canonical CBOR values. */
module VectorCodec {
  import opened Wrappers
  import opened Words
  import opened Unicode
  import opened Scalars
  import opened Cbor
  import opened CborRoundTrip
  import opened OverlayTypes
  import opened VectorTypes

  type Parsed<+T> = Result<T, InvalidScene>

  // ---- Lists -------------------------------------------------------------------------------

  function Values<T>(write: T -> Value, items: seq<T>): (values: seq<Value>)
    ensures |values| == |items|
    ensures forall i :: 0 <= i < |items| ==> values[i] == write(items[i])
  {
    seq(|items|, i requires 0 <= i < |items| => write(items[i]))
  }

  function ParseAll<T>(parse: Value -> Parsed<T>, values: seq<Value>): (r: Parsed<seq<T>>)
    ensures r.Ok? ==> |r.value| == |values| && forall i :: 0 <= i < |values| ==> parse(values[i]) == Ok(r.value[i])
    ensures r.Err? ==> exists i :: 0 <= i < |values| && parse(values[i]).Err?
  {
    if values == [] then Ok([])
    else
      var front :- ParseAll(parse, values[..|values| - 1]);
      var last :- parse(values[|values| - 1]);
      Ok(front + [last])
  }

  lemma {:induction false} ListReads<T>(parse: Value -> Parsed<T>, values: seq<Value>, items: seq<T>)
    requires |values| == |items| && forall i :: 0 <= i < |items| ==> parse(values[i]) == Ok(items[i])
    ensures ParseAll(parse, values) == Ok(items)
  {
    var r := ParseAll(parse, values);
    assert r.Ok?;
    forall i | 0 <= i < |items| ensures r.value[i] == items[i] {
      assert parse(values[i]) == Ok(items[i]);
    }
    assert r.value == items;
  }

  // ---- Writing -----------------------------------------------------------------------------

  function Integer(n: Scalar): Value {
    assert InRange(n);
    if n >= 0 then Unsigned(n) else Negative(n)
  }

  function PointValue(p: Point): Value {
    Array([Integer(p.x), Integer(p.y)])
  }

  function RectValue(r: Rect): Value {
    Array([PointValue(r.origin), Integer(r.width), Integer(r.height)])
  }

  function SegmentValue(s: Segment): Value {
    Array(match s
          case Move(to) => [Unsigned(0), PointValue(to)]
          case Line(to) => [Unsigned(1), PointValue(to)]
          case Quad(a, to) => [Unsigned(2), PointValue(a), PointValue(to)]
          case Cubic(a, b, to) => [Unsigned(3), PointValue(a), PointValue(b), PointValue(to)]
          case ClosePath => [Unsigned(4)])
  }

  function PathValue(p: Path): Value {
    Array([Value.Bool(p.evenOdd), Array(Values(SegmentValue, p.segments))])
  }

  function StopValue(s: GradientStop): Value {
    Array([Unsigned(s.offset), Unsigned(s.color)])
  }

  function ScalarsValue(terms: seq<Scalar>): Value {
    Array(Values(Integer, terms))
  }

  /** The default colour space is left out, so older scenes keep their bytes. */
  function SpaceValue(space: ColorSpace): seq<Value> {
    if space == Srgb then [] else [Unsigned(1)]
  }

  function BrushValue(b: Brush): Value {
    Array(match b
          case Solid(color) => [Unsigned(0), Unsigned(color)]
          case Linear(start, end, stops, space) =>
            [Unsigned(1), PointValue(start), PointValue(end), Array(Values(StopValue, stops))] + SpaceValue(space)
          case Radial(center, radius, stops, space) =>
            [Unsigned(2), PointValue(center), Integer(radius), Array(Values(StopValue, stops))] + SpaceValue(space)
          case ImageBrush(asset, transform, extend) =>
            [Unsigned(3), Unsigned(asset), if transform.Some? then ScalarsValue(transform.value) else Null,
             Unsigned(match extend case Pad => 0 case Repeat => 1 case Reflect => 2)])
  }

  function RoleValue(role: HitRole): Value {
    Unsigned(match role case Input => 0 case Drag => 1 case Transparent => 2 case Resize(edges) => 16 + edges)
  }

  function TextValue(t: TextRun): Value {
    Array([Unsigned(7), Value.Text(t.text), PointValue(t.origin), Integer(t.size), Value.Text(t.family),
           Unsigned(t.weight), Value.Bool(t.italic), Unsigned(t.color),
           if t.maxWidth.Some? then Integer(t.maxWidth.value) else Null])
  }

  function ShadowValue(s: Shadow): Value {
    Array([Unsigned(11), RectValue(s.rect), ScalarsValue(s.radii), Unsigned(s.color), PointValue(s.offset),
           Integer(s.blur), Integer(s.spread), Value.Bool(s.inset)])
  }

  function CapValue(cap: Cap): Value {
    Unsigned(match cap case Butt => 0 case RoundCap => 1 case Square => 2)
  }

  function JoinValue(join: Join): Value {
    Unsigned(match join case Miter => 0 case Bevel => 1 case RoundJoin => 2)
  }

  function StyledValue(p: Path, b: Brush, s: StrokeStyle): Value {
    Array([Unsigned(12), PathValue(p), BrushValue(b), Integer(s.width), CapValue(s.cap), JoinValue(s.join),
           Integer(s.miterLimit), if s.dashes == [] then Null else ScalarsValue(s.dashes), Integer(s.dashOffset)])
  }

  function CommandValue(c: Command): Value {
    match c
    case Fill(p, b) => Array([Unsigned(0), PathValue(p), BrushValue(b)])
    case Stroke(p, b, w) => Array([Unsigned(1), PathValue(p), BrushValue(b), Integer(w)])
    case Save => Array([Unsigned(2)])
    case Restore => Array([Unsigned(3)])
    case Transformed(t) => Array([Unsigned(4), ScalarsValue(t)])
    case Clip(p) => Array([Unsigned(5), PathValue(p)])
    case Opacity(o) => Array([Unsigned(6), Unsigned(o)])
    case DrawText(t) => TextValue(t)
    case TextLayout(layout, origin) => Array([Unsigned(10), Unsigned(layout), PointValue(origin)])
    case DrawImage(asset, rect, opacity) => Array([Unsigned(8), Unsigned(asset), RectValue(rect), Unsigned(opacity)])
    case Hit(id, p, role, cursor) =>
      Array([Unsigned(9), Unsigned(id), PathValue(p), RoleValue(role)] +
            (if cursor.Some? then [Unsigned(cursor.value)] else []))
    case CastShadow(s) => ShadowValue(s)
    case StyledStroke(p, b, s) => StyledValue(p, b, s)
  }

  // ---- Reading -----------------------------------------------------------------------------

  function ArrayOf(v: Value): Parsed<seq<Value>> {
    if v.Array? then Ok(v.items) else Err(InvalidScene)
  }

  function Uint(v: Value): Parsed<u64> {
    if v.Unsigned? then Ok(v.n) else Err(InvalidScene)
  }

  /** Both integer kinds carry a signed 64-bit value; only in-range coordinates are accepted. */
  function ParseScalar(v: Value): Parsed<Scalar> {
    if v.Unsigned? && v.n <= I64_MAX && InRange(v.n) then Ok(v.n)
    else if v.Negative? && InRange(v.i) then Ok(v.i)
    else Err(InvalidScene)
  }

  function Boolean(v: Value): Parsed<bool> {
    if v.Bool? then Ok(v.b) else Err(InvalidScene)
  }

  function TextOf(v: Value): Parsed<Utf8> {
    if v.Text? then Ok(v.text) else Err(InvalidScene)
  }

  function Small(v: Value): Parsed<u16> {
    if v.Unsigned? && v.n <= U16_MAX then Ok(v.n) else Err(InvalidScene)
  }

  function ParseColor(v: Value): Parsed<Color> {
    if v.Unsigned? && v.n <= U32_MAX then Ok(v.n) else Err(InvalidScene)
  }

  /** The slice pattern `[Value::Unsigned(tag), ..]` of exactly `length` elements. */
  predicate Tagged(a: seq<Value>, tag: u64, length: nat) {
    |a| == length > 0 && a[0] == Unsigned(tag)
  }

  function ParsePoint(v: Value): Parsed<Point> {
    var a :- ArrayOf(v);
    if |a| != 2 then Err(InvalidScene)
    else
      var x :- ParseScalar(a[0]);
      var y :- ParseScalar(a[1]);
      Ok(Point(x, y))
  }

  function ParseRect(v: Value): Parsed<Rect> {
    var a :- ArrayOf(v);
    if |a| != 3 then Err(InvalidScene)
    else
      var origin :- ParsePoint(a[0]);
      var width :- ParseScalar(a[1]);
      var height :- ParseScalar(a[2]);
      Ok(Rect(origin, width, height))
  }

  function ParseSegment(v: Value): Parsed<Segment> {
    var a :- ArrayOf(v);
    if Tagged(a, 0, 2) then
      var to :- ParsePoint(a[1]);
      Ok(Move(to))
    else if Tagged(a, 1, 2) then
      var to :- ParsePoint(a[1]);
      Ok(Line(to))
    else if Tagged(a, 2, 3) then
      var p :- ParsePoint(a[1]);
      var to :- ParsePoint(a[2]);
      Ok(Quad(p, to))
    else if Tagged(a, 3, 4) then
      var p :- ParsePoint(a[1]);
      var q :- ParsePoint(a[2]);
      var to :- ParsePoint(a[3]);
      Ok(Cubic(p, q, to))
    else if Tagged(a, 4, 1) then Ok(ClosePath)
    else Err(InvalidScene)
  }

  function ParsePath(v: Value): Parsed<Path> {
    var a :- ArrayOf(v);
    if |a| != 2 then Err(InvalidScene)
    else
      var list :- ArrayOf(a[1]);
      if |list| > MAX_PATH_SEGMENTS then Err(InvalidScene)
      else
        var segments :- ParseAll(ParseSegment, list);
        var evenOdd :- Boolean(a[0]);
        Ok(Path(segments, evenOdd))
  }

  function ParseStop(v: Value): Parsed<GradientStop> {
    var a :- ArrayOf(v);
    if |a| != 2 then Err(InvalidScene)
    else
      var offset :- Small(a[0]);
      var color :- ParseColor(a[1]);
      Ok(GradientStop(offset, color))
  }

  function ParseStops(v: Value): Parsed<seq<GradientStop>> {
    var a :- ArrayOf(v);
    if |a| > MAX_GRADIENT_STOPS then Err(InvalidScene) else ParseAll(ParseStop, a)
  }

  function ParseSpace(a: seq<Value>): Parsed<ColorSpace> {
    if |a| == 4 then Ok(Srgb)
    else if |a| == 5 && a[4] == Unsigned(0) then Ok(Srgb)
    else if |a| == 5 && a[4] == Unsigned(1) then Ok(Oklab)
    else Err(InvalidScene)
  }

  function ParseScalars(v: Value): Parsed<seq<Scalar>> {
    var a :- ArrayOf(v);
    ParseAll(ParseScalar, a)
  }

  function ParseTransform(v: Value): Parsed<Transform> {
    var terms :- ParseScalars(v);
    if |terms| == 6 then Ok(terms) else Err(InvalidScene)
  }

  function ParseCorners(v: Value): Parsed<Corners> {
    var terms :- ParseScalars(v);
    if |terms| == 4 then Ok(terms) else Err(InvalidScene)
  }

  function ParseOptionalTransform(v: Value): Parsed<Option<Transform>> {
    if v.Null? then Ok(None)
    else
      var t :- ParseTransform(v);
      Ok(Some(t))
  }

  function ParseExtend(v: Value): Parsed<Extend> {
    if v == Unsigned(0) then Ok(Pad)
    else if v == Unsigned(1) then Ok(Repeat)
    else if v == Unsigned(2) then Ok(Reflect)
    else Err(InvalidScene)
  }

  function ParseBrush(v: Value): Parsed<Brush> {
    var a :- ArrayOf(v);
    if Tagged(a, 0, 2) then
      var color :- ParseColor(a[1]);
      Ok(Solid(color))
    else if Tagged(a, 1, 4) || Tagged(a, 1, 5) then
      var start :- ParsePoint(a[1]);
      var end :- ParsePoint(a[2]);
      var stops :- ParseStops(a[3]);
      var space :- ParseSpace(a);
      Ok(Linear(start, end, stops, space))
    else if Tagged(a, 2, 4) || Tagged(a, 2, 5) then
      var center :- ParsePoint(a[1]);
      var radius :- ParseScalar(a[2]);
      var stops :- ParseStops(a[3]);
      var space :- ParseSpace(a);
      Ok(Radial(center, radius, stops, space))
    else if Tagged(a, 3, 4) then
      var asset :- Uint(a[1]);
      var transform :- ParseOptionalTransform(a[2]);
      var extend :- ParseExtend(a[3]);
      Ok(ImageBrush(asset, transform, extend))
    else Err(InvalidScene)
  }

  function ParseRole(v: Value): Parsed<HitRole> {
    var n :- Uint(v);
    if n == 0 then Ok(Input)
    else if n == 1 then Ok(Drag)
    else if n == 2 then Ok(Transparent)
    else if 17 <= n <= 31 then Ok(Resize(n - 16))
    else Err(InvalidScene)
  }

  function ParseCap(v: Value): Parsed<Cap> {
    if v == Unsigned(0) then Ok(Butt)
    else if v == Unsigned(1) then Ok(RoundCap)
    else if v == Unsigned(2) then Ok(Square)
    else Err(InvalidScene)
  }

  function ParseJoin(v: Value): Parsed<Join> {
    if v == Unsigned(0) then Ok(Miter)
    else if v == Unsigned(1) then Ok(Bevel)
    else if v == Unsigned(2) then Ok(RoundJoin)
    else Err(InvalidScene)
  }

  function ParseMaxWidth(v: Value): Parsed<Option<Scalar>> {
    if v.Null? then Ok(None)
    else
      var w :- ParseScalar(v);
      Ok(Some(w))
  }

  function ParseText(a: seq<Value>): Parsed<Command>
    requires |a| == 9
  {
    var text :- TextOf(a[1]);
    var origin :- ParsePoint(a[2]);
    var size :- ParseScalar(a[3]);
    var family :- TextOf(a[4]);
    var weight :- Small(a[5]);
    var italic :- Boolean(a[6]);
    var color :- ParseColor(a[7]);
    var maxWidth :- ParseMaxWidth(a[8]);
    Ok(DrawText(TextRun(text, origin, size, family, weight, italic, color, maxWidth)))
  }

  function ParseShadow(a: seq<Value>): Parsed<Command>
    requires |a| == 8
  {
    var rect :- ParseRect(a[1]);
    var radii :- ParseCorners(a[2]);
    var color :- ParseColor(a[3]);
    var offset :- ParsePoint(a[4]);
    var blur :- ParseScalar(a[5]);
    var spread :- ParseScalar(a[6]);
    var inset :- Boolean(a[7]);
    Ok(CastShadow(Shadow(rect, radii, color, offset, blur, spread, inset)))
  }

  function ParseDashes(v: Value): Parsed<seq<Scalar>> {
    if v.Null? then Ok([]) else ParseScalars(v)
  }

  function ParseStyled(a: seq<Value>): Parsed<Command>
    requires |a| == 9
  {
    var path :- ParsePath(a[1]);
    var brush :- ParseBrush(a[2]);
    var width :- ParseScalar(a[3]);
    var cap :- ParseCap(a[4]);
    var join :- ParseJoin(a[5]);
    var miterLimit :- ParseScalar(a[6]);
    var dashes :- ParseDashes(a[7]);
    var dashOffset :- ParseScalar(a[8]);
    Ok(StyledStroke(path, brush, StrokeStyle(width, cap, join, miterLimit, dashes, dashOffset)))
  }

  function ParseCursor(a: seq<Value>): Parsed<Option<CursorShape>> {
    if |a| == 4 then Ok(None)
    else if |a| == 5 && a[4].Unsigned? && a[4].n < CURSOR_SHAPES then Ok(Some(a[4].n))
    else Err(InvalidScene)
  }

  function ParseHit(a: seq<Value>): Parsed<Command>
    requires 4 <= |a| <= 5
  {
    var id :- Uint(a[1]);
    var path :- ParsePath(a[2]);
    var role :- ParseRole(a[3]);
    var cursor :- ParseCursor(a);
    Ok(Hit(id, path, role, cursor))
  }

  function ParseCommand(v: Value): Parsed<Command> {
    var a :- ArrayOf(v);
    if Tagged(a, 0, 3) then
      var p :- ParsePath(a[1]);
      var b :- ParseBrush(a[2]);
      Ok(Fill(p, b))
    else if Tagged(a, 1, 4) then
      var p :- ParsePath(a[1]);
      var b :- ParseBrush(a[2]);
      var w :- ParseScalar(a[3]);
      Ok(Stroke(p, b, w))
    else if Tagged(a, 2, 1) then Ok(Save)
    else if Tagged(a, 3, 1) then Ok(Restore)
    else if Tagged(a, 4, 2) then
      var t :- ParseTransform(a[1]);
      Ok(Transformed(t))
    else if Tagged(a, 5, 2) then
      var p :- ParsePath(a[1]);
      Ok(Clip(p))
    else if Tagged(a, 6, 2) then
      var o :- Small(a[1]);
      Ok(Opacity(o))
    else if Tagged(a, 7, 9) then ParseText(a)
    else if Tagged(a, 10, 3) then
      var layout :- Uint(a[1]);
      var origin :- ParsePoint(a[2]);
      Ok(TextLayout(layout, origin))
    else if Tagged(a, 8, 4) then
      var asset :- Uint(a[1]);
      var rect :- ParseRect(a[2]);
      var opacity :- Small(a[3]);
      Ok(DrawImage(asset, rect, opacity))
    else if Tagged(a, 9, 4) || Tagged(a, 9, 5) then ParseHit(a)
    else if Tagged(a, 11, 8) then ParseShadow(a)
    else if Tagged(a, 12, 9) then ParseStyled(a)
    else Err(InvalidScene)
  }
}
