/** Vector display lists: drawing commands and what each must satisfy on its own. */
module VectorTypes {
  import opened Wrappers
  import opened Words
  import opened Unicode
  import opened Scalars
  import opened OverlayTypes

  const MAX_SCENE_BYTES: nat := 2 * 1024 * 1024
  const MAX_COMMANDS: nat := 4096
  const MAX_PATH_SEGMENTS: nat := 4096
  const MAX_TOTAL_SEGMENTS: nat := 65536
  const MAX_STACK_DEPTH: nat := 32
  const MAX_TEXT_BYTES: nat := 64 * 1024
  const MAX_FAMILY_BYTES: nat := 256
  const MAX_GRADIENT_STOPS: nat := 64
  const MAX_DASH_ENTRIES: nat := 32
  const MAX_PAINT_EXTENT: int := 4096 * ONE
  const CURSOR_SHAPES: nat := 20

  /** The source's one error type; its message text is not modelled. */
  datatype InvalidScene = InvalidScene

  type Color = u32
  type Transform = t: seq<Scalar> | |t| == 6 witness [ONE, 0, 0, ONE, 0, 0]
  type Corners = c: seq<Scalar> | |c| == 4 witness [0, 0, 0, 0]
  /** A cursor is its place in the declaration order, which is also its wire index. */
  type CursorShape = n: nat | n < CURSOR_SHAPES

  datatype Segment = Move(to: Point) | Line(to: Point) | Quad(a: Point, to: Point) | Cubic(a: Point, b: Point, to: Point)
                   | ClosePath
  datatype Path = Path(segments: seq<Segment>, evenOdd: bool)
  datatype ColorSpace = Srgb | Oklab
  datatype Extend = Pad | Repeat | Reflect
  datatype GradientStop = GradientStop(offset: u16, color: Color)
  datatype Brush =
    | Solid(color: Color)
    | Linear(start: Point, end: Point, stops: seq<GradientStop>, space: ColorSpace)
    | Radial(center: Point, radius: Scalar, stops: seq<GradientStop>, space: ColorSpace)
    | ImageBrush(asset: u64, transform: Option<Transform>, extend: Extend)
  datatype TextRun = TextRun(text: Utf8, origin: Point, size: Scalar, family: Utf8, weight: u16, italic: bool,
                             color: Color, maxWidth: Option<Scalar>)
  datatype Shadow = Shadow(rect: Rect, radii: Corners, color: Color, offset: Point, blur: Scalar, spread: Scalar,
                           inset: bool)
  datatype Cap = Butt | RoundCap | Square
  datatype Join = Miter | Bevel | RoundJoin
  datatype StrokeStyle = StrokeStyle(width: Scalar, cap: Cap, join: Join, miterLimit: Scalar, dashes: seq<Scalar>,
                                     dashOffset: Scalar)

  datatype Command =
    | Fill(path: Path, brush: Brush)
    | Stroke(path: Path, brush: Brush, width: Scalar)
    | Save
    | Restore
    | Transformed(terms: Transform)
    | Clip(path: Path)
    | Opacity(opacity: u16)
    | DrawText(run: TextRun)
    | TextLayout(layout: u64, origin: Point)
    | DrawImage(asset: u64, rect: Rect, opacity: u16)
    | Hit(id: u64, path: Path, role: HitRole, cursor: Option<CursorShape>)
    | CastShadow(shadow: Shadow)
    | StyledStroke(path: Path, brush: Brush, style: StrokeStyle)

  // ---- Paths -------------------------------------------------------------------------------

  /** Some move before `n` has not been closed again. */
  ghost predicate SubpathOpen(segments: seq<Segment>, n: nat)
    requires n <= |segments|
  {
    exists m :: 0 <= m < n && segments[m].Move? && forall k :: m < k < n ==> !segments[k].ClosePath?
  }

  /** Every segment but a move continues or closes a subpath some earlier move opened. */
  ghost predicate ValidPath(p: Path) {
    0 < |p.segments| <= MAX_PATH_SEGMENTS &&
    forall i :: 0 <= i < |p.segments| && !p.segments[i].Move? ==> SubpathOpen(p.segments, i)
  }

  method ValidatePath(p: Path) returns (r: Result<(), InvalidScene>)
    ensures r.Ok? <==> ValidPath(p)
  {
    hide SubpathOpen;
    NothingOpen(p.segments);
    if p.segments == [] || |p.segments| > MAX_PATH_SEGMENTS {
      return Err(InvalidScene);
    }
    var open := false;
    var i := 0;
    while i < |p.segments|
      invariant 0 <= i <= |p.segments|
      invariant open <==> SubpathOpen(p.segments, i)
      invariant forall j :: 0 <= j < i && !p.segments[j].Move? ==> SubpathOpen(p.segments, j)
    {
      var segment := p.segments[i];
      SubpathStep(p.segments, i);
      if segment.Move? {
        open := true;
      } else if !open {
        return Err(InvalidScene);
      } else if segment.ClosePath? {
        open := false;
      }
      i := i + 1;
    }
    return Ok(());
  }

  lemma {:induction false} NothingOpen(segments: seq<Segment>)
    ensures !SubpathOpen(segments, 0)
  {
  }

  lemma {:induction false} SubpathStep(segments: seq<Segment>, i: nat)
    requires i < |segments|
    ensures SubpathOpen(segments, i + 1)
       <==> segments[i].Move? || (SubpathOpen(segments, i) && !segments[i].ClosePath?)
  {
    if segments[i].Move? {
      assert SubpathOpen(segments, i + 1);
    } else if SubpathOpen(segments, i) && !segments[i].ClosePath? {
      var m :| 0 <= m < i && segments[m].Move? && forall k :: m < k < i ==> !segments[k].ClosePath?;
      assert forall k :: m < k < i + 1 ==> !segments[k].ClosePath?;
    }
  }

  // ---- Brushes, strokes, shadows and text --------------------------------------------------

  predicate ValidStops(stops: seq<GradientStop>) {
    2 <= |stops| <= MAX_GRADIENT_STOPS && forall i :: 0 < i < |stops| ==> stops[i - 1].offset <= stops[i].offset
  }

  predicate ValidBrush(b: Brush) {
    match b
    case Solid(_) => true
    case ImageBrush(asset, _, _) => asset != 0
    case Linear(start, end, stops, _) => start != end && ValidStops(stops)
    case Radial(_, radius, stops, _) => radius > 0 && ValidStops(stops)
  }

  predicate ValidCorners(c: Corners) {
    forall i :: 0 <= i < |c| ==> 0 <= c[i] <= MAX_PAINT_EXTENT
  }

  predicate ValidShadow(s: Shadow) {
    ValidRect(s.rect) && ValidCorners(s.radii) && 0 <= s.blur <= MAX_PAINT_EXTENT &&
    -MAX_PAINT_EXTENT <= s.spread <= MAX_PAINT_EXTENT
  }

  predicate ValidStyle(s: StrokeStyle) {
    s.width > 0 && ONE <= s.miterLimit <= MAX_PAINT_EXTENT && |s.dashes| <= MAX_DASH_ENTRIES &&
    (forall i :: 0 <= i < |s.dashes| ==> 0 < s.dashes[i] <= MAX_PAINT_EXTENT) &&
    0 <= s.dashOffset <= MAX_PAINT_EXTENT * MAX_DASH_ENTRIES
  }

  predicate ValidText(t: TextRun) {
    |t.family| <= MAX_FAMILY_BYTES && t.size > 0 && 1 <= t.weight <= 1000 &&
    (t.maxWidth.Some? ==> t.maxWidth.value > 0)
  }

  function PathOf(c: Command): Option<Path> {
    if c.Fill? || c.Stroke? || c.Clip? || c.Hit? || c.StyledStroke? then Some(c.path) else None
  }

  /** What a command must satisfy whatever surrounds it. */
  ghost predicate ValidCommand(c: Command) {
    (PathOf(c).Some? ==> ValidPath(c.path)) &&
    match c
    case Fill(_, brush) => ValidBrush(brush)
    case Stroke(_, brush, width) => ValidBrush(brush) && width > 0
    case StyledStroke(_, brush, style) => ValidBrush(brush) && ValidStyle(style)
    case Hit(id, _, role, _) => id != 0 && (role.Resize? ==> 1 <= role.edges <= 15)
    case DrawText(run) => ValidText(run)
    case TextLayout(layout, _) => layout != 0
    case DrawImage(asset, rect, _) => asset != 0 && ValidRect(rect)
    case CastShadow(shadow) => ValidShadow(shadow)
    case _ => true
  }
}
