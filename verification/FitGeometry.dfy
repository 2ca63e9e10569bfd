/** Fitting a picture into a rectangle in signed 32.32 fixed point, and clipping it. */
module FitGeometry {
  import opened Wrappers
  import opened Words

  const FIXED_ONE: int := 0x1_0000_0000

  datatype Fit = Fill | Contain | Cover | Natural
  datatype FixedRect = FixedRect(x: i64, y: i64, width: i64, height: i64)
  /** The picture: its pixels, and the shape of one pixel. */
  datatype Picture = Picture(width: u32, height: u32, aspectNumerator: u32, aspectDenominator: u32)
  datatype Ratio = Ratio(numerator: i64, denominator: i64)

  // ---- Checked arithmetic ------------------------------------------------------------------

  predicate FitsI64(n: int) {
    -I64_MAX - 1 <= n <= I64_MAX
  }

  function Checked(n: int): Option<i64> {
    if FitsI64(n) then Some(n) else None
  }

  /** Division by two rounds toward zero. */
  function HalfTowardZero(n: int): int {
    if n >= 0 then n / 2 else -(-n / 2)
  }

  // ---- Ratios ------------------------------------------------------------------------------

  function NewRatio(numerator: i64, denominator: i64): Option<Ratio> {
    if denominator > 0 && numerator >= 0 then Some(Ratio(numerator, denominator)) else None
  }

  predicate Greater(a: Ratio, b: Ratio) {
    a.numerator * b.denominator > b.numerator * a.denominator
  }

  function Least(a: Ratio, b: Ratio): Ratio {
    if Greater(a, b) then b else a
  }

  function Greatest(a: Ratio, b: Ratio): Ratio {
    if Greater(a, b) then a else b
  }

  function Apply(r: Ratio, value: i64): Option<i64>
    requires r.denominator > 0 && r.numerator >= 0 && value >= 0
  {
    NonNegativeProduct(value, r.numerator);
    Checked(value * r.numerator / r.denominator)
  }

  lemma {:induction false} NonNegativeProduct(a: int, b: int)
    requires a >= 0 && b >= 0
    ensures a * b >= 0
  {
  }

  // ---- Fitting -----------------------------------------------------------------------------

  function DisplayWidth(p: Picture): (width: Option<i64>)
    requires p.width > 0 && p.aspectNumerator > 0 && p.aspectDenominator > 0
    ensures width.Some? ==> width.value > 0
  {
    PositiveProduct(p.width, p.aspectNumerator);
    var wide :- Checked(p.width * p.aspectNumerator);
    var fixed :- Checked(wide * FIXED_ONE);
    SmallDivisor(fixed, p.aspectDenominator);
    Some(fixed / p.aspectDenominator)
  }

  lemma {:induction false} PositiveProduct(a: int, b: int)
    requires a > 0 && b > 0
    ensures a * b > 0
  {
    NonNegativeProduct(a - 1, b - 1);
    assert (a - 1) * (b - 1) == a * b - a - b + 1;
  }

  lemma {:induction false} SmallDivisor(n: int, d: int)
    requires n >= d > 0
    ensures 0 < n / d <= n
  {
    var q := n / d;
    assert n == d * q + n % d;
    if q > 0 {
      OrderedProducts(q, 1, d);
      assert q * d == d * q;
    }
  }

  function DisplayHeight(p: Picture): Option<i64> {
    Checked(p.height * FIXED_ONE)
  }

  function Scaled(destination: FixedRect, width: i64, height: i64, fit: Fit): Option<(i64, i64)>
    requires width > 0 && height > 0
  {
    match fit
    case Fill => Some((destination.width, destination.height))
    case Natural => Some((width, height))
    case _ =>
      var byWidth :- NewRatio(destination.width, width);
      var byHeight :- NewRatio(destination.height, height);
      var selected := if fit.Contain? then Least(byWidth, byHeight) else Greatest(byWidth, byHeight);
      var w :- Apply(selected, width);
      var h :- Apply(selected, height);
      Some((w, h))
  }

  function Centre(origin: i64, extent: i64, size: i64): Option<i64> {
    var spare :- Checked(extent - size);
    Checked(origin + HalfTowardZero(spare))
  }

  function FitQuad(destination: FixedRect, p: Picture, fit: Fit): Option<FixedRect> {
    if p.width == 0 || p.height == 0 || p.aspectNumerator == 0 || p.aspectDenominator == 0 then None
    else
      var width :- DisplayWidth(p);
      var height :- DisplayHeight(p);
      var size :- Scaled(destination, width, height, fit);
      if size.0 <= 0 || size.1 <= 0 then None
      else
        var x :- Centre(destination.x, destination.width, size.0);
        var y :- Centre(destination.y, destination.height, size.1);
        Some(FixedRect(x, y, size.0, size.1))
  }

  // ---- What fitting promises ---------------------------------------------------------------

  /** One axis of `inner` lies within the same axis of `outer`. */
  predicate Within(inner: int, innerSize: int, outer: int, outerSize: int) {
    outer <= inner && inner + innerSize <= outer + outerSize
  }

  predicate Inside(inner: FixedRect, outer: FixedRect) {
    Within(inner.x, inner.width, outer.x, outer.width) && Within(inner.y, inner.height, outer.y, outer.height)
  }

  /** The margins on both sides differ by at most one unit. */
  predicate Centred(inner: int, innerSize: int, outer: int, outerSize: int) {
    -1 <= (inner - outer) - (outer + outerSize - inner - innerSize) <= 1
  }

  /** `a` by `b` has the aspect of `width` by `height`, short by less than one unit of `b`. */
  predicate Proportional(a: int, b: int, width: int, height: int) {
    0 <= a * height - b * width < width
  }

  lemma {:induction false} FloorBounds(n: nat, d: nat)
    requires d > 0
    ensures d * (n / d) <= n < d * (n / d) + d
  {
    assert n == d * (n / d) + n % d;
  }

  lemma {:induction false} ExactRatio(a: nat, d: nat)
    requires d > 0
    ensures d * a / d == a
  {
    FloorBounds(d * a, d);
    var q := d * a / d;
    if q < a {
      OrderedProducts(d, q + 1, a);
    } else if q > a {
      OrderedProducts(d, a + 1, q);
    }
  }

  lemma {:induction false} OrderedProducts(d: nat, a: int, b: int)
    requires a <= b
    ensures d * a <= d * b
  {
  }

  /** Scaling by the ratio of one axis makes that axis exact and the other proportional from below. */
  lemma {:induction false} AxisExact(extent: nat, along: nat, across: nat)
    requires along > 0
    ensures along * extent / along == extent
    ensures Proportional(extent, across * extent / along, along, across)
  {
    ExactRatio(extent, along);
    NonNegativeProduct(across, extent);
    FloorBounds(across * extent, along);
    assert across * extent == extent * across;
  }

  /** The floored other axis is bounded the way the exact quotient is. */
  lemma {:induction false} AcrossBounded(extent: nat, along: nat, across: nat, limit: nat)
    requires along > 0
    ensures across * extent <= limit * along ==> across * extent / along <= limit
    ensures across * extent >= limit * along ==> across * extent / along >= limit
  {
    NonNegativeProduct(across, extent);
    FloorBounds(across * extent, along);
    var q := across * extent / along;
    assert limit * along == along * limit;
    if q > limit {
      OrderedProducts(along, limit + 1, q);
    }
    if q < limit {
      OrderedProducts(along, q + 1, limit);
    }
  }

  /** The size `Scaled` selects: one axis matches the destination, the other is bounded by it. */
  ghost predicate SizeFits(destination: FixedRect, width: int, height: int, size: (i64, i64), contain: bool) {
    (size.0 == destination.width && Proportional(size.0, size.1, width, height) &&
     (if contain then size.1 <= destination.height else size.1 >= destination.height)) ||
    (size.1 == destination.height && Proportional(size.1, size.0, height, width) &&
     (if contain then size.0 <= destination.width else size.0 >= destination.width))
  }

  lemma {:induction false} ScaledFits(destination: FixedRect, width: i64, height: i64, fit: Fit)
    requires width > 0 && height > 0 && (fit.Contain? || fit.Cover?) && Scaled(destination, width, height, fit).Some?
    ensures SizeFits(destination, width, height, Scaled(destination, width, height, fit).value, fit.Contain?)
  {
    hide Proportional;
    AxisExact(destination.width, width, height);
    AxisExact(destination.height, height, width);
    AcrossBounded(destination.width, width, height, destination.height);
    AcrossBounded(destination.height, height, width, destination.width);
    assert height * destination.width == destination.width * height;
    assert width * destination.height == destination.height * width;
  }

  lemma {:induction false} CentreKeeps(origin: i64, extent: i64, size: i64)
    requires Centre(origin, extent, size).Some?
    ensures var at := Centre(origin, extent, size).value;
            Centred(at, size, origin, extent) && (size <= extent ==> Within(at, size, origin, extent)) &&
            (size >= extent ==> Within(origin, extent, at, size))
  {
  }

  /** `Contain` stays inside, `Cover` leaves nothing bare; one axis is exact, the other within a unit of the aspect. */
  lemma {:induction false} FitHolds(destination: FixedRect, p: Picture, fit: Fit)
    requires (fit.Contain? || fit.Cover?) && FitQuad(destination, p, fit).Some?
    ensures var quad := FitQuad(destination, p, fit).value;
            SizeFits(destination, DisplayWidth(p).value, DisplayHeight(p).value, (quad.width, quad.height), fit.Contain?) &&
            (fit.Contain? ==> Inside(quad, destination)) && (fit.Cover? ==> Inside(destination, quad)) &&
            Centred(quad.x, quad.width, destination.x, destination.width) &&
            Centred(quad.y, quad.height, destination.y, destination.height)
  {
    hide Scaled; hide Centre; hide DisplayWidth; hide Proportional;
    var width, height := DisplayWidth(p).value, DisplayHeight(p).value;
    ScaledFits(destination, width, height, fit);
    var size := Scaled(destination, width, height, fit).value;
    CentreKeeps(destination.x, destination.width, size.0);
    CentreKeeps(destination.y, destination.height, size.1);
  }

  /** `Fill` is the destination itself; the natural size is kept and centred. */
  lemma {:induction false} UnscaledFits(destination: FixedRect, p: Picture, fit: Fit)
    requires (fit.Fill? || fit.Natural?) && FitQuad(destination, p, fit).Some?
    ensures var quad := FitQuad(destination, p, fit).value;
            (fit.Fill? ==> quad == destination) &&
            (fit.Natural? ==> quad.width == DisplayWidth(p).value && quad.height == DisplayHeight(p).value) &&
            Centred(quad.x, quad.width, destination.x, destination.width) &&
            Centred(quad.y, quad.height, destination.y, destination.height)
  {
    hide Centre; hide DisplayWidth;
    var quad := FitQuad(destination, p, fit).value;
    CentreKeeps(destination.x, destination.width, quad.width);
    CentreKeeps(destination.y, destination.height, quad.height);
  }

  // ---- When there is a quad ----------------------------------------------------------------

  function LeastOf(a: int, b: int): int {
    if a < b then a else b
  }

  function GreatestOf(a: int, b: int): int {
    if a > b then a else b
  }

  /** The size a fit asks for, with no ratio chosen: each axis as if scaled by the other, kept in or taken out. */
  function IdealSize(destination: FixedRect, width: nat, height: nat, fit: Fit): (int, int)
    requires width > 0 && height > 0
  {
    var across := width * destination.height / height;
    var down := height * destination.width / width;
    match fit
    case Fill => (destination.width, destination.height)
    case Natural => (width, height)
    case Contain => (LeastOf(destination.width, across), LeastOf(destination.height, down))
    case Cover => (GreatestOf(destination.width, across), GreatestOf(destination.height, down))
  }

  /** The ratio the source selects gives the ideal size, or overflows with it. */
  lemma {:induction false} ScaledIsIdeal(destination: FixedRect, width: i64, height: i64, fit: Fit)
    requires width > 0 && height > 0
    ensures var ideal := IdealSize(destination, width, height, fit);
            if (fit.Fill? || fit.Natural? || (destination.width >= 0 && destination.height >= 0))
               && FitsI64(ideal.0) && FitsI64(ideal.1)
            then Scaled(destination, width, height, fit) == Some(ideal)
            else Scaled(destination, width, height, fit).None?
  {
    if (fit.Contain? || fit.Cover?) && destination.width >= 0 && destination.height >= 0 {
      ExactRatio(destination.width, width);
      ExactRatio(destination.height, height);
      AcrossBounded(destination.width, width, height, destination.height);
      AcrossBounded(destination.height, height, width, destination.width);
      assert height * destination.width == destination.width * height;
      assert width * destination.height == destination.height * width;
    }
  }

  /** The display size of the picture, when fixed point can hold it. */
  predicate Displayable(p: Picture) {
    p.width > 0 && p.height > 0 && p.aspectNumerator > 0 && p.aspectDenominator > 0 &&
    p.width * p.aspectNumerator * FIXED_ONE <= I64_MAX && p.height * FIXED_ONE <= I64_MAX
  }

  lemma {:induction false} DisplayExactly(p: Picture)
    requires p.width > 0 && p.height > 0 && p.aspectNumerator > 0 && p.aspectDenominator > 0
    ensures Displayable(p) <==> DisplayWidth(p).Some? && DisplayHeight(p).Some?
    ensures Displayable(p) ==>
              DisplayWidth(p).value == p.width * p.aspectNumerator * FIXED_ONE / p.aspectDenominator > 0 &&
              DisplayHeight(p).value == p.height * FIXED_ONE
  {
    PositiveProduct(p.width, p.aspectNumerator);
    var wide := p.width * p.aspectNumerator;
    if wide * FIXED_ONE <= I64_MAX {
      SmallDivisor(wide * FIXED_ONE, p.aspectDenominator);
    }
  }

  /** A size of at least one unit that centres without overflow. */
  predicate Centrable(origin: i64, extent: i64, size: int) {
    0 < size <= I64_MAX && FitsI64(extent - size) && FitsI64(origin + HalfTowardZero(extent - size))
  }

  /** When there is a quad at all, told from the picture, the destination and the fit. */
  predicate Fittable(destination: FixedRect, p: Picture, fit: Fit) {
    Displayable(p) && (fit.Contain? || fit.Cover? ==> destination.width >= 0 && destination.height >= 0) &&
    (DisplayExactly(p);
     var ideal := IdealSize(destination, DisplayWidth(p).value, DisplayHeight(p).value, fit);
     Centrable(destination.x, destination.width, ideal.0) && Centrable(destination.y, destination.height, ideal.1))
  }

  /** There is a quad exactly when the picture, its ideal size and its centre can be held; it has that size. */
  lemma {:induction false} FitExactly(destination: FixedRect, p: Picture, fit: Fit)
    ensures FitQuad(destination, p, fit).Some? <==> Fittable(destination, p, fit)
    ensures (FitQuad(destination, p, fit).Some? ==>
               var quad := FitQuad(destination, p, fit).value;
               (quad.width, quad.height) == IdealSize(destination, DisplayWidth(p).value, DisplayHeight(p).value, fit))
  {
    hide DisplayWidth; hide DisplayHeight; hide IdealSize; hide Scaled;
    if p.width > 0 && p.height > 0 && p.aspectNumerator > 0 && p.aspectDenominator > 0 {
      DisplayExactly(p);
      if Displayable(p) {
        ScaledIsIdeal(destination, DisplayWidth(p).value, DisplayHeight(p).value, fit);
      }
    }
  }

  /** Containing leaves both axes a unit exactly when neither floored axis vanishes. */
  lemma {:induction false} ContainedAxes(destination: FixedRect, width: nat, height: nat)
    requires width > 0 && height > 0 && destination.width >= 0 && destination.height >= 0
    ensures var ideal := IdealSize(destination, width, height, Contain);
            (0 < ideal.0 && 0 < ideal.1
             <==> 0 < destination.width && 0 < destination.height &&
                  height <= width * destination.height && width <= height * destination.width)
  {
    NonNegativeProduct(width, destination.height);
    NonNegativeProduct(height, destination.width);
    FloorBounds(width * destination.height, height);
    FloorBounds(height * destination.width, width);
    OneOrMore(width * destination.height, height);
    OneOrMore(height * destination.width, width);
  }

  lemma {:induction false} OneOrMore(n: nat, d: nat)
    requires d > 0
    ensures n / d >= 1 <==> n >= d
  {
    FloorBounds(n, d);
    if n / d >= 1 {
      OrderedProducts(d, 1, n / d);
    } else {
      assert d * 0 == 0;
    }
  }

  /** A contained picture that floors to nothing, and a covering one that leaves 64 bits. */
  lemma {:induction false} FitCanFail()
    ensures FitQuad(FixedRect(0, 0, 1, 1000), Picture(2, 1, 1, 1), Contain).None?
    ensures FitQuad(FixedRect(0, 0, I64_MAX, 1), Picture(1, 2, 1, 1), Cover).None?
  {
    hide FitQuad;
    FitExactly(FixedRect(0, 0, 1, 1000), Picture(2, 1, 1, 1), Contain);
    FitExactly(FixedRect(0, 0, I64_MAX, 1), Picture(1, 2, 1, 1), Cover);
    DisplayExactly(Picture(2, 1, 1, 1));
    DisplayExactly(Picture(1, 2, 1, 1));
    QuotientTwice(I64_MAX);
  }

  lemma {:induction false} QuotientTwice(n: nat)
    ensures 2 * FIXED_ONE * n / FIXED_ONE == 2 * n
  {
  }

  // ---- Clipping ----------------------------------------------------------------------------

  function Far(origin: i64, extent: i64): Option<i64> {
    Checked(origin + extent)
  }

  function Intersect(a: FixedRect, b: FixedRect): Option<FixedRect> {
    var left := if a.x > b.x then a.x else b.x;
    var top := if a.y > b.y then a.y else b.y;
    var ar :- Far(a.x, a.width);
    var br :- Far(b.x, b.width);
    var ab :- Far(a.y, a.height);
    var bb :- Far(b.y, b.height);
    var right := if ar < br then ar else br;
    var bottom := if ab < bb then ab else bb;
    if left >= right || top >= bottom then None
    else Some(FixedRect(left, top, right - left, bottom - top))
  }

  predicate Covers(r: FixedRect, x: int, y: int) {
    r.x <= x < r.x + r.width && r.y <= y < r.y + r.height
  }

  /** Far edges that 64 bits can hold. */
  predicate Bounded(r: FixedRect) {
    FitsI64(r.x + r.width) && FitsI64(r.y + r.height)
  }

  /** The intersection covers exactly what both rectangles cover, if both have far edges; otherwise there is none. */
  lemma {:induction false} IntersectExactly(a: FixedRect, b: FixedRect, x: int, y: int)
    ensures Intersect(a, b).Some? && Covers(Intersect(a, b).value, x, y)
       <==> Covers(a, x, y) && Covers(b, x, y) && Bounded(a) && Bounded(b)
  {
  }

  /** A rectangle whose far edge overflows does not even intersect itself. */
  lemma {:induction false} OverflowingClipVanishes()
    ensures var r := FixedRect(1, 0, I64_MAX, 1);
            Covers(r, 1, 0) && Intersect(r, r).None?
  {
  }
}
