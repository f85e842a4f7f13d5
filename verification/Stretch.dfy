/**
 The automatic screen stretch: black point, white point and midtones balance solved from
 the sky background, and the rendering of a physical value as an 8-bit level. Medians and
 noise figures are inputs; floats are modelled as reals.
 */
module Stretch {
  import opened Reals
  import opened Rounding

  const MIN_SPAN := 0.00000001
  const IDENTITY_ZONE := 0.000001

  function Clip(x: real, lo: real, hi: real): real {
    if x < lo then lo else if x > hi then hi else x
  }

  function Denominator(m: real, x: real): real {
    (2.0 * m - 1.0) * x - m
  }

  /** Midtones transfer function: maps 0 to 0, m to 1/2, 1 to 1. */
  function Mtf(m: real, x: real): real
    requires 0.0 < x < 1.0 ==> Denominator(m, x) != 0.0
  {
    if x <= 0.0 then 0.0
    else if x >= 1.0 then 1.0
    else (m - 1.0) * x / Denominator(m, x)
  }

  /** The denominator is negative on [0, 1]: it runs from -m to m - 1. */
  lemma DenominatorNegative(m: real, x: real)
    requires 0.0 < m < 1.0 && 0.0 <= x <= 1.0
    ensures Denominator(m, x) < 0.0
    ensures Denominator(m, x) == m * (x - 1.0) + (m - 1.0) * x
  {
    var a, b := m * (1.0 - x), x * (1.0 - m);
    DenominatorForm(m, x, a, b);
    if 0.0 < x < 1.0 {
      Positive(m, 1.0 - x, a);
      Positive(x, 1.0 - m, b);
    }
  }

  lemma DenominatorForm(m: real, x: real, a: real, b: real)
    requires a == m * (1.0 - x) && b == x * (1.0 - m)
    ensures Denominator(m, x) == -a - b
    ensures Denominator(m, x) == m * (x - 1.0) + (m - 1.0) * x
  {
  }

  /** What a quotient of the curve's form means, without division. */
  lemma MtfCross(m: real, x: real, y: real)
    requires 0.0 < m < 1.0 && 0.0 < x < 1.0
    ensures Denominator(m, x) < 0.0
    ensures y == Mtf(m, x) <==> y * Denominator(m, x) == (m - 1.0) * x
  {
    DenominatorNegative(m, x);
    QuotientUnique((m - 1.0) * x, Denominator(m, x), y);
  }

  lemma QuotientUnique(a: real, d: real, y: real)
    requires d != 0.0
    ensures y == a / d <==> y * d == a
  {
  }

  /** The curve is strictly inside (0, 1) between its ends. */
  lemma MtfInside(m: real, x: real)
    requires 0.0 < m < 1.0 && 0.0 < x < 1.0
    ensures Denominator(m, x) < 0.0 && 0.0 < Mtf(m, x) < 1.0
    ensures 1.0 - Mtf(m, x) == m * (x - 1.0) / Denominator(m, x)
  {
    DenominatorNegative(m, x);
    var d, y := Denominator(m, x), Mtf(m, x);
    MtfCross(m, x, y);
    assert (1.0 - y) * d == m * (x - 1.0);
    QuotientUnique(m * (x - 1.0), d, 1.0 - y);
    assert (m - 1.0) * x < 0.0 && m * (x - 1.0) < 0.0;
    NegativeQuotient((m - 1.0) * x, d, y);
    NegativeQuotient(m * (x - 1.0), d, 1.0 - y);
  }

  lemma NegativeQuotient(a: real, d: real, y: real)
    requires d < 0.0 && a < 0.0 && y * d == a
    ensures y > 0.0
  {
  }

  /** Solving MTF(m, x) = t for m gives m = MTF(t, x). */
  lemma MtfSelfInverse(t: real, x: real)
    requires 0.0 < t < 1.0 && 0.0 < x < 1.0
    ensures Denominator(t, x) != 0.0 && 0.0 < Mtf(t, x) < 1.0
    ensures Denominator(Mtf(t, x), x) != 0.0 && Mtf(Mtf(t, x), x) == t
  {
    MtfInside(t, x);
    var m := Mtf(t, x);
    MtfCross(t, x, m);
    DenominatorNegative(m, x);
    // both sides say 2mtx - mx - mt - tx + x == 0
    assert m * Denominator(t, x) == 2.0 * (m * t * x) - m * x - m * t;
    assert t * Denominator(m, x) == 2.0 * (m * t * x) - t * x - m * t;
    MtfCross(m, x, t);
  }

  lemma MtfMidpoint(m: real)
    requires 0.0 < m < 1.0
    ensures Denominator(m, m) != 0.0 && Mtf(m, m) == 0.5
  {
    DenominatorNegative(m, m);
    assert Denominator(m, m) == 2.0 * ((m - 1.0) * m);
    MtfCross(m, m, 0.5);
  }

  /** A brighter input never renders darker; strictly brighter inside the range. */
  lemma MtfMonotone(m: real, x: real, y: real)
    requires 0.0 < m < 1.0 && x <= y
    ensures 0.0 < x < 1.0 ==> Denominator(m, x) != 0.0
    ensures 0.0 < y < 1.0 ==> Denominator(m, y) != 0.0
    ensures Mtf(m, x) <= Mtf(m, y)
    ensures 0.0 <= x < y <= 1.0 ==> Mtf(m, x) < Mtf(m, y)
    ensures 0.0 <= Mtf(m, x) <= 1.0
  {
    if 0.0 < x < 1.0 {
      MtfInside(m, x);
    }
    if 0.0 < y < 1.0 {
      MtfInside(m, y);
    }
    if 0.0 < x < y < 1.0 {
      var a, b, dx, dy := Mtf(m, x), Mtf(m, y), Denominator(m, x), Denominator(m, y);
      MtfCross(m, x, a);
      MtfCross(m, y, b);
      CrossDifference(m, x, y, a, b, dx, dy);
    }
  }

  lemma CrossDifference(m: real, x: real, y: real, a: real, b: real, dx: real, dy: real)
    requires 0.0 < m < 1.0 && x < y
    requires dx == Denominator(m, x) < 0.0 && dy == Denominator(m, y) < 0.0
    requires a * dx == (m - 1.0) * x && b * dy == (m - 1.0) * y
    ensures a < b
  {
    var p, u, v := dx * dy, m * (y - x), y * dx - x * dy;
    var gap, w := (b - a) * p, (1.0 - m) * u;
    Positive(-dx, -dy, p);
    Positive(m, y - x, u);
    Positive(1.0 - m, u, w);
    DenominatorCross(m, x, y, u, v);
    CrossTerms(a, b, dx, dy, p, gap);
    Factor(m - 1.0, x, y, dx, dy, v);
    assert (m - 1.0) * v == w;
    PositiveFactor(b - a, p);
  }

  lemma CrossTerms(a: real, b: real, dx: real, dy: real, p: real, gap: real)
    requires p == dx * dy && gap == (b - a) * p
    ensures gap == b * dy * dx - a * dx * dy
  {
  }

  lemma Factor(n: real, x: real, y: real, dx: real, dy: real, v: real)
    requires v == y * dx - x * dy
    ensures n * y * dx - n * x * dy == n * v
  {
  }

  lemma DenominatorCross(m: real, x: real, y: real, u: real, v: real)
    requires u == m * (y - x) && v == y * Denominator(m, x) - x * Denominator(m, y)
    ensures v == -u
  {
    assert y * Denominator(m, x) == (2.0 * m - 1.0) * (x * y) - m * y;
    assert x * Denominator(m, y) == (2.0 * m - 1.0) * (x * y) - m * x;
  }

  lemma PositiveFactor(d: real, p: real)
    requires p > 0.0 && d * p > 0.0
    ensures d > 0.0
  {
  }

  // ---- solving for the stretch ----

  datatype Params = Params(black: real, white: real, midtone: real)

  /** Black point, white point and midtones balance from the background's median and noise. */
  function StretchFromSample(median: real, sigma: real, aduMax: real, targetBg: real, shadowsSigma: real): Params
    requires 0.0 < targetBg < 1.0
  {
    var white := aduMax;
    if sigma <= 0.0 || white <= 0.0 then Params(0.0, white, 0.5)
    else
      var black := Clip(median + shadowsSigma * sigma, 0.0, white);
      var span := white - black;
      if span <= 0.0 then Params(black, white, 0.5)
      else
        var x0 := (median - black) / span;
        if x0 <= 0.0 || x0 >= targetBg then Params(black, white, 0.5)
        else
          DenominatorNegative(targetBg, x0);
          Params(black, white, Mtf(targetBg, x0))
  }

  /** A midtone is solved for: noise is measurable and the background lies between black and the target. */
  predicate Solved(median: real, sigma: real, aduMax: real, targetBg: real, shadowsSigma: real)
    requires 0.0 < targetBg < 1.0
  {
    var p := StretchFromSample(median, sigma, aduMax, targetBg, shadowsSigma);
    sigma > 0.0 && p.black < p.white && p.black < median && (median - p.black) / (p.white - p.black) < targetBg
  }

  /** Rescaled to [0, 1] between black and white. */
  function Rescale(v: real, low: real, high: real): real
    requires high > low
  {
    Clip((v - low) / (high - low), 0.0, 1.0)
  }

  /** Black lies in [0, white] and the midtone is at most 1/2, below it exactly when it was solved for. */
  lemma ParamsInRange(median: real, sigma: real, aduMax: real, targetBg: real, shadowsSigma: real)
    requires 0.0 < targetBg < 1.0 && aduMax > 0.0
    ensures var p := StretchFromSample(median, sigma, aduMax, targetBg, shadowsSigma);
            && 0.0 <= p.black <= p.white == aduMax
            && 0.0 < p.midtone <= 0.5
            && (p.midtone < 0.5 <==> Solved(median, sigma, aduMax, targetBg, shadowsSigma))
  {
    var p := StretchFromSample(median, sigma, aduMax, targetBg, shadowsSigma);
    if sigma > 0.0 && p.black < p.white {
      var x0 := (median - p.black) / (p.white - p.black);
      QuotientSign(median - p.black, p.white - p.black);
      if 0.0 < x0 < targetBg {
        MtfInside(targetBg, x0);
        MtfMidpoint(targetBg);
        MtfMonotone(targetBg, x0, targetBg);
      }
    }
  }

  lemma QuotientSign(a: real, d: real)
    requires d > 0.0
    ensures a / d > 0.0 <==> a > 0.0
    ensures a / d == a * (1.0 / d)
  {
    var q := a / d;
    assert q * d == a;
  }

  /** Whenever a midtone is solved for, the curve sends the sky median exactly to the target background. */
  lemma HitsTarget(median: real, sigma: real, aduMax: real, targetBg: real, shadowsSigma: real)
    requires 0.0 < targetBg < 1.0 && Solved(median, sigma, aduMax, targetBg, shadowsSigma)
    ensures var p := StretchFromSample(median, sigma, aduMax, targetBg, shadowsSigma);
            && p.black < p.white && 0.0 < p.midtone < 1.0
            && 0.0 < Rescale(median, p.black, p.white) < targetBg
            && Denominator(p.midtone, Rescale(median, p.black, p.white)) != 0.0
            && Mtf(p.midtone, Rescale(median, p.black, p.white)) == targetBg
  {
    var p := StretchFromSample(median, sigma, aduMax, targetBg, shadowsSigma);
    var x0 := (median - p.black) / (p.white - p.black);
    QuotientSign(median - p.black, p.white - p.black);
    assert x0 == Rescale(median, p.black, p.white);
    MtfSelfInverse(targetBg, x0);
  }

  // ---- rendering ----

  /** The curve as the renderer applies it: the identity when the midtone is within 1e-6 of 1/2. */
  function Curve(m: real, x: real): real
    requires 0.0 < m < 1.0 && 0.0 <= x <= 1.0
  {
    DenominatorNegative(m, x);
    if Abs(m - 0.5) > IDENTITY_ZONE then x * (m - 1.0) / (x * (2.0 * m - 1.0) - m) else x
  }

  /** The 8-bit level of a physical value. Without a span, every value renders as the black point's place in full
      scale. */
  function Level(v: real, low: real, high: real, m: real, aduMax: real): int
    requires 0.0 < m < 1.0
  {
    if high - low < MIN_SPAN then
      Round((if aduMax > 0.0 then Clip(low / aduMax, 0.0, 1.0) else 0.0) * 255.0)
    else
      (Curve(m, Rescale(v, low, high)) * 255.0).Floor
  }

  lemma CurveIsMtf(m: real, x: real)
    requires 0.0 < m < 1.0 && 0.0 <= x <= 1.0 && Abs(m - 0.5) > IDENTITY_ZONE
    ensures 0.0 < x < 1.0 ==> Denominator(m, x) != 0.0
    ensures Curve(m, x) == Mtf(m, x)
  {
    DenominatorNegative(m, x);
    assert x * (2.0 * m - 1.0) - m == Denominator(m, x);
    if x == 0.0 {
      QuotientUnique(0.0, Denominator(m, x), 0.0);
    } else if x == 1.0 {
      QuotientUnique(m - 1.0, Denominator(m, x), 1.0);
    }
  }

  lemma CurveMonotone(m: real, x: real, y: real)
    requires 0.0 < m < 1.0 && 0.0 <= x <= y <= 1.0
    ensures 0.0 <= Curve(m, x) <= Curve(m, y) <= 1.0
  {
    if Abs(m - 0.5) > IDENTITY_ZONE {
      CurveIsMtf(m, x);
      CurveIsMtf(m, y);
      MtfMonotone(m, x, y);
      MtfMonotone(m, y, y);
    }
  }

  lemma RescaleMonotone(v: real, v': real, low: real, high: real)
    requires high > low && v <= v'
    ensures Rescale(v, low, high) <= Rescale(v', low, high)
    ensures v <= low ==> Rescale(v, low, high) == 0.0
    ensures v >= high ==> Rescale(v, low, high) == 1.0
  {
    var p, q, span := (v - low) / (high - low), (v' - low) / (high - low), high - low;
    QuotientOrder(v - low, v' - low, span, p, q);
    QuotientOrder(v - low, 0.0, span, p, 0.0);
    QuotientOrder(span, v - low, span, 1.0, p);
  }

  lemma QuotientOrder(a: real, b: real, span: real, p: real, q: real)
    requires span > 0.0 && p * span == a && q * span == b
    ensures a <= b ==> p <= q
  {
    if p > q {
      Positive(p - q, span, (p - q) * span);
    }
  }

  lemma ScaleMonotone(a: real, b: real, f: real, p: real, q: real)
    requires f > 0.0 && p == a * f && q == b * f
    ensures a <= b ==> p <= q
  {
  }

  /** Levels lie in 0..255 and keep the order of the values; black renders 0 and white 255. */
  lemma LevelOrdered(v: real, v': real, low: real, high: real, m: real, aduMax: real)
    requires 0.0 < m < 1.0 && v <= v'
    ensures 0 <= Level(v, low, high, m, aduMax) <= Level(v', low, high, m, aduMax) <= 255
    ensures high - low >= MIN_SPAN && v <= low ==> Level(v, low, high, m, aduMax) == 0
    ensures high - low >= MIN_SPAN && v >= high ==> Level(v, low, high, m, aduMax) == 255
  {
    if high - low < MIN_SPAN {
      FlatLevel(low, aduMax);
    } else {
      RescaleMonotone(v, v', low, high);
      RescaleMonotone(v', v', low, high);
      CurveMonotone(m, Rescale(v, low, high), Rescale(v', low, high));
      CurveEnds(m);
    }
  }

  lemma FlatLevel(low: real, aduMax: real)
    ensures 0 <= Round((if aduMax > 0.0 then Clip(low / aduMax, 0.0, 1.0) else 0.0) * 255.0) <= 255
  {
    var level := if aduMax > 0.0 then Clip(low / aduMax, 0.0, 1.0) else 0.0;
    RoundOfInt(0);
    RoundOfInt(255);
    RoundMonotone(0.0, level * 255.0);
    RoundMonotone(level * 255.0, 255.0);
  }

  lemma CurveEnds(m: real)
    requires 0.0 < m < 1.0
    ensures Curve(m, 0.0) == 0.0 && Curve(m, 1.0) == 1.0
  {
    if Abs(m - 0.5) > IDENTITY_ZONE {
      CurveIsMtf(m, 0.0);
      CurveIsMtf(m, 1.0);
    }
  }

  /** Replacing the curve by the identity moves a level by less than 2e-6. */
  lemma IdentityShortcut(m: real, x: real)
    requires Abs(m - 0.5) <= IDENTITY_ZONE && 0.0 <= x <= 1.0
    ensures 0.0 < x < 1.0 ==> Denominator(m, x) != 0.0
    ensures Abs(Mtf(m, x) - x) < 0.000002
  {
    if 0.0 < x < 1.0 {
      DenominatorNegative(m, x);
      var d, y, w := Denominator(m, x), Mtf(m, x), x * (1.0 - x);
      MtfCross(m, x, y);
      Displacement(m, x, y, d, w);
      QuarterBound(x, w);
      NearHalf(m, x);
      SmallMove(m, y - x, d, w);
    }
  }

  lemma SmallMove(m: real, q: real, d: real, w: real)
    requires Abs(m - 0.5) <= IDENTITY_ZONE && 0.0 <= w <= 0.25 && d <= -0.49
    requires q * d == (2.0 * m - 1.0) * w
    ensures Abs(q) < 0.000002
  {
    var p := (2.0 * m - 1.0) * w;
    SmallProduct(2.0 * m - 1.0, 4.0 * w, 0.000002, 4.0 * p);
    SmallQuotient(q, d, p);
  }

  /** How far the curve is from the identity, times the denominator. */
  lemma Displacement(m: real, x: real, y: real, d: real, w: real)
    requires d == Denominator(m, x) && y * d == (m - 1.0) * x && w == x * (1.0 - x)
    ensures (y - x) * d == (2.0 * m - 1.0) * w
  {
    assert x * d == (2.0 * m - 1.0) * (x * x) - m * x;
    assert (y - x) * d == y * d - x * d;
    assert (2.0 * m - 1.0) * w == (2.0 * m - 1.0) * x - (2.0 * m - 1.0) * (x * x);
  }

  lemma QuarterBound(x: real, w: real)
    requires 0.0 < x < 1.0 && w == x * (1.0 - x)
    ensures 0.0 <= w <= 0.25
  {
    Positive(x, 1.0 - x, w);
    var c := x - 0.5;
    Square(c, c * c);
    CompletedSquare(x, w, c, c * c);
  }

  lemma CompletedSquare(x: real, w: real, c: real, s: real)
    requires w == x * (1.0 - x) && c == x - 0.5 && s == c * c
    ensures s == 0.25 - w
  {
  }

  lemma NearHalf(m: real, x: real)
    requires Abs(m - 0.5) <= IDENTITY_ZONE && 0.0 <= x <= 1.0
    ensures Denominator(m, x) <= -0.49
  {
    var p := (m - 0.5) * (2.0 * x - 1.0);
    CentredDenominator(m, x, p);
    SmallProduct(m - 0.5, 2.0 * x - 1.0, IDENTITY_ZONE, p);
  }

  lemma CentredDenominator(m: real, x: real, p: real)
    requires p == (m - 0.5) * (2.0 * x - 1.0)
    ensures Denominator(m, x) == p - 0.5
  {
  }

  lemma SmallProduct(a: real, b: real, bound: real, p: real)
    requires Abs(a) <= bound && Abs(b) <= 1.0 && p == a * b && bound > 0.0
    ensures Abs(p) <= bound
  {
    if b > 0.0 {
      SmallScaled(a, b, bound, p);
    } else if b < 0.0 {
      SmallScaled(a, -b, bound, -p);
    }
  }

  lemma SmallScaled(a: real, b: real, bound: real, p: real)
    requires -bound <= a <= bound && 0.0 < b <= 1.0 && p == a * b && bound > 0.0
    ensures -bound <= p <= bound
  {
    var pb := bound * b;
    ScaleMonotone(a, bound, b, p, pb);
    ScaleMonotone(-bound, a, b, -pb, p);
    ScaleMonotone(b, 1.0, bound, pb, bound);
  }

  lemma SmallQuotient(q: real, d: real, p: real)
    requires q * d == p && d <= -0.49 && Abs(p) <= 0.0000005
    ensures Abs(q) < 0.000002
  {
    if q > 0.0 {
      ScaleMonotone(0.49, -d, q, 0.49 * q, -p);
    } else if q < 0.0 {
      ScaleMonotone(0.49, -d, -q, 0.49 * -q, p);
    }
  }

  /**
   The rendered background: exactly the target unless the midtone falls in the identity zone,
   where it misses by less than 2e-6 but is never exact.
   */
  lemma RenderedBackground(median: real, sigma: real, aduMax: real, targetBg: real, shadowsSigma: real)
    requires 0.0 < targetBg < 1.0 && Solved(median, sigma, aduMax, targetBg, shadowsSigma)
    ensures var p := StretchFromSample(median, sigma, aduMax, targetBg, shadowsSigma);
            && p.black < p.white && 0.0 < p.midtone < 1.0
            && var shown := Curve(p.midtone, Rescale(median, p.black, p.white));
            && (shown == targetBg <==> Abs(p.midtone - 0.5) > IDENTITY_ZONE)
            && Abs(shown - targetBg) < 0.000002
  {
    HitsTarget(median, sigma, aduMax, targetBg, shadowsSigma);
    var p := StretchFromSample(median, sigma, aduMax, targetBg, shadowsSigma);
    var x := Rescale(median, p.black, p.white);
    if Abs(p.midtone - 0.5) > IDENTITY_ZONE {
      CurveIsMtf(p.midtone, x);
    } else {
      IdentityShortcut(p.midtone, x);
    }
  }
}
