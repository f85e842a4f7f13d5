/**
 What the preview builder reads from one frame: bin factor, Bayer pattern, physical values,
 full scale, histograms, samples. Everything here is about whole frames and single strips;
 PreviewLoad puts the strips together. Floats are modelled as reals.
 */
module PreviewFrame {
  import opened Wrappers
  import opened Grids

  const HIST_BINS := 128
  const STRIP_PIXELS := 256 * 1024
  const SAMPLE_TARGET := 250_000
  const SATURATION_FRACTION := 0.995
  const PREVIEW_MAX_DIM := 2000

  /** The on-disk pixel type: an integer type has a largest value. */
  datatype PixelType = Integer(max: int) | Floating

  /** The header cards the builder reads; `bayerpat` is stripped and upper-cased, "" when absent. */
  datatype Header = Header(bzero: real, bscale: real, bayerpat: string, xbayroff: int, ybayroff: int)

  datatype Pixel = Mono(v: real) | Rgb(r: real, g: real, b: real)

  datatype PreviewBase = PreviewBase(
    data: seq<seq<Pixel>>,
    aduMax: real,
    histogram: seq<nat>,
    histMax: real,
    mean: real,
    fullSample: seq<real>,
    saturated: Option<nat>,
    width: nat,
    height: nat,
    binFactor: nat,
    bayerPattern: Option<string>,
    channelHistograms: seq<seq<nat>>,
    channelSamples: seq<seq<real>>)

  datatype LoadError = EmptyImage

  function Max(a: int, b: int): int {
    if a > b then a else b
  }

  function Min(a: int, b: int): int {
    if a < b then a else b
  }

  // ---- bin factor ----

  function CeilDiv(a: nat, b: nat): nat
    requires b > 0
  {
    (a + b - 1) / b
  }

  function BinFactor(height: nat, width: nat, maxDim: nat, bayer: bool): (k: nat)
    requires maxDim > 0
    ensures k >= 1
    ensures bayer ==> k % 2 == 0
  {
    var k := Max(1, CeilDiv(Max(height, width), maxDim));
    if bayer && k % 2 != 0 then k + 1 else k
  }

  /**
   The factor is the least one (least even one, for a Bayer frame) with
   longest side <= factor * maxDim. It is not always the least one whose binned
   image fits: see BinFactorNotLeastFit.
   */
  lemma BinFactorLeast(height: nat, width: nat, maxDim: nat, bayer: bool, k': nat)
    requires maxDim > 0 && k' >= 1 && (bayer ==> k' % 2 == 0)
    ensures Max(height, width) <= BinFactor(height, width, maxDim, bayer) * maxDim
    ensures Max(height, width) <= k' * maxDim ==> BinFactor(height, width, maxDim, bayer) <= k'
  {
    var side: nat := Max(height, width);
    var q, k := CeilDiv(side, maxDim), BinFactor(height, width, maxDim, bayer);
    CeilDivLeast(side, maxDim, k);
    CeilDivLeast(side, maxDim, k');
  }

  lemma CeilDivLeast(a: nat, b: nat, k: nat)
    requires b > 0
    ensures a <= k * b <==> CeilDiv(a, b) <= k
  {
    var n := a + b - 1;
    var q := n / b;
    assert n == q * b + n % b;
    MulFar(q - k, b);
    assert (q - k) * b == q * b - k * b;
    MulFar(k - q + 1, b);
    assert (k - q + 1) * b == k * b - q * b + b;
  }

  /** Factors go up in steps of one, or of two for a Bayer frame. */
  function FactorStep(bayer: bool): nat {
    if bayer then 2 else 1
  }

  /** The binned longest side is the whole number of blocks: it fits the target. */
  predicate Fits(height: nat, width: nat, maxDim: nat, k: nat)
    requires k > 0
  {
    Max(height, width) / k <= maxDim
  }

  /** No smaller allowed factor brings the longest side under the target. */
  predicate LeastFit(height: nat, width: nat, maxDim: nat, bayer: bool, k: nat)
    requires k > 0
  {
    Fits(height, width, maxDim, k) && forall k' :: 0 < k' < k && k' % FactorStep(bayer) == 0 ==>
      !Fits(height, width, maxDim, k')
  }

  lemma FitsIff(height: nat, width: nat, maxDim: nat, k: nat)
    requires k > 0
    ensures Fits(height, width, maxDim, k) <==> Max(height, width) < k * (maxDim + 1)
  {
    var side := Max(height, width);
    var q := side / k;
    assert side == q * k + side % k;
    assert k * (maxDim + 1) == maxDim * k + k;
    MulFar(maxDim - q, k);
    MulFar(q - maxDim - 1, k);
    assert (maxDim - q) * k == maxDim * k - q * k;
    assert (q - maxDim - 1) * k == q * k - maxDim * k - k;
  }

  /**
   The documented promise, the smallest factor that brings the longest side under the target, is kept
   exactly when the next smaller allowed factor k - 1 (k - 2 for a Bayer frame) leaves it above. It
   always brings the side under the target.
   */
  lemma BinFactorIsLeastFitIff(height: nat, width: nat, maxDim: nat, bayer: bool)
    requires maxDim > 0
    ensures var k, step := BinFactor(height, width, maxDim, bayer), FactorStep(bayer);
            && Fits(height, width, maxDim, k)
            && (LeastFit(height, width, maxDim, bayer, k)
               <==> k == step || (k - step) * (maxDim + 1) <= Max(height, width))
  {
    var k, step, side := BinFactor(height, width, maxDim, bayer), FactorStep(bayer), Max(height, width);
    BinFactorLeast(height, width, maxDim, bayer, k);
    assert k * (maxDim + 1) == k * maxDim + k;
    FitsIff(height, width, maxDim, k);
    assert k >= step && k % step == 0;
    if k > step {
      FitsIff(height, width, maxDim, k - step);
      assert (k - step) % step == 0;
      if (k - step) * (maxDim + 1) <= side {
        forall k' | 0 < k' < k && k' % step == 0 ensures !Fits(height, width, maxDim, k') {
          FitsIff(height, width, maxDim, k');
          NextBelow(k', k, bayer);
          MulMono(k', k - step, maxDim + 1);
        }
      }
    }
  }

  lemma NextBelow(k': nat, k: nat, bayer: bool)
    requires k' < k && k' % FactorStep(bayer) == 0 && k % FactorStep(bayer) == 0
    ensures k' <= k - FactorStep(bayer)
  {
  }

  lemma MulMono(a: nat, b: nat, c: nat)
    requires a <= b
    ensures a * c <= b * c
  {
  }

  /** 4001 pixels are divided by 3 where 2 fits a target of 2000, and 100 by 100 where 51 fits a target of 1. */
  lemma BinFactorNotLeastFit()
    ensures BinFactor(4001, 1, PREVIEW_MAX_DIM, false) == 3 && Fits(4001, 1, PREVIEW_MAX_DIM, 2)
    ensures BinFactor(100, 1, 1, false) == 100 && LeastFit(100, 1, 1, false, 51)
  {
    forall k' | 0 < k' < 51 ensures !Fits(100, 1, 1, k') {
      FitsIff(100, 1, 1, k');
    }
  }

  // ---- Bayer pattern ----

  /** The colour of the Bayer cell at (y, x): BAYERPAT names the 2x2 cell that starts at (XBAYROFF, YBAYROFF). */
  function CellColour(h: Header, y: int, x: int): char
    requires |h.bayerpat| == 4
  {
    h.bayerpat[(y + h.ybayroff) % 2 * 2 + (x + h.xbayroff) % 2]
  }

  function Occurs(p: string, c: char): nat
    requires |p| == 4
  {
    (if p[0] == c then 1 else 0) + (if p[1] == c then 1 else 0)
    + (if p[2] == c then 1 else 0) + (if p[3] == c then 1 else 0)
  }

  /** Sorted, the pattern reads B, G, G, R. */
  predicate ValidPattern(p: string) {
    |p| == 4 && Occurs(p, 'B') == 1 && Occurs(p, 'G') == 2 && Occurs(p, 'R') == 1
  }

  /** Effective pattern at array (0, 0), or None for a mono frame. */
  function BayerPattern(h: Header): (p: Option<string>)
  {
    if ValidPattern(h.bayerpat) then
      var xoff, yoff := h.xbayroff % 2, h.ybayroff % 2;
      Some(seq(4, i requires 0 <= i < 4 => h.bayerpat[(i / 2 + yoff) % 2 * 2 + (i % 2 + xoff) % 2]))
    else None
  }

  /** Any offsets only permute the pattern. */
  lemma BayerPatternPermutes(h: Header)
    requires ValidPattern(h.bayerpat)
    ensures BayerPattern(h).Some? && ValidPattern(BayerPattern(h).value)
  {
    var p := BayerPattern(h).value;
    forall c ensures Occurs(p, c) == Occurs(h.bayerpat, c) {
      ShiftedOccurs(h, c);
    }
  }

  lemma ShiftedOccurs(h: Header, c: char)
    requires ValidPattern(h.bayerpat)
    ensures Occurs(BayerPattern(h).value, c) == Occurs(h.bayerpat, c)
  {
    if h.ybayroff % 2 == 0 {
      if h.xbayroff % 2 == 0 {
      } else {
      }
    } else if h.xbayroff % 2 == 0 {
    } else {
    }
  }

  /** The effective pattern names the colour of every cell of the array. */
  lemma BayerPatternNamesCells(h: Header, y: int, x: int)
    requires ValidPattern(h.bayerpat)
    ensures BayerPattern(h).value[y % 2 * 2 + x % 2] == CellColour(h, y, x)
  {
    ParityAdd(y, h.ybayroff);
    ParityAdd(x, h.xbayroff);
    var i := y % 2 * 2 + x % 2;
    assert i / 2 == y % 2 && i % 2 == x % 2;
  }

  lemma ParityAdd(a: int, b: int)
    ensures (a % 2 + b % 2) % 2 == (a + b) % 2
  {
  }

  /** Index of a colour in ("R", "G", "B"). */
  function ChannelOf(c: char): nat {
    if c == 'R' then 0 else if c == 'G' then 1 else 2
  }

  // ---- physical values and full scale ----

  /** Physical value = BZERO + BSCALE * array value (FITS Standard 4.0, section 4.4.2.5). */
  function Physical(raw: Grid, h: Header): (g: Grid) {
    seq(|raw|, r requires 0 <= r < |raw| =>
      seq(|raw[r]|, c requires 0 <= c < |raw[r]| => raw[r][c] * h.bscale + h.bzero))
  }

  /** Full-scale value of an integer-valued physical type; None when there is no fixed full scale. */
  function FixedAduMax(t: PixelType, h: Header): Option<real> {
    if t.Floating? || h.bscale != 1.0 || h.bzero != h.bzero.Floor as real then None
    else Some(t.max as real + h.bzero)
  }

  function MaxOf(s: seq<real>): (m: real)
    requires s != []
    ensures m in s
    ensures forall i :: 0 <= i < |s| ==> s[i] <= m
  {
    if |s| == 1 then s[0]
    else
      var rest := MaxOf(s[1..]);
      assert s == [s[0]] + s[1..];
      if s[0] >= rest then s[0] else rest
  }

  // ---- histogram, saturation, sampling ----

  /** Bin of a value among HIST_BINS equal bins over [0, histMax]; the last bin is closed; -1 outside. */
  function Bin(v: real, histMax: real): int
    requires histMax > 0.0
  {
    if v < 0.0 || v > histMax then -1
    else if v == histMax then HIST_BINS - 1
    else (v * HIST_BINS as real / histMax).Floor
  }

  function InBin(b: nat, histMax: real): real -> bool
    requires histMax > 0.0
  {
    v => Bin(v, histMax) == b
  }

  function Histogram(g: Grid, histMax: real): (h: seq<nat>)
    requires histMax > 0.0
    ensures |h| == HIST_BINS
  {
    seq(HIST_BINS, b requires 0 <= b < HIST_BINS => Count(Flatten(g), InBin(b, histMax)))
  }

  function ZeroHistogram(): (h: seq<nat>)
    ensures |h| == HIST_BINS
  {
    seq(HIST_BINS, _ => 0)
  }

  function AddHistograms(a: seq<nat>, b: seq<nat>): (h: seq<nat>)
    requires |a| == |b| == HIST_BINS
    ensures |h| == HIST_BINS
  {
    seq(HIST_BINS, i requires 0 <= i < HIST_BINS => a[i] + b[i])
  }

  lemma HistogramAppend(a: Grid, b: Grid, histMax: real)
    requires histMax > 0.0
    ensures Histogram(a + b, histMax) == AddHistograms(Histogram(a, histMax), Histogram(b, histMax))
  {
    FlattenAppend(a, b);
    forall i | 0 <= i < HIST_BINS
      ensures Histogram(a + b, histMax)[i] == AddHistograms(Histogram(a, histMax), Histogram(b, histMax))[i]
    {
      CountAppend(Flatten(a), Flatten(b), InBin(i, histMax));
    }
  }

  /** Number of values counted in the first n bins. */
  function Total(h: seq<nat>, n: nat): nat
    requires n <= |h|
  {
    if n == 0 then 0 else Total(h, n - 1) + h[n - 1]
  }

  function Below(n: nat, histMax: real): real -> bool
    requires histMax > 0.0
  {
    v => 0 <= Bin(v, histMax) < n
  }

  lemma {:induction false} CountBelow(s: seq<real>, n: nat, histMax: real)
    requires histMax > 0.0
    ensures Count(s, Below(n + 1, histMax)) == Count(s, Below(n, histMax)) + Count(s, InBin(n, histMax))
    ensures Count(s, Below(0, histMax)) == 0
    ensures (forall i :: 0 <= i < |s| ==> 0.0 <= s[i] <= histMax) ==> Count(s, Below(HIST_BINS, histMax)) == |s|
  {
    if s != [] {
      CountBelow(s[1..], n, histMax);
      BinInRange(s[0], histMax);
    }
  }

  lemma ScaledInRange(v: real, histMax: real, q: real)
    requires 0.0 <= v < histMax && q * histMax == v * HIST_BINS as real
    ensures 0.0 <= q < HIST_BINS as real
  {
  }

  lemma BinInRange(v: real, histMax: real)
    requires histMax > 0.0
    ensures 0.0 <= v <= histMax <==> 0 <= Bin(v, histMax) < HIST_BINS
  {
    if 0.0 <= v < histMax {
      var q := v * HIST_BINS as real / histMax;
      assert q * histMax == v * HIST_BINS as real;
      ScaledInRange(v, histMax, q);
    }
  }

  lemma {:induction false} TotalBelow(g: Grid, histMax: real, n: nat)
    requires histMax > 0.0 && n <= HIST_BINS
    ensures Total(Histogram(g, histMax), n) == Count(Flatten(g), Below(n, histMax))
  {
    if n == 0 {
      CountBelow(Flatten(g), 0, histMax);
    } else {
      TotalBelow(g, histMax, n - 1);
      CountBelow(Flatten(g), n - 1, histMax);
    }
  }

  /** When every physical value lies in [0, histMax], the histogram counts every pixel. */
  lemma HistogramTotal(g: Grid, w: nat, histMax: real)
    requires histMax > 0.0 && Rect(g, w)
    requires forall i :: 0 <= i < |Flatten(g)| ==> 0.0 <= Flatten(g)[i] <= histMax
    ensures Total(Histogram(g, histMax), HIST_BINS) == w * |g|
  {
    TotalBelow(g, histMax, HIST_BINS);
    CountBelow(Flatten(g), 0, histMax);
    FlattenLength(g, w);
  }

  function AtLeast(threshold: real): real -> bool {
    v => v >= threshold
  }

  function Isqrt(n: nat): (r: nat)
    ensures r * r <= n < (r + 1) * (r + 1)
  {
    if n == 0 then 0
    else
      var r := Isqrt(n - 1);
      if (r + 1) * (r + 1) <= n then r + 1 else r
  }

  /** Odd, so that a sample with this stride meets all four sites of a Bayer pattern; about one pixel in s * s. */
  function SampleStep(height: nat, width: nat): (s: nat)
    ensures s >= 1 && s % 2 == 1
    ensures (s - 1) * (s - 1) * SAMPLE_TARGET <= height * width < (s + 1) * (s + 1) * SAMPLE_TARGET
  {
    var q := height * width / SAMPLE_TARGET;
    var r := Isqrt(q);
    var s := Max(1, r);
    StepBounds(height * width, q, r, if s % 2 == 0 then s + 1 else s);
    if s % 2 == 0 then s + 1 else s
  }

  lemma StepBounds(n: nat, q: nat, r: nat, s: nat)
    requires q == n / SAMPLE_TARGET && r * r <= q < (r + 1) * (r + 1) && 1 <= s && (s == r || s == r + 1)
    ensures (s - 1) * (s - 1) * SAMPLE_TARGET <= n < (s + 1) * (s + 1) * SAMPLE_TARGET
  {
    SquareMono(s - 1, r);
    SquareMono(r + 1, s + 1);
    assert q * SAMPLE_TARGET <= n < (q + 1) * SAMPLE_TARGET;
  }

  lemma SquareMono(a: nat, b: nat)
    requires a <= b
    ensures a * a <= b * b
  {
    MulMono(a, b, a);
    MulMono(a, b, b);
  }

  lemma {:induction false} StrideCount<T>(s: seq<T>, off: nat, step: nat)
    requires step > 0 && off <= |s| + step
    ensures |Stride(s, off, step)| == if off >= |s| then 0 else CeilDiv(|s| - off, step)
    decreases |s| + step - off
  {
    if off < |s| {
      StrideCount(s, off + step, step);
      CountOneMore(|s| - off, step);
    }
  }

  lemma CountOneMore(n: nat, step: nat)
    requires n > 0 && step > 0
    ensures CeilDiv(n, step) == 1 + if n <= step then 0 else CeilDiv(n - step, step)
  {
    var m := n + step - 1;
    if n <= step {
      ModUnique(m, 1, m - step, step);
    } else {
      var q, r := (m - step) / step, (m - step) % step;
      assert m == (q + 1) * step + r;
      ModUnique(m, q + 1, r, step);
    }
  }

  /** The sample holds one pixel of every step x step block, cut off blocks at the edges included. */
  lemma SampleSize(g: Grid, w: nat, step: nat)
    requires Rect(g, w) && step > 0
    ensures |Sample(g, step)| == CeilDiv(w, step) * CeilDiv(|g|, step)
  {
    var rows := Stride(g, 0, step);
    StrideCount(g, 0, step);
    StrideRect(g, w, step);
    ColsRect(rows, w, step);
    hide Stride, Flatten, CeilDiv, Rect, Cols;
    FlattenLength(Cols(rows, 0, step), CeilDiv(w, step));
  }

  lemma StrideRect(g: Grid, w: nat, step: nat)
    requires Rect(g, w) && step > 0
    ensures Rect(Stride(g, 0, step), w)
  {
    forall row | row in Stride(g, 0, step) ensures |row| == w {
      StrideOf(g, 0, step, row);
    }
  }

  lemma CeilDivZero(step: nat)
    requires step > 0
    ensures CeilDiv(0, step) == 0
  {
    ModUnique(step - 1, 0, step - 1, step);
  }

  lemma ColsRect(g: Grid, w: nat, step: nat)
    requires Rect(g, w) && step > 0
    ensures |Cols(g, 0, step)| == |g| && Rect(Cols(g, 0, step), CeilDiv(w, step))
  {
    CeilDivZero(step);
    hide CeilDiv;
    forall i | 0 <= i < |g| ensures |Stride(g[i], 0, step)| == CeilDiv(w, step) {
      StrideCount(g[i], 0, step);
    }
  }

  lemma {:induction false} StrideOf<T>(s: seq<T>, off: nat, step: nat, x: T)
    requires step > 0 && x in Stride(s, off, step)
    ensures x in s
    decreases |s| - off
  {
    if off < |s| && x != s[off] {
      StrideOf(s, off + step, step, x);
    }
  }

  function SiteStep(height: nat, width: nat): (s: nat)
    ensures s >= 1
  {
    Max(1, Isqrt(height * width / 4 / SAMPLE_TARGET))
  }

  // ---- per-channel statistics, over the first n of the four sites ----

  function ChannelHistogram(g: Grid, p: string, c: nat, n: nat, histMax: real): (h: seq<nat>)
    requires n <= |p| <= 4 && histMax > 0.0
    ensures |h| == HIST_BINS
  {
    if n == 0 then ZeroHistogram()
    else
      var h := ChannelHistogram(g, p, c, n - 1, histMax);
      if ChannelOf(p[n - 1]) == c then AddHistograms(h, Histogram(Site(g, n - 1), histMax)) else h
  }

  /** The strided samples of the site planes of one colour. */
  function ChannelSample(g: Grid, p: string, c: nat, n: nat, step: nat): multiset<real>
    requires n <= |p| <= 4 && step > 0
  {
    if n == 0 then multiset{}
    else
      ChannelSample(g, p, c, n - 1, step)
      + (if ChannelOf(p[n - 1]) == c then multiset(Sample(Site(g, n - 1), step)) else multiset{})
  }

  /** What the strip that starts at frame row `start` adds to one channel's samples. */
  function StripChannelSample(strip: Grid, start: nat, p: string, c: nat, n: nat, step: nat): multiset<real>
    requires n <= |p| <= 4 && step > 0
  {
    if n == 0 then multiset{}
    else
      StripChannelSample(strip, start, p, c, n - 1, step)
      + (if ChannelOf(p[n - 1]) == c then multiset(StripSample(Site(strip, n - 1), start / 2, step)) else multiset{})
  }

  lemma {:induction false} ChannelHistogramAppend(a: Grid, b: Grid, p: string, c: nat, n: nat, histMax: real)
    requires n <= |p| <= 4 && histMax > 0.0 && |a| % 2 == 0
    ensures ChannelHistogram(a + b, p, c, n, histMax) ==
            AddHistograms(ChannelHistogram(a, p, c, n, histMax), ChannelHistogram(b, p, c, n, histMax))
  {
    if n > 0 {
      ChannelHistogramAppend(a, b, p, c, n - 1, histMax);
      SiteAppend(a, b, n - 1);
      HistogramAppend(Site(a, n - 1), Site(b, n - 1), histMax);
      var ha, hb := ChannelHistogram(a, p, c, n - 1, histMax), ChannelHistogram(b, p, c, n - 1, histMax);
      AddPairs(ha, hb, Histogram(Site(a, n - 1), histMax), Histogram(Site(b, n - 1), histMax));
    }
  }

  lemma AddPairs(a: seq<nat>, b: seq<nat>, a': seq<nat>, b': seq<nat>)
    requires |a| == |b| == |a'| == |b'| == HIST_BINS
    ensures AddHistograms(AddHistograms(a, b), AddHistograms(a', b')) ==
            AddHistograms(AddHistograms(a, a'), AddHistograms(b, b'))
  {
  }

  lemma {:induction false} ChannelSampleAppend(a: Grid, b: Grid, p: string, c: nat, n: nat, step: nat)
    requires n <= |p| <= 4 && step > 0 && |a| % 2 == 0
    ensures ChannelSample(a + b, p, c, n, step) ==
            ChannelSample(a, p, c, n, step) + StripChannelSample(b, |a|, p, c, n, step)
  {
    if n > 0 {
      ChannelSampleAppend(a, b, p, c, n - 1, step);
      SiteAppend(a, b, n - 1);
      SampleAppend(Site(a, n - 1), Site(b, n - 1), step);
    }
  }

  /** One bin of a channel histogram, site by site. */
  function SiteBin(g: Grid, p: string, c: nat, n: nat, q: real -> bool): nat
    requires n <= |p| <= 4
  {
    if n == 0 then 0
    else SiteBin(g, p, c, n - 1, q) + if ChannelOf(p[n - 1]) == c then Count(Flatten(Site(g, n - 1)), q) else 0
  }

  lemma {:induction false} ChannelBin(g: Grid, p: string, c: nat, n: nat, histMax: real, bin: nat)
    requires n <= |p| <= 4 && histMax > 0.0 && bin < HIST_BINS
    ensures ChannelHistogram(g, p, c, n, histMax)[bin] == SiteBin(g, p, c, n, InBin(bin, histMax))
  {
    if n > 0 {
      ChannelBin(g, p, c, n - 1, histMax, bin);
    }
  }

  function SiteTotal(g: Grid, n: nat, q: real -> bool): nat
    requires n <= 4
  {
    if n == 0 then 0 else SiteTotal(g, n - 1, q) + Count(Flatten(Site(g, n - 1)), q)
  }

  lemma {:induction false} EachSiteInOneChannel(g: Grid, p: string, n: nat, q: real -> bool)
    requires n <= |p| <= 4
    ensures SiteBin(g, p, 0, n, q) + SiteBin(g, p, 1, n, q) + SiteBin(g, p, 2, n, q) == SiteTotal(g, n, q)
  {
    if n > 0 {
      EachSiteInOneChannel(g, p, n - 1, q);
    }
  }

  lemma SiteCounts(g: Grid, q: real -> bool)
    ensures Count(Flatten(g), q) == SiteTotal(g, 4, q)
  {
    SitesPartition(g);
    var s0, s1, s2, s3 := Flatten(Site(g, 0)), Flatten(Site(g, 1)), Flatten(Site(g, 2)), Flatten(Site(g, 3));
    CountAppend(s0, s1, q);
    CountAppend(s0 + s1, s2, q);
    CountAppend(s0 + s1 + s2, s3, q);
    assert multiset(s0 + s1 + s2 + s3) == multiset(s0) + multiset(s1) + multiset(s2) + multiset(s3);
    CountPermutation(Flatten(g), s0 + s1 + s2 + s3, q);
    assert SiteTotal(g, 1, q) == Count(s0, q);
    assert SiteTotal(g, 2, q) == Count(s0, q) + Count(s1, q);
    assert SiteTotal(g, 3, q) == SiteTotal(g, 2, q) + Count(s2, q);
  }

  /** The channel histograms of a Bayer frame add up to the histogram of all its pixels. */
  lemma ChannelHistogramsAddUp(g: Grid, p: string, histMax: real)
    requires |p| == 4 && histMax > 0.0
    ensures AddHistograms(AddHistograms(ChannelHistogram(g, p, 0, 4, histMax), ChannelHistogram(g, p, 1, 4, histMax)),
                          ChannelHistogram(g, p, 2, 4, histMax))
            == Histogram(g, histMax)
  {
    forall i | 0 <= i < HIST_BINS
      ensures ChannelHistogram(g, p, 0, 4, histMax)[i] + ChannelHistogram(g, p, 1, 4, histMax)[i]
              + ChannelHistogram(g, p, 2, 4, histMax)[i] == Histogram(g, histMax)[i]
    {
      SiteCounts(g, InBin(i, histMax));
      ChannelBin(g, p, 0, 4, histMax, i);
      ChannelBin(g, p, 1, 4, histMax, i);
      ChannelBin(g, p, 2, 4, histMax, i);
      EachSiteInOneChannel(g, p, 4, InBin(i, histMax));
    }
  }
}
