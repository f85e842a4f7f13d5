/**
 `load_preview_base`: the loop over row strips. The base it returns is described without
 strips (`Describes`), so it cannot depend on the strip height.
 */
module PreviewLoad {
  import opened Wrappers
  import opened Grids
  import opened PreviewFrame
  import opened PreviewBins

  function FramePattern(h: Header, height: nat, width: nat): Option<string> {
    if height >= 2 && width >= 2 then BayerPattern(h) else None
  }

  function RowsPerStrip(k: nat, width: nat, stripPixels: nat): (n: nat)
    requires k > 0
    ensures n > 0 && n % k == 0
  {
    var whole := stripPixels / Max(width, 1) / k;
    Multiple(whole, k);
    Multiple(1, k);
    Max(k, whole * k)
  }

  lemma Multiple(q: nat, k: nat)
    requires k > 0
    ensures q * k >= 0 && q * k % k == 0 && q * k / k == q
  {
    ModUnique(q * k, q, 0, k);
    if q > 0 { MulFar(q, k); }
  }

  /** The block (r, c) of the whole frame as one pixel of the base. */
  ghost predicate BasePixel(px: Pixel, g: Grid, h: Header, bayer: bool, k: nat, r: int, c: int)
    requires k > 0 && (bayer ==> |h.bayerpat| == 4)
  {
    if bayer then
      && px.Rgb?
      && px.r == ColourMean(g, h, k, r, c, 'R')
      && px.g == ColourMean(g, h, k, r, c, 'G')
      && px.b == ColourMean(g, h, k, r, c, 'B')
    else
      px == Mono(BlockMean(g, k, r, c))
  }

  ghost function ColourMean(g: Grid, h: Header, k: nat, r: int, c: int, ch: char): real
    requires |h.bayerpat| == 4
  {
    if ColourCount(h, k, r, c, ch) == 0.0 then 0.0 else ColourSum(g, h, k, r, c, ch) / ColourCount(h, k, r, c, ch)
  }

  /** The binned image: whole k x k blocks only. */
  ghost predicate Binned(base: PreviewBase, g: Grid, h: Header)
    requires base.binFactor > 0 && (base.bayerPattern.Some? ==> |h.bayerpat| == 4)
  {
    && |base.data| == base.height / base.binFactor
    && (forall r :: 0 <= r < |base.data| ==> |base.data[r]| == base.width / base.binFactor)
    && forall r, c :: 0 <= r < |base.data| && 0 <= c < base.width / base.binFactor ==>
         BasePixel(base.data[r][c], g, h, base.bayerPattern.Some?, base.binFactor, r, c)
  }

  /** The statistics: every pixel of the frame counts, binned or not. */
  ghost predicate Measured(base: PreviewBase, g: Grid, t: PixelType, h: Header)
    requires |g| * base.width > 0 && base.histMax > 0.0
  {
    && base.mean == Sum(Flatten(g)) / (|g| * base.width) as real
    && base.histogram == Histogram(g, base.histMax)
    && base.saturated == (if FixedAduMax(t, h).Some?
                          then Some(Count(Flatten(g), AtLeast(base.aduMax * SATURATION_FRACTION)))
                          else None)
  }

  ghost predicate Sampled(base: PreviewBase, g: Grid) {
    match base.bayerPattern
    case None =>
      base.fullSample == Sample(g, SampleStep(base.height, base.width))
    case Some(p) =>
      && |p| == 4 && |base.channelSamples| == 3
      && base.fullSample == base.channelSamples[0] + base.channelSamples[1] + base.channelSamples[2]
      && forall c :: 0 <= c < 3 ==>
           multiset(base.channelSamples[c]) == ChannelSample(g, p, c, 4, SiteStep(base.height, base.width))
  }

  ghost predicate ColourHistograms(base: PreviewBase, g: Grid)
    requires base.histMax > 0.0
  {
    match base.bayerPattern
    case None => base.channelHistograms == []
    case Some(p) =>
      && |p| == 4 && |base.channelHistograms| == 3
      && forall c :: 0 <= c < 3 ==> base.channelHistograms[c] == ChannelHistogram(g, p, c, 4, base.histMax)
  }

  /** The full scale: fixed by the pixel type, or the largest physical value. */
  ghost predicate FullScale(base: PreviewBase, g: Grid, t: PixelType, h: Header) {
    && (match FixedAduMax(t, h)
        case Some(m) => base.aduMax == m
        case None => IsMax(base.aduMax, Flatten(g)))
    && base.histMax == if base.aduMax > 0.0 then base.aduMax else 1.0
  }

  ghost predicate Shaped(base: PreviewBase, g: Grid, width: nat, h: Header, maxDim: nat)
    requires maxDim > 0
  {
    && base.height == |g| && base.width == width
    && base.bayerPattern == FramePattern(h, |g|, width)
    && base.binFactor == BinFactor(|g|, width, maxDim, base.bayerPattern.Some?)
    && (base.bayerPattern.Some? ==> ValidPattern(h.bayerpat))
  }

  /** Number of whole blocks of k among n pixels. */
  function Blocks(n: nat, k: nat): (b: nat)
    requires k > 0
    ensures b == n / k
  {
    n / k
  }

  /** Everything a preview base says about the physical frame g; no strips occur here. */
  ghost predicate Describes(base: PreviewBase, g: Grid, width: nat, t: PixelType, h: Header, maxDim: nat)
    requires maxDim > 0 && |g| * width > 0
  {
    && Shaped(base, g, width, h, maxDim)
    && FullScale(base, g, t, h)
    && Binned(base, g, h)
    && Measured(base, g, t, h)
    && ColourHistograms(base, g)
    && Sampled(base, g)
  }

  lemma PhysicalSlice(raw: Grid, h: Header, lo: nat, hi: nat)
    requires lo <= hi <= |raw|
    ensures Physical(raw[lo..hi], h) == Physical(raw, h)[lo..hi]
  {
  }

  // ---- which output rows a strip writes ----

  /** Rows of the strip starting at `start` that complete a block row. */
  function Usable(stripRows: nat, outH: nat, k: nat, start: nat): int
    requires k > 0
  {
    Min(stripRows, outH * k - start) / k * k
  }

  lemma DivMono(a: int, b: int, k: nat)
    requires k > 0 && a <= b
    ensures a / k <= b / k
  {
    var d := a / k - b / k;
    MulFar(d, k);
    assert a == a / k * k + a % k && b == b / k * k + b % k;
    assert d * k == a / k * k - b / k * k;
  }

  lemma MulOrder(a: int, b: int, k: nat)
    requires k > 0
    ensures a <= b <==> a * k <= b * k
    ensures a < b <==> a * k < b * k
  {
    MulFar(b - a, k);
    assert (b - a) * k == b * k - a * k;
  }

  /** The same run of rows counted in blocks: s blocks come before a strip of m blocks. */
  lemma UsableBlocks(height: nat, k: nat, s: nat, m: nat)
    requires k > 0 && s <= height / k
    ensures Usable(Min(m * k, height - s * k), height / k, k, s * k) == Min(m, height / k - s) * k
    ensures Min(m, height / k - s) * k <= Min(m * k, height - s * k)
  {
    var outH := height / k;
    assert height == outH * k + height % k;
    assert (outH - s) * k == outH * k - s * k;
    MulOrder(m, outH - s, k);
    MulOrder(outH - s, m, k);
    Multiple(m, k);
    Multiple(outH - s, k);
  }

  /** Consecutive strips write consecutive, disjoint runs of output rows: strip s * k writes rows s
      up to Min(outH, s + m). */
  lemma StripWrites(height: nat, k: nat, s: nat, m: nat)
    requires k > 0 && m > 0 && s * k < height
    ensures s <= height / k
    ensures Usable(Min(m * k, height - s * k), height / k, k, s * k) == (Min(height / k, s + m) - s) * k
    ensures (Min(height / k, s + m) - s) * k <= Min(m * k, height - s * k)
    ensures (Min(height / k, s + m) - s) * k / k == Min(height / k, s + m) - s
    ensures s * k / k == s && (s + m) * k == s * k + m * k
  {
    DivMono(s * k, height, k);
    Multiple(s, k);
    UsableBlocks(height, k, s, m);
    assert Min(m, height / k - s) == Min(height / k, s + m) - s;
    Multiple(Min(m, height / k - s), k);
  }

  /** The strip at s * k writes the rows s up to s + m that the output has. */
  lemma RowsWritten(height: nat, k: nat, s: nat, m: nat, row: nat)
    requires k > 0 && m > 0 && s * k < height && row < height / k
    ensures var u := Usable(Min(m * k, height - s * k), height / k, k, s * k);
            s * k / k <= row < s * k / k + u / k <==> s <= row < s + m
  {
    StripWrites(height, k, s, m);
  }

  lemma MulAssociative(a: nat, b: nat, c: nat)
    ensures a * (b * c) == a * b * c
  {
  }

  /** Each output row is written by exactly one strip: the one that holds the row's first frame row. */
  lemma EachRowWrittenOnce(height: nat, k: nat, m: nat, q: nat, row: nat)
    requires k > 0 && m > 0 && q * (m * k) < height && row < height / k
    ensures m * k > 0
    ensures var start := q * (m * k);
            var u := Usable(Min(m * k, height - start), height / k, k, start);
            start / k <= row < start / k + u / k <==> row * k / (m * k) == q
  {
    var s := q * m;
    MulAssociative(q, m, k);
    assert q * (m * k) == s * k;
    hide Usable;
    RowsWritten(height, k, s, m, row);
    RowInStrip(k, m, q, row);
  }

  lemma RowInStrip(k: nat, m: nat, q: nat, row: nat)
    requires k > 0 && m > 0
    ensures m * k > 0
    ensures q * m <= row < q * m + m <==> row * k / (m * k) == q
  {
    MulFar(m, k);
    var n := m * k;
    var q' := row * k / n;
    var d := row * k - q * n;
    assert row * k == q' * n + row * k % n;
    MulAssociative(q, m, k);
    MulOrder(q * m, row, k);
    MulOrder(row, q * m + m, k);
    assert (q * m + m) * k == q * n + n;
    if 0 <= d < n {
      ModUnique(row * k, q, d, n);
    }
  }

  // ---- the loops ----

  ghost predicate IsMax(m: real, s: seq<real>) {
    m in s && forall i :: 0 <= i < |s| ==> s[i] <= m
  }

  lemma MaxStep(g: Grid, width: nat, lo: nat, hi: nat, best: Option<real>, stripMax: real)
    requires lo <= hi <= |g| && (lo > 0 <==> best.Some?)
    requires best.Some? ==> IsMax(best.value, Flatten(g[..lo]))
    requires IsMax(stripMax, Flatten(g[lo..hi]))
    ensures IsMax(if best.Some? && best.value >= stripMax then best.value else stripMax, Flatten(g[..hi]))
  {
    assert g[..hi] == g[..lo] + g[lo..hi];
    FlattenAppend(g[..lo], g[lo..hi]);
  }

  /** The data's own maximum, strip by strip: a frame without a fixed full scale needs this pass first. */
  method DataMax(raw: Grid, width: nat, h: Header, rowsPerStrip: nat) returns (m: real)
    requires Rect(raw, width) && |raw| * width > 0 && rowsPerStrip > 0
    ensures IsMax(m, Flatten(Physical(raw, h)))
  {
    ghost var g := Physical(raw, h);
    var start := 0;
    var best: Option<real> := None;
    while start < |raw|
      invariant start > 0 <==> best.Some?
      invariant best.Some? ==> IsMax(best.value, Flatten(g[..Min(start, |raw|)]))
    {
      var end := Min(start + rowsPerStrip, |raw|);
      var strip := Physical(raw[start..end], h);
      PhysicalSlice(raw, h, start, end);
      StripNotEmpty(strip, width);
      var stripMax := MaxOf(Flatten(strip));
      MaxStep(g, width, start, end, best, stripMax);
      best := Some(if best.Some? && best.value >= stripMax then best.value else stripMax);
      start := start + rowsPerStrip;
    }
    assert g[..|raw|] == g;
    m := best.value;
  }

  lemma StripNotEmpty(strip: Grid, width: nat)
    requires Rect(strip, width) && |strip| > 0 && width > 0
    ensures Flatten(strip) != []
  {
    assert |strip[0]| == width;
  }

  /** Channel statistics of one strip that starts on an even frame row: one pass over the four sites. */
  method AddSites(strip: Grid, start: nat, p: string, histMax: real, siteStep: nat,
                  hists: seq<seq<nat>>, samples: seq<seq<real>>)
    returns (hists': seq<seq<nat>>, samples': seq<seq<real>>)
    requires |p| == 4 && histMax > 0.0 && siteStep > 0
    requires |hists| == |samples| == 3 && forall c :: 0 <= c < 3 ==> |hists[c]| == HIST_BINS
    ensures |hists'| == |samples'| == 3
    ensures forall c :: 0 <= c < 3 ==>
              hists'[c] == AddHistograms(hists[c], ChannelHistogram(strip, p, c, 4, histMax))
    ensures forall c :: 0 <= c < 3 ==>
              multiset(samples'[c]) == multiset(samples[c]) + StripChannelSample(strip, start, p, c, 4, siteStep)
  {
    hists', samples' := hists, samples;
    for i := 0 to 4
      invariant |hists'| == |samples'| == 3
      invariant forall c :: 0 <= c < 3 ==>
                  hists'[c] == AddHistograms(hists[c], ChannelHistogram(strip, p, c, i, histMax))
      invariant forall c :: 0 <= c < 3 ==>
                  multiset(samples'[c]) == multiset(samples[c]) + StripChannelSample(strip, start, p, c, i, siteStep)
    {
      var c := ChannelOf(p[i]);
      var site := Site(strip, i);
      AddAssociative(hists[c], ChannelHistogram(strip, p, c, i, histMax), Histogram(site, histMax));
      hists' := hists'[c := AddHistograms(hists'[c], Histogram(site, histMax))];
      samples' := samples'[c := samples'[c] + StripSample(site, start / 2, siteStep)];
    }
  }

  lemma AddAssociative(a: seq<nat>, b: seq<nat>, c: seq<nat>)
    requires |a| == |b| == |c| == HIST_BINS
    ensures AddHistograms(AddHistograms(a, b), c) == AddHistograms(a, AddHistograms(b, c))
  {
  }

  /** Channel statistics over the rows read so far. */
  ghost predicate ChannelsDone(g: Grid, p: string, histMax: real, siteStep: nat, hists: seq<seq<nat>>,
                               samples: seq<seq<real>>)
    requires |p| == 4 && histMax > 0.0 && siteStep > 0
  {
    && |hists| == |samples| == 3
    && (forall c :: 0 <= c < 3 ==> hists[c] == ChannelHistogram(g, p, c, 4, histMax))
    && (forall c :: 0 <= c < 3 ==> multiset(samples[c]) == ChannelSample(g, p, c, 4, siteStep))
  }

  lemma ChannelsStep(a: Grid, b: Grid, p: string, histMax: real, siteStep: nat, hists: seq<seq<nat>>,
                     samples: seq<seq<real>>, hists': seq<seq<nat>>, samples': seq<seq<real>>)
    requires |p| == 4 && histMax > 0.0 && siteStep > 0 && |a| % 2 == 0
    requires ChannelsDone(a, p, histMax, siteStep, hists, samples)
    requires |hists'| == |samples'| == 3
    requires forall c :: 0 <= c < 3 ==>
               hists'[c] == AddHistograms(hists[c], ChannelHistogram(b, p, c, 4, histMax))
    requires forall c :: 0 <= c < 3 ==>
               multiset(samples'[c]) == multiset(samples[c]) + StripChannelSample(b, |a|, p, c, 4, siteStep)
    ensures ChannelsDone(a + b, p, histMax, siteStep, hists', samples')
  {
    forall c | 0 <= c < 3
      ensures hists'[c] == ChannelHistogram(a + b, p, c, 4, histMax)
      ensures multiset(samples'[c]) == ChannelSample(a + b, p, c, 4, siteStep)
    {
      ChannelHistogramAppend(a, b, p, c, 4, histMax);
      ChannelSampleAppend(a, b, p, c, 4, siteStep);
    }
  }

  lemma NoRows(p: string, histMax: real, siteStep: nat)
    requires |p| == 4 && histMax > 0.0 && siteStep > 0
    ensures ChannelsDone([], p, histMax, siteStep, [ZeroHistogram(), ZeroHistogram(), ZeroHistogram()], [[], [], []])
    ensures Histogram([], histMax) == ZeroHistogram()
  {
    forall c: nat | c < 3
      ensures ChannelHistogram([], p, c, 4, histMax) == ZeroHistogram()
      ensures ChannelSample([], p, c, 4, siteStep) == multiset{}
    {
      EmptyChannel(p, c, 4, histMax, siteStep);
    }
    var z := [ZeroHistogram(), ZeroHistogram(), ZeroHistogram()];
    assert forall c :: 0 <= c < 3 ==> z[c] == ZeroHistogram();
  }

  lemma {:induction false} EmptyChannel(p: string, c: nat, n: nat, histMax: real, siteStep: nat)
    requires n <= |p| <= 4 && histMax > 0.0 && siteStep > 0
    ensures ChannelHistogram([], p, c, n, histMax) == ZeroHistogram()
    ensures ChannelSample([], p, c, n, siteStep) == multiset{}
  {
    if n > 0 {
      EmptyChannel(p, c, n - 1, histMax, siteStep);
      assert Site([], n - 1) == [];
      assert Sample([], siteStep) == [];
      assert Histogram([], histMax) == ZeroHistogram();
    }
  }

  /** What the loop over strips needs to know about the frame. */
  datatype Plan =
    Plan(k: nat, pattern: Option<string>, histMax: real, step: nat, siteStep: nat, threshold: Option<real>) {
    ghost predicate Valid() {
      && k > 0 && histMax > 0.0 && step > 0 && siteStep > 0
      && (pattern.Some? ==> |pattern.value| == 4 && k % 2 == 0)
    }
  }

  /** The loop's accumulators. */
  datatype Totals = Totals(total: real, saturated: nat, histogram: seq<nat>, samples: seq<real>,
                           channelHists: seq<seq<nat>>, channelSamples: seq<seq<real>>)

  /** The accumulators after the rows g have been read. */
  ghost predicate Accumulated(a: Totals, plan: Plan, g: Grid)
    requires plan.Valid()
  {
    && a.total == Sum(Flatten(g))
    && (plan.threshold.Some? ==> a.saturated == Count(Flatten(g), AtLeast(plan.threshold.value)))
    && match plan.pattern
       case None =>
         a.histogram == Histogram(g, plan.histMax) && a.samples == Sample(g, plan.step)
       case Some(p) =>
         ChannelsDone(g, p, plan.histMax, plan.siteStep, a.channelHists, a.channelSamples)
  }

  function NoTotals(): Totals {
    var z := ZeroHistogram();
    Totals(0.0, 0, z, [], [z, z, z], [[], [], []])
  }

  lemma NothingRead(plan: Plan)
    requires plan.Valid()
    ensures Accumulated(NoTotals(), plan, [])
  {
    NoRows(if plan.pattern.Some? then plan.pattern.value else "RGGB", plan.histMax, plan.siteStep);
  }

  method MeasureStrip(a: Totals, plan: Plan, strip: Grid, start: nat, ghost before: Grid) returns (a': Totals)
    requires plan.Valid() && |before| == start && (plan.pattern.Some? ==> start % 2 == 0)
    requires Accumulated(a, plan, before)
    ensures Accumulated(a', plan, before + strip)
  {
    a' := a.(total := a.total + Sum(Flatten(strip)));
    FlattenAppend(before, strip);
    SumAppend(Flatten(before), Flatten(strip));
    match plan.pattern {
      case Some(p) =>
        var hists, samples := AddSites(strip, start, p, plan.histMax, plan.siteStep, a.channelHists, a.channelSamples);
        ChannelsStep(before, strip, p, plan.histMax, plan.siteStep, a.channelHists, a.channelSamples, hists, samples);
        a' := a'.(channelHists := hists, channelSamples := samples);
      case None =>
        HistogramAppend(before, strip, plan.histMax);
        SampleAppend(before, strip, plan.step);
        a' := a'.(histogram := AddHistograms(a.histogram, Histogram(strip, plan.histMax)),
                  samples := a.samples + StripSample(strip, start, plan.step));
    }
    if plan.threshold.Some? {
      CountAppend(Flatten(before), Flatten(strip), AtLeast(plan.threshold.value));
      a' := a'.(saturated := a.saturated + Count(Flatten(strip), AtLeast(plan.threshold.value)));
    }
  }

  /** Rows of the binned image finished by the strips before `start`. */
  ghost predicate RowsDone(binned: seq<seq<Pixel>>, g: Grid, k: nat, outW: nat, p: Option<string>, n: int)
    requires k > 0 && (p.Some? ==> k >= 2 && |p.value| == 4)
  {
    forall r :: 0 <= r < n && r < |binned| ==> binned[r] == BinnedRow(g, k, outW, r, p)
  }

  /** Writes the output rows of one strip in place: numpy binned[start // k : (start + usable) // k] = rows. */
  method WriteRows(binned: array<seq<Pixel>>, first: nat, rows: seq<seq<Pixel>>)
    requires first + |rows| <= binned.Length
    modifies binned
    ensures binned[..] == old(binned[..first]) + rows + old(binned[first + |rows|..])
  {
    forall r | 0 <= r < |rows| {
      binned[first + r] := rows[r];
    }
  }

  lemma RowsStep(before: seq<seq<Pixel>>, after: seq<seq<Pixel>>, rows: seq<seq<Pixel>>, g: Grid, lo: nat, n: nat,
                 k: nat, outW: nat, p: Option<string>)
    requires k > 0 && (p.Some? ==> k % 2 == 0 && |p.value| == 4)
    requires lo % k == 0 && n % k == 0 && lo + n <= |g| && lo / k + n / k <= |before|
    requires rows == if p.Some? then BinBayerRows(g[lo..lo + n], k, outW, p.value) else BinRows(g[lo..lo + n], k, outW)
    requires |rows| == n / k
    requires after == before[..lo / k] + rows + before[lo / k + n / k..]
    requires RowsDone(before, g, k, outW, p, lo / k)
    ensures RowsDone(after, g, k, outW, p, lo / k + n / k)
  {
    hide BinnedRow, BinRows, BinBayerRows;
    forall r | 0 <= r < n / k ensures rows[r] == BinnedRow(g, k, outW, lo / k + r, p) {
      StripRows(g, lo, lo + n, k, outW, p, r);
    }
  }

  /** The binned rows of the first `usable` rows of a strip. */
  function BinnedStrip(strip: Grid, plan: Plan, outW: nat): seq<seq<Pixel>>
    requires plan.k > 0 && (plan.pattern.Some? ==> |plan.pattern.value| == 4 && plan.k % 2 == 0)
  {
    if plan.pattern.Some? then BinBayerRows(strip, plan.k, outW, plan.pattern.value) else BinRows(strip, plan.k, outW)
  }

  lemma BinnedStripLength(strip: Grid, plan: Plan, outW: nat, blocks: nat)
    requires plan.Valid() && |strip| == blocks * plan.k
    ensures |BinnedStrip(strip, plan, outW)| == blocks
  {
    Multiple(blocks, plan.k);
  }

  lemma StripDone(before: seq<seq<Pixel>>, after: seq<seq<Pixel>>, plan: Plan, outW: nat, g: Grid, s: nat, m: nat,
                  blocks: nat)
    requires plan.Valid() && |before| == |g| / plan.k && blocks == Min(|before|, s + m) - s
    requires s * plan.k + blocks * plan.k <= |g|
    requires after == before[..s] + BinnedStrip(g[s * plan.k..s * plan.k + blocks * plan.k], plan, outW)
             + before[s + blocks..]
    requires RowsDone(before, g, plan.k, outW, plan.pattern, s)
    ensures RowsDone(after, g, plan.k, outW, plan.pattern, s + m)
  {
    var k := plan.k;
    Multiple(s, k);
    Multiple(blocks, k);
    BinnedStripLength(g[s * k..s * k + blocks * k], plan, outW, blocks);
    RowsStep(before, after, BinnedStrip(g[s * k..s * k + blocks * k], plan, outW), g, s * k, blocks * k, k, outW,
      plan.pattern);
  }

  /** Bins the complete block rows of the strip g[start..end] into their place. */
  method BinStrip(binned: array<seq<Pixel>>, plan: Plan, outW: nat, strip: Grid, start: nat, ghost m: nat,
                  ghost g: Grid)
    requires plan.Valid() && binned.Length == |g| / plan.k && m > 0
    requires start % plan.k == 0 && start < |g| && strip == g[start..Min(start + m * plan.k, |g|)]
    requires RowsDone(binned[..], g, plan.k, outW, plan.pattern, start / plan.k)
    modifies binned
    ensures RowsDone(binned[..], g, plan.k, outW, plan.pattern, start / plan.k + m)
  {
    ghost var s := start / plan.k;
    ghost var blocks := Min(binned.Length, s + m) - s;
    ghost var before := binned[..];
    assert start == s * plan.k;
    StripWrites(|g|, plan.k, s, m);
    var usable := Usable(|strip|, binned.Length, plan.k, start);
    assert usable == blocks * plan.k;
    if usable > 0 {
      BinnedStripLength(strip[..usable], plan, outW, blocks);
      WriteRows(binned, start / plan.k, BinnedStrip(strip[..usable], plan, outW));
      assert strip[..usable] == g[start..start + usable];
      StripDone(before, binned[..], plan, outW, g, s, m, blocks);
    }
  }

  /** The loop over strips. */
  method ReadStrips(raw: Grid, h: Header, plan: Plan, outW: nat, rowsPerStrip: nat, binned: array<seq<Pixel>>)
    returns (a: Totals)
    requires plan.Valid() && rowsPerStrip > 0 && rowsPerStrip % plan.k == 0 && binned.Length == |raw| / plan.k
    modifies binned
    ensures Accumulated(a, plan, Physical(raw, h))
    ensures RowsDone(binned[..], Physical(raw, h), plan.k, outW, plan.pattern, binned.Length)
  {
    ghost var g := Physical(raw, h);
    a := NoTotals();
    NothingRead(plan);
    ghost var read: Grid := [];
    var start := 0;
    while start < |raw|
      invariant start % plan.k == 0
      invariant read == g[..Min(start, |raw|)] && Accumulated(a, plan, read)
      invariant RowsDone(binned[..], g, plan.k, outW, plan.pattern, start / plan.k)
    {
      var end := Min(start + rowsPerStrip, |raw|);
      var strip := Physical(raw[start..end], h);
      PhysicalSlice(raw, h, start, end);
      NextStart(start, rowsPerStrip, plan.k);
      ReadOn(g, start, end);
      if plan.pattern.Some? {
        EvenStart(start, plan.k);
      }
      a := MeasureStrip(a, plan, strip, start, read);
      read := read + strip;
      BinStrip(binned, plan, outW, strip, start, rowsPerStrip / plan.k, g);
      start := start + rowsPerStrip;
    }
    assert read == g;
    DivMono(|raw|, start, plan.k);
  }

  lemma ReadOn(g: Grid, lo: nat, hi: nat)
    requires lo <= hi <= |g|
    ensures g[..hi] == g[..lo] + g[lo..hi]
  {
  }

  lemma NextStart(start: nat, rowsPerStrip: nat, k: nat)
    requires k > 0 && start % k == 0 && rowsPerStrip % k == 0
    ensures (start + rowsPerStrip) % k == 0 && (start + rowsPerStrip) / k == start / k + rowsPerStrip / k
    ensures rowsPerStrip == rowsPerStrip / k * k
  {
    assert start + rowsPerStrip == (start / k + rowsPerStrip / k) * k;
    Multiple(start / k + rowsPerStrip / k, k);
  }

  /** The plan for a frame of known full scale. */
  function PlanFor(height: nat, width: nat, t: PixelType, h: Header, maxDim: nat, aduMax: real): (plan: Plan)
    requires maxDim > 0
    ensures plan.Valid()
  {
    var pattern := FramePattern(h, height, width);
    Plan(BinFactor(height, width, maxDim, pattern.Some?), pattern,
         if aduMax > 0.0 then aduMax else 1.0,
         SampleStep(height, width), SiteStep(height, width),
         if FixedAduMax(t, h).Some? then Some(aduMax * SATURATION_FRACTION) else None)
  }

  function Assemble(a: Totals, plan: Plan, aduMax: real, data: seq<seq<Pixel>>, height: nat, width: nat): PreviewBase
    requires height * width > 0
    requires plan.pattern.Some? ==> |a.channelHists| == |a.channelSamples| == 3
    requires plan.pattern.Some? ==> forall c :: 0 <= c < 3 ==> |a.channelHists[c]| == HIST_BINS
  {
    var colour := plan.pattern.Some?;
    PreviewBase(
      data, aduMax,
      if colour then AddHistograms(AddHistograms(a.channelHists[0], a.channelHists[1]), a.channelHists[2])
      else a.histogram,
      plan.histMax, a.total / (height * width) as real,
      if colour then a.channelSamples[0] + a.channelSamples[1] + a.channelSamples[2] else a.samples,
      if plan.threshold.Some? then Some(a.saturated) else None,
      width, height, plan.k, plan.pattern,
      if colour then a.channelHists else [],
      if colour then a.channelSamples else [])
  }

  /** The state after all strips. */
  ghost predicate Finished(a: Totals, plan: Plan, aduMax: real, data: seq<seq<Pixel>>, g: Grid, width: nat,
                           t: PixelType, h: Header, maxDim: nat)
    requires maxDim > 0
  {
    && |g| * width > 0
    && plan == PlanFor(|g|, width, t, h, maxDim, aduMax)
    && (match FixedAduMax(t, h) case Some(m) => aduMax == m case None => IsMax(aduMax, Flatten(g)))
    && Accumulated(a, plan, g)
    && |data| == Blocks(|g|, plan.k)
    && RowsDone(data, g, plan.k, Blocks(width, plan.k), plan.pattern, |data|)
  }

  lemma AssembledChannels(a: Totals, plan: Plan, aduMax: real, data: seq<seq<Pixel>>, g: Grid, width: nat)
    requires plan.Valid() && Accumulated(a, plan, g) && |g| * width > 0
    requires plan.step == SampleStep(|g|, width) && plan.siteStep == SiteStep(|g|, width)
    ensures plan.pattern.Some? ==> |a.channelHists| == |a.channelSamples| == 3
    ensures plan.pattern.Some? ==> forall c :: 0 <= c < 3 ==> |a.channelHists[c]| == HIST_BINS
    ensures Sampled(Assemble(a, plan, aduMax, data, |g|, width), g)
    ensures ColourHistograms(Assemble(a, plan, aduMax, data, |g|, width), g)
  {
  }

  lemma AssembledStatistics(a: Totals, plan: Plan, aduMax: real, data: seq<seq<Pixel>>, g: Grid, width: nat,
                            t: PixelType, h: Header, maxDim: nat)
    requires maxDim > 0 && Finished(a, plan, aduMax, data, g, width, t, h, maxDim)
    requires plan.pattern.Some? ==> |a.channelHists| == |a.channelSamples| == 3
    requires plan.pattern.Some? ==> forall c :: 0 <= c < 3 ==> |a.channelHists[c]| == HIST_BINS
    ensures var base := Assemble(a, plan, aduMax, data, |g|, width);
            && base.width == width && base.histMax == plan.histMax
            && Measured(base, g, t, h) && FullScale(base, g, t, h)
  {
    var base := Assemble(a, plan, aduMax, data, |g|, width);
    assert base.mean == Sum(Flatten(g)) / (|g| * width) as real;
    assert base.histogram == Histogram(g, base.histMax) by {
      if plan.pattern.Some? {
        ChannelHistogramsAddUp(g, plan.pattern.value, plan.histMax);
      }
    }
    assert FullScale(base, g, t, h);
  }

  lemma AssembledRows(a: Totals, plan: Plan, aduMax: real, data: seq<seq<Pixel>>, g: Grid, width: nat, t: PixelType,
                      h: Header, maxDim: nat)
    requires maxDim > 0 && |g| * width > 0 && plan == PlanFor(|g|, width, t, h, maxDim, aduMax)
    requires |data| == Blocks(|g|, plan.k) && RowsDone(data, g, plan.k, Blocks(width, plan.k), plan.pattern, |data|)
    requires plan.pattern.Some? ==> |a.channelHists| == |a.channelSamples| == 3
    requires plan.pattern.Some? ==> forall c :: 0 <= c < 3 ==> |a.channelHists[c]| == HIST_BINS
    ensures Shaped(Assemble(a, plan, aduMax, data, |g|, width), g, width, h, maxDim)
    ensures Binned(Assemble(a, plan, aduMax, data, |g|, width), g, h)
  {
    var base := Assemble(a, plan, aduMax, data, |g|, width);
    PlanPattern(|g|, width, t, h, maxDim, aduMax);
    assert base.data == data && base.binFactor == plan.k && base.bayerPattern == plan.pattern;
    assert base.width == width && base.height == |g|;
    hide PlanFor, Assemble, RowsDone, Binned;
    AllRows(base, g, h);
  }

  /** What the plan takes from the header and the frame's size. */
  lemma PlanPattern(height: nat, width: nat, t: PixelType, h: Header, maxDim: nat, aduMax: real)
    requires maxDim > 0
    ensures var plan := PlanFor(height, width, t, h, maxDim, aduMax);
            && plan.k >= 1 && plan.pattern == FramePattern(h, height, width)
            && plan.k == BinFactor(height, width, maxDim, plan.pattern.Some?)
            && (plan.pattern.Some? ==>
                  && ValidPattern(h.bayerpat) && |h.bayerpat| == 4 && plan.k % 2 == 0
                  && plan.pattern == BayerPattern(h) && |plan.pattern.value| == 4)
  {
    if ValidPattern(h.bayerpat) {
      BayerPatternPermutes(h);
    }
  }

  lemma AssembledDescribes(a: Totals, plan: Plan, aduMax: real, data: seq<seq<Pixel>>, g: Grid, width: nat,
                           t: PixelType, h: Header, maxDim: nat)
    requires maxDim > 0 && Finished(a, plan, aduMax, data, g, width, t, h, maxDim)
    ensures plan.pattern.Some? ==> |a.channelHists| == |a.channelSamples| == 3
    ensures plan.pattern.Some? ==> forall c :: 0 <= c < 3 ==> |a.channelHists[c]| == HIST_BINS
    ensures Describes(Assemble(a, plan, aduMax, data, |g|, width), g, width, t, h, maxDim)
  {
    AssembledChannels(a, plan, aduMax, data, g, width);
    AssembledStatistics(a, plan, aduMax, data, g, width, t, h, maxDim);
    AssembledRows(a, plan, aduMax, data, g, width, t, h, maxDim);
  }

  method LoadPreviewBase(raw: Grid, width: nat, t: PixelType, h: Header, maxDim: nat := PREVIEW_MAX_DIM,
                         stripPixels: nat := STRIP_PIXELS)
    returns (result: Result<PreviewBase, LoadError>)
    requires Rect(raw, width) && maxDim > 0
    ensures result.Err? <==> |raw| * width == 0
    ensures result.Ok? ==> Describes(result.value, Physical(raw, h), width, t, h, maxDim)
  {
    var height := |raw|;
    if height == 0 || width == 0 {
      return Err(EmptyImage);
    }
    MulFar(height, width);
    var bayer := FramePattern(h, height, width).Some?;
    var k := BinFactor(height, width, maxDim, bayer);
    var rowsPerStrip := RowsPerStrip(k, width, stripPixels);
    var aduMax: real;
    match FixedAduMax(t, h) {
      case Some(m) => aduMax := m;
      case None => aduMax := DataMax(raw, width, h, rowsPerStrip);
    }
    var plan := PlanFor(height, width, t, h, maxDim, aduMax);
    var binned := new seq<Pixel>[Blocks(height, k)];
    var a := ReadStrips(raw, h, plan, Blocks(width, k), rowsPerStrip, binned);
    AssembledDescribes(a, plan, aduMax, binned[..], Physical(raw, h), width, t, h, maxDim);
    result := Ok(Assemble(a, plan, aduMax, binned[..], height, width));
  }

  lemma EvenStart(start: nat, k: nat)
    requires k > 0 && k % 2 == 0 && start % k == 0
    ensures start % 2 == 0
  {
    assert start == start / k * (k / 2) * 2;
  }

  /** The rows read off the whole frame are the pixels `Binned` asks for. */
  lemma AllRows(base: PreviewBase, g: Grid, h: Header)
    requires base.binFactor > 0 && |base.data| == base.height / base.binFactor
    requires base.bayerPattern.Some? ==>
               ValidPattern(h.bayerpat) && base.binFactor % 2 == 0 && base.bayerPattern == BayerPattern(h)
    requires base.bayerPattern.Some? ==> |base.bayerPattern.value| == 4
    requires RowsDone(base.data, g, base.binFactor, base.width / base.binFactor, base.bayerPattern, |base.data|)
    ensures Binned(base, g, h)
  {
    var k, outW := base.binFactor, base.width / base.binFactor;
    forall r | 0 <= r < |base.data| ensures |base.data[r]| == outW {
      assert base.data[r] == BinnedRow(g, k, outW, r, base.bayerPattern);
    }
    forall r, c | 0 <= r < |base.data| && 0 <= c < outW
      ensures BasePixel(base.data[r][c], g, h, base.bayerPattern.Some?, k, r, c)
    {
      assert base.data[r] == BinnedRow(g, k, outW, r, base.bayerPattern);
      if base.bayerPattern.Some? {
        DebayerExact(g, h, k, r, c, 'R');
        DebayerExact(g, h, k, r, c, 'G');
        DebayerExact(g, h, k, r, c, 'B');
      }
    }
  }

  // ---- what the description settles ----

  lemma SameScale(b: PreviewBase, b': PreviewBase, g: Grid, t: PixelType, h: Header)
    requires FullScale(b, g, t, h) && FullScale(b', g, t, h)
    ensures b.aduMax == b'.aduMax && b.histMax == b'.histMax
  {
    if FixedAduMax(t, h).None? {
      var i :| 0 <= i < |Flatten(g)| && Flatten(g)[i] == b.aduMax;
      var j :| 0 <= j < |Flatten(g)| && Flatten(g)[j] == b'.aduMax;
    }
  }

  lemma SameRows(b: PreviewBase, b': PreviewBase, g: Grid, h: Header)
    requires b.binFactor == b'.binFactor > 0 && b.height == b'.height && b.width == b'.width
             && b.bayerPattern == b'.bayerPattern
    requires b.bayerPattern.Some? ==> |h.bayerpat| == 4
    requires Binned(b, g, h) && Binned(b', g, h)
    ensures b.data == b'.data
  {
    forall r | 0 <= r < |b.data| ensures b.data[r] == b'.data[r] {
      forall c | 0 <= c < b.width / b.binFactor ensures b.data[r][c] == b'.data[r][c] {
        assert BasePixel(b.data[r][c], g, h, b.bayerPattern.Some?, b.binFactor, r, c);
        assert BasePixel(b'.data[r][c], g, h, b.bayerPattern.Some?, b.binFactor, r, c);
      }
    }
  }

  /**
   Two runs over the same frame with any two strip heights give the same image, histograms, mean and
   saturation; the samples agree in order for a mono frame and as multisets per colour channel.
   */
  lemma StripHeightIrrelevant(b: PreviewBase, b': PreviewBase, g: Grid, width: nat, t: PixelType, h: Header,
                              maxDim: nat)
    requires maxDim > 0 && |g| * width > 0
    requires Describes(b, g, width, t, h, maxDim) && Describes(b', g, width, t, h, maxDim)
    ensures b.data == b'.data
    ensures b.aduMax == b'.aduMax && b.histogram == b'.histogram && b.mean == b'.mean && b.saturated == b'.saturated
    ensures b.channelHistograms == b'.channelHistograms
    ensures b.bayerPattern.None? ==> b.fullSample == b'.fullSample
    ensures b.bayerPattern.Some? ==> forall c :: 0 <= c < 3 ==>
              multiset(b.channelSamples[c]) == multiset(b'.channelSamples[c])
  {
    SameScale(b, b', g, t, h);
    SameRows(b, b', g, h);
  }

  /** A base whose physical values lie in [0, full scale] counts every pixel of the frame in its histogram. */
  lemma BaseHistogramTotal(b: PreviewBase, g: Grid, width: nat, t: PixelType, h: Header, maxDim: nat)
    requires maxDim > 0 && |g| * width > 0 && Rect(g, width) && Describes(b, g, width, t, h, maxDim)
    requires forall i :: 0 <= i < |Flatten(g)| ==> 0.0 <= Flatten(g)[i] <= b.aduMax
    ensures |b.histogram| == HIST_BINS && Total(b.histogram, HIST_BINS) == width * |g|
  {
    HistogramTotal(g, width, b.histMax);
  }
}
