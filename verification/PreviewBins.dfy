/**
 Block means of a frame and superpixel debayering: what a strip contributes to the binned
 image is what the same rows of the whole frame give, and each colour channel is the mean of
 exactly the block's pixels of that colour.
 */
module PreviewBins {
  import opened Wrappers
  import opened Grids
  import opened PreviewFrame

  /** The pixels of a frame from (y0, x0), every dy rows and dx columns. */
  function At(g: Grid, y0: int, x0: int, dy: int, dx: int): (int, int) -> real {
    (a, b) => Px(g, y0 + dy * a, x0 + dx * b)
  }

  function BlockMean(g: Grid, k: nat, r: int, c: int): real
    requires k > 0
  {
    Double(k, At(g, r * k, c * k, 1, 1)) / (k * k) as real
  }

  /** Sum over the block's k/2 x k/2 cells of the Bayer site i. */
  function SiteSum(g: Grid, k: nat, r: int, c: int, i: nat): real {
    Double(k / 2, At(g, r * k + i / 2, c * k + i % 2, 2, 2))
  }

  function Cells(k: nat): (n: real)
    requires k >= 2
    ensures n > 0.0
  {
    MulFar(k / 2, k / 2);
    (k / 2 * (k / 2)) as real
  }

  /** Mean over the cells of the site i. */
  function SiteMean(g: Grid, k: nat, r: int, c: int, i: nat): real
    requires k >= 2
  {
    SiteSum(g, k, r, c, i) / Cells(k)
  }

  /** One output channel, accumulated over the first n sites of the pattern; the two green sites weigh half each. */
  function BayerChannel(g: Grid, k: nat, r: int, c: int, p: string, ch: nat, n: nat): real
    requires k >= 2 && n <= |p| <= 4
  {
    if n == 0 then 0.0
    else
      BayerChannel(g, k, r, c, p, ch, n - 1)
      + (if ChannelOf(p[n - 1]) != ch then 0.0
         else if p[n - 1] != 'G' then SiteMean(g, k, r, c, n - 1)
         else SiteMean(g, k, r, c, n - 1) * 0.5)
  }

  function BayerPixel(g: Grid, k: nat, r: int, c: int, p: string): Pixel
    requires k >= 2 && |p| == 4
  {
    Rgb(BayerChannel(g, k, r, c, p, 0, 4), BayerChannel(g, k, r, c, p, 1, 4), BayerChannel(g, k, r, c, p, 2, 4))
  }

  /** Superpixel-debayer a strip whose row count is a multiple of even k. */
  function BinBayerRows(strip: Grid, k: nat, outW: nat, p: string): seq<seq<Pixel>>
    requires k >= 2 && |p| == 4
  {
    seq(|strip| / k, r requires 0 <= r < |strip| / k => seq(outW, c => BayerPixel(strip, k, r, c, p)))
  }

  /** Block-mean a strip whose row count is a multiple of k; extra columns are dropped. */
  function BinRows(strip: Grid, k: nat, outW: nat): seq<seq<Pixel>>
    requires k > 0
  {
    if k == 1 then
      seq(|strip|, r requires 0 <= r < |strip| => seq(outW, c => Mono(Px(strip, r, c))))
    else
      seq(|strip| / k, r requires 0 <= r < |strip| / k => seq(outW, c => Mono(BlockMean(strip, k, r, c))))
  }

  /** One row of the binned image, read off the whole frame. */
  function BinnedRow(g: Grid, k: nat, outW: nat, r: int, p: Option<string>): seq<Pixel>
    requires k > 0 && (p.Some? ==> k >= 2 && |p.value| == 4)
  {
    seq(outW, c => if p.Some? then BayerPixel(g, k, r, c, p.value) else Mono(BlockMean(g, k, r, c)))
  }

  // ---- strips ----

  /** A strip that starts on a block row sees the same pixels as the frame. */
  lemma StripCells(g: Grid, lo: nat, hi: nat, n: nat, d: nat, y0: nat, x0: int)
    requires lo <= hi <= |g| && d in {1, 2} && (n > 0 ==> y0 + d * (n - 1) < hi - lo)
    ensures Double(n, At(g[lo..hi], y0, x0, d, d)) == Double(n, At(g, lo + y0, x0, d, d))
  {
    var inStrip, inFrame := At(g[lo..hi], y0, x0, d, d), At(g, lo + y0, x0, d, d);
    forall a, b | 0 <= a < n && 0 <= b < n ensures inStrip(a, b) == inFrame(a, b) {
      assert y0 + d * a < hi - lo by { if d == 1 {} else {} }
      assert inStrip(a, b) == Px(g[lo..hi], y0 + d * a, x0 + d * b);
      assert inFrame(a, b) == Px(g, lo + y0 + d * a, x0 + d * b);
    }
    DoubleCongruent(n, inStrip, inFrame);
  }

  lemma BlockRows(r: nat, k: nat, rows: nat)
    requires k > 0 && r < rows / k
    ensures r * k + k <= rows / k * k <= rows
  {
    assert rows / k * k == r * k + k + (rows / k - 1 - r) * k;
  }

  /** A slice of strip rows of one block row, as the frame's. */
  lemma StripBlock(g: Grid, lo: nat, hi: nat, k: nat, r: nat, c: int)
    requires k > 0 && lo % k == 0 && lo <= hi <= |g| && r < (hi - lo) / k
    ensures BlockMean(g[lo..hi], k, r, c) == BlockMean(g, k, lo / k + r, c)
  {
    BlockRows(r, k, hi - lo);
    assert lo == lo / k * k;
    assert (lo / k + r) * k == lo + r * k;
    StripCells(g, lo, hi, k, 1, r * k, c * k);
  }

  lemma StripSite(g: Grid, lo: nat, hi: nat, k: nat, r: nat, c: int, i: nat)
    requires k >= 2 && k % 2 == 0 && lo % k == 0 && lo <= hi <= |g| && r < (hi - lo) / k && i < 4
    ensures SiteMean(g[lo..hi], k, r, c, i) == SiteMean(g, k, lo / k + r, c, i)
  {
    BlockRows(r, k, hi - lo);
    assert lo == lo / k * k;
    assert (lo / k + r) * k == lo + r * k;
    StripCells(g, lo, hi, k / 2, 2, r * k + i / 2, c * k + i % 2);
  }

  lemma {:induction false} StripChannel(g: Grid, lo: nat, hi: nat, k: nat, r: nat, c: int, p: string, ch: nat, n: nat)
    requires k >= 2 && k % 2 == 0 && lo % k == 0 && lo <= hi <= |g| && r < (hi - lo) / k && n <= |p| <= 4
    ensures BayerChannel(g[lo..hi], k, r, c, p, ch, n) == BayerChannel(g, k, lo / k + r, c, p, ch, n)
  {
    if n > 0 {
      StripChannel(g, lo, hi, k, r, c, p, ch, n - 1);
      StripSite(g, lo, hi, k, r, c, n - 1);
    }
  }

  lemma SinglePixelBlock(g: Grid, r: int, c: int)
    ensures BlockMean(g, 1, r, c) == Px(g, r, c)
  {
    var f := At(g, r, c, 1, 1);
    assert r * 1 == r && c * 1 == c;
    assert SumTo(1, RowOf(f, 0)) == SumTo(0, RowOf(f, 0)) + f(0, 0);
    assert Double(1, f) == SumTo(0, RowSums(f, 1)) + RowSums(f, 1)(0);
    assert f(0, 0) == Px(g, r + 1 * 0, c + 1 * 0);
  }

  /** The rows a strip contributes are the frame's rows from lo / k on. */
  lemma StripRows(g: Grid, lo: nat, hi: nat, k: nat, outW: nat, p: Option<string>, r: nat)
    requires k > 0 && lo % k == 0 && lo <= hi <= |g| && r < (hi - lo) / k
    requires p.Some? ==> k % 2 == 0 && |p.value| == 4
    ensures var rows := if p.Some? then BinBayerRows(g[lo..hi], k, outW, p.value) else BinRows(g[lo..hi], k, outW);
            |rows| == (hi - lo) / k && rows[r] == BinnedRow(g, k, outW, lo / k + r, p)
  {
    var strip := g[lo..hi];
    forall c | 0 <= c < outW
      ensures p.Some? ==> BayerPixel(strip, k, r, c, p.value) == BayerPixel(g, k, lo / k + r, c, p.value)
      ensures p.None? ==> BlockMean(strip, k, r, c) == BlockMean(g, k, lo / k + r, c)
      ensures p.None? && k == 1 ==> BlockMean(strip, 1, r, c) == Px(strip, r, c)
    {
      if p.Some? {
        StripChannel(g, lo, hi, k, r, c, p.value, 0, 4);
        StripChannel(g, lo, hi, k, r, c, p.value, 1, 4);
        StripChannel(g, lo, hi, k, r, c, p.value, 2, 4);
      } else {
        StripBlock(g, lo, hi, k, r, c);
        if k == 1 { SinglePixelBlock(strip, r, c); }
      }
    }
  }

  // ---- exact debayering ----

  /** The pixels of a block that have colour ch, others as 0. */
  function OfColour(g: Grid, h: Header, y0: int, x0: int, ch: char): (int, int) -> real
    requires |h.bayerpat| == 4
  {
    (i, j) => if CellColour(h, y0 + i, x0 + j) == ch then Px(g, y0 + i, x0 + j) else 0.0
  }

  function IsColour(h: Header, y0: int, x0: int, ch: char): (int, int) -> real
    requires |h.bayerpat| == 4
  {
    (i, j) => if CellColour(h, y0 + i, x0 + j) == ch then 1.0 else 0.0
  }

  /** Sum and number of the pixels of colour ch in block (r, c), counted pixel by pixel from the header's pattern. */
  function ColourSum(g: Grid, h: Header, k: nat, r: int, c: int, ch: char): real
    requires |h.bayerpat| == 4
  {
    Double(k, OfColour(g, h, r * k, c * k, ch))
  }

  function ColourCount(h: Header, k: nat, r: int, c: int, ch: char): real
    requires |h.bayerpat| == 4
  {
    Double(k, IsColour(h, r * k, c * k, ch))
  }

  /** A block of whole Bayer cells keeps the parity, hence the colour, of every cell. */
  lemma CellInBlock(h: Header, k: nat, r: int, c: int, a: int, b: int, i: nat)
    requires ValidPattern(h.bayerpat) && k % 2 == 0 && i < 4
    ensures CellColour(h, r * k + (2 * a + i / 2), c * k + (2 * b + i % 2)) == BayerPattern(h).value[i]
  {
    var y, x := r * k + (2 * a + i / 2), c * k + (2 * b + i % 2);
    BayerPatternNamesCells(h, y, x);
    assert r * k == 2 * (r * (k / 2)) && c * k == 2 * (c * (k / 2));
    assert y == 2 * (r * (k / 2) + a) + i / 2 && x == 2 * (c * (k / 2) + b) + i % 2;
    assert y % 2 == i / 2 && x % 2 == i % 2;
  }

  /** What the header's cells of site i add to the sum of colour ch. */
  lemma SiteOfColour(g: Grid, h: Header, k: nat, r: int, c: int, ch: char, i: nat)
    requires ValidPattern(h.bayerpat) && k >= 2 && k % 2 == 0 && i < 4
    ensures Double(k / 2, Sub(OfColour(g, h, r * k, c * k, ch), i / 2, i % 2)) ==
            Share(BayerPattern(h).value, ch, i, SiteSum(g, k, r, c, i))
  {
    var masked := Sub(OfColour(g, h, r * k, c * k, ch), i / 2, i % 2);
    var site := At(g, r * k + i / 2, c * k + i % 2, 2, 2);
    forall a, b | 0 <= a < k / 2 && 0 <= b < k / 2
      ensures masked(a, b) == if BayerPattern(h).value[i] == ch then site(a, b) else 0.0
    {
      CellInBlock(h, k, r, c, a, b, i);
      assert masked(a, b) == OfColour(g, h, r * k, c * k, ch)(2 * a + i / 2, 2 * b + i % 2);
      assert site(a, b) == Px(g, r * k + i / 2 + 2 * a, c * k + i % 2 + 2 * b);
    }
    if BayerPattern(h).value[i] == ch {
      DoubleCongruent(k / 2, masked, site);
    } else {
      DoubleConst(k / 2, masked, 0.0);
    }
  }

  lemma SiteIsColour(h: Header, k: nat, r: int, c: int, ch: char, i: nat)
    requires ValidPattern(h.bayerpat) && k >= 2 && k % 2 == 0 && i < 4
    ensures Double(k / 2, Sub(IsColour(h, r * k, c * k, ch), i / 2, i % 2)) ==
            Share(BayerPattern(h).value, ch, i, Cells(k))
  {
    var masked := Sub(IsColour(h, r * k, c * k, ch), i / 2, i % 2);
    var v := if BayerPattern(h).value[i] == ch then 1.0 else 0.0;
    forall a, b | 0 <= a < k / 2 && 0 <= b < k / 2 ensures masked(a, b) == v {
      CellInBlock(h, k, r, c, a, b, i);
      assert masked(a, b) == IsColour(h, r * k, c * k, ch)(2 * a + i / 2, 2 * b + i % 2);
    }
    DoubleConst(k / 2, masked, v);
  }

  /** What site i contributes to colour ch. */
  function Share(p: string, ch: char, i: nat, v: real): real
    requires i < |p|
  {
    if p[i] == ch then v else 0.0
  }

  function Shares(p: string, ch: char, v0: real, v1: real, v2: real, v3: real): real
    requires |p| == 4
  {
    Share(p, ch, 0, v0) + Share(p, ch, 1, v1) + Share(p, ch, 2, v2) + Share(p, ch, 3, v3)
  }

  /** A block is made up of its four sites. */
  lemma BlockBySite(k: nat, f: (int, int) -> real, p: string, ch: char, v0: real, v1: real, v2: real, v3: real)
    requires k % 2 == 0 && |p| == 4
    requires Double(k / 2, Sub(f, 0, 0)) == Share(p, ch, 0, v0) && Double(k / 2, Sub(f, 0, 1)) == Share(p, ch, 1, v1)
    requires Double(k / 2, Sub(f, 1, 0)) == Share(p, ch, 2, v2) && Double(k / 2, Sub(f, 1, 1)) == Share(p, ch, 3, v3)
    ensures Double(k, f) == Shares(p, ch, v0, v1, v2, v3)
  {
    hide Double, Sub, Share;
    DoubleParities(k / 2, f);
    assert 2 * (k / 2) == k;
  }

  lemma ColourSumBySite(g: Grid, h: Header, k: nat, r: int, c: int, ch: char)
    requires ValidPattern(h.bayerpat) && k >= 2 && k % 2 == 0
    ensures ColourSum(g, h, k, r, c, ch) ==
            Shares(BayerPattern(h).value, ch, SiteSum(g, k, r, c, 0), SiteSum(g, k, r, c, 1),
                   SiteSum(g, k, r, c, 2), SiteSum(g, k, r, c, 3))
  {
    BayerPatternPermutes(h);
    assert |h.bayerpat| == 4 && |BayerPattern(h).value| == 4;
    hide Double, Sub, OfColour, SiteSum, BayerPattern, ValidPattern, Share, Shares;
    SiteOfColour(g, h, k, r, c, ch, 0);
    SiteOfColour(g, h, k, r, c, ch, 1);
    SiteOfColour(g, h, k, r, c, ch, 2);
    SiteOfColour(g, h, k, r, c, ch, 3);
    BlockBySite(k, OfColour(g, h, r * k, c * k, ch), BayerPattern(h).value, ch, SiteSum(g, k, r, c, 0),
                SiteSum(g, k, r, c, 1), SiteSum(g, k, r, c, 2), SiteSum(g, k, r, c, 3));
  }

  lemma ColourCountBySite(h: Header, k: nat, r: int, c: int, ch: char)
    requires ValidPattern(h.bayerpat) && k >= 2 && k % 2 == 0
    ensures ColourCount(h, k, r, c, ch) ==
            Shares(BayerPattern(h).value, ch, Cells(k), Cells(k), Cells(k), Cells(k))
  {
    BayerPatternPermutes(h);
    assert |h.bayerpat| == 4 && |BayerPattern(h).value| == 4;
    hide Double, Sub, IsColour, Cells, BayerPattern, ValidPattern, Share, Shares;
    SiteIsColour(h, k, r, c, ch, 0);
    SiteIsColour(h, k, r, c, ch, 1);
    SiteIsColour(h, k, r, c, ch, 2);
    SiteIsColour(h, k, r, c, ch, 3);
    BlockBySite(k, IsColour(h, r * k, c * k, ch), BayerPattern(h).value, ch, Cells(k), Cells(k), Cells(k), Cells(k));
  }

  /**
   Each output channel is the mean of exactly the block's pixels of that colour, the colours
   being read from the header cell by cell; green is the mean over both green sites.
   */
  lemma DebayerExact(g: Grid, h: Header, k: nat, r: int, c: int, ch: char)
    requires ValidPattern(h.bayerpat) && k >= 2 && k % 2 == 0 && ch in {'R', 'G', 'B'}
    ensures BayerPattern(h).Some? && |BayerPattern(h).value| == 4
    ensures ColourCount(h, k, r, c, ch) == Cells(k) / Weight(ch) > 0.0
    ensures BayerChannel(g, k, r, c, BayerPattern(h).value, ChannelOf(ch), 4)
            == ColourSum(g, h, k, r, c, ch) / ColourCount(h, k, r, c, ch)
  {
    BayerPatternPermutes(h);
    var p := BayerPattern(h).value;
    ColourSumBySite(g, h, k, r, c, ch);
    ColourCountBySite(h, k, r, c, ch);
    ChannelWeights(g, k, r, c, p, ch);
    WeightedMean(p, ch, Cells(k), SiteSum(g, k, r, c, 0), SiteSum(g, k, r, c, 1), SiteSum(g, k, r, c, 2),
      SiteSum(g, k, r, c, 3));
  }

  function Weight(ch: char): real {
    if ch == 'G' then 0.5 else 1.0
  }

  lemma ChannelWeights(g: Grid, k: nat, r: int, c: int, p: string, ch: char)
    requires ValidPattern(p) && k >= 2 && ch in {'R', 'G', 'B'}
    ensures BayerChannel(g, k, r, c, p, ChannelOf(ch), 4) ==
            Weight(ch) * Shares(p, ch, SiteMean(g, k, r, c, 0), SiteMean(g, k, r, c, 1),
                                SiteMean(g, k, r, c, 2), SiteMean(g, k, r, c, 3))
  {
    OnlyBayerLetters(p);
    var c0 := ChannelOf(ch);
    assert BayerChannel(g, k, r, c, p, c0, 1) == Weight(ch) * Share(p, ch, 0, SiteMean(g, k, r, c, 0));
    assert BayerChannel(g, k, r, c, p, c0, 2) ==
           BayerChannel(g, k, r, c, p, c0, 1) + Weight(ch) * Share(p, ch, 1, SiteMean(g, k, r, c, 1));
    assert BayerChannel(g, k, r, c, p, c0, 3) ==
           BayerChannel(g, k, r, c, p, c0, 2) + Weight(ch) * Share(p, ch, 2, SiteMean(g, k, r, c, 2));
    assert BayerChannel(g, k, r, c, p, c0, 4) ==
           BayerChannel(g, k, r, c, p, c0, 3) + Weight(ch) * Share(p, ch, 3, SiteMean(g, k, r, c, 3));
  }

  lemma OnlyBayerLetters(p: string)
    requires ValidPattern(p)
    ensures forall i :: 0 <= i < 4 ==> p[i] in {'R', 'G', 'B'}
  {
    assert Occurs(p, 'R') + Occurs(p, 'G') + Occurs(p, 'B') == 4;
  }

  lemma WeightedMean(p: string, ch: char, n: real, s0: real, s1: real, s2: real, s3: real)
    requires ValidPattern(p) && ch in {'R', 'G', 'B'} && n > 0.0
    ensures Shares(p, ch, n, n, n, n) == n / Weight(ch)
    ensures Weight(ch) * Shares(p, ch, s0 / n, s1 / n, s2 / n, s3 / n) ==
            Shares(p, ch, s0, s1, s2, s3) / (n / Weight(ch))
  {
    EqualShares(p, ch, n);
    ScaledShares(p, ch, n, s0, s1, s2, s3);
    ScaledDivision(Weight(ch), Shares(p, ch, s0, s1, s2, s3), n);
  }

  lemma EqualShares(p: string, ch: char, n: real)
    requires ValidPattern(p) && ch in {'R', 'G', 'B'}
    ensures Shares(p, ch, n, n, n, n) == n / Weight(ch)
  {
    assert Occurs(p, ch) == if ch == 'G' then 2 else 1;
  }

  lemma ScaledShares(p: string, ch: char, n: real, s0: real, s1: real, s2: real, s3: real)
    requires |p| == 4 && n > 0.0
    ensures Shares(p, ch, s0 / n, s1 / n, s2 / n, s3 / n) == Shares(p, ch, s0, s1, s2, s3) / n
  {
    var t0, t1 := Share(p, ch, 0, s0), Share(p, ch, 1, s1);
    var t2, t3 := Share(p, ch, 2, s2), Share(p, ch, 3, s3);
    assert Share(p, ch, 0, s0 / n) == t0 / n && Share(p, ch, 1, s1 / n) == t1 / n;
    assert Share(p, ch, 2, s2 / n) == t2 / n && Share(p, ch, 3, s3 / n) == t3 / n;
    SumOfQuotients(t0, t1, t2, t3, n);
  }

  lemma SumOfQuotients(a: real, b: real, c: real, d: real, n: real)
    requires n > 0.0
    ensures a / n + b / n + c / n + d / n == (a + b + c + d) / n
  {
  }

  lemma ScaledDivision(w: real, s: real, n: real)
    requires w > 0.0 && n > 0.0
    ensures w * (s / n) == s / (n / w)
  {
    var q := s / n;
    assert q * n == s;
    assert (w * q) * (n / w) == q * n;
  }
}
