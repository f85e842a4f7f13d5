/**
 Two-dimensional frames as sequences of rows, the numpy operations the preview builder
 uses on them, and how those operations distribute over splitting a frame into row strips.
 */
module Grids {
  type Grid = seq<seq<real>>

  ghost predicate Rect(g: Grid, w: nat) {
    forall r :: 0 <= r < |g| ==> |g[r]| == w
  }

  /** The pixel at (y, x); 0 outside the frame. */
  function Px(g: Grid, y: int, x: int): real {
    if 0 <= y < |g| && 0 <= x < |g[y]| then g[y][x] else 0.0
  }

  // ---- numpy slices s[off::step] ----

  function Stride<T>(s: seq<T>, off: nat, step: nat): (r: seq<T>)
    requires step > 0
    ensures off >= |s| ==> r == []
    decreases |s| - off
  {
    if off >= |s| then [] else [s[off]] + Stride(s, off + step, step)
  }

  /** A non-zero multiple of s is at least s away from 0. */
  lemma MulFar(d: int, s: int)
    requires s > 0
    ensures d >= 1 ==> d * s >= s
    ensures d <= -1 ==> d * s <= -s
  {
    if d >= 1 {
      assert d * s == s + (d - 1) * s;
    } else if d <= -1 {
      assert d * s == -s + (d + 1) * s;
    }
  }

  lemma ModUnique(x: int, q: int, r: int, s: int)
    requires s > 0 && x == q * s + r && 0 <= r < s
    ensures x % s == r && x / s == q
  {
    var q', r' := x / s, x % s;
    assert x == q' * s + r';
    assert (q - q') * s == r' - r;
    MulFar(q - q', s);
  }

  lemma ModAddStep(x: int, s: int)
    requires s > 0
    ensures (x + s) % s == x % s
  {
    assert x + s == (x / s + 1) * s + x % s;
    ModUnique(x + s, x / s + 1, x % s, s);
  }

  /** Slices hold exactly the elements at off, off + step, off + 2 * step, ... */
  lemma {:induction false} StrideAt<T>(s: seq<T>, off: nat, step: nat, j: nat)
    requires step > 0
    ensures j < |Stride(s, off, step)| <==> off + j * step < |s|
    ensures j < |Stride(s, off, step)| ==> Stride(s, off, step)[j] == s[off + j * step]
    decreases |s| - off
  {
    if off < |s| && j > 0 {
      StrideAt(s, off + step, step, j - 1);
      assert off + step + (j - 1) * step == off + j * step;
    } else if off >= |s| {
      assert j * step >= 0;
    }
  }

  /** The phase at which a slice of step `step` that began at `off` re-enters after `n` elements. */
  function Phase(off: nat, n: nat, step: nat): (p: nat)
    requires step > 0
  {
    if off >= n then off - n else (off - n) % step
  }

  lemma {:induction false} StrideAppend<T>(a: seq<T>, b: seq<T>, off: nat, step: nat)
    requires step > 0
    ensures Stride(a + b, off, step) == Stride(a, off, step) + Stride(b, Phase(off, |a|, step), step)
    decreases |a| + |b| - off
  {
    if off >= |a| {
      if off < |a| + |b| {
        StrideAppend(a, b, off + step, step);
        assert (a + b)[off] == b[off - |a|];
      }
    } else {
      StrideAppend(a, b, off + step, step);
      ModAddStep(off - |a|, step);
      if off + step >= |a| {
        ModUnique(off + step - |a|, 0, off + step - |a|, step);
      }
      assert Phase(off + step, |a|, step) == Phase(off, |a|, step);
      assert (a + b)[off] == a[off];
    }
  }

  lemma {:induction false} StrideLength<T>(s: seq<T>, off: nat, n: nat)
    requires off < 2 && |s| == 2 * n
    ensures |Stride(s, off, 2)| == n
    decreases n
  {
    if n > 0 {
      assert s == s[..2] + s[2..];
      StrideAppend(s[..2], s[2..], off, 2);
      StrideLength(s[2..], off, n - 1);
      assert |Stride(s[..2], off, 2)| == 1;
    }
  }

  /** numpy g[:, off::step] */
  function Cols(g: Grid, off: nat, step: nat): (r: Grid)
    requires step > 0
  {
    seq(|g|, i requires 0 <= i < |g| => Stride(g[i], off, step))
  }

  lemma ColsAppend(a: Grid, b: Grid, off: nat, step: nat)
    requires step > 0
    ensures Cols(a + b, off, step) == Cols(a, off, step) + Cols(b, off, step)
  {
  }

  /** numpy g.ravel() */
  function Flatten(g: Grid): seq<real> {
    if g == [] then [] else g[0] + Flatten(g[1..])
  }

  lemma {:induction false} FlattenAppend(a: Grid, b: Grid)
    ensures Flatten(a + b) == Flatten(a) + Flatten(b)
  {
    if a == [] {
      assert a + b == b;
    } else {
      assert (a + b)[1..] == a[1..] + b;
      FlattenAppend(a[1..], b);
    }
  }

  lemma {:induction false} FlattenLength(g: Grid, w: nat)
    requires Rect(g, w)
    ensures |Flatten(g)| == |g| * w
  {
    if g != [] {
      FlattenLength(g[1..], w);
      assert |g| * w == w + (|g| - 1) * w;
    }
  }

  // ---- statistics over pixels ----

  function Sum(s: seq<real>): real {
    if s == [] then 0.0 else s[0] + Sum(s[1..])
  }

  lemma {:induction false} SumAppend(a: seq<real>, b: seq<real>)
    ensures Sum(a + b) == Sum(a) + Sum(b)
  {
    if a == [] {
      assert a + b == b;
    } else {
      assert (a + b)[1..] == a[1..] + b;
      SumAppend(a[1..], b);
    }
  }

  function Count(s: seq<real>, p: real -> bool): nat {
    if s == [] then 0 else (if p(s[0]) then 1 else 0) + Count(s[1..], p)
  }

  lemma {:induction false} CountAppend(a: seq<real>, b: seq<real>, p: real -> bool)
    ensures Count(a + b, p) == Count(a, p) + Count(b, p)
  {
    if a == [] {
      assert a + b == b;
    } else {
      assert (a + b)[1..] == a[1..] + b;
      CountAppend(a[1..], b, p);
    }
  }

  /** Counting does not see the order of the pixels. */
  lemma {:induction false} CountPermutation(a: seq<real>, b: seq<real>, p: real -> bool)
    requires multiset(a) == multiset(b)
    ensures Count(a, p) == Count(b, p)
  {
    if a == [] {
      assert |multiset(b)| == 0;
    } else {
      hide Count;
      assert a[0] in multiset(a);
      var front, back := SplitAround(b, a[0]);
      assert a == [] + ([a[0]] + a[1..]);
      RemoveOne([], a[0], a[1..], p);
      RemoveOne(front, a[0], back, p);
      assert [] + a[1..] == a[1..];
      CountPermutation(a[1..], front + back, p);
    }
  }

  lemma SplitAround(s: seq<real>, v: real) returns (front: seq<real>, back: seq<real>)
    requires v in s
    ensures s == front + ([v] + back)
  {
    var j :| 0 <= j < |s| && s[j] == v;
    front, back := s[..j], s[j + 1..];
  }

  lemma RemoveOne(front: seq<real>, v: real, back: seq<real>, p: real -> bool)
    ensures multiset(front + back) == multiset(front + ([v] + back)) - multiset{v}
    ensures Count(front + ([v] + back), p) == Count(front + back, p) + (if p(v) then 1 else 0)
  {
    CountAppend(front, [v] + back, p);
    CountAppend(front, back, p);
    CountFirst(v, back, p);
    assert multiset([v] + back) == multiset{v} + multiset(back);
  }

  lemma CountFirst(v: real, back: seq<real>, p: real -> bool)
    ensures Count([v] + back, p) == (if p(v) then 1 else 0) + Count(back, p)
  {
    assert ([v] + back)[1..] == back;
  }

  // ---- the four parity sites of a frame ----

  /** numpy g[i // 2::2, i % 2::2] */
  function Site(g: Grid, i: nat): Grid
    requires i < 4
  {
    Cols(Stride(g, i / 2, 2), i % 2, 2)
  }

  /** Site i holds exactly the pixels whose row parity is i / 2 and column parity i % 2. */
  lemma SiteAt(g: Grid, i: nat, a: nat, b: nat)
    requires i < 4
    ensures a < |Site(g, i)| <==> 2 * a + i / 2 < |g|
    ensures a < |Site(g, i)| ==>
      (b < |Site(g, i)[a]| <==> 2 * b + i % 2 < |g[2 * a + i / 2]|)
    ensures a < |Site(g, i)| && b < |Site(g, i)[a]| ==>
      Site(g, i)[a][b] == g[2 * a + i / 2][2 * b + i % 2]
  {
    StrideAt(g, i / 2, 2, a);
    if a < |Site(g, i)| {
      StrideAt(g[2 * a + i / 2], i % 2, 2, b);
    }
  }

  /** The rows or columns of one parity, two elements at a time. */
  lemma StrideTwo<T>(s: seq<T>)
    requires |s| >= 2
    ensures Stride(s, 0, 2) == [s[0]] + Stride(s[2..], 0, 2)
    ensures Stride(s, 1, 2) == [s[1]] + Stride(s[2..], 1, 2)
  {
    assert s == s[..2] + s[2..];
    StrideAppend(s[..2], s[2..], 0, 2);
    StrideAppend(s[..2], s[2..], 1, 2);
    assert Stride(s[..2], 0, 2) == [s[0]];
    assert Stride(s[..2], 1, 2) == [s[1]];
  }

  lemma {:induction false} RowParities(s: seq<real>)
    ensures multiset(s) == multiset(Stride(s, 0, 2)) + multiset(Stride(s, 1, 2))
  {
    if |s| >= 2 {
      var rest := s[2..];
      RowParities(rest);
      StrideTwo(s);
      Interleave(s[0], s[1], rest, Stride(rest, 0, 2), Stride(rest, 1, 2));
      FirstTwo(s);
    } else if |s| == 1 {
      assert Stride(s, 0, 2) == s;
    }
  }

  lemma FirstTwo<T>(s: seq<T>)
    requires |s| >= 2
    ensures s == [s[0]] + ([s[1]] + s[2..])
  {
  }

  lemma Interleave(a: real, b: real, rest: seq<real>, evens: seq<real>, odds: seq<real>)
    requires multiset(rest) == multiset(evens) + multiset(odds)
    ensures multiset([a] + ([b] + rest)) == multiset([a] + evens) + multiset([b] + odds)
  {
  }

  lemma {:induction false} ColumnParities(g: Grid)
    ensures multiset(Flatten(g)) == multiset(Flatten(Cols(g, 0, 2))) + multiset(Flatten(Cols(g, 1, 2)))
  {
    if g != [] {
      ColumnParities(g[1..]);
      RowParities(g[0]);
      ColumnsOfFirst(g, 0);
      ColumnsOfFirst(g, 1);
    }
  }

  lemma ColumnsOfFirst(g: Grid, off: nat)
    requires g != []
    ensures multiset(Flatten(Cols(g, off, 2))) == multiset(Stride(g[0], off, 2))
            + multiset(Flatten(Cols(g[1..], off, 2)))
  {
    assert Cols(g, off, 2)[1..] == Cols(g[1..], off, 2);
  }

  lemma {:induction false} RowsByParity(g: Grid)
    ensures multiset(Flatten(g)) == multiset(Flatten(Stride(g, 0, 2))) + multiset(Flatten(Stride(g, 1, 2)))
  {
    if |g| >= 2 {
      RowsByParity(g[2..]);
      StrideTwo(g);
      var evens, odds := Stride(g[2..], 0, 2), Stride(g[2..], 1, 2);
      FlattenCons(g[0], evens);
      FlattenCons(g[1], odds);
      assert g == [g[0]] + ([g[1]] + g[2..]);
      FlattenCons(g[1], g[2..]);
      FlattenCons(g[0], [g[1]] + g[2..]);
    } else if |g| == 1 {
      assert Stride(g, 0, 2) == g;
    }
  }

  lemma FlattenCons(row: seq<real>, g: Grid)
    ensures multiset(Flatten([row] + g)) == multiset(row) + multiset(Flatten(g))
  {
    assert ([row] + g)[1..] == g;
  }

  /** The four sites partition the pixels of any frame or strip, odd last rows and columns included. */
  lemma SitesPartition(g: Grid)
    ensures multiset(Flatten(g)) ==
            multiset(Flatten(Site(g, 0))) + multiset(Flatten(Site(g, 1)))
            + multiset(Flatten(Site(g, 2))) + multiset(Flatten(Site(g, 3)))
  {
    RowsByParity(g);
    ColumnParities(Stride(g, 0, 2));
    ColumnParities(Stride(g, 1, 2));
  }

  /** Splitting a frame after an even number of rows splits each site plane at half that row. */
  lemma SiteAppend(a: Grid, b: Grid, i: nat)
    requires i < 4 && |a| % 2 == 0
    ensures Site(a + b, i) == Site(a, i) + Site(b, i)
    ensures |Site(a, i)| == |a| / 2
  {
    StrideAppend(a, b, i / 2, 2);
    assert Phase(i / 2, |a|, 2) == i / 2;
    ColsAppend(Stride(a, i / 2, 2), Stride(b, i / 2, 2), i % 2, 2);
    StrideLength(a, i / 2, |a| / 2);
  }

  // ---- strided samples ----

  /** numpy g[::step, ::step].ravel() */
  function Sample(g: Grid, step: nat): seq<real>
    requires step > 0
  {
    Flatten(Cols(Stride(g, 0, step), 0, step))
  }

  /** What a strip that begins at frame row `start` contributes: numpy strip[(-start) % step::step, ::step].ravel() */
  function StripSample(strip: Grid, start: nat, step: nat): seq<real>
    requires step > 0
  {
    Flatten(Cols(Stride(strip, (0 - start) % step, step), 0, step))
  }

  lemma SampleAppend(a: Grid, b: Grid, step: nat)
    requires step > 0
    ensures Sample(a + b, step) == Sample(a, step) + StripSample(b, |a|, step)
  {
    StrideAppend(a, b, 0, step);
    assert Phase(0, |a|, step) == (0 - |a|) % step;
    ColsAppend(Stride(a, 0, step), Stride(b, (0 - |a|) % step, step), 0, step);
    FlattenAppend(Cols(Stride(a, 0, step), 0, step), Cols(Stride(b, (0 - |a|) % step, step), 0, step));
  }

  // ---- finite sums over index ranges ----

  function SumTo(n: nat, f: int -> real): real {
    if n == 0 then 0.0 else SumTo(n - 1, f) + f(n - 1)
  }

  lemma {:induction false} SumToCongruent(n: nat, f: int -> real, g: int -> real)
    requires forall i :: 0 <= i < n ==> f(i) == g(i)
    ensures SumTo(n, f) == SumTo(n, g)
  {
    if n > 0 {
      SumToCongruent(n - 1, f, g);
    }
  }

  lemma {:induction false} SumToConst(n: nat, f: int -> real, v: real)
    requires forall i :: 0 <= i < n ==> f(i) == v
    ensures SumTo(n, f) == n as real * v
  {
    if n > 0 {
      SumToConst(n - 1, f, v);
      assert n as real == (n - 1) as real + 1.0;
      assert n as real * v == (n - 1) as real * v + v;
    }
  }

  // ---- sums over a square block ----

  function RowOf(f: (int, int) -> real, y: int): int -> real {
    b => f(y, b)
  }

  function RowSums(f: (int, int) -> real, n: nat): int -> real {
    a => SumTo(n, RowOf(f, a))
  }

  function Double(n: nat, f: (int, int) -> real): real {
    SumTo(n, RowSums(f, n))
  }

  /** Every second row and column of a block, from offset (p, q). */
  function Sub(f: (int, int) -> real, p: int, q: int): (int, int) -> real {
    (a, b) => f(2 * a + p, 2 * b + q)
  }

  lemma DoubleCongruent(n: nat, f: (int, int) -> real, g: (int, int) -> real)
    requires forall a, b :: 0 <= a < n && 0 <= b < n ==> f(a, b) == g(a, b)
    ensures Double(n, f) == Double(n, g)
  {
    forall a | 0 <= a < n ensures RowSums(f, n)(a) == RowSums(g, n)(a) {
      SumToCongruent(n, RowOf(f, a), RowOf(g, a));
    }
    SumToCongruent(n, RowSums(f, n), RowSums(g, n));
  }

  lemma DoubleConst(n: nat, f: (int, int) -> real, v: real)
    requires forall a, b :: 0 <= a < n && 0 <= b < n ==> f(a, b) == v
    ensures Double(n, f) == n as real * (n as real * v)
  {
    forall a | 0 <= a < n ensures RowSums(f, n)(a) == n as real * v {
      SumToConst(n, RowOf(f, a), v);
    }
    SumToConst(n, RowSums(f, n), n as real * v);
  }

  lemma {:induction false} SplitColumns(h: nat, f: (int, int) -> real, p: int, a: int)
    ensures SumTo(2 * h, RowOf(f, 2 * a + p)) == SumTo(h, RowOf(Sub(f, p, 0), a)) + SumTo(h, RowOf(Sub(f, p, 1), a))
  {
    if h > 0 {
      SplitColumns(h - 1, f, p, a);
      var row := RowOf(f, 2 * a + p);
      assert SumTo(2 * h, row) == SumTo(2 * h - 2, row) + row(2 * h - 2) + row(2 * h - 1);
      assert RowOf(Sub(f, p, 0), a)(h - 1) == f(2 * a + p, 2 * (h - 1) + 0);
      assert RowOf(Sub(f, p, 1), a)(h - 1) == f(2 * a + p, 2 * (h - 1) + 1);
    }
  }

  /** Splitting the first 2 * n rows of a block of width 2 * h into the four parity sub-blocks. */
  lemma {:induction false} SplitRows(n: nat, h: nat, f: (int, int) -> real)
    ensures SumTo(2 * n, RowSums(f, 2 * h)) ==
            SumTo(n, RowSums(Sub(f, 0, 0), h)) + SumTo(n, RowSums(Sub(f, 0, 1), h))
            + SumTo(n, RowSums(Sub(f, 1, 0), h)) + SumTo(n, RowSums(Sub(f, 1, 1), h))
  {
    if n > 0 {
      SplitRows(n - 1, h, f);
      SplitColumns(h, f, 0, n - 1);
      SplitColumns(h, f, 1, n - 1);
      var rows := RowSums(f, 2 * h);
      assert SumTo(2 * n, rows) == SumTo(2 * n - 2, rows) + rows(2 * n - 2) + rows(2 * n - 1);
    }
  }

  /** A block of even size is the union of its four parity sub-blocks. */
  lemma DoubleParities(h: nat, f: (int, int) -> real)
    ensures Double(2 * h, f) ==
            Double(h, Sub(f, 0, 0)) + Double(h, Sub(f, 0, 1)) + Double(h, Sub(f, 1, 0)) + Double(h, Sub(f, 1, 1))
  {
    SplitRows(h, h, f);
  }
}
