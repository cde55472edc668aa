/** Geometry of the SMPTE colour bars. */
module SmpteGeometry {
  import opened Bytes
  import opened Rasters

  datatype Band = TopBars | MiddleBars | BottomBars

  /** Which of the three row loops writes row `y` of `h`. */
  function BandOf(y: int, h: int): Band {
    if y < h * 6 / 9 then TopBars else if y < h * 7 / 9 then MiddleBars else BottomBars
  }

  /** The top band is the rows of the upper two thirds, the middle band those down to seven ninths, the bottom band the rest. */
  lemma BandNinths(y: int, h: int)
    requires 0 <= y < h
    ensures BandOf(y, h) == TopBars <==> 3 * (y + 1) <= 2 * h
    ensures BandOf(y, h) == BottomBars <==> 9 * (y + 1) > 7 * h
  {
  }

  /** The bottom row of a width in 4..6 would divide by `w / 7 == 0`. */
  predicate Drawable(w: int) {
    0 < w && !(4 <= w <= 6)
  }

  /** The table index the fills compute for column `x`. */
  function BarOf(band: Band, x: int, w: int): (k: nat)
    requires 0 <= x < w && Drawable(w)
    ensures k < if band == BottomBars then 8 else 7
  {
    if band != BottomBars then PartIndex(x, 7, w); x * 7 / w
    else if x < w * 5 / 7 then PartIndex(x, 4, w * 5 / 7); x * 4 / (w * 5 / 7)
    else if x < w * 6 / 7 then PlugeIndex(x, w); (x - w * 5 / 7) * 3 / (w / 7) + 4
    else 7
  }

  /** Cutting `n` columns into four or seven parts numbers them below that. */
  lemma PartIndex(x: int, parts: nat, n: int)
    requires 0 <= x < n && (parts == 4 || parts == 7)
    ensures 0 <= x * parts / n < parts
  {
    QuotientBelow(x * parts, parts, n);
  }

  lemma QuotientBelow(a: int, parts: nat, n: int)
    requires 0 < n && 0 <= a < parts * n
    ensures 0 <= a / n < parts
  {
    var q := a / n;
    Quotient(a, n, q);
    if q < 0 {
      MulMono(q + 1, 0, n);
    } else if q >= parts {
      MulMono(parts, q, n);
    }
  }

  lemma Sevenths(w: nat, q: nat, r: nat)
    requires w == 7 * q + r && r < 7
    ensures w / 7 == q && w % 7 == r
    ensures w * 5 / 7 == 5 * q + r * 5 / 7
    ensures w * 6 / 7 == 6 * q + r * 6 / 7
  {
  }

  /** The sixth seventh of the row holds `q` columns, or one more when at least four columns remain. */
  lemma PlugeWidth(q: nat, r: nat)
    requires r < 7
    ensures 6 * q + r * 6 / 7 - (5 * q + r * 5 / 7) == if r >= 4 then q + 1 else q
  {
  }

  /** Three steps of `w / 7` columns cover the sixth seventh of the row, up to one column. */
  lemma PlugeIndex(x: int, w: int)
    requires w * 5 / 7 <= x < w * 6 / 7 && Drawable(w)
    ensures w >= 7 && 0 <= (x - w * 5 / 7) * 3 / (w / 7) <= 3
    ensures (x - w * 5 / 7) * 3 / (w / 7) == 3 <==> w % 7 >= 4 && x == w * 6 / 7 - 1
  {
    PlugePositive(w);
    Sevenths(w, w / 7, w % 7);
    PlugeWidth(w / 7, w % 7);
    ThreeTimes(x - w * 5 / 7, w / 7);
  }

  lemma PlugePositive(w: int)
    requires w * 5 / 7 < w * 6 / 7 && Drawable(w)
    ensures w >= 7 && w / 7 > 0
  {
  }

  lemma ThreeTimes(d: int, n: int)
    requires 0 <= d <= n && 0 < n
    ensures 0 <= d * 3 / n <= 3
    ensures d * 3 / n == 3 <==> d == n
  {
    Quotient(d * 3, n, d * 3 / n);
    Quotient(d * 3, n, 3);
    if d * 3 / n < 0 {
      MulMono(d * 3 / n + 1, 0, n);
    } else if d * 3 / n > 3 {
      MulMono(4, d * 3 / n, n);
    }
  }

  /** Every index of the top and middle rows names the seventh of the width the column lies in. */
  lemma BarIsSeventh(band: Band, x: int, w: int, k: int)
    requires 0 <= x < w && Drawable(w) && band != BottomBars
    ensures BarOf(band, x, w) == k <==> k * w <= 7 * x < (k + 1) * w
  {
    Quotient(x * 7, w, k);
  }

  lemma Quotient(a: int, n: int, k: int)
    requires 0 < n
    ensures a / n == k <==> k * n <= a < (k + 1) * n
  {
    var q := a / n;
    assert q * n <= a < q * n + n;
    if k < q {
      MulMono(k + 1, q, n);
    } else if k > q {
      MulMono(q + 1, k, n);
    }
  }

  /** The bottom row: four quarters of the left five sevenths, the black-level bars, then black. */
  lemma BottomSegments(x: int, w: int)
    requires 0 <= x < w && Drawable(w)
    ensures var k := BarOf(BottomBars, x, w);
      && (k < 4 <==> 7 * (x + 1) <= 5 * w)
      && (k < 4 ==> k * (w * 5 / 7) <= 4 * x < (k + 1) * (w * 5 / 7))
      && (4 <= k < 7 ==> (k - 4) * (w / 7) <= 3 * (x - w * 5 / 7) < (k - 3) * (w / 7))
      && (k == 7 <==> 7 * (x + 1) > 6 * w || (w % 7 >= 4 && x == w * 6 / 7 - 1))
  {
    var k := BarOf(BottomBars, x, w);
    if x < w * 5 / 7 {
      PartIndex(x, 4, w * 5 / 7);
      Quotient(x * 4, w * 5 / 7, k);
    } else if x < w * 6 / 7 {
      PlugeIndex(x, w);
      Quotient((x - w * 5 / 7) * 3, w / 7, k - 4);
    }
  }

  /** The column is written by the third column loop, which divides by `w / 7`. */
  predicate PlugeColumn(x: int, w: int) {
    w * 5 / 7 <= x < w * 6 / 7
  }

  /** The fills reach a division by `w / 7 == 0` exactly for widths 4, 5 and 6. */
  lemma DividesByZero(w: int)
    requires 0 < w
    ensures (exists x :: PlugeColumn(x, w) && w / 7 == 0) <==> !Drawable(w)
  {
    if 4 <= w <= 6 {
      assert PlugeColumn(w * 5 / 7, w);
    }
  }

  /** A chroma row shows the band of the last luma row it covers, although its limits are computed on their own. */
  lemma ChromaBand(r: int, rows: int, ysub: int)
    requires 0 <= r < rows && 0 < ysub
    ensures BandOf(r, rows) == BandOf(ysub * r + ysub - 1, ysub * rows)
  {
    BandLimit(r, rows, ysub, 6);
    BandLimit(r, rows, ysub, 7);
  }

  lemma BandLimit(r: int, rows: int, ysub: int, n: int)
    requires 0 < ysub
    ensures r < rows * n / 9 <==> ysub * r + ysub - 1 < ysub * rows * n / 9
  {
    var m := ysub * (r + 1);
    assert ysub * r + ysub - 1 == m - 1;
    assert r < rows * n / 9 <==> 9 * (r + 1) <= rows * n;
    assert m - 1 < ysub * rows * n / 9 <==> 9 * m <= ysub * rows * n;
    assert 9 * m == ysub * (9 * (r + 1)) && ysub * rows * n == ysub * (rows * n) by {
      Assoc(ysub, rows, n);
      Assoc(9, ysub, r + 1);
    }
    if 9 * (r + 1) <= rows * n {
      MulMono(9 * (r + 1), rows * n, ysub);
    } else {
      MulMono(rows * n + 1, 9 * (r + 1), ysub);
    }
  }

  lemma Assoc(a: int, b: int, c: int)
    ensures a * b * c == a * (b * c) && a * (b * c) == b * (a * c)
  {
  }

  // ----- the same indices in 32-bit unsigned arithmetic -----

  /** The frame is narrow and low enough for the products of the fills. */
  predicate Narrow(w: int, h: int) {
    7 * (w - 1) < 0x1_0000_0000 && 7 * h < 0x1_0000_0000
  }

  /** The products of the column loops at column `x` do not wrap. */
  predicate ColumnExact(x: int, w: int) {
    && U32(x * 7) == x * 7 && U32(x * 4) == x * 4 && U32(w * 5) == w * 5 && U32(w * 6) == w * 6
    && (w * 5 / 7 <= x ==> U32((x - w * 5 / 7) * 3) == (x - w * 5 / 7) * 3)
  }

  /** The products of the row loops do not wrap. */
  predicate RowsExact(h: int) {
    U32(h * 6) == h * 6 && U32(h * 7) == h * 7
  }

  lemma ColumnsExact(x: int, w: int)
    requires 0 <= x < w && 7 * (w - 1) < 0x1_0000_0000
    ensures ColumnExact(x, w)
  {
  }

  /** No unsigned product of the SMPTE loops wraps exactly when the frame is narrow. */
  lemma NoWrapExactly(w: int, h: int)
    requires 0 < w && 0 <= h
    ensures (forall x :: 0 <= x < w ==> ColumnExact(x, w)) && RowsExact(h) <==> Narrow(w, h)
  {
    if 7 * (w - 1) < 0x1_0000_0000 {
      forall x | 0 <= x < w
        ensures ColumnExact(x, w)
      {
        ColumnsExact(x, w);
      }
    } else {
      assert !ColumnExact(w - 1, w);
    }
  }

  /** In 32-bit arithmetic the index of the top and middle bands is right at every column exactly when no product wraps:
      otherwise the last column gets an earlier bar. */
  lemma TopExactly(w: int)
    requires 0 < w < 0x1_0000_0000
    ensures (forall x :: 0 <= x < w ==> WrappedTop(x, w) == x * 7 / w) <==> 7 * (w - 1) < 0x1_0000_0000
    ensures 7 * (w - 1) >= 0x1_0000_0000 ==> WrappedTop(w - 1, w) < 6 == (w - 1) * 7 / w
  {
    if 7 * (w - 1) < 0x1_0000_0000 {
      forall x | 0 <= x < w
        ensures WrappedTop(x, w) == x * 7 / w
      {
        ColumnsExact(x, w);
      }
    } else {
      var a := (w - 1) * 7;
      Quotient(a, w, 6);
      QuotientBelow(U32(a), 6, w);
      assert WrappedTop(w - 1, w) < 6;
    }
  }

  /** The table index that the code computes for column `x` of the upper bands, wrap-around included. */
  function WrappedTop(x: int, w: int): int
    requires 0 <= x < w
  {
    U32(x * 7) / w
  }

  /** The table index that the code computes for column `x` of the bottom band, wrap-around included. */
  function WrappedBottom(x: int, w: int): int
    requires 0 <= x && 7 <= w
  {
    if x < U32(w * 5) / 7 then U32(x * 4) / (U32(w * 5) / 7)
    else if x < U32(w * 6) / 7 then U32(U32(x - U32(w * 5) / 7) * 3) / (w / 7) + 4
    else 7
  }

  lemma SegmentsExact(w: int)
    requires 0 < w && Narrow(w, 0)
    ensures U32(w * 5) / 7 == w * 5 / 7 && U32(w * 6) / 7 == w * 6 / 7
  {
    ColumnsExact(0, w);
  }

  /** In narrow frames it is the index of the bar. */
  lemma BottomExact(x: int, w: int)
    requires 0 <= x < w && 7 <= w && Narrow(w, 0)
    ensures WrappedBottom(x, w) == BarOf(BottomBars, x, w)
  {
    SegmentsExact(w);
    ColumnsExact(x, w);
    var left := w * 5 / 7;
    if left <= x {
      assert U32(x - left) == x - left;
    }
  }

  /** In a frame of 10^9 columns it is another one: column 2 * 10^8 belongs to bar 1 and gets entry 6. */
  lemma WideFrameWraps()
    ensures WrappedBottom(200_000_000, 1_000_000_000) == 6
    ensures BarOf(BottomBars, 200_000_000, 1_000_000_000) == 1
    ensures !Narrow(1_000_000_000, 1)
  {
    var x, w := 200_000_000, 1_000_000_000;
    WideLimits(w);
    assert U32(x - 100_718_957) == 99_281_043 && U32(297_843_129) == 297_843_129;
    assert WrappedBottom(x, w) == 297_843_129 / 142_857_142 + 4;
    assert w * 5 / 7 == 714_285_714;
  }

  lemma WideLimits(w: int)
    requires w == 1_000_000_000
    ensures U32(w * 5) / 7 == 100_718_957 && U32(w * 6) / 7 == 243_576_100 && w / 7 == 142_857_142
  {
    assert w * 5 == 0x1_0000_0000 + 705_032_704 && w * 6 == 0x1_0000_0000 + 1_705_032_704;
  }
}
