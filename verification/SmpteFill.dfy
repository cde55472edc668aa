/** The band loops shared by the SMPTE fills: three row loops, and five column loops inside them. */
module SmpteFill {
  import opened Bytes
  import opened Formats
  import opened Pictures
  import opened Rasters
  import opened SmpteGeometry

  /** The colour tables of one pass, each entry already split into the bytes of its lanes. */
  datatype Bars = Bars(top: seq<seq<Byte>>, middle: seq<seq<Byte>>, bottom: seq<seq<Byte>>)

  function Row(b: Bars, band: Band): seq<seq<Byte>> {
    match band
    case TopBars => b.top
    case MiddleBars => b.middle
    case BottomBars => b.bottom
  }

  predicate ValidBars(b: Bars, n: nat) {
    && |b.top| == 7 && |b.middle| == 7 && |b.bottom| == 8
    && (forall k :: 0 <= k < 7 ==> |b.top[k]| == n)
    && (forall k :: 0 <= k < 7 ==> |b.middle[k]| == n)
    && (forall k :: 0 <= k < 8 ==> |b.bottom[k]| == n)
  }

  /** The bar that sample `c` of row `r` shows when samples are `xsub` pixels apart. */
  function BarSample(b: Bars, xsub: nat, w: nat, rows: nat, l: int, c: int, r: int): Byte {
    if 0 <= xsub * c < w && Drawable(w) then
      var band := BandOf(r, rows);
      var k := BarOf(band, xsub * c, w);
      if k < |Row(b, band)| && 0 <= l < |Row(b, band)[k]| then Row(b, band)[k][l] else 0
    else 0
  }

  function BarsImage(b: Bars, xsub: nat, w: nat, rows: nat): Image {
    (l, c, r) => BarSample(b, xsub, w, rows, l, c, r)
  }

  /** `x * cs / xsub` is the offset of the sample, and it is the last column exactly at the end of the row. */
  lemma ColumnOffset(c: nat, xsub: nat, cs: nat, cols: nat)
    requires 0 < xsub
    ensures (xsub * c) * cs / xsub == c * cs
    ensures xsub * c < xsub * cols <==> c < cols
    ensures xsub * (c + 1) == xsub * c + xsub
  {
    assert (xsub * c) * cs == xsub * (c * cs);
    Quotient((xsub * c) * cs, xsub, c * cs);
    if c < cols {
      MulMono(c + 1, cols, xsub);
    } else {
      MulMono(cols, c, xsub);
    }
  }

  /** Columns before `c` of row `r` are painted, and the column pointer stands at pixel `x`. */
  ghost predicate InRow(s: seq<Byte>, p: Raster, b: Bars, xsub: nat, width: nat, x: int, c: int, r: int, start: seq<Byte>) {
    && 0 <= c <= p.cols && x == xsub * c
    && PaintedUpTo(s, p, BarsImage(b, xsub, width, p.rows), c, r)
    && OnlyIn(start, s, {p})
  }

  /** The byte offsets inside a row do not wrap. */
  predicate OffsetsExact(width: int, cs: nat) {
    (width - 1) * cs < 0x1_0000_0000
  }

  lemma OffsetExact(x: nat, width: int, cs: nat)
    requires x < width && OffsetsExact(width, cs)
    ensures U32(x * cs) == x * cs
  {
    MulMono(x, width - 1, cs);
    MulMono(0, x, cs);
  }

  ghost predicate Grid(p: Raster, b: Bars, xsub: nat, width: nat, size: int) {
    && 0 < xsub && width == xsub * p.cols && Drawable(width) && Narrow(width, p.rows) && OffsetsExact(width, p.step)
    && Separate(p) && Fits(p, size) && ValidBars(b, |p.lanes|)
  }

  lemma RowEnd(s: seq<Byte>, p: Raster, b: Bars, xsub: nat, width: nat, x: int, c: int, r: int, start: seq<Byte>)
    requires 0 < xsub && width == xsub * p.cols
    requires InRow(s, p, b, xsub, width, x, c, r, start) && x >= width
    ensures InRow(s, p, b, xsub, width, 0, 0, r + 1, start)
  {
    ColumnOffset(c, xsub, 1, p.cols);
  }

  /** Write the sample of pixel `x` from the table entry of its bar, and advance. */
  method PutBar(mem: array<Byte>, lanes: seq<nat>, row: nat, cs: nat, xsub: nat, x: nat, entry: seq<Byte>,
                ghost p: Raster, ghost b: Bars, ghost width: nat, ghost c: nat, ghost r: nat, ghost start: seq<Byte>)
    returns (x': nat)
    requires p.lanes == lanes && p.step == cs && row == r * p.pitch && r < p.rows
    requires Grid(p, b, xsub, width, mem.Length) && x < width
    requires entry == Row(b, BandOf(r, p.rows))[BarOf(BandOf(r, p.rows), x, width)]
    requires InRow(mem[..], p, b, xsub, width, x, c, r, start)
    modifies mem
    ensures InRow(mem[..], p, b, xsub, width, x', c + 1, r, start) && x' == x + xsub
  {
    ColumnOffset(c, xsub, cs, p.cols);
    OffsetExact(x, width, cs);
    PutSample(mem, lanes, row + U32(x * cs) / xsub, entry, p, BarsImage(b, xsub, width, p.rows), c, r, start);
    x' := x + xsub;
  }

  /** One row of the top or middle band: a single column loop. */
  method BarsRow(mem: array<Byte>, lanes: seq<nat>, row: nat, cs: nat, xsub: nat, width: nat, entries: seq<seq<Byte>>,
                 ghost p: Raster, ghost b: Bars, ghost r: nat, ghost start: seq<Byte>)
    requires p.lanes == lanes && p.step == cs && row == r * p.pitch && r < p.rows
    requires Grid(p, b, xsub, width, mem.Length)
    requires BandOf(r, p.rows) != BottomBars && entries == Row(b, BandOf(r, p.rows))
    requires InRow(mem[..], p, b, xsub, width, 0, 0, r, start)
    modifies mem
    ensures InRow(mem[..], p, b, xsub, width, 0, 0, r + 1, start)
  {
    ghost var c := 0;
    var x := 0;
    while x < width
      invariant InRow(mem[..], p, b, xsub, width, x, c, r, start)
    {
      ColumnsExact(x, width);
      assert BarOf(BandOf(r, p.rows), x, width) == x * 7 / width;
      x := PutBar(mem, lanes, row, cs, xsub, x, entries[U32(x * 7) / width], p, b, width, c, r, start);
      c := c + 1;
    }
    RowEnd(mem[..], p, b, xsub, width, x, c, r, start);
  }

  /** One row of the bottom band: three column loops that continue one another. */
  method BottomRow(mem: array<Byte>, lanes: seq<nat>, row: nat, cs: nat, xsub: nat, width: nat, entries: seq<seq<Byte>>,
                   ghost p: Raster, ghost b: Bars, ghost r: nat, ghost start: seq<Byte>)
    requires p.lanes == lanes && p.step == cs && row == r * p.pitch && r < p.rows
    requires Grid(p, b, xsub, width, mem.Length)
    requires BandOf(r, p.rows) == BottomBars && entries == b.bottom
    requires InRow(mem[..], p, b, xsub, width, 0, 0, r, start)
    modifies mem
    ensures InRow(mem[..], p, b, xsub, width, 0, 0, r + 1, start)
  {
    ghost var c := 0;
    var x := 0;
    ColumnsExact(0, width);
    while x < U32(width * 5) / 7
      invariant InRow(mem[..], p, b, xsub, width, x, c, r, start)
    {
      ColumnsExact(x, width);
      PartIndex(x, 4, width * 5 / 7);
      x := PutBar(mem, lanes, row, cs, xsub, x, entries[U32(x * 4) / (U32(width * 5) / 7)], p, b, width, c, r, start);
      c := c + 1;
    }
    while x < U32(width * 6) / 7
      invariant width * 5 / 7 <= x && InRow(mem[..], p, b, xsub, width, x, c, r, start)
    {
      ColumnsExact(x, width);
      PlugeIndex(x, width);
      x := PutBar(mem, lanes, row, cs, xsub, x, entries[U32((x - U32(width * 5) / 7) * 3) / (width / 7) + 4], p, b, width, c, r, start);
      c := c + 1;
    }
    while x < width
      invariant width * 6 / 7 <= x && InRow(mem[..], p, b, xsub, width, x, c, r, start)
    {
      x := PutBar(mem, lanes, row, cs, xsub, x, entries[7], p, b, width, c, r, start);
      c := c + 1;
    }
    RowEnd(mem[..], p, b, xsub, width, x, c, r, start);
  }

  /** The row pointers of row `y` have advanced by `row`, inside the rows `from..to` of a band. */
  predicate RowAt(y: int, row: int, rowStep: int, from: int, to: int) {
    from <= y <= to && row == y * rowStep
  }

  lemma NextRow(y: nat, rowStep: nat, rows: nat)
    ensures (y + 1) * rowStep == y * rowStep + rowStep
    ensures 0 <= y * rowStep
  {
    MulMono(0, y, rowStep);
  }

  lemma BandLimits(rows: nat, top: nat, middle: nat)
    requires 7 * rows < 0x1_0000_0000 && top == U32(rows * 6) / 9 && middle == U32(rows * 7) / 9
    ensures top == rows * 6 / 9 && middle == rows * 7 / 9 && top <= middle <= rows
  {
    assert RowsExact(rows);
  }

  /** One pass over a plane: `row` is how far the row pointers have advanced. */
  method FillBars(mem: array<Byte>, lanes: seq<nat>, cs: nat, xsub: nat, width: nat, rows: nat, rowStep: nat, b: Bars,
                  ghost p: Raster)
    requires 0 < xsub && width % xsub == 0 && Drawable(width) && Narrow(width, rows) && OffsetsExact(width, cs)
    requires p == Raster(lanes, rowStep, cs, width / xsub, rows)
    requires Separate(p) && Fits(p, mem.Length) && ValidBars(b, |lanes|)
    modifies mem
    ensures Painted(mem[..], p, BarsImage(b, xsub, width, rows))
    ensures OnlyIn(old(mem[..]), mem[..], {p})
  {
    ghost var start := mem[..];
    assert width == xsub * p.cols;
    var top, middle := U32(rows * 6) / 9, U32(rows * 7) / 9;
    BandLimits(rows, top, middle);
    var y, row := 0, 0;
    while y < top
      invariant RowAt(y, row, rowStep, 0, top)
      invariant InRow(mem[..], p, b, xsub, width, 0, 0, y, start)
    {
      NextRow(y, rowStep, rows);
      BarsRow(mem, lanes, row, cs, xsub, width, b.top, p, b, y, start);
      y, row := y + 1, row + rowStep;
    }
    while y < middle
      invariant RowAt(y, row, rowStep, top, middle)
      invariant InRow(mem[..], p, b, xsub, width, 0, 0, y, start)
    {
      NextRow(y, rowStep, rows);
      BarsRow(mem, lanes, row, cs, xsub, width, b.middle, p, b, y, start);
      y, row := y + 1, row + rowStep;
    }
    while y < rows
      invariant RowAt(y, row, rowStep, middle, rows)
      invariant InRow(mem[..], p, b, xsub, width, 0, 0, y, start)
    {
      NextRow(y, rowStep, rows);
      BottomRow(mem, lanes, row, cs, xsub, width, b.bottom, p, b, y, start);
      y, row := y + 1, row + rowStep;
    }
  }

  // ----- the bars as a picture -----

  function Entries(e: Encoding, n: nat, t: seq<Rgba>): (s: seq<seq<Byte>>)
    ensures |s| == |t| && forall k :: 0 <= k < |t| ==> s[k] == Encode(e, n, t[k])
  {
    seq(|t|, k requires 0 <= k < |t| => Encode(e, n, t[k]))
  }

  /** The colour tables of a fill, encoded for the lanes of one pass. */
  function Encoded(e: Encoding, n: nat, t: Table): Bars {
    Bars(Entries(e, n, t(TopBars)), Entries(e, n, t(MiddleBars)), Entries(e, n, t(BottomBars)))
  }

  lemma EncodedValid(e: Encoding, n: nat, t: Table)
    requires ValidTable(t)
    ensures ValidBars(Encoded(e, n, t), n)
  {
  }

  /** A sample of the pass shows the bar of the leftmost pixel in the last row of its block. */
  lemma BarsShow(e: Encoding, n: nat, t: Table, w: nat, rows: nat, s: Site, l: int, c: int, r: int)
    requires ValidTable(t) && 0 <= l < n && 0 < s.xsub && 0 < s.ysub && s.dx == 0 && s.dy == s.ysub - 1
    requires 0 <= s.xsub * c < w && 0 <= r < rows && Drawable(w)
    ensures BarSample(Encoded(e, n, t), s.xsub, w, rows, l, c, r) ==
            e(SmpteAt(t, w, s.ysub * rows, s.xsub * c + s.dx, s.ysub * r + s.dy), l)
  {
    ChromaBand(r, rows, s.ysub);
    assert Row(Encoded(e, n, t), BandOf(r, rows)) == Entries(e, n, t(BandOf(r, rows)));
  }

  lemma CellStored(p: Raster, e: Encoding, n: nat, t: Table, w: nat, h: nat, s: Site, l: int, c: int, r: int)
    requires ValidTable(t) && 0 < s.xsub && 0 < s.ysub && s.dx == 0 && s.dy == s.ysub - 1 && Drawable(w)
    requires |p.lanes| == n && w == s.xsub * p.cols && h == s.ysub * p.rows && Cell(p, l, c, r)
    ensures BarsImage(Encoded(e, n, t), s.xsub, w, p.rows)(l, c, r) == Stored(Smpte(t, w, h), e, s)(l, c, r)
  {
    ColumnOffset(c, s.xsub, 1, p.cols);
    MulMono(0, c, s.xsub);
    BarsShow(e, n, t, w, p.rows, s, l, c, r);
  }

  lemma BarsStored(mem: seq<Byte>, p: Raster, e: Encoding, n: nat, t: Table, w: nat, h: nat, s: Site)
    requires ValidTable(t) && 0 < s.xsub && 0 < s.ysub && s.dx == 0 && s.dy == s.ysub - 1 && Drawable(w)
    requires |p.lanes| == n && w == s.xsub * p.cols && h == s.ysub * p.rows
    requires Painted(mem, p, BarsImage(Encoded(e, n, t), s.xsub, w, p.rows))
    ensures Painted(mem, p, Stored(Smpte(t, w, h), e, s))
  {
    forall l, c, r | Cell(p, l, c, r)
      ensures BarsImage(Encoded(e, n, t), s.xsub, w, p.rows)(l, c, r) == Stored(Smpte(t, w, h), e, s)(l, c, r)
    {
      CellStored(p, e, n, t, w, h, s, l, c, r);
    }
    PaintedSame(mem, p, BarsImage(Encoded(e, n, t), s.xsub, w, p.rows), Stored(Smpte(t, w, h), e, s));
  }

  /** One pass of an SMPTE fill stores the SMPTE picture. */
  method SmptePass(mem: array<Byte>, lanes: seq<nat>, cs: nat, width: nat, rows: nat, rowStep: nat, e: Encoding, t: Table,
                   s: Site, ghost p: Raster)
    requires ValidTable(t) && 0 < s.xsub && 0 < s.ysub && s.dx == 0 && s.dy == s.ysub - 1
    requires width % s.xsub == 0 && Drawable(width) && Narrow(width, rows) && OffsetsExact(width, cs)
    requires p == Raster(lanes, rowStep, cs, width / s.xsub, rows)
    requires Separate(p) && Fits(p, mem.Length)
    modifies mem
    ensures Painted(mem[..], p, Stored(Smpte(t, width, s.ysub * rows), e, s))
    ensures OnlyIn(old(mem[..]), mem[..], {p})
  {
    var b := Encoded(e, |lanes|, t);
    EncodedValid(e, |lanes|, t);
    FillBars(mem, lanes, cs, s.xsub, width, rows, rowStep, b, p);
    BarsStored(mem[..], p, e, |lanes|, t, width, s.ysub * rows, s);
  }
}
