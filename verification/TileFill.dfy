/** The YUV tile fills.  The planar one writes each chroma sample once for every pixel of its block. */
module TileFill {
  import opened Bytes
  import opened Formats
  import opened Colours
  import opened Rasters
  import opened SmpteGeometry
  import opened SmpteFill
  import opened Pictures
  import opened YuvFill

  /** The tile colour of a pixel: 32-bit unsigned macros over the components of `rgb32`, stored in unsigned chars. */
  function TileYuvAt(w: nat, h: nat, x: int, y: int): Yuv {
    WrapYuv(TileColour(w, h, x, y, 0))
  }

  function TileYuv(w: nat, h: nat): (int, int) -> Yuv {
    (x, y) => TileYuvAt(w, h, x, y)
  }

  /** `colour` yields the luma and chroma bytes of a picture of `w` by `h` pixels. */
  ghost predicate Colouring(colour: (int, int) -> Yuv, pic: Picture, le: Encoding, ce: Encoding, w: nat, h: nat) {
    forall x, y :: 0 <= x < w && 0 <= y < h ==>
      colour(x, y).y == le(pic(x, y), 0) && colour(x, y).u == ce(pic(x, y), 0) && colour(x, y).v == ce(pic(x, y), 1)
  }

  lemma TileYuvExact(w: nat, h: nat)
    requires TileSafe(w, h)
    ensures Colouring(TileYuv(w, h), TilesYuv(w), LumaByte(), ChromaBytes(), w, h)
  {
    forall x, y | 0 <= x < w && 0 <= y < h
      ensures TileYuv(w, h)(x, y).y == LumaByte()(TilesYuv(w)(x, y), 0)
      ensures TileYuv(w, h)(x, y).u == ChromaBytes()(TilesYuv(w)(x, y), 0)
      ensures TileYuv(w, h)(x, y).v == ChromaBytes()(TilesYuv(w)(x, y), 1)
    {
      TileColourExact(w, h, x, y, 0);
      TileBytes(TileRgbAt(w, x, y, 0));
    }
  }

  /** The colours a tile fill computes. */
  method TileColours(w: nat, h: nat) returns (colour: (int, int) -> Yuv)
    requires TileSafe(w, h)
    ensures Colouring(colour, TilesYuv(w), LumaByte(), ChromaBytes(), w, h)
  {
    TileYuvExact(w, h);
    colour := TileYuv(w, h);
  }

  lemma TileBytes(c: Rgba)
    requires EightBit(c)
    ensures WrapYuv(c).y == LumaByte()(c, 0) && WrapYuv(c).u == ChromaBytes()(c, 0) && WrapYuv(c).v == ChromaBytes()(c, 1)
  {
    WrapIsExact(c);
  }

  /** A block of `d`: stepping past its last element moves to the next block. */
  lemma BlockStep(x: nat, d: nat)
    requires 0 < d
    ensures x == d * (x / d) + x % d
    ensures (x + 1) % d == 0 <==> x == d * (x / d) + d - 1
    ensures (x + 1) / d == if (x + 1) % d == 0 then x / d + 1 else x / d
  {
    var q, m := x / d, x % d;
    if m == d - 1 {
      assert x + 1 == d * (q + 1);
      Quotient(x + 1, d, q + 1);
    } else {
      assert x + 1 == d * q + m + 1;
      Quotient(x + 1, d, q);
    }
  }

  lemma WholeBlocks(n: nat, d: nat)
    requires 0 < d && n % d == 0
    ensures n == d * (n / d)
  {
  }

  lemma BlockBelow(x: nat, d: nat, n: nat)
    requires 0 < d && x < d * n
    ensures x / d < n
  {
    if x / d >= n {
      MulMono(n, x / d, d);
      assert false;
    }
  }

  /** What a planar tile fill is to draw, and the buffer it started from. */
  datatype Job = Job(luma: Raster, chroma: Raster, pic: Picture, le: Encoding, ce: Encoding, site: Site, start: seq<Byte>)

  ghost predicate ValidJob(j: Job, size: int) {
    && Laid(j.luma, j.chroma, size) && |j.luma.lanes| == 1 && |j.chroma.lanes| == 2
    && j.site.xsub > 0 && j.site.ysub > 0 && j.site.dx == j.site.xsub - 1 && j.site.dy == j.site.ysub - 1
    && j.luma.cols == j.site.xsub * j.chroma.cols && j.luma.rows == j.site.ysub * j.chroma.rows
  }

  /** Chroma columns before `n` of row `r` were last written by row `y`, by the last pixel of their block. */
  ghost predicate LastWrites(s: seq<Byte>, chroma: Raster, pic: Picture, e: Encoding, site: Site, n: int, r: int, y: int) {
    forall l, c :: Cell(chroma, l, c, r) && c < n && 0 <= At(chroma, l, c, r) < |s| ==>
      s[At(chroma, l, c, r)] == e(pic(site.xsub * c + site.dx, y), l)
  }

  /** The state of the planar tile fill before pixel `x` of row `y`. */
  ghost predicate Tiling(s: seq<Byte>, j: Job, x: nat, y: nat)
    requires j.site.xsub > 0 && j.site.ysub > 0
  {
    && PaintedUpTo(s, j.luma, Stored(j.pic, j.le, EVERY_PIXEL), x, y)
    && PaintedUpTo(s, j.chroma, Stored(j.pic, j.ce, j.site), 0, y / j.site.ysub)
    && LastWrites(s, j.chroma, j.pic, j.ce, j.site, x / j.site.xsub, y / j.site.ysub, y)
    && OnlyIn(j.start, s, {j.luma, j.chroma})
  }

  /** `t` differs from `s` at most in the luma sample `x`, `y` and the chroma samples of `c`, `r`. */
  ghost predicate Stores(s: seq<Byte>, t: seq<Byte>, luma: Raster, chroma: Raster, x: int, y: int, c: int, r: int) {
    && |t| == |s|
    && forall i :: 0 <= i < |s| && t[i] != s[i] ==>
         (Cell(luma, 0, x, y) && At(luma, 0, x, y) == i) || exists l :: Cell(chroma, l, c, r) && At(chroma, l, c, r) == i
  }

  lemma LumaStep(s: seq<Byte>, t: seq<Byte>, luma: Raster, chroma: Raster, img: Image, x: int, y: int, c: int, r: int)
    requires Laid(luma, chroma, |s|) && |luma.lanes| == 1 && Cell(luma, 0, x, y)
    requires Stores(s, t, luma, chroma, x, y, c, r) && t[At(luma, 0, x, y)] == img(0, x, y)
    requires PaintedUpTo(s, luma, img, x, y)
    ensures PaintedUpTo(t, luma, img, x + 1, y)
  {
    forall l, x', y' | Cell(luma, l, x', y') && Before(x', y', x + 1, y)
      ensures t[At(luma, l, x', y')] == img(l, x', y')
    {
      if x' != x || y' != y {
        assert forall k :: Cell(chroma, k, c, r) ==> At(chroma, k, c, r) != At(luma, l, x', y');
        assert At(luma, 0, x, y) != At(luma, l, x', y');
      }
    }
  }

  /** A chroma sample of another block keeps its value. */
  lemma ChromaKept(s: seq<Byte>, t: seq<Byte>, luma: Raster, chroma: Raster, x: int, y: int, c: int, r: int,
                   l: int, c': int, r': int)
    requires Laid(luma, chroma, |s|) && |luma.lanes| == 1
    requires Stores(s, t, luma, chroma, x, y, c, r)
    requires Cell(chroma, l, c', r') && (c' != c || r' != r)
    ensures t[At(chroma, l, c', r')] == s[At(chroma, l, c', r')]
  {
    assert forall k :: Cell(chroma, k, c, r) ==> At(chroma, k, c, r) != At(chroma, l, c', r');
    assert Cell(luma, 0, x, y) ==> At(luma, 0, x, y) != At(chroma, l, c', r');
  }

  lemma ChromaStep(s: seq<Byte>, t: seq<Byte>, luma: Raster, chroma: Raster, pic: Picture, e: Encoding, site: Site,
                   x: nat, y: nat, c: nat, r: nat)
    requires Laid(luma, chroma, |s|) && |luma.lanes| == 1 && site.xsub > 0 && site.dx == site.xsub - 1
    requires c == x / site.xsub && c < chroma.cols && r < chroma.rows
    requires Stores(s, t, luma, chroma, x, y, c, r)
    requires forall l :: Cell(chroma, l, c, r) ==> t[At(chroma, l, c, r)] == e(pic(x, y), l)
    requires PaintedUpTo(s, chroma, Stored(pic, e, site), 0, r) && LastWrites(s, chroma, pic, e, site, c, r, y)
    ensures PaintedUpTo(t, chroma, Stored(pic, e, site), 0, r)
    ensures LastWrites(t, chroma, pic, e, site, (x + 1) / site.xsub, r, y)
  {
    BlockStep(x, site.xsub);
    forall l, c', r' | Cell(chroma, l, c', r') && Before(c', r', 0, r)
      ensures t[At(chroma, l, c', r')] == Stored(pic, e, site)(l, c', r')
    {
      ChromaKept(s, t, luma, chroma, x, y, c, r, l, c', r');
    }
    forall l, c' | Cell(chroma, l, c', r) && c' < (x + 1) / site.xsub
      ensures t[At(chroma, l, c', r)] == e(pic(site.xsub * c' + site.dx, y), l)
    {
      if c' != c {
        ChromaKept(s, t, luma, chroma, x, y, c, r, l, c', r);
      }
    }
  }

  lemma OnlyStep(s: seq<Byte>, t: seq<Byte>, luma: Raster, chroma: Raster, x: int, y: int, c: int, r: int, start: seq<Byte>)
    requires Stores(s, t, luma, chroma, x, y, c, r) && OnlyIn(start, s, {luma, chroma})
    ensures OnlyIn(start, t, {luma, chroma})
  {
    forall i | 0 <= i < |s| && (forall p :: p in {luma, chroma} ==> !Covers(p, i))
      ensures t[i] == start[i]
    {
      assert !Covers(luma, i) && !Covers(chroma, i) by {
        assert luma in {luma, chroma} && chroma in {luma, chroma};
      }
    }
  }

  /** At the end of a row the chroma row is final exactly when the row was the last of its block. */
  lemma EndOfRow(s: seq<Byte>, j: Job, y: nat)
    requires ValidJob(j, |s|) && Tiling(s, j, j.luma.cols, y)
    ensures Tiling(s, j, 0, y + 1)
  {
    BlockStep(y, j.site.ysub);
    Quotient(j.luma.cols, j.site.xsub, j.chroma.cols);
    Quotient(0, j.site.xsub, 0);
    var r := y / j.site.ysub;
    if (y + 1) % j.site.ysub == 0 {
      forall l, c', r' | Cell(j.chroma, l, c', r') && Before(c', r', 0, r + 1) && 0 <= At(j.chroma, l, c', r') < |s|
        ensures s[At(j.chroma, l, c', r')] == Stored(j.pic, j.ce, j.site)(l, c', r')
      {
      }
    }
  }

  lemma TileStep(s: seq<Byte>, t: seq<Byte>, j: Job, x: nat, y: nat, c: nat, r: nat)
    requires ValidJob(j, |s|) && Cell(j.luma, 0, x, y) && c == x / j.site.xsub && r == y / j.site.ysub
    requires c < j.chroma.cols && r < j.chroma.rows
    requires Stores(s, t, j.luma, j.chroma, x, y, c, r)
    requires t[At(j.luma, 0, x, y)] == j.le(j.pic(x, y), 0)
    requires forall l :: Cell(j.chroma, l, c, r) ==> t[At(j.chroma, l, c, r)] == j.ce(j.pic(x, y), l)
    requires Tiling(s, j, x, y)
    ensures Tiling(t, j, x + 1, y)
  {
    LumaStep(s, t, j.luma, j.chroma, Stored(j.pic, j.le, EVERY_PIXEL), x, y, c, r);
    ChromaStep(s, t, j.luma, j.chroma, j.pic, j.ce, j.site, x, y, c, r);
    OnlyStep(s, t, j.luma, j.chroma, x, y, c, r, j.start);
  }

  /** The three stores for one pixel; `yRow` and `cRow` are the advances of the luma and chroma pointers. */
  method PutTile(mem: array<Byte>, yMem: nat, uMem: nat, vMem: nat, yRow: nat, cRow: nat, cs: nat, x: nat, c: nat, colour: Yuv,
                 ghost j: Job, ghost y: nat, ghost r: nat)
    requires ValidJob(j, mem.Length) && Cell(j.luma, 0, x, y)
    requires c == x / j.site.xsub && r == y / j.site.ysub && c < j.chroma.cols && r < j.chroma.rows
    requires j.luma.lanes == [yMem] && j.chroma.lanes == [uMem, vMem] && j.luma.step == 1 && j.chroma.step == cs
    requires yRow == y * j.luma.pitch && cRow == r * j.chroma.pitch && U32(c * cs) == c * cs
    requires colour == Yuv(j.le(j.pic(x, y), 0), j.ce(j.pic(x, y), 0), j.ce(j.pic(x, y), 1))
    requires Tiling(mem[..], j, x, y)
    modifies mem
    ensures Tiling(mem[..], j, x + 1, y)
  {
    ghost var s := mem[..];
    assert Cell(j.chroma, 0, c, r) && Cell(j.chroma, 1, c, r);
    assert At(j.luma, 0, x, y) == yMem + yRow + x;
    assert At(j.chroma, 0, c, r) == uMem + cRow + c * cs && At(j.chroma, 1, c, r) == vMem + cRow + c * cs;
    mem[yMem + yRow + x] := colour.y;
    mem[uMem + cRow + U32(c * cs)] := colour.u;
    mem[vMem + cRow + U32(c * cs)] := colour.v;
    TileStep(s, mem[..], j, x, y, c, r);
  }

  lemma BlockOffset(x: nat, d: nat, width: nat, cs: nat)
    requires 0 < d && x < width && OffsetsExact(width, cs)
    ensures U32(x / d * cs) == x / d * cs
  {
    Quotient(x, d, x / d);
    MulMono(1, d, x / d);
    OffsetExact(x / d, width, cs);
  }

  /** One row of the planar tile fill. */
  method TilesPlanarRow(mem: array<Byte>, colour: (int, int) -> Yuv, yMem: nat, uMem: nat, vMem: nat, yRow: nat, cRow: nat,
                        cs: nat, xsub: nat, width: nat, y: nat, ghost j: Job, ghost r: nat)
    requires ValidJob(j, mem.Length) && Colouring(colour, j.pic, j.le, j.ce, j.luma.cols, j.luma.rows)
    requires j.luma.lanes == [yMem] && j.chroma.lanes == [uMem, vMem] && j.site.xsub == xsub
    requires j.luma.step == 1 && j.chroma.step == cs && j.luma.cols == width
    requires y < j.luma.rows && r == y / j.site.ysub && r < j.chroma.rows
    requires yRow == y * j.luma.pitch && cRow == r * j.chroma.pitch && OffsetsExact(width, cs)
    requires Tiling(mem[..], j, 0, y)
    modifies mem
    ensures Tiling(mem[..], j, width, y)
  {
    for x := 0 to width
      invariant Tiling(mem[..], j, x, y)
    {
      BlockBelow(x, xsub, j.chroma.cols);
      BlockOffset(x, xsub, width, cs);
      PutTile(mem, yMem, uMem, vMem, yRow, cRow, cs, x, x / xsub, colour(x, y), j, y, r);
    }
  }

  /** Where the pointers stand before row `y`. */
  ghost predicate Pointers(j: Job, y: nat, yRow: nat, cRow: nat) {
    y <= j.luma.rows && j.site.ysub > 0 && yRow == y * j.luma.pitch && cRow == (y / j.site.ysub) * j.chroma.pitch
  }

  lemma NextPointers(j: Job, y: nat, yRow: nat, cRow: nat)
    requires Pointers(j, y, yRow, cRow) && y < j.luma.rows
    ensures Pointers(j, y + 1, yRow + j.luma.pitch, if (y + 1) % j.site.ysub == 0 then cRow + j.chroma.pitch else cRow)
  {
    BlockStep(y, j.site.ysub);
    NextRow(y, j.luma.pitch, j.luma.rows);
    NextRow(y / j.site.ysub, j.chroma.pitch, j.luma.rows);
  }

  lemma FirstPixel(s: seq<Byte>, j: Job)
    requires ValidJob(j, |s|) && j.start == s
    ensures Tiling(s, j, 0, 0) && Pointers(j, 0, 0, 0)
  {
    Quotient(0, j.site.xsub, 0);
    Quotient(0, j.site.ysub, 0);
  }

  lemma LastPixel(s: seq<Byte>, j: Job)
    requires ValidJob(j, |s|) && Tiling(s, j, 0, j.luma.rows)
    ensures ShowsStored(j.start, s, j.luma, j.chroma, j.pic, j.le, j.ce, j.site)
  {
    Quotient(j.luma.rows, j.site.ysub, j.chroma.rows);
  }

  /** One row, and where the pointers go next. */
  method TilesPlanarNext(mem: array<Byte>, colour: (int, int) -> Yuv, yMem: nat, uMem: nat, vMem: nat, yRow: nat, cRow: nat,
                         cs: nat, xsub: nat, ysub: nat, width: nat, y: nat, stride: nat, chromaStep: nat, ghost j: Job)
    returns (yRow': nat, cRow': nat)
    requires ValidJob(j, mem.Length) && Colouring(colour, j.pic, j.le, j.ce, j.luma.cols, j.luma.rows)
    requires j.luma.lanes == [yMem] && j.luma.pitch == stride && j.luma.step == 1 && j.luma.cols == width
    requires j.chroma.lanes == [uMem, vMem] && j.chroma.pitch == chromaStep && j.chroma.step == cs
    requires j.site.xsub == xsub && j.site.ysub == ysub && OffsetsExact(width, cs)
    requires y < j.luma.rows && Pointers(j, y, yRow, cRow) && Tiling(mem[..], j, 0, y)
    modifies mem
    ensures Pointers(j, y + 1, yRow', cRow') && Tiling(mem[..], j, 0, y + 1)
  {
    BlockBelow(y, ysub, j.chroma.rows);
    TilesPlanarRow(mem, colour, yMem, uMem, vMem, yRow, cRow, cs, xsub, width, y, j, y / ysub);
    EndOfRow(mem[..], j, y);
    NextPointers(j, y, yRow, cRow);
    yRow', cRow' := yRow + stride, cRow;
    if (y + 1) % ysub == 0 {
      cRow' := cRow' + chromaStep;
    }
  }

  /** The row loop of the planar tile fill; the chroma pointers advance only after the last row of a block. */
  method TilesPlanar(mem: array<Byte>, colour: (int, int) -> Yuv, yMem: nat, uMem: nat, vMem: nat, cs: nat, xsub: nat, ysub: nat,
                     width: nat, height: nat, stride: nat, chromaStep: nat, ghost j: Job)
    requires ValidJob(j, mem.Length) && Colouring(colour, j.pic, j.le, j.ce, j.luma.cols, j.luma.rows)
    requires j.luma == Raster([yMem], stride, 1, width, height) && j.site.xsub == xsub && j.site.ysub == ysub
    requires j.chroma.lanes == [uMem, vMem] && j.chroma.pitch == chromaStep && j.chroma.step == cs
    requires j.start == mem[..] && OffsetsExact(width, cs)
    modifies mem
    ensures ShowsStored(old(mem[..]), mem[..], j.luma, j.chroma, j.pic, j.le, j.ce, j.site)
  {
    FirstPixel(mem[..], j);
    var y: nat, yRow: nat, cRow: nat := 0, 0, 0;
    while y < height
      invariant y <= height && Pointers(j, y, yRow, cRow)
      invariant Tiling(mem[..], j, 0, y)
    {
      yRow, cRow := TilesPlanarNext(mem, colour, yMem, uMem, vMem, yRow, cRow, cs, xsub, ysub, width, y, stride, chromaStep, j);
      y := y + 1;
    }
    LastPixel(mem[..], j);
  }

  ghost predicate PlanarReady(yuv: YuvInfo, yMem: nat, uMem: nat, vMem: nat, width: nat, height: nat, stride: nat, size: int) {
    && yuv.xsub > 0 && yuv.ysub > 0 && width % yuv.xsub == 0 && height % yuv.ysub == 0
    && OffsetsExact(width, yuv.chromaStride) && stride * yuv.chromaStride < 0x1_0000_0000
    && Laid(LumaRaster(yMem, width, height, stride), ChromaRaster(yuv, uMem, vMem, width, height, stride), size)
  }

  /** A tile fill of any colouring. */
  method TilesPlanarLoop(mem: array<Byte>, colour: (int, int) -> Yuv, yuv: YuvInfo, yMem: nat, uMem: nat, vMem: nat,
                         width: nat, height: nat, stride: nat, ghost pic: Picture, ghost le: Encoding, ghost ce: Encoding)
    requires PlanarReady(yuv, yMem, uMem, vMem, width, height, stride, mem.Length) && Colouring(colour, pic, le, ce, width, height)
    modifies mem
    ensures ShowsStored(old(mem[..]), mem[..], LumaRaster(yMem, width, height, stride),
                        ChromaRaster(yuv, uMem, vMem, width, height, stride), pic, le, ce,
                        Site(yuv.xsub, yuv.ysub, yuv.xsub - 1, yuv.ysub - 1))
  {
    var cs, xsub, ysub := yuv.chromaStride, yuv.xsub, yuv.ysub;
    var chroma := ChromaRaster(yuv, uMem, vMem, width, height, stride);
    WholeBlocks(width, xsub);
    WholeBlocks(height, ysub);
    MulMono(0, stride, cs);
    TilesPlanar(mem, colour, yMem, uMem, vMem, cs, xsub, ysub, width, height, stride, U32(stride * cs) / xsub,
                Job(LumaRaster(yMem, width, height, stride), chroma, pic, le, ce, Site(xsub, ysub, xsub - 1, ysub - 1), mem[..]));
  }

  /** fill_tiles_yuv_planar */
  method FillTilesYuvPlanar(mem: array<Byte>, yuv: YuvInfo, yMem: nat, uMem: nat, vMem: nat,
                            width: nat, height: nat, stride: nat)
    requires width == 0 || height == 0 || stride == 0 || yuv.xsub == 0 || yuv.ysub == 0 ||
      (TileSafe(width, height) && PlanarReady(yuv, yMem, uMem, vMem, width, height, stride, mem.Length))
    modifies mem
    ensures width == 0 || height == 0 || stride == 0 || yuv.xsub == 0 || yuv.ysub == 0 ==> mem[..] == old(mem[..])
    ensures !(width == 0 || height == 0 || stride == 0 || yuv.xsub == 0 || yuv.ysub == 0) ==>
      ShowsPlanar(old(mem[..]), mem[..], LumaRaster(yMem, width, height, stride),
                  ChromaRaster(yuv, uMem, vMem, width, height, stride),
                  TilesYuv(width), Site(yuv.xsub, yuv.ysub, yuv.xsub - 1, yuv.ysub - 1))
  {
    if width == 0 || height == 0 || stride == 0 {
      return;
    }
    if yuv.xsub == 0 || yuv.ysub == 0 {
      return;
    }
    var colour := TileColours(width, height);
    TilesPlanarLoop(mem, colour, yuv, yMem, uMem, vMem, width, height, stride, TilesYuv(width), LumaByte(), ChromaBytes());
  }

  // ----- packed -----

  /** The packed tile fill gives both pixels of a pair the colour of the first. */
  function Paired(pic: Picture): Picture {
    (x, y) => pic(2 * (x / 2), y)
  }

  /** The four bytes of a pair of pixels, in the order the fill stores them: Y, U, Y, V. */
  function PairRaster(o: YuvOrder, base: nat, width: nat, height: nat, stride: nat): Raster {
    Raster([base + LumaOffset(o), base + UOffset(o), base + LumaOffset(o) + 2, base + VOffset(o)], stride, 4, width / 2, height)
  }

  function PairImage(pic: Picture, le: Encoding, ce: Encoding): Image {
    (l, c, r) => if l == 0 || l == 2 then le(pic(2 * c, r), 0) else ce(pic(2 * c, r), if l == 1 then 0 else 1)
  }

  lemma PairLaid(o: YuvOrder, base: nat, width: nat, height: nat, stride: nat, size: nat)
    requires PackedOrder(o) && width % 2 == 0 && 2 * width <= stride && base + height * stride <= size
    ensures Separate(PairRaster(o, base, width, height, stride)) && Fits(PairRaster(o, base, width, height, stride), size)
  {
    var p := PairRaster(o, base, width, height, stride);
    InterleavedSeparate(p, base);
    InterleavedFits(p, base, size);
  }

  lemma LumaInPair(o: YuvOrder, base: nat, width: nat, height: nat, stride: nat, x: nat, y: nat)
    requires width % 2 == 0 && x < width && y < height
    ensures var p := PairRaster(o, base, width, height, stride);
      && Cell(p, 2 * (x % 2), x / 2, y)
      && At(p, 2 * (x % 2), x / 2, y) == At(PackedLuma(o, base, width, height, stride), 0, x, y)
  {
    assert 4 * (x / 2) + 2 * (x % 2) == 2 * x;
  }

  lemma ChromaInPair(o: YuvOrder, base: nat, width: nat, height: nat, stride: nat, l: nat, c: nat, r: nat)
    requires l < 2 && c < width / 2 && r < height
    ensures var p := PairRaster(o, base, width, height, stride);
      && Cell(p, 2 * l + 1, c, r)
      && At(p, 2 * l + 1, c, r) == At(PackedChroma(o, base, width, height, stride), l, c, r)
  {
  }

  lemma PairedAt(pic: Picture, x: int, y: int)
    ensures Paired(pic)(x, y) == pic(2 * (x / 2), y)
    ensures Paired(pic)(2 * x, y) == pic(2 * x, y)
  {
    assert 2 * (2 * x / 2) == 2 * x;
  }

  lemma StoredAt(pic: Picture, e: Encoding, l: int, c: int, r: int)
    ensures Stored(pic, e, Site(2, 1, 0, 0))(l, c, r) == e(pic(2 * c, r), l)
    ensures Stored(pic, e, EVERY_PIXEL)(l, c, r) == e(pic(c, r), l)
  {
  }

  lemma PairImageAt(pic: Picture, le: Encoding, ce: Encoding, l: nat, c: int, r: int)
    requires l < 2
    ensures PairImage(pic, le, ce)(2 * l, c, r) == le(pic(2 * c, r), 0)
    ensures PairImage(pic, le, ce)(2 * l + 1, c, r) == ce(pic(2 * c, r), l)
  {
  }

  lemma PairLumaImage(pic: Picture, le: Encoding, ce: Encoding, x: nat, y: int)
    ensures PairImage(pic, le, ce)(2 * (x % 2), x / 2, y) == Stored(Paired(pic), le, EVERY_PIXEL)(0, x, y)
  {
    PairImageAt(pic, le, ce, x % 2, x / 2, y);
    StoredAt(Paired(pic), le, 0, x, y);
    PairedAt(pic, x, y);
  }

  lemma PairChromaImage(pic: Picture, le: Encoding, ce: Encoding, l: nat, c: nat, r: int)
    requires l < 2
    ensures PairImage(pic, le, ce)(2 * l + 1, c, r) == Stored(Paired(pic), ce, Site(2, 1, 0, 0))(l, c, r)
  {
    PairImageAt(pic, le, ce, l, c, r);
    StoredAt(Paired(pic), ce, l, c, r);
    PairedAt(pic, c, r);
  }

  /** Every luma and chroma byte is a byte of its pair. */
  lemma LumaBytesShown(o: YuvOrder, base: nat, width: nat, height: nat, stride: nat, pic: Picture, le: Encoding, ce: Encoding,
                       p: Raster, q: Raster, img: Image, img': Image)
    requires width % 2 == 0
    requires p == PairRaster(o, base, width, height, stride) && q == PackedLuma(o, base, width, height, stride)
    requires img == PairImage(pic, le, ce) && img' == Stored(Paired(pic), le, EVERY_PIXEL)
    ensures forall l, c, r :: Cell(q, l, c, r) ==> Shown(p, img, q, img', l, c, r)
  {
    forall l, c, r | Cell(q, l, c, r)
      ensures Shown(p, img, q, img', l, c, r)
    {
      LumaShown(o, base, width, height, stride, pic, le, ce, c, r);
    }
  }

  lemma ChromaBytesShown(o: YuvOrder, base: nat, width: nat, height: nat, stride: nat, pic: Picture, le: Encoding, ce: Encoding,
                         p: Raster, q: Raster, img: Image, img': Image)
    requires p == PairRaster(o, base, width, height, stride) && q == PackedChroma(o, base, width, height, stride)
    requires img == PairImage(pic, le, ce) && img' == Stored(Paired(pic), ce, Site(2, 1, 0, 0))
    ensures forall l, c, r :: Cell(q, l, c, r) ==> Shown(p, img, q, img', l, c, r)
  {
    forall l, c, r | Cell(q, l, c, r)
      ensures Shown(p, img, q, img', l, c, r)
    {
      ChromaShown(o, base, width, height, stride, pic, le, ce, l, c, r);
    }
  }

  lemma PairBytes(o: YuvOrder, base: nat, width: nat, height: nat, stride: nat, s: seq<Byte>, pic: Picture, le: Encoding, ce: Encoding)
    requires width % 2 == 0
    requires Painted(s, PairRaster(o, base, width, height, stride), PairImage(pic, le, ce))
    ensures Painted(s, PackedLuma(o, base, width, height, stride), Stored(Paired(pic), le, EVERY_PIXEL))
    ensures Painted(s, PackedChroma(o, base, width, height, stride), Stored(Paired(pic), ce, Site(2, 1, 0, 0)))
  {
    var p := PairRaster(o, base, width, height, stride);
    var luma, chroma := PackedLuma(o, base, width, height, stride), PackedChroma(o, base, width, height, stride);
    var all, y, uv := PairImage(pic, le, ce), Stored(Paired(pic), le, EVERY_PIXEL), Stored(Paired(pic), ce, Site(2, 1, 0, 0));
    LumaBytesShown(o, base, width, height, stride, pic, le, ce, p, luma, all, y);
    Transfer(s, p, all, luma, y);
    ChromaBytesShown(o, base, width, height, stride, pic, le, ce, p, chroma, all, uv);
    Transfer(s, p, all, chroma, uv);
  }

  lemma LumaShown(o: YuvOrder, base: nat, width: nat, height: nat, stride: nat, pic: Picture, le: Encoding, ce: Encoding, x: nat, y: nat)
    requires width % 2 == 0 && x < width && y < height
    ensures Shown(PairRaster(o, base, width, height, stride), PairImage(pic, le, ce),
                  PackedLuma(o, base, width, height, stride), Stored(Paired(pic), le, EVERY_PIXEL), 0, x, y)
  {
    LumaInPair(o, base, width, height, stride, x, y);
    PairLumaImage(pic, le, ce, x, y);
    assert SameSample(PairRaster(o, base, width, height, stride), PairImage(pic, le, ce), 2 * (x % 2), x / 2,
                      PackedLuma(o, base, width, height, stride), Stored(Paired(pic), le, EVERY_PIXEL), 0, x, y);
  }

  lemma ChromaShown(o: YuvOrder, base: nat, width: nat, height: nat, stride: nat, pic: Picture, le: Encoding, ce: Encoding,
                    l: nat, c: nat, r: nat)
    requires l < 2 && c < width / 2 && r < height
    ensures Shown(PairRaster(o, base, width, height, stride), PairImage(pic, le, ce),
                  PackedChroma(o, base, width, height, stride), Stored(Paired(pic), ce, Site(2, 1, 0, 0)), l, c, r)
  {
    ChromaInPair(o, base, width, height, stride, l, c, r);
    PairChromaImage(pic, le, ce, l, c, r);
    assert SameSample(PairRaster(o, base, width, height, stride), PairImage(pic, le, ce), 2 * l + 1, c,
                      PackedChroma(o, base, width, height, stride), Stored(Paired(pic), ce, Site(2, 1, 0, 0)), l, c, r);
  }

  /** Every byte of a pair is a luma or a chroma byte. */
  lemma PairCovers(o: YuvOrder, base: nat, width: nat, height: nat, stride: nat, l: nat, c: nat, r: nat)
    requires width % 2 == 0 && Cell(PairRaster(o, base, width, height, stride), l, c, r)
    ensures var i := At(PairRaster(o, base, width, height, stride), l, c, r);
      Covers(PackedLuma(o, base, width, height, stride), i) || Covers(PackedChroma(o, base, width, height, stride), i)
  {
    if l == 0 || l == 2 {
      LumaInPair(o, base, width, height, stride, 2 * c + l / 2, r);
      assert Cell(PackedLuma(o, base, width, height, stride), 0, 2 * c + l / 2, r);
    } else {
      ChromaInPair(o, base, width, height, stride, l / 2, c, r);
      assert Cell(PackedChroma(o, base, width, height, stride), l / 2, c, r);
    }
  }

  lemma PairOnly(o: YuvOrder, base: nat, width: nat, height: nat, stride: nat, s: seq<Byte>, t: seq<Byte>)
    requires width % 2 == 0 && OnlyIn(s, t, {PairRaster(o, base, width, height, stride)})
    ensures OnlyIn(s, t, {PackedLuma(o, base, width, height, stride), PackedChroma(o, base, width, height, stride)})
  {
    var p := PairRaster(o, base, width, height, stride);
    var luma, chroma := PackedLuma(o, base, width, height, stride), PackedChroma(o, base, width, height, stride);
    forall i | 0 <= i < |s| && (forall q :: q in {luma, chroma} ==> !Covers(q, i))
      ensures t[i] == s[i]
    {
      assert luma in {luma, chroma} && chroma in {luma, chroma};
      if Covers(p, i) {
        var l, c, r :| Cell(p, l, c, r) && At(p, l, c, r) == i;
        PairCovers(o, base, width, height, stride, l, c, r);
      }
    }
  }

  /** One row of the packed tile fill; the columns advance two pixels at a time. */
  method TilesPackedRow(mem: array<Byte>, colour: (int, int) -> Yuv, lanes: seq<nat>, row: nat, width: nat, y: nat,
                        ghost p: Raster, ghost pic: Picture, ghost le: Encoding, ghost ce: Encoding, ghost start: seq<Byte>)
    requires Colouring(colour, pic, le, ce, width, p.rows) && width < 0x8000_0000 && p.lanes == lanes && |lanes| == 4 && p.step == 4
    requires width == 2 * p.cols && y < p.rows && row == y * p.pitch && Separate(p) && Fits(p, mem.Length)
    requires PaintedUpTo(mem[..], p, PairImage(pic, le, ce), 0, y) && OnlyIn(start, mem[..], {p})
    modifies mem
    ensures PaintedUpTo(mem[..], p, PairImage(pic, le, ce), 0, y + 1) && OnlyIn(start, mem[..], {p})
  {
    ghost var img := PairImage(pic, le, ce);
    var x := 0;
    while x < width
      invariant 0 <= x <= width && x % 2 == 0
      invariant PaintedUpTo(mem[..], p, img, x / 2, y) && OnlyIn(start, mem[..], {p})
    {
      var c := colour(x, y);
      PutSample(mem, lanes, row + U32(2 * x), [c.y, c.u, c.y, c.v], p, img, x / 2, y, start);
      x := x + 2;
    }
  }

  method TilesPackedLoop(mem: array<Byte>, colour: (int, int) -> Yuv, o: YuvOrder, base: nat, width: nat, height: nat, stride: nat,
                         ghost pic: Picture, ghost le: Encoding, ghost ce: Encoding)
    requires PackedOrder(o) && Colouring(colour, pic, le, ce, width, height) && width < 0x8000_0000
    requires width % 2 == 0 && 2 * width <= stride && base + height * stride <= mem.Length
    modifies mem
    ensures ShowsStored(old(mem[..]), mem[..], PackedLuma(o, base, width, height, stride),
                        PackedChroma(o, base, width, height, stride), Paired(pic), le, ce, Site(2, 1, 0, 0))
  {
    ghost var start := mem[..];
    var p := PairRaster(o, base, width, height, stride);
    PairLaid(o, base, width, height, stride, mem.Length);
    var y, row := 0, 0;
    while y < height
      invariant RowAt(y, row, stride, 0, height)
      invariant PaintedUpTo(mem[..], p, PairImage(pic, le, ce), 0, y) && OnlyIn(start, mem[..], {p})
    {
      NextRow(y, stride, height);
      TilesPackedRow(mem, colour, p.lanes, row, width, y, p, pic, le, ce, start);
      y, row := y + 1, row + stride;
    }
    PairBytes(o, base, width, height, stride, mem[..], pic, le, ce);
    PairOnly(o, base, width, height, stride, start, mem[..]);
  }

  /** fill_tiles_yuv_packed */
  method FillTilesYuvPacked(mem: array<Byte>, yuv: YuvInfo, base: nat, width: nat, height: nat, stride: nat)
    requires PackedOrder(yuv.order)
    requires width == 0 || height == 0 || stride == 0 ||
      (width % 2 == 0 && TileSafe(width, height) && 2 * width <= stride && base + height * stride <= mem.Length)
    modifies mem
    ensures width == 0 || height == 0 || stride == 0 ==> mem[..] == old(mem[..])
    ensures !(width == 0 || height == 0 || stride == 0) ==>
      ShowsPlanar(old(mem[..]), mem[..], PackedLuma(yuv.order, base, width, height, stride),
                  PackedChroma(yuv.order, base, width, height, stride), Paired(TilesYuv(width)), Site(2, 1, 0, 0))
  {
    if width == 0 || height == 0 || stride == 0 {
      return;
    }
    var colour := TileColours(width, height);
    TileInts(width, height, 0, 0);
    TilesPackedLoop(mem, colour, yuv.order, base, width, height, stride, TilesYuv(width), LumaByte(), ChromaBytes());
  }
}
