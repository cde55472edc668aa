/** The RGB fills of the SMPTE and tile patterns, for pixel words of two, three and four bytes. */
module RgbFill {
  import opened Bytes
  import opened Formats
  import opened Rasters
  import opened SmpteGeometry
  import opened SmpteFill
  import opened Pictures

  // ----- pixel words in memory -----

  /** Byte `k` of a little-endian word. */
  function ByteOf(word: nat, k: nat): Byte {
    if k == 0 then word % 256 else ByteOf(word / 256, k - 1)
  }

  /** The word that a reader finds in `n` bytes from `at`. */
  function ReadWord(s: seq<Byte>, at: nat, n: nat): nat
    requires at + n <= |s|
    decreases n
  {
    if n == 0 then 0 else s[at] + 256 * ReadWord(s, at + 1, n - 1)
  }

  /** Reading back gives the word modulo what does not fit. */
  lemma {:induction false} WordRoundTrip(s: seq<Byte>, at: nat, n: nat, word: nat)
    requires at + n <= |s| && word < Shl(1, 8 * n)
    requires forall k :: 0 <= k < n ==> s[at + k] == ByteOf(word, k)
    ensures ReadWord(s, at, n) == word
    decreases n
  {
    if n != 0 {
      assert s[at + 0] == ByteOf(word, 0);
      ShlByte(8 * (n - 1));
      forall k | 0 <= k < n - 1
        ensures s[at + 1 + k] == ByteOf(word / 256, k)
      {
        assert s[at + (k + 1)] == ByteOf(word, k + 1);
      }
      WordRoundTrip(s, at + 1, n - 1, word / 256);
    }
  }

  lemma ShlByte(n: nat)
    ensures Shl(1, n + 8) == 256 * Shl(1, n)
  {
    assert Shl(1, n + 8) == 2 * Shl(1, n + 7) == 4 * Shl(1, n + 6) == 8 * Shl(1, n + 5);
    assert Shl(1, n + 5) == 2 * Shl(1, n + 4) == 4 * Shl(1, n + 3) == 8 * Shl(1, n + 2);
    assert Shl(1, n + 2) == 2 * Shl(1, n + 1) == 4 * Shl(1, n);
  }

  // ----- pictures in a layout -----

  /** Lane `l` of a pixel is byte `l` of its word. */
  function PixelBytes(rgb: RgbInfo): Encoding {
    (c, l) => if Packable(rgb) && 0 <= l then ByteOf(MakeRgba(rgb, c), l) else 0
  }

  function PixelRaster(base: nat, n: nat, width: nat, height: nat, stride: nat): Raster {
    Raster(seq(n, k requires 0 <= k < n => base + k), stride, n, width, height)
  }

  lemma PixelsLaid(base: nat, n: nat, width: nat, height: nat, stride: nat, size: nat)
    requires n * width <= stride && base + height * stride <= size
    ensures Separate(PixelRaster(base, n, width, height, stride))
    ensures Fits(PixelRaster(base, n, width, height, stride), size)
  {
    var p := PixelRaster(base, n, width, height, stride);
    InterleavedSeparate(p, base);
    InterleavedFits(p, base, size);
  }

  // ----- SMPTE -----

  method SmptePixels(mem: array<Byte>, e: Encoding, t: Table, n: nat, base: nat, width: nat, height: nat, stride: nat)
    requires ValidTable(t) && Drawable(width) && Narrow(width, height) && n <= 4
    requires n * width <= stride && base + height * stride <= mem.Length
    modifies mem
    ensures var p := PixelRaster(base, n, width, height, stride);
      Painted(mem[..], p, Stored(Smpte(t, width, height), e, EVERY_PIXEL)) && OnlyIn(old(mem[..]), mem[..], {p})
  {
    ghost var p := PixelRaster(base, n, width, height, stride);
    PixelsLaid(base, n, width, height, stride, mem.Length);
    MulMono(n, 7, width - 1);
    SmptePass(mem, PixelRaster(base, n, width, height, stride).lanes, n, width, height, stride, e, t, EVERY_PIXEL, p);
  }

  /** fill_smpte_rgb16, fill_smpte_rgb24 and fill_smpte_rgb32, for `n` bytes a pixel. */
  method FillSmpteRgb(mem: array<Byte>, rgb: RgbInfo, n: nat, base: nat, width: nat, height: nat, stride: nat)
    requires Packable(rgb) && 2 <= n <= 4
    requires width == 0 || height == 0 || stride == 0 ||
      (Drawable(width) && Narrow(width, height) && n * width <= stride && base + height * stride <= mem.Length)
    modifies mem
    ensures width == 0 || height == 0 || stride == 0 ==> mem[..] == old(mem[..])
    ensures !(width == 0 || height == 0 || stride == 0) ==>
      var p := PixelRaster(base, n, width, height, stride);
      Painted(mem[..], p, Stored(Smpte(RgbBars(n), width, height), PixelBytes(rgb), EVERY_PIXEL)) && OnlyIn(old(mem[..]), mem[..], {p})
  {
    if width == 0 || height == 0 || stride == 0 {
      return;
    }
    BarsValid(n);
    SmptePixels(mem, PixelBytes(rgb), RgbBars(n), n, base, width, height, stride);
  }

  // ----- tiles -----

  /** One row of a tile fill. */
  method TilesRow(mem: array<Byte>, lanes: seq<nat>, n: nat, row: nat, width: nat, y: nat, colour: Picture, e: Encoding,
                  ghost p: Raster, ghost start: seq<Byte>)
    requires p.lanes == lanes && |lanes| == n && p.step == n && p.cols == width
    requires row == y * p.pitch && y < p.rows && Separate(p) && Fits(p, mem.Length)
    requires PaintedUpTo(mem[..], p, Stored(colour, e, EVERY_PIXEL), 0, y) && OnlyIn(start, mem[..], {p})
    modifies mem
    ensures PaintedUpTo(mem[..], p, Stored(colour, e, EVERY_PIXEL), 0, y + 1) && OnlyIn(start, mem[..], {p})
  {
    for x := 0 to width
      invariant PaintedUpTo(mem[..], p, Stored(colour, e, EVERY_PIXEL), x, y) && OnlyIn(start, mem[..], {p})
    {
      PutSample(mem, lanes, row + x * n, Encode(e, n, colour(x, y)), p, Stored(colour, e, EVERY_PIXEL), x, y, start);
    }
  }

  /** The row loop of a tile fill. */
  method TilesPixels(mem: array<Byte>, colour: Picture, e: Encoding, n: nat, base: nat, width: nat, height: nat, stride: nat)
    requires n * width <= stride && base + height * stride <= mem.Length
    modifies mem
    ensures var p := PixelRaster(base, n, width, height, stride);
      Painted(mem[..], p, Stored(colour, e, EVERY_PIXEL)) && OnlyIn(old(mem[..]), mem[..], {p})
  {
    ghost var start := mem[..];
    ghost var p := PixelRaster(base, n, width, height, stride);
    PixelsLaid(base, n, width, height, stride, mem.Length);
    var lanes := PixelRaster(base, n, width, height, stride).lanes;
    var y, row := 0, 0;
    while y < height
      invariant RowAt(y, row, stride, 0, height)
      invariant PaintedUpTo(mem[..], p, Stored(colour, e, EVERY_PIXEL), 0, y) && OnlyIn(start, mem[..], {p})
    {
      NextRow(y, stride, height);
      TilesRow(mem, lanes, n, row, width, y, colour, e, p, start);
      y, row := y + 1, row + stride;
    }
  }

  /** The colours the tile fills compute, with the alpha of the pixel size. */
  function TileColours(n: nat, w: nat, h: nat): Picture {
    (x, y) => TileColour(w, h, x, y, TileAlpha(n, w, h, x, y))
  }

  lemma TilesStored(s: seq<Byte>, p: Raster, e: Encoding, n: nat, w: nat, h: nat)
    requires TileSafe(w, h) && p.cols == w && p.rows == h && Painted(s, p, Stored(TileColours(n, w, h), e, EVERY_PIXEL))
    ensures Painted(s, p, Stored(TilesRgb(n, w, h), e, EVERY_PIXEL))
  {
    forall l, c, r | Cell(p, l, c, r)
      ensures Stored(TileColours(n, w, h), e, EVERY_PIXEL)(l, c, r) == Stored(TilesRgb(n, w, h), e, EVERY_PIXEL)(l, c, r)
    {
      TileColourExact(w, h, c, r, TileAlpha(n, w, h, c, r));
    }
    PaintedSame(s, p, Stored(TileColours(n, w, h), e, EVERY_PIXEL), Stored(TilesRgb(n, w, h), e, EVERY_PIXEL));
  }

  /** fill_tiles_rgb16, fill_tiles_rgb24 and fill_tiles_rgb32, for `n` bytes a pixel. */
  method FillTilesRgb(mem: array<Byte>, rgb: RgbInfo, n: nat, base: nat, width: nat, height: nat, stride: nat)
    requires Packable(rgb) && 2 <= n <= 4
    requires width == 0 || height == 0 || stride == 0 || (TileSafe(width, height) && n * width <= stride && base + height * stride <= mem.Length)
    modifies mem
    ensures width == 0 || height == 0 || stride == 0 ==> mem[..] == old(mem[..])
    ensures !(width == 0 || height == 0 || stride == 0) ==>
      var p := PixelRaster(base, n, width, height, stride);
      Painted(mem[..], p, Stored(TilesRgb(n, width, height), PixelBytes(rgb), EVERY_PIXEL)) &&
      OnlyIn(old(mem[..]), mem[..], {p})
  {
    if width == 0 || height == 0 || stride == 0 {
      return;
    }
    TilesPixels(mem, TileColours(n, width, height), PixelBytes(rgb), n, base, width, height, stride);
    TilesStored(mem[..], PixelRaster(base, n, width, height, stride), PixelBytes(rgb), n, width, height);
  }
}
