/** The test pictures as functions of a pixel, independent of any buffer layout. */
module Pictures {
  import opened Bytes
  import opened Formats
  import opened Colours
  import opened Rasters
  import opened SmpteGeometry

  /** The colour of every pixel of a picture. */
  type Picture = (int, int) -> Rgba

  /** How a colour is stored: the byte of each lane. */
  type Encoding = (Rgba, int) -> Byte

  function Rgb(r: nat, g: nat, b: nat): Rgba {
    Rgba(r, g, b, 0)
  }

  // ----- SMPTE -----

  /** The tables of the YUV fills; their first grey is one step off the grey of the RGB fills. */
  function YuvTable(band: Band): seq<Rgba> {
    match band
    case TopBars => [Rgb(191, 192, 192), Rgb(192, 192, 0), Rgb(0, 192, 192), Rgb(0, 192, 0),
                     Rgb(192, 0, 192), Rgb(192, 0, 0), Rgb(0, 0, 192)]
    case MiddleBars => [Rgb(0, 0, 192), Rgb(19, 19, 19), Rgb(192, 0, 192), Rgb(19, 19, 19),
                        Rgb(0, 192, 192), Rgb(19, 19, 19), Rgb(192, 192, 192)]
    case BottomBars => [Rgb(0, 33, 76), Rgb(255, 255, 255), Rgb(50, 0, 106), Rgb(19, 19, 19),
                        Rgb(9, 9, 9), Rgb(19, 19, 19), Rgb(29, 29, 29), Rgb(19, 19, 19)]
  }

  /** The tables of the RGB fills, with the alpha of each band. */
  function RgbTable(band: Band): seq<Rgba> {
    match band
    case TopBars => [Rgba(192, 192, 192, 255), Rgba(192, 192, 0, 255), Rgba(0, 192, 192, 255), Rgba(0, 192, 0, 255),
                     Rgba(192, 0, 192, 255), Rgba(192, 0, 0, 255), Rgba(0, 0, 192, 255)]
    case MiddleBars => [Rgba(0, 0, 192, 127), Rgba(19, 19, 19, 127), Rgba(192, 0, 192, 127), Rgba(19, 19, 19, 127),
                        Rgba(0, 192, 192, 127), Rgba(19, 19, 19, 127), Rgba(192, 192, 192, 127)]
    case BottomBars => [Rgba(0, 33, 76, 255), Rgba(255, 255, 255, 255), Rgba(50, 0, 106, 255), Rgba(19, 19, 19, 255),
                        Rgba(9, 9, 9, 255), Rgba(19, 19, 19, 255), Rgba(29, 29, 29, 255), Rgba(19, 19, 19, 255)]
  }

  /** A 75% bar: 192 for the components it has, 0 for the others. */
  function Bar(red: bool, green: bool, blue: bool, a: nat): Rgba {
    Rgba(if red then 192 else 0, if green then 192 else 0, if blue then 192 else 0, a)
  }

  /** The upper bands: green leaves after four bars, red after every second pair, blue after every second bar; the middle
      band shows the blue half of them backwards between black bars. */
  lemma StandardBars(k: nat)
    requires k < 7
    ensures RgbTable(TopBars)[k] == Bar(k / 2 % 2 == 0, k < 4, k % 2 == 0, 255)
    ensures RgbTable(MiddleBars)[k] ==
      if k % 2 == 1 then Rgba(19, 19, 19, 127) else RgbTable(TopBars)[6 - k].(a := 127)
  {
  }

  /** The bottom band: in-phase, white and quadrature patches, then black with two steps of ten around it. */
  lemma StandardBottom()
    ensures var b := RgbTable(BottomBars);
      && b[0] == Rgba(0, 33, 76, 255) && b[1] == Rgba(255, 255, 255, 255) && b[2] == Rgba(50, 0, 106, 255)
      && b[3] == b[5] == b[7] == Rgba(19, 19, 19, 255)
      && b[4] == Rgba(19 - 10, 19 - 10, 19 - 10, 255) && b[6] == Rgba(19 + 10, 19 + 10, 19 + 10, 255)
  {
  }

  /** The YUV tables are the RGB ones without alpha, except that the first grey has one step less red. */
  lemma YuvTableIsRgb(band: Band, k: nat)
    requires k < |RgbTable(band)|
    ensures |YuvTable(band)| == |RgbTable(band)|
    ensures YuvTable(band)[k] ==
      RgbTable(band)[k].(a := 0, r := if band == TopBars && k == 0 then 191 else RgbTable(band)[k].r)
  {
  }

  /** Colour tables with seven bars in the upper bands and eight in the bottom one. */
  type Table = Band -> seq<Rgba>

  ghost predicate ValidTable(t: Table) {
    |t(TopBars)| == 7 && |t(MiddleBars)| == 7 && |t(BottomBars)| == 8
  }

  function SmpteAt(t: Table, w: nat, h: nat, x: int, y: int): Rgba {
    if 0 <= x < w && Drawable(w) then
      var k := BarOf(BandOf(y, h), x, w);
      if k < |t(BandOf(y, h))| then t(BandOf(y, h))[k] else Rgb(0, 0, 0)
    else Rgb(0, 0, 0)
  }

  function Smpte(t: Table, w: nat, h: nat): Picture {
    (x, y) => SmpteAt(t, w, h, x, y)
  }

  function YuvBars(): Table { (band: Band) => YuvTable(band) }

  lemma BarsValid(n: nat)
    ensures ValidTable(YuvBars()) && ValidTable(RgbBars(n))
  {
  }

  /** MAKE_RGB24 passes no alpha. */
  function RgbBars(n: nat): Table { (band: Band) => if n == 3 then NoAlpha(RgbTable(band)) else RgbTable(band) }

  function NoAlpha(t: seq<Rgba>): (u: seq<Rgba>)
    ensures |u| == |t| && forall k :: 0 <= k < |t| ==> u[k] == t[k].(a := 0)
  {
    seq(|t|, k requires 0 <= k < |t| => t[k].(a := 0))
  }

  // ----- tiles -----

  /** `rgb32` of the tile fills, from the quotient and the remainder of `n == x + y` by the width. */
  function TileSum(w: int, n: int): int {
    if w <= 0 then 0 else 0x130502 * (n / w / 64) + 0xa1120 * (n % w / 64)
  }

  function TileWord(w: int, x: int, y: int): int {
    TileSum(w, x + y)
  }

  /** The signed product sum stays below 2^31 at the two pixels where it is largest. */
  predicate TileSafe(w: nat, h: nat) {
    w > 0 && h > 0 && w + h - 2 < 0x8000_0000 && TileSum(w, w + h - 2) < 0x8000_0000 &&
    (h > 1 ==> TileSum(w, (w + h - 2) / w * w - 1) < 0x8000_0000)
  }

  /** More whole rows, or a larger rest, never make the sum smaller. */
  lemma SumGrows(w: int, q: int, r: int, q': int, r': int)
    requires 0 < w && 0 <= q <= q' && 0 <= r < w && 0 <= r' < w && r <= r'
    ensures TileSum(w, q * w + r) <= TileSum(w, q' * w + r')
  {
    QuotientRest(w, q, r);
    QuotientRest(w, q', r');
  }

  lemma QuotientRest(w: int, q: int, r: int)
    requires 0 < w && 0 <= r < w
    ensures (q * w + r) / w == q && (q * w + r) % w == r
  {
    Quotient(q * w + r, w, q);
  }

  /** No pixel before `n` has a larger sum than one of the two candidates. */
  lemma LargestSums(w: int, n: int, m: int)
    requires 0 < w && 0 <= m <= n
    ensures TileSum(w, m) <= TileSum(w, n) || (n >= w && TileSum(w, m) <= TileSum(w, n / w * w - 1))
  {
    var q, r := Divided(w, m);
    var q', r' := Divided(w, n);
    LargestParts(w, q, r, q', r');
  }

  lemma Divided(w: int, n: int) returns (q: int, r: int)
    requires 0 < w
    ensures q == n / w && n == q * w + r && 0 <= r < w
  {
    q, r := n / w, n % w;
  }

  lemma LargestParts(w: int, q: int, r: int, q': int, r': int)
    requires 0 < w && 0 <= r < w && 0 <= r' < w && 0 <= q * w + r <= q' * w + r'
    ensures TileSum(w, q * w + r) <= TileSum(w, q' * w + r') ||
      (q' * w + r' >= w && TileSum(w, q * w + r) <= TileSum(w, q' * w - 1))
  {
    QuotientsOrdered(w, q, r, q', r');
    if q == q' {
      SumGrows(w, q, r, q', r');
    } else {
      SumGrows(w, q, r, q' - 1, w - 1);
      assert (q' - 1) * w + (w - 1) == q' * w - 1;
      MulMono(1, q', w);
    }
  }

  lemma QuotientsOrdered(w: int, q: int, r: int, q': int, r': int)
    requires 0 < w && 0 <= r < w && 0 <= r' < w && 0 <= q * w + r <= q' * w + r'
    ensures 0 <= q <= q' && (q == q' ==> r <= r')
  {
    if q > q' {
      MulMono(q' + 1, q, w);
    }
    if q < 0 {
      MulMono(q, -1, w);
    }
  }

  /** Neither `x + y` nor the product sum leaves the range of int32_t at any pixel exactly when the frame is safe. */
  lemma TileSafeExactly(w: nat, h: nat)
    requires 0 < w && 0 < h
    ensures TileSafe(w, h) <==> forall x, y :: 0 <= x < w && 0 <= y < h ==> x + y < 0x8000_0000 && TileWord(w, x, y) < 0x8000_0000
  {
    var n := w + h - 2;
    if TileSafe(w, h) {
      forall x, y | 0 <= x < w && 0 <= y < h
        ensures x + y < 0x8000_0000 && TileWord(w, x, y) < 0x8000_0000
      {
        LargestSums(w, n, x + y);
      }
    } else {
      var q := n / w;
      assert n == q * w + n % w;
      assert TileWord(w, w - 1, h - 1) == TileSum(w, n);
      if h > 1 {
        SecondPixel(w, h, q);
        assert TileWord(w, w - 1, q * w - 1 - (w - 1)) == TileSum(w, q * w - 1);
      }
    }
  }

  lemma SecondPixel(w: nat, h: nat, q: int)
    requires 0 < w && 1 < h && q == (w + h - 2) / w
    ensures 0 <= q * w - 1 - (w - 1) < h
  {
    Quotient(w + h - 2, w, q);
    if q < 1 {
      MulMono(q + 1, 1, w);
    }
    MulMono(1, q, w);
  }

  /** Every frame below 2^16 in each dimension is safe. */
  lemma SmallFramesSafe(w: nat, h: nat)
    requires 0 < w < 0x1_0000 && 0 < h < 0x1_0000
    ensures TileSafe(w, h)
  {
    forall x, y | 0 <= x < w && 0 <= y < h
      ensures TileWord(w, x, y) < 0x8000_0000
    {
      TileQuotients(w, x + y, (x + y) / w, (x + y) % w);
    }
    TileSafeExactly(w, h);
  }

  lemma TileQuotients(w: int, n: int, q: int, d: int)
    requires 0 < w < 0x1_0000 && 0 <= n < 0x1_0000 + w - 1 && n == q * w + d && 0 <= d < w
    ensures 0 <= 0x130502 * (q / 64) + 0xa1120 * (d / 64) < 0x8000_0000
  {
    if q < 0 {
      MulMono(q + 1, 0, w);
      assert false;
    }
    if w <= 2048 {
      TileQuotientBelow(w, n, q, d);
    } else if q >= 64 {
      MulMono(64, q, w);
      assert false;
    }
  }

  lemma TileQuotientBelow(w: int, n: int, q: int, d: int)
    requires 0 < w <= 2048 && n < 0x1_0000 + w - 1 && n == q * w + d && 0 <= d && 0 <= q
    ensures q < 0x1_0000
  {
    if q >= 0x1_0000 {
      MulMono(0x1_0000, q, w);
      assert false;
    }
  }

  /** A frame of 208400 by 2 is not: the product at the end of its first row reaches 2^31. */
  lemma WideTilesOverflow()
    ensures TileWord(208_400, 208_399, 0) >= 0x8000_0000 && !TileSafe(208_400, 2)
  {
    assert TileWord(208_400, 208_399, 0) == 0xa1120 * 3256;
    TileSafeExactly(208_400, 2);
  }

  function TileRgbAt(w: nat, x: int, y: int, a: Byte): (c: Rgba)
    ensures EightBit(c)
  {
    var t := TileWord(w, x, y);
    Rgba(t / 0x1_0000 % 0x100, t / 0x100 % 0x100, t % 0x100, a)
  }

  type Int32 = n: int | -0x8000_0000 <= n < 0x8000_0000

  /** `rgb32` as the tile fills compute it: `x + y` is unsigned, the arguments of `div` and the products are signed. */
  function TileInt(w: nat, h: nat, x: nat, y: nat): (word: Int32)
    requires TileSafe(w, h) && x < w && y < h
    ensures word == TileWord(w, x, y) && 0 <= word
  {
    TileInts(w, h, x, y);
    var n: Int32 := U32(x + y);
    var width: Int32 := w;
    var quot: Int32 := n / width;
    var rem: Int32 := n % width;
    TileProducts(quot, rem);
    var high: Int32 := 0x130502 * (quot / 64);
    var low: Int32 := 0xa1120 * (rem / 64);
    high + low
  }

  lemma TileInts(w: nat, h: nat, x: nat, y: nat)
    requires TileSafe(w, h) && x < w && y < h
    ensures U32(x + y) == x + y < 0x8000_0000 && w < 0x8000_0000
    ensures 0 <= (x + y) / w < 0x8000_0000 && 0 <= (x + y) % w < 0x8000_0000
    ensures 0x130502 * ((x + y) / w / 64) + 0xa1120 * ((x + y) % w / 64) == TileWord(w, x, y) < 0x8000_0000
  {
    TileSafeExactly(w, h);
    assert TileWord(w, x, y) < 0x8000_0000 && TileWord(w, w - 1, 0) < 0x8000_0000;
    QuotientRest(w, 0, w - 1);
    QuotientSmall(w, x + y);
  }

  lemma QuotientSmall(w: int, n: int)
    requires 0 < w && 0 <= n
    ensures 0 <= n / w <= n
  {
    Quotient(n, w, n / w);
    if n / w < 0 {
      MulMono(n / w + 1, 0, w);
    } else {
      MulMono(1, w, n / w);
    }
  }

  lemma TileProducts(q: int, r: int)
    requires 0 <= q && 0 <= r && 0x130502 * (q / 64) + 0xa1120 * (r / 64) < 0x8000_0000
    ensures 0 <= 0x130502 * (q / 64) < 0x8000_0000 && 0 <= 0xa1120 * (r / 64) < 0x8000_0000
  {
  }

  /** The colour that the code computes for a pixel of a frame. */
  function TileColour(w: nat, h: nat, x: int, y: int, a: Byte): Rgba {
    if TileSafe(w, h) && 0 <= x < w && 0 <= y < h then
      var t: nat := TileInt(w, h, x, y);
      Rgba(t / 0x1_0000 % 0x100, t / 0x100 % 0x100, t % 0x100, a)
    else Rgb(0, 0, 0)
  }

  lemma TileColourExact(w: nat, h: nat, x: int, y: int, a: Byte)
    requires TileSafe(w, h) && 0 <= x < w && 0 <= y < h
    ensures TileColour(w, h, x, y, a) == TileRgbAt(w, x, y, a)
  {
  }

  /** The alpha the tile fills pass for `n`-byte pixels. */
  function TileAlpha(n: nat, w: nat, h: nat, x: int, y: int): Byte {
    if n == 3 then 0
    else if n == 4 && y < h / 2 && x < w / 2 then 127
    else 255
  }

  function TilesRgb(n: nat, w: nat, h: nat): Picture {
    (x, y) => TileRgbAt(w, x, y, TileAlpha(n, w, h, x, y))
  }

  function TilesYuv(w: nat): Picture {
    (x, y) => TileRgbAt(w, x, y, 0)
  }

  /** The three components are the bytes of the colour word, red on top; what does not fit in 24 bits is dropped. */
  lemma TileComponents(w: nat, x: int, y: int, a: Byte)
    ensures var c := TileRgbAt(w, x, y, a);
      c.a == a && TileWord(w, x, y) % 0x100_0000 == 0x1_0000 * c.r + 0x100 * c.g + c.b
  {
    ThreeBytes(TileWord(w, x, y));
  }

  lemma ThreeBytes(t: int)
    ensures t % 0x100_0000 == 0x1_0000 * (t / 0x1_0000 % 0x100) + 0x100 * (t / 0x100 % 0x100) + t % 0x100
  {
    var high, middle := t / 0x1_0000, t / 0x100;
    assert middle / 0x100 == high;
  }

  /** One step of 64 along a row, and 64 whole rows. */
  lemma TileSteps(w: nat, a: Byte)
    ensures w > 64 ==> TileRgbAt(w, 64, 0, a) == Rgba(0x0a, 0x11, 0x20, a)
    ensures w > 0 ==> TileRgbAt(w, 0, 0, a) == Rgba(0, 0, 0, a)
    ensures TileRgbAt(1, 0, 64, a) == Rgba(0x13, 0x05, 0x02, a)
  {
    if w > 64 {
      QuotientRest(w, 0, 64);
    }
    if w > 0 {
      QuotientRest(w, 0, 0);
    }
    QuotientRest(1, 64, 0);
  }

  /** Only 32-bit tiles are translucent, and only in the upper left quarter; 24-bit pixels have no alpha. */
  lemma TileAlphas(n: nat, w: nat, h: nat, x: nat, y: nat)
    requires 2 <= n <= 4 && x < w && y < h
    ensures n == 2 ==> TilesRgb(n, w, h)(x, y).a == 255
    ensures n == 3 ==> TilesRgb(n, w, h)(x, y).a == 0
    ensures n == 4 ==> TilesRgb(n, w, h)(x, y).a == if 2 * (y + 1) <= h && 2 * (x + 1) <= w then 127 else 255
  {
  }

  // ----- storing a picture -----

  function LumaByte(): Encoding {
    (c, l) => if EightBit(c) then MakeYuv(c).y else 0
  }

  function ChromaBytes(): Encoding {
    (c, l) => if EightBit(c) then UvByte(MakeYuv(c), l) else 0
  }

  function UvByte(c: Yuv, l: int): Byte {
    if l == 0 then c.u else c.v
  }

  /** Where a sample takes its colour: column `xsub * c + dx`, row `ysub * r + dy`. */
  datatype Site = Site(xsub: nat, ysub: nat, dx: nat, dy: nat)

  const EVERY_PIXEL := Site(1, 1, 0, 0)

  /** A plane that stores one sample of the picture for each `xsub` by `ysub` block. */
  function Stored(pic: Picture, e: Encoding, s: Site): Image {
    (l, c, r) => e(pic(s.xsub * c + s.dx, s.ysub * r + s.dy), l)
  }

  function Encode(e: Encoding, n: nat, c: Rgba): (b: seq<Byte>)
    ensures |b| == n && forall l :: 0 <= l < n ==> b[l] == e(c, l)
  {
    seq(n, l requires 0 <= l < n => e(c, l))
  }

  lemma PaintedSame(s: seq<Byte>, p: Raster, img: Image, img': Image)
    requires Painted(s, p, img)
    requires forall l, c, r :: Cell(p, l, c, r) ==> img(l, c, r) == img'(l, c, r)
    ensures Painted(s, p, img')
  {
  }
}
