/** Pixel formats, the format table, and the colour arithmetic of the test patterns. */
module Formats {

  datatype Option<+T> = None | Some(value: T)

  /** The fourcc codes the table knows, and any other code. */
  datatype Format =
    | UYVY | VYUY | YUYV | YVYU
    | NV12 | NV21 | NV16 | NV61
    | YUV420 | YVU420
    | ARGB4444 | XRGB4444 | ABGR4444 | XBGR4444 | RGBA4444 | RGBX4444 | BGRA4444 | BGRX4444
    | ARGB1555 | XRGB1555 | ABGR1555 | XBGR1555 | RGBA5551 | RGBX5551 | BGRA5551 | BGRX5551
    | RGB565 | BGR565
    | BGR888 | RGB888
    | ARGB8888 | XRGB8888 | ABGR8888 | XBGR8888 | RGBA8888 | RGBX8888 | BGRA8888 | BGRX8888
    | ARGB2101010 | XRGB2101010 | ABGR2101010 | XBGR2101010
    | RGBA1010102 | RGBX1010102 | BGRA1010102 | BGRX1010102
    | Other(code: nat)

  datatype Component = Component(length: nat, offset: nat)
  datatype RgbInfo = RgbInfo(red: Component, green: Component, blue: Component, alpha: Component)

  /** `crFirst` and `cbFirst` are the bits YUV_YCrCb and YUV_YCbCr, `lumaFirst` and `chromaFirst` YUV_YC and YUV_CY. */
  datatype YuvOrder = YuvOrder(cbFirst: bool, crFirst: bool, lumaFirst: bool, chromaFirst: bool)
  datatype YuvInfo = YuvInfo(order: YuvOrder, xsub: nat, ysub: nat, chromaStride: nat)
  datatype FormatInfo = FormatInfo(format: Format, rgb: RgbInfo, yuv: YuvInfo)

  const YCBCR := YuvOrder(true, false, false, false)
  const YCRCB := YuvOrder(false, true, false, false)
  const NO_YUV := YuvInfo(YuvOrder(false, false, false, false), 0, 0, 0)
  const NO_RGB := RgbInfo(Component(0, 0), Component(0, 0), Component(0, 0), Component(0, 0))

  function YuvRow(f: Format, order: YuvOrder, xsub: nat, ysub: nat, cs: nat): Option<FormatInfo> {
    Some(FormatInfo(f, NO_RGB, YuvInfo(order, xsub, ysub, cs)))
  }

  function RgbRow(f: Format, rl: nat, ro: nat, gl: nat, go: nat, bl: nat, bo: nat, al: nat, ao: nat): Option<FormatInfo> {
    Some(FormatInfo(f, RgbInfo(Component(rl, ro), Component(gl, go), Component(bl, bo), Component(al, ao)), NO_YUV))
  }

  /** `util_format_info_find` over the `format_info` table. */
  function Info(f: Format): Option<FormatInfo> {
    match f
    case UYVY => YuvRow(f, YCBCR.(chromaFirst := true), 2, 2, 2)
    case VYUY => YuvRow(f, YCRCB.(chromaFirst := true), 2, 2, 2)
    case YUYV => YuvRow(f, YCBCR.(lumaFirst := true), 2, 2, 2)
    case YVYU => YuvRow(f, YCRCB.(lumaFirst := true), 2, 2, 2)
    case NV12 => YuvRow(f, YCBCR, 2, 2, 2)
    case NV21 => YuvRow(f, YCRCB, 2, 2, 2)
    case NV16 => YuvRow(f, YCBCR, 2, 1, 2)
    case NV61 => YuvRow(f, YCRCB, 2, 1, 2)
    case YUV420 => YuvRow(f, YCBCR, 2, 2, 1)
    case YVU420 => YuvRow(f, YCRCB, 2, 2, 1)
    case ARGB4444 => RgbRow(f, 4, 8, 4, 4, 4, 0, 4, 12)
    case XRGB4444 => RgbRow(f, 4, 8, 4, 4, 4, 0, 0, 0)
    case ABGR4444 => RgbRow(f, 4, 0, 4, 4, 4, 8, 4, 12)
    case XBGR4444 => RgbRow(f, 4, 0, 4, 4, 4, 8, 0, 0)
    case RGBA4444 => RgbRow(f, 4, 12, 4, 8, 4, 4, 4, 0)
    case RGBX4444 => RgbRow(f, 4, 12, 4, 8, 4, 4, 0, 0)
    case BGRA4444 => RgbRow(f, 4, 4, 4, 8, 4, 12, 4, 0)
    case BGRX4444 => RgbRow(f, 4, 4, 4, 8, 4, 12, 0, 0)
    case ARGB1555 => RgbRow(f, 5, 10, 5, 5, 5, 0, 1, 15)
    case XRGB1555 => RgbRow(f, 5, 10, 5, 5, 5, 0, 0, 0)
    case ABGR1555 => RgbRow(f, 5, 0, 5, 5, 5, 10, 1, 15)
    case XBGR1555 => RgbRow(f, 5, 0, 5, 5, 5, 10, 0, 0)
    case RGBA5551 => RgbRow(f, 5, 11, 5, 6, 5, 1, 1, 0)
    case RGBX5551 => RgbRow(f, 5, 11, 5, 6, 5, 1, 0, 0)
    case BGRA5551 => RgbRow(f, 5, 1, 5, 6, 5, 11, 1, 0)
    case BGRX5551 => RgbRow(f, 5, 1, 5, 6, 5, 11, 0, 0)
    case RGB565 => RgbRow(f, 5, 11, 6, 5, 5, 0, 0, 0)
    case BGR565 => RgbRow(f, 5, 0, 6, 5, 5, 11, 0, 0)
    case BGR888 => RgbRow(f, 8, 0, 8, 8, 8, 16, 0, 0)
    case RGB888 => RgbRow(f, 8, 16, 8, 8, 8, 0, 0, 0)
    case ARGB8888 => RgbRow(f, 8, 16, 8, 8, 8, 0, 8, 24)
    case XRGB8888 => RgbRow(f, 8, 16, 8, 8, 8, 0, 0, 0)
    case ABGR8888 => RgbRow(f, 8, 0, 8, 8, 8, 16, 8, 24)
    case XBGR8888 => RgbRow(f, 8, 0, 8, 8, 8, 16, 0, 0)
    case RGBA8888 => RgbRow(f, 8, 24, 8, 16, 8, 8, 8, 0)
    case RGBX8888 => RgbRow(f, 8, 24, 8, 16, 8, 8, 0, 0)
    case BGRA8888 => RgbRow(f, 8, 8, 8, 16, 8, 24, 8, 0)
    case BGRX8888 => RgbRow(f, 8, 8, 8, 16, 8, 24, 0, 0)
    case ARGB2101010 => RgbRow(f, 10, 20, 10, 10, 10, 0, 2, 30)
    case XRGB2101010 => RgbRow(f, 10, 20, 10, 10, 10, 0, 0, 0)
    case ABGR2101010 => RgbRow(f, 10, 0, 10, 10, 10, 20, 2, 30)
    case XBGR2101010 => RgbRow(f, 10, 0, 10, 10, 10, 20, 0, 0)
    case RGBA1010102 => RgbRow(f, 10, 22, 10, 12, 10, 2, 2, 0)
    case RGBX1010102 => RgbRow(f, 10, 22, 10, 12, 10, 2, 0, 0)
    case BGRA1010102 => RgbRow(f, 10, 2, 10, 12, 10, 22, 2, 0)
    case BGRX1010102 => RgbRow(f, 10, 2, 10, 12, 10, 22, 0, 0)
    case Other(_) => None
  }

  // ----- words as sums of bits -----

  /** `v << n` */
  function Shl(v: nat, n: nat): nat {
    if n == 0 then v else 2 * Shl(v, n - 1)
  }

  /** `v >> n` */
  function Shr(v: nat, n: nat): nat {
    if n == 0 then v else Shr(v / 2, n - 1)
  }

  /** `v & ((1 << n) - 1)` */
  function Low(v: nat, n: nat): nat {
    if n == 0 then 0 else 2 * Low(v / 2, n - 1) + v % 2
  }

  /** `a | b` */
  function Or(a: nat, b: nat): nat {
    if a == 0 && b == 0 then 0
    else 2 * Or(a / 2, b / 2) + if a % 2 == 1 || b % 2 == 1 then 1 else 0
  }

  lemma {:induction false} OrZero(a: nat)
    ensures Or(a, 0) == a && Or(0, a) == a
  {
    if a != 0 {
      OrZero(a / 2);
    }
  }

  lemma {:induction false} ShrOr(a: nat, b: nat, n: nat)
    ensures Shr(Or(a, b), n) == Or(Shr(a, n), Shr(b, n))
  {
    if n != 0 {
      assert Or(a, b) / 2 == Or(a / 2, b / 2);
      ShrOr(a / 2, b / 2, n - 1);
    }
  }

  lemma {:induction false} LowOr(a: nat, b: nat, n: nat)
    ensures Low(Or(a, b), n) == Or(Low(a, n), Low(b, n))
  {
    if n != 0 {
      assert Or(a, b) / 2 == Or(a / 2, b / 2);
      LowOr(a / 2, b / 2, n - 1);
      assert Low(a, n) / 2 == Low(a / 2, n - 1) && Low(b, n) / 2 == Low(b / 2, n - 1);
    }
  }

  lemma {:induction false} ShrZero(n: nat)
    ensures Shr(0, n) == 0
  {
    if n != 0 {
      ShrZero(n - 1);
    }
  }

  lemma {:induction false} LowZero(n: nat)
    ensures Low(0, n) == 0
  {
    if n != 0 {
      LowZero(n - 1);
    }
  }

  lemma {:induction false} ShrAdd(v: nat, m: nat, n: nat)
    ensures Shr(v, m + n) == Shr(Shr(v, m), n)
  {
    if m != 0 {
      ShrAdd(v / 2, m - 1, n);
    }
  }

  lemma {:induction false} ShrShl(v: nat, m: nat, n: nat)
    requires m <= n
    ensures Shr(Shl(v, n), m) == Shl(v, n - m)
  {
    if m != 0 {
      ShrShl(v, m - 1, n - 1);
    }
  }

  /** The low bits of a word that was shifted further left than they reach are clear. */
  lemma {:induction false} LowShl(v: nat, m: nat, n: nat)
    requires m <= n
    ensures Low(Shl(v, n), m) == 0
  {
    if m != 0 {
      LowShl(v, m - 1, n - 1);
    }
  }

  /** `v < 2^n` says exactly that nothing is left above bit `n`, and then `Low` keeps all of `v`. */
  lemma {:induction false} ShortLow(v: nat, n: nat)
    requires Shr(v, n) == 0
    ensures Low(v, n) == v
  {
    if n != 0 {
      ShortLow(v / 2, n - 1);
    }
  }

  lemma {:induction false} ShrLess(v: nat, n: nat)
    ensures Shr(v, n) == 0 <==> v < Shl(1, n)
  {
    if n != 0 {
      ShrLess(v / 2, n - 1);
    }
  }

  // ----- packing RGB words -----

  /** The shift counts `8 - length` of MAKE_RGBA do not wrap. */
  predicate Packable(rgb: RgbInfo) {
    rgb.red.length <= 8 && rgb.green.length <= 8 && rgb.blue.length <= 8 && rgb.alpha.length <= 8
  }

  /** The two bit ranges do not overlap. */
  predicate Apart(k: Component, k': Component) {
    k.offset + k.length <= k'.offset || k'.offset + k'.length <= k.offset || k.length == 0 || k'.length == 0
  }

  /** The fields lie inside a word of `bits` bits and do not overlap. */
  predicate Layout(rgb: RgbInfo, bits: nat) {
    && Packable(rgb)
    && rgb.red.offset + rgb.red.length <= bits
    && rgb.green.offset + rgb.green.length <= bits
    && rgb.blue.offset + rgb.blue.length <= bits
    && rgb.alpha.offset + rgb.alpha.length <= bits
    && Apart(rgb.red, rgb.green) && Apart(rgb.red, rgb.blue) && Apart(rgb.red, rgb.alpha)
    && Apart(rgb.green, rgb.blue) && Apart(rgb.green, rgb.alpha) && Apart(rgb.blue, rgb.alpha)
  }

  datatype Rgba = Rgba(r: nat, g: nat, b: nat, a: nat)

  predicate EightBit(c: Rgba) {
    c.r < 256 && c.g < 256 && c.b < 256 && c.a < 256
  }

  /** The most significant `k.length` bits of an 8-bit channel. */
  function Top(v: nat, k: Component): nat
    requires k.length <= 8
  {
    Shr(v, 8 - k.length)
  }

  /** It is the channel divided by 2^(8 - length), rounded down. */
  lemma TopQuotient(v: nat, k: Component)
    requires k.length <= 8
    ensures var step := Shl(1, 8 - k.length);
      Top(v, k) * step <= v < (Top(v, k) + 1) * step
  {
    ShrQuotient(v, 8 - k.length);
  }

  lemma {:induction false} ShrQuotient(v: nat, n: nat)
    ensures Shr(v, n) * Shl(1, n) <= v < (Shr(v, n) + 1) * Shl(1, n)
  {
    if n != 0 {
      ShrQuotient(v / 2, n - 1);
      var q, s := Shr(v / 2, n - 1), Shl(1, n - 1);
      TwiceProduct(q, s);
      TwiceProduct(q + 1, s);
    }
  }

  lemma TwiceProduct(q: int, s: int)
    ensures q * (2 * s) == 2 * (q * s)
  {
  }

  function Pack(v: nat, k: Component): nat
    requires k.length <= 8
  {
    Shl(Top(v, k), k.offset)
  }

  /** MAKE_RGBA */
  function MakeRgba(rgb: RgbInfo, c: Rgba): nat
    requires Packable(rgb)
  {
    Or(Or(Or(Pack(c.r, rgb.red), Pack(c.g, rgb.green)), Pack(c.b, rgb.blue)), Pack(c.a, rgb.alpha))
  }

  /** What a reader of the format sees in field `k` of a word. */
  function Extract(word: nat, k: Component): nat {
    Low(Shr(word, k.offset), k.length)
  }

  lemma ExtractOr(a: nat, b: nat, k: Component)
    ensures Extract(Or(a, b), k) == Or(Extract(a, k), Extract(b, k))
  {
    ShrOr(a, b, k.offset);
    LowOr(Shr(a, k.offset), Shr(b, k.offset), k.length);
  }

  lemma TopShort(v: nat, k: Component)
    requires v < 256 && k.length <= 8
    ensures Shr(Top(v, k), k.length) == 0
  {
    assert Shl(1, 8) == 256 by {
      assert Shl(1, 4) == 16;
    }
    ShrLess(v, 8);
    ShrAdd(v, 8 - k.length, k.length);
  }

  lemma ExtractOwn(v: nat, k: Component)
    requires v < 256 && k.length <= 8
    ensures Extract(Pack(v, k), k) == Top(v, k)
  {
    ShrShl(Top(v, k), k.offset, k.offset);
    TopShort(v, k);
    ShortLow(Top(v, k), k.length);
  }

  lemma ExtractOther(v: nat, k': Component, k: Component)
    requires v < 256 && k'.length <= 8 && Apart(k, k')
    ensures Extract(Pack(v, k'), k) == 0
  {
    var t := Top(v, k');
    TopShort(v, k');
    if k.length == 0 {
    } else if k'.length == 0 {
      ShlZero(k'.offset);
      ShrZero(k.offset);
      LowZero(k.length);
    } else if k.offset + k.length <= k'.offset {
      ShrShl(t, k.offset, k'.offset);
      LowShl(t, k.length, k'.offset - k.offset);
    } else {
      ShrAdd(Shl(t, k'.offset), k'.offset, k.offset - k'.offset);
      ShrShl(t, k'.offset, k'.offset);
      ShrAdd(t, k'.length, k.offset - k'.offset - k'.length);
      ShrZero(k.offset - k'.offset - k'.length);
      LowZero(k.length);
    }
  }

  lemma {:induction false} ShlZero(n: nat)
    ensures Shl(0, n) == 0
  {
    if n != 0 {
      ShlZero(n - 1);
    }
  }

  lemma ExtractWord(rgb: RgbInfo, c: Rgba, k: Component)
    requires Packable(rgb)
    ensures Extract(MakeRgba(rgb, c), k) ==
      Or(Or(Or(Extract(Pack(c.r, rgb.red), k), Extract(Pack(c.g, rgb.green), k)),
            Extract(Pack(c.b, rgb.blue), k)), Extract(Pack(c.a, rgb.alpha), k))
  {
    var r, g, b, a := Pack(c.r, rgb.red), Pack(c.g, rgb.green), Pack(c.b, rgb.blue), Pack(c.a, rgb.alpha);
    ExtractOr(Or(Or(r, g), b), a, k);
    ExtractOr(Or(r, g), b, k);
    ExtractOr(r, g, k);
  }

  /** Reading each field of MAKE_RGBA gives the top bits of that channel, whatever the layout. */
  lemma PackUnpack(rgb: RgbInfo, bits: nat, c: Rgba)
    requires Layout(rgb, bits) && EightBit(c)
    ensures var w := MakeRgba(rgb, c);
      && Extract(w, rgb.red) == Top(c.r, rgb.red)
      && Extract(w, rgb.green) == Top(c.g, rgb.green)
      && Extract(w, rgb.blue) == Top(c.b, rgb.blue)
      && Extract(w, rgb.alpha) == Top(c.a, rgb.alpha)
  {
    forall k | k in [rgb.red, rgb.green, rgb.blue, rgb.alpha] {
      ExtractWord(rgb, c, k);
    }
    ExtractOwn(c.r, rgb.red);
    ExtractOwn(c.g, rgb.green);
    ExtractOwn(c.b, rgb.blue);
    ExtractOwn(c.a, rgb.alpha);
    ExtractOther(c.r, rgb.red, rgb.green);
    ExtractOther(c.r, rgb.red, rgb.blue);
    ExtractOther(c.r, rgb.red, rgb.alpha);
    ExtractOther(c.g, rgb.green, rgb.red);
    ExtractOther(c.g, rgb.green, rgb.blue);
    ExtractOther(c.g, rgb.green, rgb.alpha);
    ExtractOther(c.b, rgb.blue, rgb.red);
    ExtractOther(c.b, rgb.blue, rgb.green);
    ExtractOther(c.b, rgb.blue, rgb.alpha);
    ExtractOther(c.a, rgb.alpha, rgb.red);
    ExtractOther(c.a, rgb.alpha, rgb.green);
    ExtractOther(c.a, rgb.alpha, rgb.blue);
    OrZero(Top(c.r, rgb.red));
    OrZero(Top(c.g, rgb.green));
    OrZero(Top(c.b, rgb.blue));
    OrZero(Top(c.a, rgb.alpha));
    OrZero(0);
  }

  /** A packed word needs no more than the bits of its layout. */
  lemma WordFits(rgb: RgbInfo, bits: nat, c: Rgba)
    requires Layout(rgb, bits) && EightBit(c)
    ensures MakeRgba(rgb, c) < Shl(1, bits)
  {
    PackFits(c.r, rgb.red, bits);
    PackFits(c.g, rgb.green, bits);
    PackFits(c.b, rgb.blue, bits);
    PackFits(c.a, rgb.alpha, bits);
    var r, g, b, a := Pack(c.r, rgb.red), Pack(c.g, rgb.green), Pack(c.b, rgb.blue), Pack(c.a, rgb.alpha);
    ShrOr(Or(Or(r, g), b), a, bits);
    ShrOr(Or(r, g), b, bits);
    ShrOr(r, g, bits);
    OrZero(0);
    ShrLess(MakeRgba(rgb, c), bits);
  }

  lemma PackFits(v: nat, k: Component, bits: nat)
    requires v < 256 && k.length <= 8 && k.offset + k.length <= bits
    ensures Shr(Pack(v, k), bits) == 0
  {
    TopShort(v, k);
    ShrAdd(Pack(v, k), k.offset, bits - k.offset);
    ShrShl(Top(v, k), k.offset, k.offset);
    ShrAdd(Top(v, k), k.length, bits - k.offset - k.length);
    ShrZero(bits - k.offset - k.length);
  }
}
