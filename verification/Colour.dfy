/** ITU-R BT.601 conversion as the fills compute it. */
module Colours {
  import opened Bytes
  import opened Formats

  datatype Yuv = Yuv(y: Byte, u: Byte, v: Byte)

  /** `n >> 8` of a signed integer: rounds toward minus infinity. */
  function Shr8(n: int): int {
    n / 256
  }

  /** MAKE_YUV_601 over signed integers, as the compiler evaluates it for constant colours. */
  function MakeYuv(c: Rgba): Yuv
    requires EightBit(c)
  {
    Range601(c);
    Yuv(Luma601(c), Cb601(c), Cr601(c))
  }

  function Luma601(c: Rgba): int { Shr8(66 * c.r + 129 * c.g + 25 * c.b + 128) + 16 }
  function Cb601(c: Rgba): int { Shr8(-38 * c.r - 74 * c.g + 112 * c.b + 128) + 128 }
  function Cr601(c: Rgba): int { Shr8(112 * c.r - 94 * c.g - 18 * c.b + 128) + 128 }

  /** The quantised ranges of ITU-R BT.601-7 section 2.5.3 are never left. */
  lemma Range601(c: Rgba)
    requires EightBit(c)
    ensures 16 <= Luma601(c) <= 235
    ensures 16 <= Cb601(c) <= 240
    ensures 16 <= Cr601(c) <= 240
  {
  }

  /** `n` is at most `d` away from zero. */
  predicate Within(n: int, d: nat) {
    -(d as int) <= n <= d
  }

  /** Each component is within one step of the exact quantity of ITU-R BT.601-7: with E'Y = 0.299 R + 0.587 G + 0.114 B,
      Y is 219 E'Y + 16, Cb is 224 (B - E'Y) / 1.772 + 128 and Cr is 224 (R - E'Y) / 1.402 + 128, where R, G and B are the
      8-bit components divided by 255. */
  lemma MakeYuvIsBt601(c: Rgba)
    requires EightBit(c)
    ensures var yuv := MakeYuv(c);
      && Within(255000 * (yuv.y - 16) - 219 * (299 * c.r + 587 * c.g + 114 * c.b), 255000)
      && Within(225930 * (yuv.u - 128) - 112 * (886 * c.b - 299 * c.r - 587 * c.g), 225930)
      && Within(178755 * (yuv.v - 128) - 112 * (701 * c.r - 587 * c.g - 114 * c.b), 178755)
  {
    Range601(c);
    Eighth(66 * c.r + 129 * c.g + 25 * c.b + 128);
    Eighth(-38 * c.r - 74 * c.g + 112 * c.b + 128);
    Eighth(112 * c.r - 94 * c.g - 18 * c.b + 128);
  }

  /** The red bar of the SMPTE pattern. */
  lemma RedBar(a: nat)
    requires a < 256
    ensures MakeYuv(Rgba(192, 0, 0, a)) == Yuv(66, 100, 212)
  {
  }

  lemma Eighth(n: int)
    ensures 256 * Shr8(n) <= n < 256 * Shr8(n) + 256
  {
  }

  // ----- the same macros over uint32_t operands, as the tile fills evaluate them -----

  function Mul(a: int, b: int): nat { U32(U32(a) * U32(b)) }
  function Add(a: nat, b: nat): nat { U32(a + b) }
  function Sub(a: nat, b: nat): nat { U32(a - b) }

  /** `(sum >> 8) + 128`, stored in an unsigned char. */
  function ChromaByte(sum: nat): Byte {
    Add(sum / 256, 128) % 256
  }

  function WrapLuma(c: Rgba): Byte {
    Add(Add(Add(Add(Mul(66, c.r), Mul(129, c.g)), Mul(25, c.b)), 128) / 256, 16) % 256
  }

  function WrapCb(c: Rgba): Byte {
    ChromaByte(Add(Add(Sub(Mul(-38, c.r), Mul(74, c.g)), Mul(112, c.b)), 128))
  }

  function WrapCr(c: Rgba): Byte {
    ChromaByte(Add(Sub(Sub(Mul(112, c.r), Mul(94, c.g)), Mul(18, c.b)), 128))
  }

  function WrapYuv(c: Rgba): Yuv {
    Yuv(WrapLuma(c), WrapCb(c), WrapCr(c))
  }

  lemma Remainder(n: int, q: int, r: int)
    requires 0 <= r < 0x1_0000_0000 && n == q * 0x1_0000_0000 + r
    ensures U32(n) == r
  {
  }

  lemma InRange(n: int)
    requires 0 <= n < 0x1_0000_0000
    ensures U32(n) == n
  {
  }

  lemma ByteTurns(x: int, k: int)
    ensures (x + k * 256) % 256 == x % 256
  {
  }

  /** A logical shift of the wrapped sum and the arithmetic shift of the exact one agree in their low byte. */
  lemma LogicalShiftByte(n: int)
    ensures Add(U32(n) / 256, 128) % 256 == (Shr8(n) + 128) % 256
  {
    var q, u := n / 0x1_0000_0000, U32(n);
    ShiftTurns(n, q, u);
    InRange(u / 256 + 128);
    ByteTurns(u / 256 + 128, q * 0x1_0000);
  }

  lemma ShiftTurns(n: int, q: int, u: nat)
    requires n == q * 0x1_0000_0000 + u
    ensures Shr8(n) == q * 0x1_0000 * 256 + u / 256
  {
  }

  lemma ChromaInRange(n: int)
    requires 0 <= Shr8(n) + 128 < 256
    ensures ChromaByte(U32(n)) == Shr8(n) + 128
  {
    LogicalShiftByte(n);
  }

  lemma LumaInRange(p: nat, q: nat, s: nat)
    requires p + q + s + 128 < 0x1_0000 && Shr8(p + q + s + 128) + 16 < 256
    ensures Add(Add(Add(Add(p, q), s), 128) / 256, 16) % 256 == Shr8(p + q + s + 128) + 16
  {
    InRange(p + q);
    InRange(p + q + s);
    InRange(p + q + s + 128);
    InRange((p + q + s + 128) / 256 + 16);
  }

  lemma WholeTurns(n: int, q: int)
    ensures U32(n + q * 0x1_0000_0000) == U32(n)
  {
    Remainder(n + q * 0x1_0000_0000, n / 0x1_0000_0000 + q, U32(n));
  }

  /** An operand may be wrapped before a sum or after it. */
  lemma WrapFirst(a: int, b: int)
    ensures U32(U32(a) + b) == U32(a + b)
  {
    WholeTurns(U32(a) + b, a / 0x1_0000_0000);
  }

  lemma SmallMul(k: int, r: int)
    requires 0 < k <= 256 && 0 <= r < 256
    ensures Mul(-k, r) == U32(-k * r)
    ensures Mul(k, r) == k * r
  {
    InRange(k);
    InRange(r);
    Remainder(-k, -1, 0x1_0000_0000 - k);
    ProductBound(k, r);
    InRange(k * r);
    NegProduct(k, r);
  }

  lemma ProductBound(k: int, r: int)
    requires 0 < k <= 256 && 0 <= r < 256
    ensures 0 <= k * r <= 0x1_0000
  {
    assert k * r <= 256 * r;
  }

  lemma NegProduct(k: int, r: int)
    ensures U32((0x1_0000_0000 - k) * r) == U32(-k * r)
  {
    assert (0x1_0000_0000 - k) * r == -k * r + r * 0x1_0000_0000;
    WholeTurns(-k * r, r);
  }

  lemma CbByte(p: int, q: nat, s: nat)
    requires 0 <= Shr8(p - q + s + 128) + 128 < 256
    ensures ChromaByte(Add(Add(Sub(U32(p), q), s), 128)) == Shr8(p - q + s + 128) + 128
  {
    CbSum(p, q, s);
    ChromaInRange(p - q + s + 128);
  }

  lemma CrByte(p: nat, q: nat, s: nat)
    requires 0 <= Shr8(p - q - s + 128) + 128 < 256
    ensures ChromaByte(Add(Sub(Sub(p, q), s), 128)) == Shr8(p - q - s + 128) + 128
  {
    CrSum(p, q, s);
    ChromaInRange(p - q - s + 128);
  }

  lemma CbSum(p: int, q: nat, s: nat)
    ensures Add(Add(Sub(U32(p), q), s), 128) == U32(p - q + s + 128)
  {
    WrapFirst(p, -(q as int));
    WrapFirst(p - q, s);
    WrapFirst(p - q + s, 128);
  }

  lemma CrSum(p: nat, q: nat, s: nat)
    ensures Add(Sub(Sub(p, q), s), 128) == U32(p - q - s + 128)
  {
    WrapFirst(p - q, -(s as int));
    WrapFirst(p - q - s, 128);
  }

  lemma WrapCbIsExact(c: Rgba)
    requires EightBit(c)
    ensures WrapCb(c) == Cb601(c)
  {
    var p, q, s := -38 * c.r, 74 * c.g, 112 * c.b;
    assert Mul(-38, c.r) == U32(p) && Mul(74, c.g) == q && Mul(112, c.b) == s by {
      SmallMul(38, c.r);
      SmallMul(74, c.g);
      SmallMul(112, c.b);
    }
    Range601(c);
    CbByte(p, q, s);
  }

  lemma WrapCrIsExact(c: Rgba)
    requires EightBit(c)
    ensures WrapCr(c) == Cr601(c)
  {
    var p, q, s := 112 * c.r, 94 * c.g, 18 * c.b;
    assert Mul(112, c.r) == p && Mul(94, c.g) == q && Mul(18, c.b) == s by {
      SmallMul(112, c.r);
      SmallMul(94, c.g);
      SmallMul(18, c.b);
    }
    Range601(c);
    CrByte(p, q, s);
  }

  /** Evaluating the macros with wrap-around and a logical shift stores the exact signed result. */
  lemma WrapIsExact(c: Rgba)
    requires EightBit(c)
    ensures WrapYuv(c) == MakeYuv(c)
  {
    WrapCbIsExact(c);
    WrapCrIsExact(c);
    WrapLumaIsExact(c);
  }

  lemma WrapLumaIsExact(c: Rgba)
    requires EightBit(c)
    ensures WrapLuma(c) == Luma601(c)
  {
    SmallMul(66, c.r);
    SmallMul(129, c.g);
    SmallMul(25, c.b);
    Range601(c);
    LumaInRange(66 * c.r, 129 * c.g, 25 * c.b);
  }
}
