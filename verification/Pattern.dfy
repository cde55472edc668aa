/** Dispatch of the test patterns, and what a reader of each pixel format then sees. */
module Patterns {
  import opened Bytes
  import opened Formats
  import opened Rasters
  import opened SmpteGeometry
  import SmpteFill
  import opened Pictures
  import opened YuvFill
  import opened TileFill
  import opened RgbFill
  import opened Buffers

  datatype Pattern = Tiles | Plain | Bars

  predicate IsYuv(f: Format) {
    FamilyOf(f).Packed? || FamilyOf(f).SemiPlanar? || FamilyOf(f).Planar?
  }

  function YuvOf(f: Format): (yuv: YuvInfo)
    requires IsYuv(f)
    ensures yuv.xsub == 2 && 1 <= yuv.ysub <= 2
  {
    YuvRows(f);
    Info(f).value.yuv
  }

  function RgbOf(f: Format): (rgb: RgbInfo)
    requires FamilyOf(f).Words?
    ensures !TenBit(f) ==> Packable(rgb)
  {
    RowsFitPixels(f);
    Info(f).value.rgb
  }

  // ----- where the fills put their samples -----

  function LumaPlane(f: Format, planes: seq<nat>, w: nat, h: nat, stride: nat): Raster
    requires IsYuv(f) && |planes| == 3
  {
    if FamilyOf(f) == Packed then PackedLuma(YuvOf(f).order, planes[0], w, h, stride)
    else LumaRaster(planes[0], w, h, stride)
  }

  /** The `u` and `v` pointers of the dispatchers. */
  function ChromaStarts(f: Format, planes: seq<nat>): (nat, nat)
    requires IsYuv(f) && |planes| == 3
  {
    if FamilyOf(f) == SemiPlanar then
      (planes[1] + if YuvOf(f).order.cbFirst then 0 else 1, planes[1] + if YuvOf(f).order.crFirst then 0 else 1)
    else if f == YVU420 then (planes[2], planes[1])
    else (planes[1], planes[2])
  }

  function ChromaPlane(f: Format, planes: seq<nat>, w: nat, h: nat, stride: nat): Raster
    requires IsYuv(f) && |planes| == 3
  {
    if FamilyOf(f) == Packed then PackedChroma(YuvOf(f).order, planes[0], w, h, stride)
    else var (u, v) := ChromaStarts(f, planes); ChromaRaster(YuvOf(f), u, v, w, h, stride)
  }

  /** The frame is one the fills can draw: whole chroma blocks, and room for every sample. */
  ghost predicate Ready(f: Format, planes: seq<nat>, w: nat, h: nat, stride: nat, size: int)
    requires |planes| == 3
  {
    match FamilyOf(f)
    case Packed => w % 2 == 0 && 2 * w <= stride && planes[0] + h * stride <= size
    case Words(n) => !TenBit(f) && n * w <= stride && planes[0] + h * stride <= size
    case Unsupported => true
    case _ => w % 2 == 0 && h % YuvOf(f).ysub == 0 && stride * YuvOf(f).chromaStride < 0x1_0000_0000 &&
              Laid(LumaPlane(f, planes, w, h, stride), ChromaPlane(f, planes, w, h, stride), size)
  }

  // ----- the picture a pattern draws -----

  function PictureOf(pattern: Pattern, f: Format, w: nat, h: nat): Picture
    requires pattern != Plain
  {
    if pattern == Bars then
      if FamilyOf(f).Words? then Smpte(RgbBars(FamilyOf(f).bytes), w, h) else Smpte(YuvBars(), w, h)
    else if FamilyOf(f).Words? then TilesRgb(FamilyOf(f).bytes, w, h)
    else if FamilyOf(f).Packed? then Paired(TilesYuv(w))
    else TilesYuv(w)
  }

  /** Which pixel of a block gives its chroma: SMPTE takes the first column, tiles the last; both the last row. */
  function SiteOf(pattern: Pattern, f: Format): (s: Site)
    requires pattern != Plain && IsYuv(f)
    ensures s.xsub == 2 && 1 <= s.ysub <= 2
  {
    if FamilyOf(f) == Packed then Site(2, 1, 0, 0)
    else Site(2, YuvOf(f).ysub, if pattern == Bars then 0 else 1, YuvOf(f).ysub - 1)
  }

  /** The buffer went from `s` to `t`: every sample shows the picture and nothing else changed. */
  ghost predicate Drawn(f: Format, planes: seq<nat>, w: nat, h: nat, stride: nat, s: seq<Byte>, t: seq<Byte>, pattern: Pattern)
    requires |planes| == 3 && pattern != Plain
  {
    match FamilyOf(f)
    case Unsupported => t == s
    case Words(n) =>
      var p := PixelRaster(planes[0], n, w, h, stride);
      Painted(t, p, Stored(PictureOf(pattern, f, w, h), PixelBytes(RgbOf(f)), EVERY_PIXEL)) && OnlyIn(s, t, {p})
    case _ =>
      ShowsPlanar(s, t, LumaPlane(f, planes, w, h, stride), ChromaPlane(f, planes, w, h, stride),
                  PictureOf(pattern, f, w, h), SiteOf(pattern, f))
  }

  /** The planar fills are called for exactly the planes, the picture and the chroma site of the format. */
  lemma PlanarArguments(pattern: Pattern, f: Format, planes: seq<nat>, w: nat, h: nat, stride: nat, yuv: YuvInfo, u: nat, v: nat)
    requires |planes| == 3 && pattern != Plain && (FamilyOf(f) == SemiPlanar || FamilyOf(f) == Planar)
    requires yuv == YuvOf(f) && (u, v) == ChromaStarts(f, planes)
    ensures yuv.xsub == 2 && 1 <= yuv.ysub <= 2 && 1 <= yuv.chromaStride <= 2
    ensures LumaPlane(f, planes, w, h, stride) == LumaRaster(planes[0], w, h, stride)
    ensures ChromaPlane(f, planes, w, h, stride) == ChromaRaster(yuv, u, v, w, h, stride)
    ensures SiteOf(pattern, f) == Site(yuv.xsub, yuv.ysub, if pattern == Bars then 0 else yuv.xsub - 1, yuv.ysub - 1)
    ensures PictureOf(pattern, f, w, h) == if pattern == Bars then Smpte(YuvBars(), w, h) else TilesYuv(w)
  {
    YuvRows(f);
  }

  /** Likewise for the packed fills. */
  lemma PackedArguments(pattern: Pattern, f: Format, planes: seq<nat>, w: nat, h: nat, stride: nat, size: nat, yuv: YuvInfo)
    requires |planes| == 3 && pattern != Plain && FamilyOf(f) == Packed && yuv == YuvOf(f)
    ensures PackedOrder(yuv.order)
    ensures Ready(f, planes, w, h, stride, size) ==> w % 2 == 0 && 2 * w <= stride && planes[0] + h * stride <= size
    ensures LumaPlane(f, planes, w, h, stride) == PackedLuma(yuv.order, planes[0], w, h, stride)
    ensures ChromaPlane(f, planes, w, h, stride) == PackedChroma(yuv.order, planes[0], w, h, stride)
    ensures SiteOf(pattern, f) == Site(2, 1, 0, 0)
    ensures PictureOf(pattern, f, w, h) == if pattern == Bars then Smpte(YuvBars(), w, h) else Paired(TilesYuv(w))
  {
    YuvRows(f);
  }

  lemma PackableRow(f: Format, rgb: RgbInfo)
    requires FamilyOf(f).Words? && !TenBit(f) && rgb == RgbOf(f)
    ensures Packable(rgb)
  {
    assert Packable(RgbOf(f));
  }

  lemma WordBytes(f: Format)
    requires FamilyOf(f).Words?
    ensures 2 <= FamilyOf(f).bytes <= 4
  {
  }

  lemma WordsReady(f: Format, planes: seq<nat>, w: nat, h: nat, stride: nat, size: nat, n: nat)
    requires |planes| == 3 && FamilyOf(f) == Words(n) && Ready(f, planes, w, h, stride, size)
    ensures n * w <= stride && planes[0] + h * stride <= size
  {
  }

  lemma WordsDrawn(pattern: Pattern, f: Format, planes: seq<nat>, w: nat, h: nat, stride: nat, rgb: RgbInfo, n: nat,
                   pic: Picture, s: seq<Byte>, t: seq<Byte>)
    requires |planes| == 3 && pattern != Plain && FamilyOf(f).Words? && !TenBit(f)
    requires rgb == RgbOf(f) && n == FamilyOf(f).bytes
    requires pic == if pattern == Bars then Smpte(RgbBars(n), w, h) else TilesRgb(n, w, h)
    requires var p := PixelRaster(planes[0], n, w, h, stride);
      Painted(t, p, Stored(pic, PixelBytes(rgb), EVERY_PIXEL)) && OnlyIn(s, t, {p})
    ensures Drawn(f, planes, w, h, stride, s, t, pattern)
  {
  }

  lemma ChromaOffsets(w: nat, cs: nat)
    requires 0 < w && cs <= 2
    ensures w <= 0x8000_0000 ==> SmpteFill.OffsetsExact(w, cs)
  {
    MulMono(cs, 2, w - 1);
  }

  method BarsPacked(mem: array<Byte>, f: Format, planes: seq<nat>, w: nat, h: nat, stride: nat)
    requires |planes| == 3 && FamilyOf(f) == Packed && !TenBit(f)
    requires w == 0 || h == 0 || stride == 0 || (Drawable(w) && Narrow(w, h) && Ready(f, planes, w, h, stride, mem.Length))
    modifies mem
    ensures w == 0 || h == 0 || stride == 0 ==> mem[..] == old(mem[..])
    ensures !(w == 0 || h == 0 || stride == 0) ==> Drawn(f, planes, w, h, stride, old(mem[..]), mem[..], Bars)
  {
    var yuv := YuvOf(f);
    PackedArguments(Bars, f, planes, w, h, stride, mem.Length, yuv);
    FillSmpteYuvPacked(mem, yuv, planes[0], w, h, stride);
  }

  method BarsPlanar(mem: array<Byte>, f: Format, planes: seq<nat>, w: nat, h: nat, stride: nat)
    requires |planes| == 3 && (FamilyOf(f) == SemiPlanar || FamilyOf(f) == Planar) && !TenBit(f)
    requires w == 0 || h == 0 || stride == 0 || (Drawable(w) && Narrow(w, h) && Ready(f, planes, w, h, stride, mem.Length))
    modifies mem
    ensures w == 0 || h == 0 || stride == 0 ==> mem[..] == old(mem[..])
    ensures !(w == 0 || h == 0 || stride == 0) ==> Drawn(f, planes, w, h, stride, old(mem[..]), mem[..], Bars)
  {
    var yuv := YuvOf(f);
    var (u, v) := ChromaStarts(f, planes);
    PlanarArguments(Bars, f, planes, w, h, stride, yuv, u, v);
    if 0 < w {
      ChromaOffsets(w, yuv.chromaStride);
    }
    FillSmpteYuvPlanar(mem, yuv, planes[0], u, v, w, h, stride);
  }

  method BarsWords(mem: array<Byte>, f: Format, planes: seq<nat>, w: nat, h: nat, stride: nat)
    requires |planes| == 3 && FamilyOf(f).Words? && !TenBit(f)
    requires w == 0 || h == 0 || stride == 0 || (Drawable(w) && Narrow(w, h) && Ready(f, planes, w, h, stride, mem.Length))
    modifies mem
    ensures w == 0 || h == 0 || stride == 0 ==> mem[..] == old(mem[..])
    ensures !(w == 0 || h == 0 || stride == 0) ==> Drawn(f, planes, w, h, stride, old(mem[..]), mem[..], Bars)
  {
    ghost var start := mem[..];
    var rgb, n := RgbOf(f), FamilyOf(f).bytes;
    PackableRow(f, rgb);
    WordBytes(f);
    if !(w == 0 || h == 0 || stride == 0) {
      WordsReady(f, planes, w, h, stride, mem.Length, n);
    }
    FillSmpteRgb(mem, rgb, n, planes[0], w, h, stride);
    if !(w == 0 || h == 0 || stride == 0) {
      WordsDrawn(Bars, f, planes, w, h, stride, rgb, n, Smpte(RgbBars(n), w, h), start, mem[..]);
    }
  }

  /** fill_smpte */
  method FillSmpte(mem: array<Byte>, f: Format, planes: seq<nat>, w: nat, h: nat, stride: nat)
    requires |planes| == 3 && !TenBit(f)
    requires w == 0 || h == 0 || stride == 0 || (Drawable(w) && Narrow(w, h) && Ready(f, planes, w, h, stride, mem.Length))
    modifies mem
    ensures w == 0 || h == 0 || stride == 0 ==> mem[..] == old(mem[..])
    ensures !(w == 0 || h == 0 || stride == 0) ==> Drawn(f, planes, w, h, stride, old(mem[..]), mem[..], Bars)
  {
    match FamilyOf(f) {
      case Packed => BarsPacked(mem, f, planes, w, h, stride);
      case Words(_) => BarsWords(mem, f, planes, w, h, stride);
      case Unsupported =>
      case _ => BarsPlanar(mem, f, planes, w, h, stride);
    }
  }

  method TilesPacked(mem: array<Byte>, f: Format, planes: seq<nat>, w: nat, h: nat, stride: nat)
    requires |planes| == 3 && FamilyOf(f) == Packed && !TenBit(f)
    requires w == 0 || h == 0 || stride == 0 || (TileSafe(w, h) && Ready(f, planes, w, h, stride, mem.Length))
    modifies mem
    ensures w == 0 || h == 0 || stride == 0 ==> mem[..] == old(mem[..])
    ensures !(w == 0 || h == 0 || stride == 0) ==> Drawn(f, planes, w, h, stride, old(mem[..]), mem[..], Tiles)
  {
    var yuv := YuvOf(f);
    PackedArguments(Tiles, f, planes, w, h, stride, mem.Length, yuv);
    FillTilesYuvPacked(mem, yuv, planes[0], w, h, stride);
  }

  method TilesPlanar(mem: array<Byte>, f: Format, planes: seq<nat>, w: nat, h: nat, stride: nat)
    requires |planes| == 3 && (FamilyOf(f) == SemiPlanar || FamilyOf(f) == Planar) && !TenBit(f)
    requires w == 0 || h == 0 || stride == 0 || (TileSafe(w, h) && Ready(f, planes, w, h, stride, mem.Length))
    modifies mem
    ensures w == 0 || h == 0 || stride == 0 ==> mem[..] == old(mem[..])
    ensures !(w == 0 || h == 0 || stride == 0) ==> Drawn(f, planes, w, h, stride, old(mem[..]), mem[..], Tiles)
  {
    var yuv := YuvOf(f);
    var (u, v) := ChromaStarts(f, planes);
    PlanarArguments(Tiles, f, planes, w, h, stride, yuv, u, v);
    if 0 < w {
      ChromaOffsets(w, yuv.chromaStride);
    }
    FillTilesYuvPlanar(mem, yuv, planes[0], u, v, w, h, stride);
  }

  method TilesWords(mem: array<Byte>, f: Format, planes: seq<nat>, w: nat, h: nat, stride: nat)
    requires |planes| == 3 && FamilyOf(f).Words? && !TenBit(f)
    requires w == 0 || h == 0 || stride == 0 || (TileSafe(w, h) && Ready(f, planes, w, h, stride, mem.Length))
    modifies mem
    ensures w == 0 || h == 0 || stride == 0 ==> mem[..] == old(mem[..])
    ensures !(w == 0 || h == 0 || stride == 0) ==> Drawn(f, planes, w, h, stride, old(mem[..]), mem[..], Tiles)
  {
    ghost var start := mem[..];
    var rgb, n := RgbOf(f), FamilyOf(f).bytes;
    PackableRow(f, rgb);
    WordBytes(f);
    if !(w == 0 || h == 0 || stride == 0) {
      WordsReady(f, planes, w, h, stride, mem.Length, n);
    }
    FillTilesRgb(mem, rgb, n, planes[0], w, h, stride);
    if !(w == 0 || h == 0 || stride == 0) {
      WordsDrawn(Tiles, f, planes, w, h, stride, rgb, n, TilesRgb(n, w, h), start, mem[..]);
    }
  }

  /** fill_tiles */
  method FillTiles(mem: array<Byte>, f: Format, planes: seq<nat>, w: nat, h: nat, stride: nat)
    requires |planes| == 3 && !TenBit(f)
    requires w == 0 || h == 0 || stride == 0 || (TileSafe(w, h) && Ready(f, planes, w, h, stride, mem.Length))
    modifies mem
    ensures w == 0 || h == 0 || stride == 0 ==> mem[..] == old(mem[..])
    ensures !(w == 0 || h == 0 || stride == 0) ==> Drawn(f, planes, w, h, stride, old(mem[..]), mem[..], Tiles)
  {
    match FamilyOf(f) {
      case Packed => TilesPacked(mem, f, planes, w, h, stride);
      case Words(_) => TilesWords(mem, f, planes, w, h, stride);
      case Unsupported =>
      case _ => TilesPlanar(mem, f, planes, w, h, stride);
    }
  }
}
