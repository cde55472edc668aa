/** What a reader of each format sees in a frame buffer, and the end-to-end guarantee of fill_pattern. */
module Readers {
  import opened Bytes
  import opened Formats
  import opened Colours
  import opened Rasters
  import opened SmpteGeometry
  import opened Pictures
  import opened YuvFill
  import opened TileFill
  import opened RgbFill
  import opened Buffers
  import opened Patterns
  import opened FormatNames

  // ----- the formats' own definition of where a pixel's components are -----

  function LumaAt(f: Format, pitch: nat, x: nat, y: nat): int {
    match f
    case UYVY | VYUY => y * pitch + 2 * x + 1
    case YUYV | YVYU => y * pitch + 2 * x
    case _ => y * pitch + x
  }

  /** First byte of the block, row or plane that holds the pixel's chroma. */
  function ChromaBlock(f: Format, pitch: nat, h: nat, x: nat, y: nat): int {
    match f
    case UYVY | VYUY | YUYV | YVYU => y * pitch + 4 * (x / 2)
    case NV12 | NV21 => pitch * h + (y / 2) * pitch + 2 * (x / 2)
    case NV16 | NV61 => pitch * h + y * pitch + 2 * (x / 2)
    case _ => pitch * h + (y / 2) * (pitch / 2) + x / 2
  }

  function CbAt(f: Format, pitch: nat, h: nat, x: nat, y: nat): int {
    ChromaBlock(f, pitch, h, x, y) +
    match f
    case UYVY => 0 case VYUY => 2 case YUYV => 1 case YVYU => 3
    case NV12 | NV16 => 0 case NV21 | NV61 => 1
    case YVU420 => pitch / 2 * (h / 2)
    case _ => 0
  }

  function CrAt(f: Format, pitch: nat, h: nat, x: nat, y: nat): int {
    ChromaBlock(f, pitch, h, x, y) +
    match f
    case UYVY => 2 case VYUY => 0 case YUYV => 3 case YVYU => 1
    case NV12 | NV16 => 1 case NV21 | NV61 => 0
    case YVU420 => 0
    case _ => pitch / 2 * (h / 2)
  }

  predicate InBuffer(f: Format, size: nat, pitch: nat, h: nat, x: nat, y: nat) {
    0 <= LumaAt(f, pitch, x, y) < size && 0 <= CbAt(f, pitch, h, x, y) < size && 0 <= CrAt(f, pitch, h, x, y) < size
  }

  function DecodeYuv(f: Format, s: seq<Byte>, pitch: nat, h: nat, x: nat, y: nat): Yuv
    requires InBuffer(f, |s|, pitch, h, x, y)
  {
    Yuv(s[LumaAt(f, pitch, x, y)], s[CbAt(f, pitch, h, x, y)], s[CrAt(f, pitch, h, x, y)])
  }

  /** The components of a pixel when its block shares the chroma of one site. */
  function Seen(pic: Picture, le: Encoding, ce: Encoding, site: Site, x: nat, y: nat): Yuv
    requires site.xsub > 0 && site.ysub > 0
  {
    var p := pic(site.xsub * (x / site.xsub) + site.dx, site.ysub * (y / site.ysub) + site.dy);
    Yuv(le(pic(x, y), 0), ce(p, 0), ce(p, 1))
  }

  /** Every pixel of the frame decodes to the picture. */
  ghost predicate ShowsYuv(f: Format, s: seq<Byte>, pitch: nat, w: nat, h: nat, pic: Picture, le: Encoding, ce: Encoding, site: Site)
    requires site.xsub > 0 && site.ysub > 0
  {
    forall x: nat, y: nat :: x < w && y < h ==>
      InBuffer(f, |s|, pitch, h, x, y) && DecodeYuv(f, s, pitch, h, x, y) == Seen(pic, le, ce, site, x, y)
  }

  /** The planes of the exact layout. */
  function ExactPlanes(f: Format, pitch: nat, h: nat): (p: seq<nat>)
    ensures |p| == 3
  {
    match FamilyOf(f)
    case SemiPlanar => [0, pitch * h, 0]
    case Planar => [0, pitch * h, pitch * h + pitch / 2 * (h / 2)]
    case _ => [0, 0, 0]
  }

  /** The samples that the fills write for a pixel are the bytes that the reader looks at. */
  ghost predicate SameBytes(f: Format, pitch: nat, w: nat, h: nat, x: nat, y: nat, luma: Raster, chroma: Raster, ysub: nat)
    requires ysub > 0
  {
    && |luma.lanes| == 1 && |chroma.lanes| == 2
    && Cell(luma, 0, x, y) && At(luma, 0, x, y) == LumaAt(f, pitch, x, y)
    && Cell(chroma, 0, x / 2, y / ysub) && At(chroma, 0, x / 2, y / ysub) == CbAt(f, pitch, h, x, y)
    && Cell(chroma, 1, x / 2, y / ysub) && At(chroma, 1, x / 2, y / ysub) == CrAt(f, pitch, h, x, y)
  }

  lemma SamePacked(f: Format, pitch: nat, w: nat, h: nat, x: nat, y: nat)
    requires FamilyOf(f) == Packed && x < w && y < h && w % 2 == 0
    ensures SameBytes(f, pitch, w, h, x, y, LumaPlane(f, ExactPlanes(f, pitch, h), w, h, pitch),
                      ChromaPlane(f, ExactPlanes(f, pitch, h), w, h, pitch), 1)
  {
  }

  lemma SameSemiPlanar(f: Format, pitch: nat, w: nat, h: nat, x: nat, y: nat)
    requires FamilyOf(f) == SemiPlanar && x < w && y < h && w % 2 == 0 && h % YuvOf(f).ysub == 0
    ensures SameBytes(f, pitch, w, h, x, y, LumaPlane(f, ExactPlanes(f, pitch, h), w, h, pitch),
                      ChromaPlane(f, ExactPlanes(f, pitch, h), w, h, pitch), YuvOf(f).ysub)
  {
    assert pitch * 2 / 2 == pitch;
  }

  lemma SamePlanar(f: Format, pitch: nat, w: nat, h: nat, x: nat, y: nat)
    requires FamilyOf(f) == Planar && x < w && y < h && w % 2 == 0 && h % 2 == 0
    ensures SameBytes(f, pitch, w, h, x, y, LumaPlane(f, ExactPlanes(f, pitch, h), w, h, pitch),
                      ChromaPlane(f, ExactPlanes(f, pitch, h), w, h, pitch), 2)
  {
    assert pitch * 1 / 2 == pitch / 2;
  }

  /** Decoding a pixel of painted planes gives the picture. */
  lemma DecodeShows(f: Format, s: seq<Byte>, pitch: nat, w: nat, h: nat, x: nat, y: nat,
                    luma: Raster, chroma: Raster, pic: Picture, le: Encoding, ce: Encoding, site: Site)
    requires site.xsub == 2 && site.ysub > 0 && SameBytes(f, pitch, w, h, x, y, luma, chroma, site.ysub)
    requires Fits(luma, |s|) && Fits(chroma, |s|)
    requires Painted(s, luma, Stored(pic, le, EVERY_PIXEL)) && Painted(s, chroma, Stored(pic, ce, site))
    ensures InBuffer(f, |s|, pitch, h, x, y) && DecodeYuv(f, s, pitch, h, x, y) == Seen(pic, le, ce, site, x, y)
  {
    var c, r := x / 2, y / site.ysub;
    assert s[At(luma, 0, x, y)] == Stored(pic, le, EVERY_PIXEL)(0, x, y);
    assert s[At(chroma, 0, c, r)] == Stored(pic, ce, site)(0, c, r);
    assert s[At(chroma, 1, c, r)] == Stored(pic, ce, site)(1, c, r);
  }

  lemma FrameShows(f: Format, s: seq<Byte>, t: seq<Byte>, pitch: nat, w: nat, h: nat, pattern: Pattern,
                   pic: Picture, le: Encoding, ce: Encoding, site: Site)
    requires IsYuv(f) && w % 2 == 0 && (FamilyOf(f) != Packed ==> h % YuvOf(f).ysub == 0)
    requires pattern != Plain && site == SiteOf(pattern, f)
    requires var planes := ExactPlanes(f, pitch, h);
      var luma, chroma := LumaPlane(f, planes, w, h, pitch), ChromaPlane(f, planes, w, h, pitch);
      Laid(luma, chroma, |t|) && ShowsStored(s, t, luma, chroma, pic, le, ce, site)
    ensures ShowsYuv(f, t, pitch, w, h, pic, le, ce, site)
  {
    var planes := ExactPlanes(f, pitch, h);
    var luma, chroma := LumaPlane(f, planes, w, h, pitch), ChromaPlane(f, planes, w, h, pitch);
    forall x: nat, y: nat | x < w && y < h
      ensures InBuffer(f, |t|, pitch, h, x, y) && DecodeYuv(f, t, pitch, h, x, y) == Seen(pic, le, ce, site, x, y)
    {
      match FamilyOf(f) {
        case Packed => SamePacked(f, pitch, w, h, x, y);
        case SemiPlanar => SameSemiPlanar(f, pitch, w, h, x, y);
        case _ => SamePlanar(f, pitch, w, h, x, y);
      }
      DecodeShows(f, t, pitch, w, h, x, y, luma, chroma, pic, le, ce, site);
    }
  }

  // ----- the allocated buffer has room for every sample -----

  /** A buffer as bo_create leaves it for a frame the fills can draw. */
  predicate Backed(f: Format, bo: Bo, w: nat, h: nat) {
    && FamilyOf(f) != Unsupported
    && DumbContract(w, VirtualHeight(f, h), Bpp(f), bo)
    && Addressable(f, bo.pitch, h)
  }

  /** Whole chroma blocks, and no ten-bit channels. */
  predicate Whole(f: Format, w: nat, h: nat) {
    && !TenBit(f)
    && (IsYuv(f) ==> w % 2 == 0)
    && (IsYuv(f) && FamilyOf(f) != Packed ==> h % YuvOf(f).ysub == 0)
  }

  lemma SemiPlanarLaid(f: Format, pitch: nat, w: nat, h: nat, size: nat)
    requires FamilyOf(f) == SemiPlanar && w % 2 == 0 && w <= pitch && h % YuvOf(f).ysub == 0
    requires pitch * h + h / YuvOf(f).ysub * pitch <= size
    ensures var planes := ExactPlanes(f, pitch, h);
      Laid(LumaPlane(f, planes, w, h, pitch), ChromaPlane(f, planes, w, h, pitch), size)
  {
    YuvRows(f);
    var planes := ExactPlanes(f, pitch, h);
    var luma, chroma := LumaPlane(f, planes, w, h, pitch), ChromaPlane(f, planes, w, h, pitch);
    SemiPlanarPlane(f, pitch, w, h, chroma);
    TwoPlanesLaid(luma, chroma, pitch * h, size);
  }

  lemma SemiPlanarPlane(f: Format, pitch: nat, w: nat, h: nat, chroma: Raster)
    requires FamilyOf(f) == SemiPlanar && w % 2 == 0 && w <= pitch
    requires chroma == ChromaPlane(f, ExactPlanes(f, pitch, h), w, h, pitch)
    ensures chroma.pitch == pitch && chroma.rows == h / YuvOf(f).ysub && Interleaved(chroma, pitch * h)
  {
    YuvRows(f);
    var (u, v) := ChromaStarts(f, ExactPlanes(f, pitch, h));
    assert chroma == Raster([u, v], pitch * 2 / 2, 2, w / 2, h / YuvOf(f).ysub);
    assert pitch * 2 / 2 == pitch;
  }

  /** A luma plane from byte 0, and an interleaved chroma plane after it. */
  lemma TwoPlanesLaid(luma: Raster, chroma: Raster, base: nat, size: nat)
    requires Interleaved(luma, 0) && Interleaved(chroma, base)
    requires luma.rows * luma.pitch == base && base + chroma.rows * chroma.pitch <= size
    ensures Laid(luma, chroma, size)
  {
    InterleavedSeparate(luma, 0);
    InterleavedSeparate(chroma, base);
    MulMono(0, chroma.rows, chroma.pitch);
    InterleavedFits(luma, 0, size);
    InterleavedFits(chroma, base, size);
    RangesDisjoint(luma, 0, chroma, base);
  }

  /** Three planes one after the other; the two chroma planes form one raster in either order. */
  lemma ThreePlanesLaid(luma: Raster, chroma: Raster, base: nat, next: nat, size: nat)
    requires Interleaved(luma, 0) && luma.rows * luma.pitch == base
    requires chroma.step == 1 && chroma.cols <= chroma.pitch
    requires chroma.lanes == [base, next] || chroma.lanes == [next, base]
    requires next == base + chroma.rows * chroma.pitch && next + chroma.rows * chroma.pitch <= size
    ensures Laid(luma, chroma, size)
  {
    var p, q := chroma.(lanes := [chroma.lanes[0]]), chroma.(lanes := [chroma.lanes[1]]);
    MulMono(0, chroma.rows, chroma.pitch);
    InterleavedSeparate(luma, 0);
    InterleavedFits(luma, 0, size);
    StackedPlanes(p, q, chroma);
    OnePlane(luma, p, p.lanes[0], size);
    OnePlane(luma, q, q.lanes[0], size);
    BothLaid(luma, p, q, chroma, size);
  }

  lemma BothLaid(luma: Raster, p: Raster, q: Raster, both: Raster, size: int)
    requires |p.lanes| == |q.lanes| == 1 && p.(lanes := q.lanes) == q && both == p.(lanes := p.lanes + q.lanes)
    requires Fits(p, size) && Disjoint(luma, p) && Disjoint(p, luma)
    requires Fits(q, size) && Disjoint(luma, q) && Disjoint(q, luma)
    ensures Fits(both, size) && Disjoint(luma, both) && Disjoint(both, luma)
  {
    assert forall l, c, r :: Cell(both, l, c, r) ==>
      var a := if l == 0 then p else q; Cell(a, 0, c, r) && At(a, 0, c, r) == At(both, l, c, r);
  }

  lemma OnePlane(luma: Raster, p: Raster, base: nat, size: nat)
    requires Interleaved(luma, 0) && Interleaved(p, base)
    requires luma.rows * luma.pitch <= base && base + p.rows * p.pitch <= size
    ensures Fits(p, size) && Disjoint(luma, p) && Disjoint(p, luma)
  {
    InterleavedFits(p, base, size);
    RangesDisjoint(luma, 0, p, base);
  }

  lemma PlanarLaid(f: Format, pitch: nat, w: nat, h: nat, size: nat)
    requires FamilyOf(f) == Planar && w % 2 == 0 && w <= pitch && h % 2 == 0
    requires pitch * h + 2 * (pitch / 2 * (h / 2)) <= size
    ensures var planes := ExactPlanes(f, pitch, h);
      Laid(LumaPlane(f, planes, w, h, pitch), ChromaPlane(f, planes, w, h, pitch), size)
  {
    YuvRows(f);
    var planes := ExactPlanes(f, pitch, h);
    var luma, chroma := LumaPlane(f, planes, w, h, pitch), ChromaPlane(f, planes, w, h, pitch);
    assert chroma.pitch == pitch * 1 / 2 == pitch / 2 && chroma.cols == w / 2 && chroma.rows == h / 2;
    ThreePlanesLaid(luma, chroma, pitch * h, pitch * h + pitch / 2 * (h / 2), size);
  }

  lemma BackedSemiPlanar(f: Format, bo: Bo, w: nat, h: nat)
    requires Backed(f, bo, w, h) && Whole(f, w, h) && FamilyOf(f) == SemiPlanar && 0 < h
    ensures Ready(f, ExactPlanes(f, bo.pitch, h), w, h, bo.pitch, bo.size)
  {
    VirtualHeights(f, h);
    YuvRows(f);
    SemiPlanarRoom(bo.pitch, h, YuvOf(f).ysub, VirtualHeight(f, h));
    SemiPlanarLaid(f, bo.pitch, w, h, bo.size);
    MulMono(2, VirtualHeight(f, h), bo.pitch);
  }

  lemma BackedPlanar(f: Format, bo: Bo, w: nat, h: nat)
    requires Backed(f, bo, w, h) && Whole(f, w, h) && FamilyOf(f) == Planar && 0 < h
    ensures Ready(f, ExactPlanes(f, bo.pitch, h), w, h, bo.pitch, bo.size)
  {
    VirtualHeights(f, h);
    YuvRows(f);
    HalfPlane(bo.pitch, h);
    PlanarLaid(f, bo.pitch, w, h, bo.size);
  }

  lemma BackedOnePlane(f: Format, bo: Bo, w: nat, h: nat)
    requires Backed(f, bo, w, h) && Whole(f, w, h) && (FamilyOf(f) == Packed || FamilyOf(f).Words?)
    ensures Ready(f, ExactPlanes(f, bo.pitch, h), w, h, bo.pitch, bo.size)
  {
    VirtualHeights(f, h);
  }

  /** Room for w-by-h samples in a dumb buffer that honours its contract. */
  lemma BackedIsReady(f: Format, bo: Bo, w: nat, h: nat)
    requires Backed(f, bo, w, h) && Whole(f, w, h) && 0 < h
    ensures Ready(f, ExactPlanes(f, bo.pitch, h), w, h, bo.pitch, bo.size)
  {
    match FamilyOf(f) {
      case SemiPlanar => BackedSemiPlanar(f, bo, w, h);
      case Planar => BackedPlanar(f, bo, w, h);
      case _ => BackedOnePlane(f, bo, w, h);
    }
  }

  lemma SemiPlanarRoom(pitch: nat, h: nat, ysub: nat, v: nat)
    requires ysub == 1 || ysub == 2
    requires v == h + h / ysub
    ensures pitch * h + h / ysub * pitch == pitch * v
  {
  }

  // ----- RGB -----

  lemma NamedPackable(f: Format)
    requires FamilyOf(f).Words? && !TenBit(f)
    ensures RgbOf(f) == NamedRgb(f) && Layout(NamedRgb(f), 8 * FamilyOf(f).bytes)
  {
    RowsFitPixels(f);
    TableFollowsNames(f);
  }

  /** The pixel word at `at` holds the colour in the fields that the name of the format gives. */
  ghost predicate ShowsWord(f: Format, s: seq<Byte>, at: int, c: Rgba)
    requires FamilyOf(f).Words? && !TenBit(f)
  {
    NamedPackable(f);
    var rgb, n := NamedRgb(f), FamilyOf(f).bytes;
    0 <= at && at + n <= |s| &&
    var word := ReadWord(s, at, n);
    && Extract(word, rgb.red) == Top(c.r, rgb.red)
    && Extract(word, rgb.green) == Top(c.g, rgb.green)
    && Extract(word, rgb.blue) == Top(c.b, rgb.blue)
    && Extract(word, rgb.alpha) == Top(c.a, rgb.alpha)
  }

  /** Every pixel word of the frame decodes to the picture, cut to the length of each field. */
  ghost predicate ShowsRgb(f: Format, s: seq<Byte>, pitch: nat, w: nat, h: nat, pic: Picture)
    requires FamilyOf(f).Words? && !TenBit(f)
  {
    forall x: nat, y: nat :: x < w && y < h ==> ShowsWord(f, s, y * pitch + FamilyOf(f).bytes * x, pic(x, y))
  }

  lemma WordShows(f: Format, s: seq<Byte>, at: nat, c: Rgba, e: Encoding)
    requires FamilyOf(f).Words? && !TenBit(f) && EightBit(c) && at + FamilyOf(f).bytes <= |s|
    requires e == PixelBytes(RgbOf(f)) && forall k :: 0 <= k < FamilyOf(f).bytes ==> s[at + k] == e(c, k)
    ensures ShowsWord(f, s, at, c)
  {
    NamedPackable(f);
    var rgb, n := NamedRgb(f), FamilyOf(f).bytes;
    WordFits(rgb, 8 * n, c);
    forall k | 0 <= k < n
      ensures s[at + k] == ByteOf(MakeRgba(rgb, c), k)
    {
      assert s[at + k] == e(c, k);
    }
    WordRoundTrip(s, at, n, MakeRgba(rgb, c));
    PackUnpack(rgb, 8 * n, c);
  }

  /** The bytes from `y * pitch + n * x` are the lanes of the pixel. */
  lemma PixelLanes(s: seq<Byte>, n: nat, pitch: nat, w: nat, h: nat, pic: Picture, e: Encoding, x: nat, y: nat, at: nat)
    requires 0 < n && x < w && y < h && at == y * pitch + n * x
    requires Fits(PixelRaster(0, n, w, h, pitch), |s|)
    requires Painted(s, PixelRaster(0, n, w, h, pitch), Stored(pic, e, EVERY_PIXEL))
    ensures at + n <= |s| && forall k :: 0 <= k < n ==> s[at + k] == e(pic(x, y), k)
  {
    var p := PixelRaster(0, n, w, h, pitch);
    forall k | 0 <= k < n
      ensures 0 <= at + k < |s| && s[at + k] == e(pic(x, y), k)
    {
      assert Cell(p, k, x, y) && At(p, k, x, y) == at + k;
      assert s[At(p, k, x, y)] == Stored(pic, e, EVERY_PIXEL)(k, x, y);
    }
    var k := n - 1;
    assert Cell(p, k, x, y) && At(p, k, x, y) == at + k;
  }

  lemma PixelShows(f: Format, s: seq<Byte>, pitch: nat, w: nat, h: nat, pic: Picture, e: Encoding, x: nat, y: nat)
    requires FamilyOf(f).Words? && !TenBit(f) && x < w && y < h && EightBit(pic(x, y)) && e == PixelBytes(RgbOf(f))
    requires Fits(PixelRaster(0, FamilyOf(f).bytes, w, h, pitch), |s|)
    requires Painted(s, PixelRaster(0, FamilyOf(f).bytes, w, h, pitch), Stored(pic, e, EVERY_PIXEL))
    ensures ShowsWord(f, s, y * pitch + FamilyOf(f).bytes * x, pic(x, y))
  {
    var n, c := FamilyOf(f).bytes, pic(x, y);
    PixelLanes(s, n, pitch, w, h, pic, e, x, y, y * pitch + n * x);
    WordShows(f, s, y * pitch + n * x, c, e);
  }

  lemma PictureEightBit(pattern: Pattern, f: Format, w: nat, h: nat, x: int, y: int)
    requires FamilyOf(f).Words? && pattern != Plain
    ensures EightBit(PictureOf(pattern, f, w, h)(x, y))
  {
    if pattern == Bars {
      TableEightBit(BandOf(y, h), FamilyOf(f).bytes);
    }
  }

  lemma YuvPictureEightBit(pattern: Pattern, f: Format, w: nat, h: nat, x: int, y: int)
    requires IsYuv(f) && pattern != Plain
    ensures EightBit(PictureOf(pattern, f, w, h)(x, y))
  {
    if pattern == Bars && 0 <= x < w && Drawable(w) {
      YuvTableEightBit(BandOf(y, h));
    }
  }

  ghost predicate AllEightBit(pic: Picture) {
    forall x, y :: EightBit(pic(x, y))
  }

  lemma AllYuvEightBit(pattern: Pattern, f: Format, w: nat, h: nat, pic: Picture)
    requires IsYuv(f) && pattern != Plain && pic == PictureOf(pattern, f, w, h)
    ensures AllEightBit(pic)
  {
    forall x, y
      ensures EightBit(pic(x, y))
    {
      YuvPictureEightBit(pattern, f, w, h, x, y);
    }
  }

  lemma YuvTableEightBit(band: Band)
    ensures forall k :: 0 <= k < |YuvTable(band)| ==> EightBit(YuvTable(band)[k])
  {
    var t := YuvTable(band);
    assert forall k :: 0 <= k < |t| ==> EightBit(t[k]);
  }

  lemma TableEightBit(band: Band, n: nat)
    ensures forall k :: 0 <= k < |RgbBars(n)(band)| ==> EightBit(RgbBars(n)(band)[k])
  {
    var t := RgbTable(band);
    assert forall k :: 0 <= k < |t| ==> EightBit(t[k]);
  }

  lemma WordsShow(f: Format, s: seq<Byte>, pitch: nat, w: nat, h: nat, pattern: Pattern, pic: Picture, e: Encoding)
    requires FamilyOf(f).Words? && !TenBit(f) && pattern != Plain && pic == PictureOf(pattern, f, w, h)
    requires e == PixelBytes(RgbOf(f))
    requires Fits(PixelRaster(0, FamilyOf(f).bytes, w, h, pitch), |s|)
    requires Painted(s, PixelRaster(0, FamilyOf(f).bytes, w, h, pitch), Stored(pic, e, EVERY_PIXEL))
    ensures ShowsRgb(f, s, pitch, w, h, pic)
  {
    forall x: nat, y: nat | x < w && y < h
      ensures ShowsWord(f, s, y * pitch + FamilyOf(f).bytes * x, pic(x, y))
    {
      PictureEightBit(pattern, f, w, h, x, y);
      PixelShows(f, s, pitch, w, h, pic, e, x, y);
    }
  }

  // ----- fill_pattern -----

  /** The picture can be drawn: nothing for an empty frame; otherwise whole blocks, no SMPTE width of 4 to 6, and no product
      that wraps or overflows. */
  predicate Fillable(f: Format, w: nat, h: nat, pattern: Pattern) {
    !TenBit(f) && (w == 0 || h == 0 ||
      (Whole(f, w, h) && (pattern == Bars ==> Drawable(w) && Narrow(w, h)) && (pattern == Tiles ==> TileSafe(w, h))))
  }

  /** Every frame below 2^16 in each dimension is free of such products. */
  lemma SmallFramesFillable(f: Format, w: nat, h: nat, pattern: Pattern)
    requires w < 0x1_0000 && h < 0x1_0000 && Whole(f, w, h) && (pattern == Bars ==> !(4 <= w <= 6))
    ensures Fillable(f, w, h, pattern)
  {
    if 0 < w && 0 < h {
      SmallFramesSafe(w, h);
    }
  }

  /** What a reader of the format finds after a fill. */
  ghost predicate Shows(f: Format, s: seq<Byte>, pitch: nat, w: nat, h: nat, pattern: Pattern)
    requires pattern != Plain
  {
    match FamilyOf(f)
    case Unsupported => true
    case Words(_) => !TenBit(f) && ShowsRgb(f, s, pitch, w, h, PictureOf(pattern, f, w, h))
    case _ => ShowsYuv(f, s, pitch, w, h, PictureOf(pattern, f, w, h), LumaByte(), ChromaBytes(), SiteOf(pattern, f))
  }

  /** The sample bytes of a frame. */
  function FrameRasters(f: Format, pitch: nat, w: nat, h: nat): set<Raster> {
    match FamilyOf(f)
    case Unsupported => {}
    case Words(n) => {PixelRaster(0, n, w, h, pitch)}
    case _ => {LumaPlane(f, ExactPlanes(f, pitch, h), w, h, pitch), ChromaPlane(f, ExactPlanes(f, pitch, h), w, h, pitch)}
  }

  /** Byte `i` is one that a reader of pixel (x, y) looks at. */
  predicate OwnByte(f: Format, pitch: nat, h: nat, x: nat, y: nat, i: int) {
    match FamilyOf(f)
    case Unsupported => false
    case Words(n) => y * pitch + n * x <= i < y * pitch + n * x + n
    case _ => i == LumaAt(f, pitch, x, y) || i == CbAt(f, pitch, h, x, y) || i == CrAt(f, pitch, h, x, y)
  }

  /** Only bytes of pixels of the frame differ. */
  ghost predicate OnlyPixels(f: Format, s: seq<Byte>, t: seq<Byte>, pitch: nat, w: nat, h: nat) {
    |t| == |s| && forall i :: 0 <= i < |s| && t[i] != s[i] ==> exists x: nat, y: nat :: x < w && y < h && OwnByte(f, pitch, h, x, y, i)
  }

  lemma SameBytesOf(f: Format, pitch: nat, w: nat, h: nat, luma: Raster, chroma: Raster, ysub: nat, x: nat, y: nat)
    requires IsYuv(f) && x < w && y < h && w % 2 == 0 && (FamilyOf(f) != Packed ==> h % YuvOf(f).ysub == 0)
    requires ysub == if FamilyOf(f) == Packed then 1 else YuvOf(f).ysub
    requires luma == LumaPlane(f, ExactPlanes(f, pitch, h), w, h, pitch) && chroma == ChromaPlane(f, ExactPlanes(f, pitch, h), w, h, pitch)
    ensures ysub > 0 && SameBytes(f, pitch, w, h, x, y, luma, chroma, ysub)
  {
    YuvRows(f);
    match FamilyOf(f) {
      case Packed => SamePacked(f, pitch, w, h, x, y);
      case SemiPlanar => SameSemiPlanar(f, pitch, w, h, x, y);
      case _ => SamePlanar(f, pitch, w, h, x, y);
    }
  }

  lemma PlaneShapes(f: Format, pitch: nat, w: nat, h: nat, luma: Raster, chroma: Raster, ysub: nat)
    requires IsYuv(f) && ysub == if FamilyOf(f) == Packed then 1 else YuvOf(f).ysub
    requires luma == LumaPlane(f, ExactPlanes(f, pitch, h), w, h, pitch) && chroma == ChromaPlane(f, ExactPlanes(f, pitch, h), w, h, pitch)
    ensures 1 <= ysub <= 2 && |luma.lanes| == 1 && luma.cols == w && luma.rows == h
    ensures |chroma.lanes| == 2 && chroma.cols == w / 2 && chroma.rows == h / ysub
  {
    YuvRows(f);
  }

  lemma YuvByteOwned(f: Format, pitch: nat, h: nat, x: nat, y: nat, i: int)
    requires IsYuv(f) && (i == LumaAt(f, pitch, x, y) || i == CbAt(f, pitch, h, x, y) || i == CrAt(f, pitch, h, x, y))
    ensures OwnByte(f, pitch, h, x, y, i)
  {
  }

  lemma FirstOfBlock(c: nat, r: nat, w: nat, h: nat, ysub: nat)
    requires 1 <= ysub <= 2 && c < w / 2 && r < h / ysub
    ensures 2 * c < w && ysub * r < h && 2 * c / 2 == c && ysub * r / ysub == r
  {
  }

  /** A sample of either plane is a byte of some pixel. */
  lemma SampleOwned(f: Format, pitch: nat, w: nat, h: nat, luma: Raster, chroma: Raster, p: Raster, i: int) returns (x: nat, y: nat)
    requires IsYuv(f) && w % 2 == 0 && (FamilyOf(f) != Packed ==> h % YuvOf(f).ysub == 0)
    requires luma == LumaPlane(f, ExactPlanes(f, pitch, h), w, h, pitch) && chroma == ChromaPlane(f, ExactPlanes(f, pitch, h), w, h, pitch)
    requires (p == luma || p == chroma) && Covers(p, i)
    ensures x < w && y < h && OwnByte(f, pitch, h, x, y, i)
  {
    var ysub := if FamilyOf(f) == Packed then 1 else YuvOf(f).ysub;
    PlaneShapes(f, pitch, w, h, luma, chroma, ysub);
    var l, c, r :| Cell(p, l, c, r) && At(p, l, c, r) == i;
    x, y := PixelOfSample(w, h, ysub, p == luma, c, r);
    SameBytesOf(f, pitch, w, h, luma, chroma, ysub, x, y);
    SampleByte(f, pitch, w, h, luma, chroma, ysub, p, l, c, r, x, y, i);
    YuvByteOwned(f, pitch, h, x, y, i);
  }

  lemma PixelOfSample(w: nat, h: nat, ysub: nat, luma: bool, c: nat, r: nat) returns (x: nat, y: nat)
    requires 1 <= ysub <= 2 && if luma then c < w && r < h else c < w / 2 && r < h / ysub
    ensures x < w && y < h && if luma then x == c && y == r else x / 2 == c && y / ysub == r
  {
    if luma {
      x, y := c, r;
    } else {
      FirstOfBlock(c, r, w, h, ysub);
      x, y := 2 * c, ysub * r;
    }
  }

  lemma SampleByte(f: Format, pitch: nat, w: nat, h: nat, luma: Raster, chroma: Raster, ysub: nat, p: Raster, l: int, c: int, r: int,
                   x: nat, y: nat, i: int)
    requires ysub > 0 && SameBytes(f, pitch, w, h, x, y, luma, chroma, ysub) && Cell(p, l, c, r) && At(p, l, c, r) == i
    requires (p == luma && x == c && y == r) || (p == chroma && x / 2 == c && y / ysub == r)
    ensures i == LumaAt(f, pitch, x, y) || i == CbAt(f, pitch, h, x, y) || i == CrAt(f, pitch, h, x, y)
  {
  }

  lemma WordOwned(f: Format, pitch: nat, w: nat, h: nat, n: nat, i: int) returns (x: nat, y: nat)
    requires FamilyOf(f) == Words(n) && Covers(PixelRaster(0, n, w, h, pitch), i)
    ensures x < w && y < h && OwnByte(f, pitch, h, x, y, i)
  {
    var p := PixelRaster(0, n, w, h, pitch);
    var l, c, r :| Cell(p, l, c, r) && At(p, l, c, r) == i;
    x, y := c, r;
    assert i == l + r * pitch + c * n && 0 <= l < n;
  }

  lemma OnlyPixelBytes(f: Format, s: seq<Byte>, t: seq<Byte>, pitch: nat, w: nat, h: nat)
    requires FamilyOf(f) != Unsupported && Whole(f, w, h) && OnlyIn(s, t, FrameRasters(f, pitch, w, h))
    ensures OnlyPixels(f, s, t, pitch, w, h)
  {
    forall i | 0 <= i < |s| && t[i] != s[i]
      ensures exists x: nat, y: nat :: x < w && y < h && OwnByte(f, pitch, h, x, y, i)
    {
      var p :| p in FrameRasters(f, pitch, w, h) && Covers(p, i);
      var x, y := CoveredOwned(f, pitch, w, h, p, i);
    }
  }

  lemma CoveredOwned(f: Format, pitch: nat, w: nat, h: nat, p: Raster, i: int) returns (x: nat, y: nat)
    requires FamilyOf(f) != Unsupported && Whole(f, w, h) && p in FrameRasters(f, pitch, w, h) && Covers(p, i)
    ensures x < w && y < h && OwnByte(f, pitch, h, x, y, i)
  {
    if FamilyOf(f).Words? {
      x, y := WordOwned(f, pitch, w, h, FamilyOf(f).bytes, i);
    } else {
      var planes := ExactPlanes(f, pitch, h);
      x, y := SampleOwned(f, pitch, w, h, LumaPlane(f, planes, w, h, pitch), ChromaPlane(f, planes, w, h, pitch), p, i);
    }
  }

  lemma DrawnShows(f: Format, s: seq<Byte>, t: seq<Byte>, pitch: nat, w: nat, h: nat, pattern: Pattern)
    requires FamilyOf(f) != Unsupported && Whole(f, w, h) && pattern != Plain
    requires Ready(f, ExactPlanes(f, pitch, h), w, h, pitch, |t|)
    requires Drawn(f, ExactPlanes(f, pitch, h), w, h, pitch, s, t, pattern)
    ensures Shows(f, t, pitch, w, h, pattern) && OnlyPixels(f, s, t, pitch, w, h)
  {
    OnlyPixelBytes(f, s, t, pitch, w, h);
    if FamilyOf(f).Words? {
      var n := FamilyOf(f).bytes;
      PixelsLaid(0, n, w, h, pitch, |t|);
      WordsShow(f, t, pitch, w, h, pattern, PictureOf(pattern, f, w, h), PixelBytes(RgbOf(f)));
    } else {
      YuvRows(f);
      if FamilyOf(f) == Packed {
        PackedLaid(YuvOf(f).order, 0, w, h, pitch, |t|);
      }
      FrameShows(f, s, t, pitch, w, h, pattern, PictureOf(pattern, f, w, h), LumaByte(), ChromaBytes(), SiteOf(pattern, f));
    }
  }

  /** The formats with a row in the table are those with a layout. */
  lemma KnownFormats(f: Format)
    ensures Info(f).None? <==> FamilyOf(f) == Unsupported
  {
    if FamilyOf(f) == Unsupported {
      KnownLayouts(f);
    } else if FamilyOf(f).Words? {
      RowsFitPixels(f);
    } else {
      YuvRows(f);
    }
  }

  lemma KnownLayouts(f: Format)
    ensures FamilyOf(f) == Unsupported <==> f.Other?
  {
  }

  /** The arguments of util_fill_pattern describe a frame inside the buffer. */
  ghost predicate UtilReady(f: Format, pattern: Pattern, planes: seq<nat>, w: nat, h: nat, stride: nat, size: int) {
    && |planes| == 3
    && (pattern == Plain ==> planes[0] + U32(stride * h) <= size)
    && (pattern != Plain ==> Fillable(f, w, h, pattern))
    && (pattern != Plain && !(w == 0 || h == 0 || stride == 0) ==> Ready(f, planes, w, h, stride, size))
  }

  /** The effect of util_fill_pattern on the bytes of the buffer; an unknown format leaves it alone. */
  ghost predicate Effect(s: seq<Byte>, t: seq<Byte>, f: Format, pattern: Pattern, planes: seq<nat>, w: nat, h: nat, stride: nat)
    requires |planes| == 3
  {
    if FamilyOf(f) == Unsupported then t == s
    else if pattern == Plain then
      |t| == |s| && forall i :: 0 <= i < |t| ==> t[i] == if planes[0] <= i < planes[0] + U32(stride * h) then 0x77 else s[i]
    else if w == 0 || h == 0 || stride == 0 then t == s
    else Drawn(f, planes, w, h, stride, s, t, pattern)
  }

  /** util_fill_pattern, wherever the planes are. */
  method UtilFillPattern(mem: array<Byte>, f: Format, pattern: Pattern, planes: seq<nat>, w: nat, h: nat, stride: nat)
    requires |planes| == 3 && (FamilyOf(f) != Unsupported ==> UtilReady(f, pattern, planes, w, h, stride, mem.Length))
    modifies mem
    ensures Effect(old(mem[..]), mem[..], f, pattern, planes, w, h, stride)
  {
    KnownFormats(f);
    if Info(f).None? {
      return;
    }
    match pattern {
      case Plain => FillPlain(mem, planes[0], h, stride);
      case Tiles => FillTiles(mem, f, planes, w, h, stride);
      case Bars => FillSmpte(mem, f, planes, w, h, stride);
    }
  }

  /** fill_plain */
  method FillPlain(mem: array<Byte>, base: nat, h: nat, stride: nat)
    requires base + U32(stride * h) <= mem.Length
    modifies mem
    ensures forall i :: 0 <= i < mem.Length ==> mem[i] == if base <= i < base + U32(stride * h) then 0x77 else old(mem[i])
  {
    var n := U32(stride * h);
    forall i | base <= i < base + n {
      mem[i] := 0x77;
    }
  }

  /** What fill_pattern leaves in the buffer of bo_create, for a reader of the format. */
  ghost predicate Filled(s: seq<Byte>, t: seq<Byte>, f: Format, pattern: Pattern, w: nat, h: nat, stride: nat) {
    if FamilyOf(f) == Unsupported then t == s
    else if pattern == Plain then
      |t| == |s| && forall i :: 0 <= i < |t| ==> t[i] == if i < stride * h then 0x77 else s[i]
    else if w == 0 || h == 0 || stride == 0 then t == s
    else Shows(f, t, stride, w, h, pattern) && OnlyPixels(f, s, t, stride, w, h)
  }

  /** On the planes of the exact layout the effect is what a reader sees. */
  lemma EffectShows(s: seq<Byte>, t: seq<Byte>, f: Format, pattern: Pattern, planes: seq<nat>, w: nat, h: nat, stride: nat)
    requires FamilyOf(f) != Unsupported ==> UtilReady(f, pattern, planes, w, h, stride, |t|)
    requires |planes| == 3 && Effect(s, t, f, pattern, planes, w, h, stride)
    requires pattern == Plain ==> planes[0] == 0 && U32(stride * h) == stride * h
    requires pattern != Plain && !(w == 0 || h == 0 || stride == 0) ==> planes == ExactPlanes(f, stride, h)
    ensures Filled(s, t, f, pattern, w, h, stride)
  {
    if FamilyOf(f) != Unsupported && pattern != Plain && !(w == 0 || h == 0 || stride == 0) {
      DrawnShows(f, s, t, stride, w, h, pattern);
    }
  }

  /** fill_pattern, into the mapping `mem` of a buffer that bo_create made for this format and size. */
  method FillPattern(mem: array<Byte>, mapped: bool, f: Format, bo: Bo, w: nat, h: nat, pattern: Pattern)
    requires FamilyOf(f) != Unsupported ==> Backed(f, bo, w, h) && mem.Length == bo.size && (pattern != Plain ==> Fillable(f, w, h, pattern))
    modifies mem
    ensures !mapped ==> mem[..] == old(mem[..])
    ensures mapped ==> Filled(old(mem[..]), mem[..], f, pattern, w, h, bo.pitch)
  {
    if !mapped {
      return;
    }
    ghost var start := mem[..];
    var planes := PlanePointers(f, bo.pitch, h);
    if FamilyOf(f) != Unsupported {
      PlainRoom(f, bo, w, h);
      if pattern != Plain && 0 < w && 0 < h {
        FrameRoom(f, bo, w, h, pattern, planes);
      }
    }
    UtilFillPattern(mem, f, pattern, planes, w, h, U32(bo.pitch));
    if FamilyOf(f) != Unsupported {
      EffectShows(start, mem[..], f, pattern, planes, w, h, bo.pitch);
    }
  }

  lemma FrameRoom(f: Format, bo: Bo, w: nat, h: nat, pattern: Pattern, planes: seq<nat>)
    requires Backed(f, bo, w, h) && pattern != Plain && Fillable(f, w, h, pattern) && 0 < w && 0 < h
    requires planes == Pointers(f, bo.pitch, h)
    ensures UtilReady(f, pattern, planes, w, h, bo.pitch, bo.size) && planes == ExactPlanes(f, bo.pitch, h)
  {
    BackedIsReady(f, bo, w, h);
    if IsYuv(f) && FamilyOf(f) != Packed {
      SubsamplingOf(f);
    }
    PointersExact(f, bo.pitch, h);
  }

  lemma PlainRoom(f: Format, bo: Bo, w: nat, h: nat)
    requires Backed(f, bo, w, h)
    ensures U32(bo.pitch) == bo.pitch && U32(bo.pitch * h) == bo.pitch * h <= bo.size
  {
    VirtualHeights(f, h);
    FirstPlane(bo.pitch, h, VirtualHeight(f, h));
    MulMono(h, VirtualHeight(f, h), bo.pitch);
  }

  /** Starts of the planes as fill_pattern computes them again: its height is a 64-bit size_t, so the size of two chroma
      planes is halved before it is cut to 32 bits, where bo_create cuts it first. */
  function Pointers(f: Format, pitch: nat, h: nat): (planes: seq<nat>)
    ensures |planes| == 3
  {
    var p := U32(pitch);
    match FamilyOf(f)
    case SemiPlanar => [0, U32(p * h), 0]
    case Planar => [0, U32(p * h), U32(U32(p * h) + p / 2 * h / 2)]
    case _ => [0, 0, 0]
  }

  lemma ThirdPlanes(f: Format, pitch: nat, h: nat, first: nat, a: nat)
    requires FamilyOf(f) == Planar && first == U32(U32(pitch) * h) && a == U32(pitch) / 2 * h
    ensures Pointers(f, pitch, h)[2] == U32(first + a / 2) && PlaneLayout(f, pitch, h)[2].0 == U32(first + U32(a) / 2)
  {
  }

  /** The two computations of the third plane agree exactly when the size of two chroma planes is an even number of
      whole turns of 2^32 and a remainder. */
  lemma ThirdPlaneAgrees(f: Format, pitch: nat, h: nat)
    requires FamilyOf(f) == Planar
    ensures Pointers(f, pitch, h)[2] == PlaneLayout(f, pitch, h)[2].0 <==> U32(pitch) / 2 * h / 0x1_0000_0000 % 2 == 0
  {
    var first, a := U32(U32(pitch) * h), U32(pitch) / 2 * h;
    ThirdPlanes(f, pitch, h, first, a);
    MulMono(0, U32(pitch) / 2, h);
    HalfTurns(first, a, a / 0x1_0000_0000, U32(a));
  }

  /** They differ for a luma plane of 8 GiB: 131072 bytes by 65536 rows. */
  lemma ThirdPlanesDiffer()
    ensures Pointers(YUV420, 0x2_0000, 0x1_0000)[2] == 0x8000_0000
    ensures PlaneLayout(YUV420, 0x2_0000, 0x1_0000)[2].0 == 0
  {
    assert 0x2_0000 * 0x1_0000 == 2 * 0x1_0000_0000;
    ThirdPlanes(YUV420, 0x2_0000, 0x1_0000, 0, 0x1_0000_0000);
  }

  lemma HalfTurns(first: nat, a: nat, q: nat, u: nat)
    requires a == q * 0x1_0000_0000 + u
    ensures U32(first + a / 2) == U32(first + u / 2) <==> q % 2 == 0
  {
    assert a / 2 == q * 0x8000_0000 + u / 2;
  }

  lemma ChromaSums(pitch: nat, h: nat, first: nat, a: nat, b: nat)
    requires h % 2 == 0 && pitch * (h + h / 2) < 0x1_0000_0000
    requires first == pitch * h && a == pitch / 2 * h && b == pitch / 2 * (h / 2)
    ensures U32(first + a / 2) == first + b
  {
    HalfPlane(pitch, h);
  }

  lemma PlanarPointersExact(f: Format, pitch: nat, h: nat)
    requires Addressable(f, pitch, h) && FamilyOf(f) == Planar && h % 2 == 0
    ensures Pointers(f, pitch, h) == ExactPlanes(f, pitch, h)
  {
    VirtualHeights(f, h);
    FirstPlane(pitch, h, VirtualHeight(f, h));
    var first, a, b := pitch * h, pitch / 2 * h, pitch / 2 * (h / 2);
    ChromaSums(pitch, h, first, a, b);
    ThirdPlanes(f, pitch, h, first, a);
    assert Pointers(f, pitch, h) == [0, first, first + b];
  }

  /** Without wrap-around the pointers are those of the exact layout. */
  lemma PointersExact(f: Format, pitch: nat, h: nat)
    requires Addressable(f, pitch, h)
    requires IsYuv(f) && FamilyOf(f) != Packed && f != NV16 && f != NV61 ==> h % 2 == 0
    ensures Pointers(f, pitch, h) == ExactPlanes(f, pitch, h)
  {
    if FamilyOf(f) == Planar {
      PlanarPointersExact(f, pitch, h);
    } else if FamilyOf(f) == SemiPlanar {
      VirtualHeights(f, h);
      FirstPlane(pitch, h, VirtualHeight(f, h));
    }
  }

  /** The plane pointers of fill_pattern, relative to the mapping. */
  method PlanePointers(f: Format, boPitch: nat, h: nat) returns (planes: seq<nat>)
    ensures planes == Pointers(f, boPitch, h)
    ensures Addressable(f, boPitch, h) && (IsYuv(f) && FamilyOf(f) != Packed && f != NV16 && f != NV61 ==> h % 2 == 0) ==>
      planes == ExactPlanes(f, boPitch, h)
  {
    if Addressable(f, boPitch, h) && (IsYuv(f) && FamilyOf(f) != Packed && f != NV16 && f != NV61 ==> h % 2 == 0) {
      PointersExact(f, boPitch, h);
    }
    planes := [0, 0, 0];
    var pitch := U32(boPitch);
    if FamilyOf(f) == SemiPlanar {
      planes := [0, U32(pitch * h), 0];
    } else if FamilyOf(f) == Planar {
      var first := U32(pitch * h);
      planes := [0, first, U32(first + pitch / 2 * h / 2)];
    }
  }

  // ----- one image, many layouts -----

  /** The formats share chroma between the same pixels. */
  predicate SameSubsampling(f: Format, g: Format) {
    IsYuv(f) && IsYuv(g) && (FamilyOf(f) == Packed <==> FamilyOf(g) == Packed) &&
    (FamilyOf(f) != Packed ==> YuvOf(f).ysub == YuvOf(g).ysub)
  }

  lemma PixelSeen(f: Format, s: seq<Byte>, pitch: nat, w: nat, h: nat, pattern: Pattern, pic: Picture, site: Site, x: nat, y: nat)
    requires IsYuv(f) && pattern != Plain && x < w && y < h && Shows(f, s, pitch, w, h, pattern)
    requires pic == PictureOf(pattern, f, w, h) && site == SiteOf(pattern, f)
    ensures InBuffer(f, |s|, pitch, h, x, y) && DecodeYuv(f, s, pitch, h, x, y) == Seen(pic, LumaByte(), ChromaBytes(), site, x, y)
  {
    assert ShowsYuv(f, s, pitch, w, h, pic, LumaByte(), ChromaBytes(), site);
  }

  /** What a reader of a YUV format finds is the BT.601 conversion of the picture: the luma of the pixel itself, and the chroma
      of the pixel that its block takes its chroma from, Cb as U and Cr as V. */
  lemma DecodesConverted(f: Format, s: seq<Byte>, pitch: nat, w: nat, h: nat, pattern: Pattern, pic: Picture, site: Site, x: nat, y: nat)
    requires IsYuv(f) && pattern != Plain && x < w && y < h && Shows(f, s, pitch, w, h, pattern)
    requires pic == PictureOf(pattern, f, w, h) && site == SiteOf(pattern, f)
    ensures InBuffer(f, |s|, pitch, h, x, y) && Converted(pic(x, y), SitePixel(pic, site, x, y), DecodeYuv(f, s, pitch, h, x, y))
  {
    AllYuvEightBit(pattern, f, w, h, pic);
    PixelSeen(f, s, pitch, w, h, pattern, pic, site, x, y);
    SeenConverted(pic, site, x, y);
  }

  /** The colour that the chroma of a pixel's block is taken from. */
  function SitePixel(pic: Picture, site: Site, x: nat, y: nat): Rgba
    requires site.xsub > 0 && site.ysub > 0
  {
    pic(site.xsub * (x / site.xsub) + site.dx, site.ysub * (y / site.ysub) + site.dy)
  }

  /** `yuv` has the luma of `c` and the chroma of `d`. */
  predicate Converted(c: Rgba, d: Rgba, yuv: Yuv) {
    EightBit(c) && EightBit(d) && yuv == Yuv(MakeYuv(c).y, MakeYuv(d).u, MakeYuv(d).v)
  }

  lemma SeenConverted(pic: Picture, site: Site, x: nat, y: nat)
    requires site.xsub > 0 && site.ysub > 0 && AllEightBit(pic)
    ensures Converted(pic(x, y), SitePixel(pic, site, x, y), Seen(pic, LumaByte(), ChromaBytes(), site, x, y))
  {
  }

  /** Only the family and the vertical subsampling of a YUV format decide the picture and the chroma site. */
  lemma SourceOf(f: Format, pattern: Pattern, w: nat, h: nat, packed: bool, ysub: nat)
    requires IsYuv(f) && pattern != Plain && packed == (FamilyOf(f) == Packed) && (!packed ==> ysub == YuvOf(f).ysub)
    ensures PictureOf(pattern, f, w, h) ==
      if pattern == Bars then Smpte(YuvBars(), w, h) else if packed then Paired(TilesYuv(w)) else TilesYuv(w)
    ensures SiteOf(pattern, f) == if packed then Site(2, 1, 0, 0) else Site(2, ysub, if pattern == Bars then 0 else 1, ysub - 1)
  {
  }

  /** Interleaved, swapped or in separate planes: two formats with the same subsampling show the same pixels. */
  lemma OneImage(f: Format, s: seq<Byte>, pitch: nat, g: Format, t: seq<Byte>, pitch': nat, w: nat, h: nat, pattern: Pattern,
                 x: nat, y: nat)
    requires SameSubsampling(f, g) && pattern != Plain && x < w && y < h
    requires Shows(f, s, pitch, w, h, pattern) && Shows(g, t, pitch', w, h, pattern)
    ensures InBuffer(f, |s|, pitch, h, x, y) && InBuffer(g, |t|, pitch', h, x, y)
    ensures DecodeYuv(f, s, pitch, h, x, y) == DecodeYuv(g, t, pitch', h, x, y)
  {
    var pic, site := PictureOf(pattern, f, w, h), SiteOf(pattern, f);
    var packed := FamilyOf(f) == Packed;
    SourceOf(f, pattern, w, h, packed, YuvOf(f).ysub);
    SourceOf(g, pattern, w, h, packed, YuvOf(f).ysub);
    PixelSeen(f, s, pitch, w, h, pattern, pic, site, x, y);
    PixelSeen(g, t, pitch', w, h, pattern, pic, site, x, y);
  }

  lemma SubsamplingOf(f: Format)
    requires IsYuv(f)
    ensures FamilyOf(f) == Packed <==> f in {UYVY, VYUY, YUYV, YVYU}
    ensures FamilyOf(f) != Packed ==> (YuvOf(f).ysub == 1 <==> f in {NV16, NV61})
    ensures FamilyOf(f) != Packed ==> (YuvOf(f).ysub == 2 <==> f in {NV12, NV21, YUV420, YVU420})
  {
  }

  /** The three classes of formats that show one image. */
  lemma Subsamplings(f: Format, g: Format)
    requires IsYuv(f) && IsYuv(g)
    ensures SameSubsampling(f, g) <==>
      (f in {UYVY, VYUY, YUYV, YVYU} && g in {UYVY, VYUY, YUYV, YVYU}) ||
      (f in {NV12, NV21, YUV420, YVU420} && g in {NV12, NV21, YUV420, YVU420}) ||
      (f in {NV16, NV61} && g in {NV16, NV61})
  {
    SubsamplingOf(f);
    SubsamplingOf(g);
  }
}
