/** Buffer objects: the layout that bo_create gives a pixel format inside one dumb buffer. */
module Buffers {
  import opened Bytes
  import opened Formats
  import opened Rasters

  /** How the samples of a format are arranged. */
  datatype Family = Packed | SemiPlanar | Planar | Words(bytes: nat) | Unsupported

  function FamilyOf(f: Format): Family {
    match f
    case UYVY | VYUY | YUYV | YVYU => Packed
    case NV12 | NV21 | NV16 | NV61 => SemiPlanar
    case YUV420 | YVU420 => Planar
    case ARGB4444 | XRGB4444 | ABGR4444 | XBGR4444 | RGBA4444 | RGBX4444 | BGRA4444 | BGRX4444 => Words(2)
    case ARGB1555 | XRGB1555 | ABGR1555 | XBGR1555 | RGBA5551 | RGBX5551 | BGRA5551 | BGRX5551 => Words(2)
    case RGB565 | BGR565 => Words(2)
    case BGR888 | RGB888 => Words(3)
    case ARGB8888 | XRGB8888 | ABGR8888 | XBGR8888 | RGBA8888 | RGBX8888 | BGRA8888 | BGRX8888 => Words(4)
    case ARGB2101010 | XRGB2101010 | ABGR2101010 | XBGR2101010 => Words(4)
    case RGBA1010102 | RGBX1010102 | BGRA1010102 | BGRX1010102 => Words(4)
    case Other(_) => Unsupported
  }

  /** Formats with ten-bit channels. */
  predicate TenBit(f: Format) {
    match f
    case ARGB2101010 | XRGB2101010 | ABGR2101010 | XBGR2101010 => true
    case RGBA1010102 | RGBX1010102 | BGRA1010102 | BGRX1010102 => true
    case _ => false
  }

  /** What a row of the format table promises to the RGB fills. */
  predicate RowFits(f: Format) {
    Info(f).Some? && (Packable(Info(f).value.rgb) <==> !TenBit(f)) &&
    (!TenBit(f) && FamilyOf(f).Words? ==> Layout(Info(f).value.rgb, 8 * FamilyOf(f).bytes))
  }

  lemma RowsFit4444Low(f: Format)
    requires f in {ARGB4444, XRGB4444, ABGR4444, XBGR4444}
    ensures RowFits(f)
  {
  }

  lemma RowsFit4444High(f: Format)
    requires f in {RGBA4444, RGBX4444, BGRA4444, BGRX4444}
    ensures RowFits(f)
  {
  }

  lemma RowsFit1555(f: Format)
    requires f in {ARGB1555, XRGB1555, ABGR1555, XBGR1555}
    ensures RowFits(f)
  {
  }

  lemma RowsFit5551(f: Format)
    requires f in {RGBA5551, RGBX5551, BGRA5551, BGRX5551}
    ensures RowFits(f)
  {
  }

  lemma RowsFitNoAlpha(f: Format)
    requires f in {RGB565, BGR565, BGR888, RGB888}
    ensures RowFits(f)
  {
  }

  lemma RowsFit8888Low(f: Format)
    requires f in {ARGB8888, XRGB8888, ABGR8888, XBGR8888}
    ensures RowFits(f)
  {
  }

  lemma RowsFit8888High(f: Format)
    requires f in {RGBA8888, RGBX8888, BGRA8888, BGRX8888}
    ensures RowFits(f)
  {
  }

  lemma RowsFitTenBit(f: Format)
    requires TenBit(f)
    ensures RowFits(f)
  {
  }

  /** MAKE_RGBA has shift counts in range, and a layout inside the pixel, exactly for the RGB rows without ten-bit channels. */
  lemma RowsFitPixels(f: Format)
    requires FamilyOf(f).Words?
    ensures Info(f).Some?
    ensures Packable(Info(f).value.rgb) <==> !TenBit(f)
    ensures !TenBit(f) ==> Layout(Info(f).value.rgb, 8 * FamilyOf(f).bytes)
  {
    match f {
      case ARGB4444 | XRGB4444 | ABGR4444 | XBGR4444 => RowsFit4444Low(f);
      case RGBA4444 | RGBX4444 | BGRA4444 | BGRX4444 => RowsFit4444High(f);
      case ARGB1555 | XRGB1555 | ABGR1555 | XBGR1555 => RowsFit1555(f);
      case RGBA5551 | RGBX5551 | BGRA5551 | BGRX5551 => RowsFit5551(f);
      case RGB565 | BGR565 | BGR888 | RGB888 => RowsFitNoAlpha(f);
      case ARGB8888 | XRGB8888 | ABGR8888 | XBGR8888 => RowsFit8888Low(f);
      case RGBA8888 | RGBX8888 | BGRA8888 | BGRX8888 => RowsFit8888High(f);
      case _ => RowsFitTenBit(f);
    }
  }

  lemma YuvRows(f: Format)
    requires FamilyOf(f).Packed? || FamilyOf(f).SemiPlanar? || FamilyOf(f).Planar?
    ensures Info(f).Some? && Info(f).value.yuv.xsub == 2 && 1 <= Info(f).value.yuv.ysub <= 2
    ensures Info(f).value.yuv.order.cbFirst != Info(f).value.yuv.order.crFirst
    ensures FamilyOf(f).Packed? ==> Info(f).value.yuv.order.lumaFirst != Info(f).value.yuv.order.chromaFirst
    ensures FamilyOf(f).SemiPlanar? ==> Info(f).value.yuv.chromaStride == 2
    ensures FamilyOf(f).Planar? ==> Info(f).value.yuv.chromaStride == 1 && Info(f).value.yuv.ysub == 2
  {
  }

  function Bpp(f: Format): nat {
    match FamilyOf(f)
    case SemiPlanar => 8
    case Planar => 8
    case Packed => 16
    case Words(n) => 8 * n
    case Unsupported => 0
  }

  /** Rows of the dumb buffer that holds all planes of a frame of `height` rows. */
  function VirtualHeight(f: Format, height: nat): nat {
    match f
    case NV12 | NV21 | YUV420 | YVU420 => U32(height * 3) / 2
    case NV16 | NV61 => U32(height * 2)
    case _ => height
  }

  datatype Bo = Bo(handle: nat, pitch: nat, size: nat)

  /** What the kernel promises of a dumb buffer: rows hold the pixels, and all rows fit. */
  predicate DumbContract(width: nat, height: nat, bpp: nat, bo: Bo) {
    bo.pitch * 8 >= width * bpp && bo.size >= bo.pitch * height
  }

  /** Start and pitch of each plane, in 32-bit unsigned arithmetic. */
  function PlaneLayout(f: Format, pitch: nat, height: nat): (l: seq<(nat, nat)>)
    ensures |l| <= 3
  {
    var p := U32(pitch);
    match FamilyOf(f)
    case SemiPlanar => [(0, p), (U32(p * height), p)]
    case Planar =>
      var first := U32(p * height);
      [(0, p), (first, p / 2), (U32(first + U32(p / 2 * height) / 2), p / 2)]
    case Unsupported => []
    case _ => [(0, p)]
  }

  /** The kernel's answers to DRM_IOCTL_MODE_CREATE_DUMB, by width, height and bits per pixel. */
  type DumbIoctl = (nat, nat, nat) -> Option<Bo>

  /** Every buffer that the kernel grants honours the contract of the request. */
  ghost predicate Honest(dumb: DumbIoctl) {
    forall width, height, bpp :: dumb(width, height, bpp).Some? ==> DumbContract(width, height, bpp, dumb(width, height, bpp).value)
  }

  /** bo_create */
  method BoCreate(f: Format, width: nat, height: nat, dumb: DumbIoctl,
                  handles: array<nat>, pitches: array<nat>, offsets: array<nat>) returns (bo: Option<Bo>)
    requires handles.Length == 4 && pitches.Length == 4 && offsets.Length == 4
    requires handles != pitches && handles != offsets && pitches != offsets
    requires Honest(dumb)
    modifies handles, pitches, offsets
    ensures bo == if FamilyOf(f) == Unsupported then None else dumb(width, VirtualHeight(f, height), Bpp(f))
    ensures bo.Some? ==> DumbContract(width, VirtualHeight(f, height), Bpp(f), bo.value)
    ensures var l := if bo.Some? then PlaneLayout(f, bo.value.pitch, height) else [];
      && (forall i :: 0 <= i < |l| ==> offsets[i] == l[i].0 && pitches[i] == l[i].1 && handles[i] == bo.value.handle)
      && (forall i :: |l| <= i < 4 ==> offsets[i] == old(offsets[i]) && pitches[i] == old(pitches[i]) && handles[i] == old(handles[i]))
  {
    bo := RequestDumb(f, width, height, dumb);
    if bo.Some? {
      StorePlanes(f, height, bo.value, handles, pitches, offsets);
    }
  }

  /** The two switches that choose the bits per pixel and the height of the request. */
  method RequestDumb(f: Format, width: nat, height: nat, dumb: DumbIoctl) returns (bo: Option<Bo>)
    requires Honest(dumb)
    ensures bo == if FamilyOf(f) == Unsupported then None else dumb(width, VirtualHeight(f, height), Bpp(f))
    ensures bo.Some? ==> FamilyOf(f) != Unsupported && DumbContract(width, VirtualHeight(f, height), Bpp(f), bo.value)
  {
    var bpp := 0;
    match FamilyOf(f) {
      case SemiPlanar => bpp := 8;
      case Planar => bpp := 8;
      case Packed => bpp := 16;
      case Words(n) => bpp := 8 * n;
      case Unsupported => return None;
    }
    var virtualHeight := height;
    match f {
      case NV12 | NV21 | YUV420 | YVU420 => virtualHeight := U32(height * 3) / 2;
      case NV16 | NV61 => virtualHeight := U32(height * 2);
      case _ =>
    }
    bo := dumb(width, virtualHeight, bpp);
  }

  /** The last switch: handle, pitch and start of every plane. */
  method StorePlanes(f: Format, height: nat, b: Bo, handles: array<nat>, pitches: array<nat>, offsets: array<nat>)
    requires handles.Length == 4 && pitches.Length == 4 && offsets.Length == 4
    requires handles != pitches && handles != offsets && pitches != offsets && FamilyOf(f) != Unsupported
    modifies handles, pitches, offsets
    ensures var l := PlaneLayout(f, b.pitch, height);
      && (forall i :: 0 <= i < |l| ==> offsets[i] == l[i].0 && pitches[i] == l[i].1 && handles[i] == b.handle)
      && (forall i :: |l| <= i < 4 ==> offsets[i] == old(offsets[i]) && pitches[i] == old(pitches[i]) && handles[i] == old(handles[i]))
  {
    var family := FamilyOf(f);
    offsets[0] := 0;
    handles[0] := b.handle;
    pitches[0] := U32(b.pitch);
    if family == SemiPlanar {
      pitches[1] := pitches[0];
      offsets[1] := U32(pitches[0] * height);
      handles[1] := b.handle;
    } else if family == Planar {
      pitches[1] := pitches[0] / 2;
      offsets[1] := U32(pitches[0] * height);
      handles[1] := b.handle;
      pitches[2] := pitches[1];
      offsets[2] := U32(offsets[1] + U32(pitches[1] * height) / 2);
      handles[2] := b.handle;
    }
  }

  /** The computed start of the second plane is its true start exactly when the first plane is below 2^32 bytes. */
  lemma SecondPlaneExact(f: Format, pitch: nat, height: nat)
    requires FamilyOf(f) == SemiPlanar || FamilyOf(f) == Planar
    requires pitch < 0x1_0000_0000
    ensures PlaneLayout(f, pitch, height)[1].0 == pitch * height <==> pitch * height < 0x1_0000_0000
  {
  }

  /** The frame fits 32-bit layout arithmetic. */
  predicate Addressable(f: Format, pitch: nat, height: nat) {
    height * 3 < 0x1_0000_0000 && pitch < 0x1_0000_0000 && pitch * VirtualHeight(f, height) < 0x1_0000_0000
  }

  lemma VirtualHeights(f: Format, height: nat)
    requires height * 3 < 0x1_0000_0000
    ensures VirtualHeight(f, height) ==
      if f == NV16 || f == NV61 then 2 * height
      else if FamilyOf(f) == SemiPlanar || FamilyOf(f) == Planar then height + height / 2
      else height
  {
    assert U32(height * 3) == height * 3 && U32(height * 2) == 2 * height;
  }

  lemma FirstPlane(pitch: nat, height: nat, v: nat)
    requires height <= v && pitch < 0x1_0000_0000 && pitch * v < 0x1_0000_0000
    ensures U32(pitch) == pitch && U32(pitch * height) == pitch * height
  {
    MulMono(height, v, pitch);
    MulMono(0, height, pitch);
  }

  /** Without wrap-around the layout is the exact one; formats with one plane have it at byte 0. */
  lemma LayoutExact(f: Format, pitch: nat, height: nat)
    requires Addressable(f, pitch, height) && FamilyOf(f) != Unsupported
    requires FamilyOf(f) == SemiPlanar || FamilyOf(f) == Planar ==> f == NV16 || f == NV61 || height % 2 == 0
    ensures PlaneLayout(f, pitch, height) ==
      if FamilyOf(f) == SemiPlanar then [(0, pitch), (pitch * height, pitch)]
      else if FamilyOf(f) == Planar then [(0, pitch), (pitch * height, pitch / 2), (pitch * height + pitch / 2 * (height / 2), pitch / 2)]
      else [(0, pitch)]
  {
    VirtualHeights(f, height);
    FirstPlane(pitch, height, VirtualHeight(f, height));
    if FamilyOf(f) == Planar {
      HalfPlane(pitch, height);
    }
  }

  /** The bytes of all samples of a frame: one luma byte a pixel, and two chroma bytes for each pixel pair of every row or of
      every second row; or the bytes of a pixel word. */
  function SampleBytes(f: Format, width: nat, height: nat): nat {
    match f
    case UYVY | VYUY | YUYV | YVYU | NV16 | NV61 => width * height + 2 * (width / 2 * height)
    case NV12 | NV21 | YUV420 | YVU420 => width * height + 2 * (width / 2 * (height / 2))
    case _ => if FamilyOf(f).Words? then FamilyOf(f).bytes * (width * height) else 0
  }

  /** bo_create asks for exactly as many bits as the samples of the frame have. */
  lemma RequestTight(f: Format, width: nat, height: nat)
    requires FamilyOf(f) != Unsupported && height * 3 < 0x1_0000_0000
    requires !FamilyOf(f).Words? ==> width % 2 == 0
    requires f in {NV12, NV21, YUV420, YVU420} ==> height % 2 == 0
    ensures width * VirtualHeight(f, height) * Bpp(f) == 8 * SampleBytes(f, width, height)
  {
    VirtualHeights(f, height);
    match FamilyOf(f) {
      case Packed => PairBytes(width, height);
      case Words(n) => WordBytes(width, height, n);
      case _ =>
        if f == NV16 || f == NV61 {
          PairBytes(width, height);
          Twice(width, height);
        } else {
          HalfRows(width, height);
        }
    }
  }

  lemma PairBytes(w: nat, h: nat)
    requires w % 2 == 0
    ensures 2 * (w / 2 * h) == w * h
  {
    assert w == 2 * (w / 2);
  }

  lemma Twice(w: nat, h: nat)
    ensures w * (2 * h) == 2 * (w * h)
  {
  }

  lemma WordBytes(w: nat, h: nat, n: nat)
    ensures w * h * (8 * n) == 8 * (n * (w * h))
  {
  }

  lemma HalfRows(w: nat, h: nat)
    requires w % 2 == 0 && h % 2 == 0
    ensures w * (h + h / 2) == w * h + 2 * (w / 2 * (h / 2))
  {
    PairBytes(w, h / 2);
  }

  lemma HalfPlane(pitch: nat, height: nat)
    requires height % 2 == 0 && pitch * (height + height / 2) < 0x1_0000_0000
    ensures pitch / 2 * height == 2 * (pitch / 2 * (height / 2))
    ensures U32(pitch / 2 * height) / 2 == pitch / 2 * (height / 2)
    ensures U32(pitch * height + pitch / 2 * (height / 2)) == pitch * height + pitch / 2 * (height / 2)
    ensures pitch * height + 2 * (pitch / 2 * (height / 2)) <= pitch * (height + height / 2)
  {
    var k := height / 2;
    var q := pitch / 2;
    assert height == 2 * k && 2 * q <= pitch;
    assert q * height == 2 * (q * k);
    MulMono(2 * q, pitch, k);
    assert 2 * q * k == 2 * (q * k) && pitch * (height + k) == pitch * height + pitch * k;
    MulMono(0, q, k);
    MulMono(0, pitch, height);
    assert pitch * height >= 0;
  }
}
