/** The YUV fills of the SMPTE and tile patterns. */
module YuvFill {
  import opened Bytes
  import opened Formats
  import opened Rasters
  import opened SmpteGeometry
  import opened SmpteFill
  import opened Pictures

  // ----- planar -----

  /** The luma and chroma samples have bytes of their own inside the buffer. */
  ghost predicate Laid(luma: Raster, chroma: Raster, size: int) {
    && Separate(luma) && Fits(luma, size)
    && Separate(chroma) && Fits(chroma, size)
    && Disjoint(luma, chroma) && Disjoint(chroma, luma)
  }

  function LumaRaster(yMem: nat, width: nat, height: nat, stride: nat): Raster {
    Raster([yMem], stride, 1, width, height)
  }

  function ChromaRaster(yuv: YuvInfo, uMem: nat, vMem: nat, width: nat, height: nat, stride: nat): Raster
    requires yuv.xsub > 0 && yuv.ysub > 0
  {
    Raster([uMem, vMem], stride * yuv.chromaStride / yuv.xsub, yuv.chromaStride, width / yuv.xsub, height / yuv.ysub)
  }

  /** After a fill the buffer shows `pic`, and only sample bytes have changed. */
  ghost predicate ShowsStored(s: seq<Byte>, t: seq<Byte>, luma: Raster, chroma: Raster,
                              pic: Picture, le: Encoding, ce: Encoding, site: Site) {
    && Painted(t, luma, Stored(pic, le, EVERY_PIXEL))
    && Painted(t, chroma, Stored(pic, ce, site))
    && OnlyIn(s, t, {luma, chroma})
  }

  ghost predicate ShowsPlanar(s: seq<Byte>, t: seq<Byte>, luma: Raster, chroma: Raster, pic: Picture, site: Site) {
    ShowsStored(s, t, luma, chroma, pic, LumaByte(), ChromaBytes(), site)
  }

  /** fill_smpte_yuv_planar */
  method FillSmpteYuvPlanar(mem: array<Byte>, yuv: YuvInfo, yMem: nat, uMem: nat, vMem: nat,
                            width: nat, height: nat, stride: nat)
    requires width == 0 || height == 0 || stride == 0 ||
      (yuv.xsub > 0 && yuv.ysub > 0 && width % yuv.xsub == 0 && height % yuv.ysub == 0 && Drawable(width) &&
       Narrow(width, height) && OffsetsExact(width, yuv.chromaStride) && stride * yuv.chromaStride < 0x1_0000_0000 &&
       Laid(LumaRaster(yMem, width, height, stride), ChromaRaster(yuv, uMem, vMem, width, height, stride), mem.Length))
    modifies mem
    ensures width == 0 || height == 0 || stride == 0 ==> mem[..] == old(mem[..])
    ensures !(width == 0 || height == 0 || stride == 0) ==>
      ShowsPlanar(old(mem[..]), mem[..], LumaRaster(yMem, width, height, stride),
                  ChromaRaster(yuv, uMem, vMem, width, height, stride),
                  Smpte(YuvBars(), width, height), Site(yuv.xsub, yuv.ysub, 0, yuv.ysub - 1))
  {
    if width == 0 || height == 0 || stride == 0 {
      return;
    }
    var cs, xsub, ysub := yuv.chromaStride, yuv.xsub, yuv.ysub;
    BarsValid(1);
    MulMono(0, stride, cs);
    SmptePasses(mem, YuvBars(), yMem, 1, uMem, vMem, cs, width, height, height / ysub, stride, U32(stride * cs) / xsub,
                Site(xsub, ysub, 0, ysub - 1),
                LumaRaster(yMem, width, height, stride), ChromaRaster(yuv, uMem, vMem, width, height, stride));
  }

  /** The luma pass and the chroma pass of an SMPTE fill. */
  method SmptePasses(mem: array<Byte>, t: Table, yMem: nat, yStep: nat, uMem: nat, vMem: nat, cs: nat,
                     width: nat, height: nat, chromaRows: nat, stride: nat, chromaStep: nat,
                     site: Site, ghost luma: Raster, ghost chroma: Raster)
    requires ValidTable(t) && site.xsub > 0 && site.ysub > 0 && site.dx == 0 && site.dy == site.ysub - 1
    requires width % site.xsub == 0 && height == site.ysub * chromaRows && Drawable(width)
    requires Narrow(width, height) && OffsetsExact(width, yStep) && OffsetsExact(width, cs)
    requires luma == Raster([yMem], stride, yStep, width, height)
    requires chroma == Raster([uMem, vMem], chromaStep, cs, width / site.xsub, chromaRows)
    requires Laid(luma, chroma, mem.Length)
    modifies mem
    ensures ShowsPlanar(old(mem[..]), mem[..], luma, chroma, Smpte(t, width, height), site)
  {
    ghost var start := mem[..];
    SmptePass(mem, [yMem], yStep, width, height, stride, LumaByte(), t, EVERY_PIXEL, luma);
    ghost var mid := mem[..];
    MulMono(1, site.ysub, chromaRows);
    SmptePass(mem, [uMem, vMem], cs, width, chromaRows, chromaStep, ChromaBytes(), t, site, chroma);
    PaintKeeps(mid, mem[..], luma, chroma, Stored(Smpte(t, width, height), LumaByte(), EVERY_PIXEL));
    OnlyInTrans(start, mid, mem[..], {luma}, {chroma});
    assert {luma} + {chroma} == {luma, chroma};
  }

  // ----- packed -----

  // `y_mem`, `c_mem + u` and `c_mem + v` of the packed fills, from the start of the buffer
  function LumaOffset(o: YuvOrder): nat { if o.lumaFirst then 0 else 1 }
  function UOffset(o: YuvOrder): nat { (if o.chromaFirst then 0 else 1) + if o.crFirst then 2 else 0 }
  function VOffset(o: YuvOrder): nat { (if o.chromaFirst then 0 else 1) + if o.cbFirst then 2 else 0 }

  /** Exactly one of each pair of order bits is set. */
  predicate PackedOrder(o: YuvOrder) {
    o.lumaFirst != o.chromaFirst && o.cbFirst != o.crFirst
  }

  /** Luma at every second byte; one U and one V in every group of four. */
  function PackedLuma(o: YuvOrder, base: nat, width: nat, height: nat, stride: nat): Raster {
    Raster([base + LumaOffset(o)], stride, 2, width, height)
  }

  function PackedChroma(o: YuvOrder, base: nat, width: nat, height: nat, stride: nat): Raster {
    Raster([base + UOffset(o), base + VOffset(o)], stride, 4, width / 2, height)
  }

  /** The luma and chroma bytes of the four packed orders never meet. */
  lemma PackedLaid(o: YuvOrder, base: nat, width: nat, height: nat, stride: nat, size: nat)
    requires PackedOrder(o)
    requires width % 2 == 0 && 2 * width <= stride && base + height * stride <= size
    ensures Laid(PackedLuma(o, base, width, height, stride), PackedChroma(o, base, width, height, stride), size)
  {
    var p, q := PackedLuma(o, base, width, height, stride), PackedChroma(o, base, width, height, stride);
    InterleavedSeparate(p, base);
    InterleavedSeparate(q, base);
    InterleavedFits(p, base, size);
    InterleavedFits(q, base, size);
    forall l, i, r, l', i', r' | Cell(p, l, i, r) && Cell(q, l', i', r')
      ensures At(p, l, i, r) != At(q, l', i', r')
    {
      PackedApart(stride, width, i, r, LumaOffset(o), i', r', q.lanes[l'] - base);
    }
  }

  lemma PackedApart(stride: nat, width: nat, i: nat, r: nat, d: nat, i': nat, r': nat, d': nat)
    requires width % 2 == 0 && 2 * width <= stride
    requires i < width && d < 2 && i' < width / 2 && d' < 4 && (d + d') % 2 == 1
    ensures d + r * stride + i * 2 != d' + r' * stride + i' * 4
  {
    if d + r * stride + i * 2 == d' + r' * stride + i' * 4 {
      RowUnique(stride, r, i * 2 + d, r', i' * 4 + d');
      assert false;
    }
  }

  /** fill_smpte_yuv_packed */
  method FillSmpteYuvPacked(mem: array<Byte>, yuv: YuvInfo, base: nat, width: nat, height: nat, stride: nat)
    requires PackedOrder(yuv.order)
    requires width == 0 || height == 0 || stride == 0 ||
      (width % 2 == 0 && Drawable(width) && Narrow(width, height) && 2 * width <= stride && base + height * stride <= mem.Length)
    modifies mem
    ensures width == 0 || height == 0 || stride == 0 ==> mem[..] == old(mem[..])
    ensures !(width == 0 || height == 0 || stride == 0) ==>
      ShowsPlanar(old(mem[..]), mem[..], PackedLuma(yuv.order, base, width, height, stride),
                  PackedChroma(yuv.order, base, width, height, stride), Smpte(YuvBars(), width, height), Site(2, 1, 0, 0))
  {
    if width == 0 || height == 0 || stride == 0 {
      return;
    }
    BarsValid(1);
    PackedPasses(mem, YuvBars(), yuv.order, base, width, height, stride);
  }

  /** The two passes of a packed fill; the order of the format gives the first byte of each. */
  method PackedPasses(mem: array<Byte>, t: Table, o: YuvOrder, base: nat, width: nat, height: nat, stride: nat)
    requires PackedOrder(o) && ValidTable(t)
    requires width % 2 == 0 && Drawable(width) && Narrow(width, height) && 2 * width <= stride && base + height * stride <= mem.Length
    modifies mem
    ensures ShowsPlanar(old(mem[..]), mem[..], PackedLuma(o, base, width, height, stride),
                        PackedChroma(o, base, width, height, stride), Smpte(t, width, height), Site(2, 1, 0, 0))
  {
    var yMem := if o.lumaFirst then base else base + 1;
    var cMem := if o.chromaFirst then base else base + 1;
    var u := if o.crFirst then 2 else 0;
    var v := if o.cbFirst then 2 else 0;
    PackedLaid(o, base, width, height, stride, mem.Length);
    SmptePasses(mem, t, yMem, 2, cMem + u, cMem + v, 4, width, height, height, stride, stride, Site(2, 1, 0, 0),
                PackedLuma(o, base, width, height, stride), PackedChroma(o, base, width, height, stride));
  }
}
