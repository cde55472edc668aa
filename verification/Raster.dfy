module Bytes {
  type Byte = b: int | 0 <= b < 256

  /** Conversion to, and the result of every operation on, a 32-bit unsigned integer. */
  function U32(x: int): nat {
    x % 0x1_0000_0000
  }
}

/** Strided sample grids over a byte buffer.

    A `Raster` describes where the samples of one pass over a buffer live: sample `l` (a lane)
    of column `c` and row `r` is the byte at `lanes[l] + r * pitch + c * step`.  A luma plane has
    one lane, a pair of chroma samples has two, an n-byte pixel has n consecutive ones.  */
module Rasters {
  import opened Bytes

  datatype Raster = Raster(lanes: seq<nat>, pitch: nat, step: nat, cols: nat, rows: nat)

  predicate Cell(p: Raster, l: int, c: int, r: int) {
    0 <= l < |p.lanes| && 0 <= c < p.cols && 0 <= r < p.rows
  }

  function At(p: Raster, l: int, c: int, r: int): int
    requires 0 <= l < |p.lanes|
  {
    p.lanes[l] + r * p.pitch + c * p.step
  }

  /** Every sample lies inside a buffer of `n` bytes. */
  ghost predicate Fits(p: Raster, n: int) {
    forall l, c, r :: Cell(p, l, c, r) ==> 0 <= At(p, l, c, r) < n
  }

  /** No two samples share a byte. */
  ghost predicate Separate(p: Raster) {
    forall l, c, r, l', c', r' ::
      Cell(p, l, c, r) && Cell(p, l', c', r') && At(p, l, c, r) == At(p, l', c', r') ==>
        l == l' && c == c' && r == r'
  }

  /** The byte `i` belongs to some sample. */
  ghost predicate Covers(p: Raster, i: int) {
    exists l, c, r :: Cell(p, l, c, r) && At(p, l, c, r) == i
  }

  ghost predicate Disjoint(p: Raster, q: Raster) {
    forall l, c, r, l', c', r' ::
      Cell(p, l, c, r) && Cell(q, l', c', r') ==> At(p, l, c, r) != At(q, l', c', r')
  }

  /** `t` differs from `s` only in bytes that belong to one of the rasters. */
  ghost predicate OnlyIn(s: seq<Byte>, t: seq<Byte>, ps: set<Raster>) {
    && |s| == |t|
    && forall i :: 0 <= i < |s| && (forall p :: p in ps ==> !Covers(p, i)) ==> t[i] == s[i]
  }

  /** The sample an image shows in lane `l` of column `c` and row `r`. */
  type Image = (int, int, int) -> Byte

  predicate Before(c: int, r: int, c': int, r': int) {
    r < r' || (r == r' && c < c')
  }

  /** Every sample before column `c` of row `r`, row by row, shows the image. */
  ghost predicate PaintedUpTo(s: seq<Byte>, p: Raster, img: Image, c: int, r: int) {
    forall l, c', r' :: Cell(p, l, c', r') && Before(c', r', c, r) && 0 <= At(p, l, c', r') < |s| ==>
      s[At(p, l, c', r')] == img(l, c', r')
  }

  ghost predicate Painted(s: seq<Byte>, p: Raster, img: Image) {
    forall l, c, r :: Cell(p, l, c, r) && 0 <= At(p, l, c, r) < |s| ==> s[At(p, l, c, r)] == img(l, c, r)
  }

  /** Lane `k` of column `i` of `p` is the byte, and shows the sample, of lane `l` of column `c` of `q`. */
  ghost predicate SameSample(p: Raster, img: Image, k: int, i: int, q: Raster, img': Image, l: int, c: int, r: int) {
    Cell(p, k, i, r) && Cell(q, l, c, r) && At(p, k, i, r) == At(q, l, c, r) && img(k, i, r) == img'(l, c, r)
  }

  ghost predicate Shown(p: Raster, img: Image, q: Raster, img': Image, l: int, c: int, r: int) {
    exists k, i :: SameSample(p, img, k, i, q, img', l, c, r)
  }

  /** A raster all of whose samples are samples of a painted one is painted too. */
  lemma Transfer(s: seq<Byte>, p: Raster, img: Image, q: Raster, img': Image)
    requires Painted(s, p, img)
    requires forall l, c, r :: Cell(q, l, c, r) ==> Shown(p, img, q, img', l, c, r)
    ensures Painted(s, q, img')
  {
    forall l, c, r | Cell(q, l, c, r) && 0 <= At(q, l, c, r) < |s|
      ensures s[At(q, l, c, r)] == img'(l, c, r)
    {
      assert Shown(p, img, q, img', l, c, r);
      var k, i :| SameSample(p, img, k, i, q, img', l, c, r);
    }
  }

  // ----- arithmetic of rows -----

  lemma MulMono(a: int, b: int, k: int)
    requires a <= b && 0 <= k
    ensures a * k <= b * k
  {
  }

  /** A position inside a row and the row's number are determined by the byte offset. */
  lemma RowUnique(pitch: int, r: int, a: int, r': int, a': int)
    requires 0 <= a < pitch && 0 <= a' < pitch
    requires r * pitch + a == r' * pitch + a'
    ensures r == r' && a == a'
  {
    if r < r' {
      MulMono(r + 1, r', pitch);
      assert false;
    } else if r' < r {
      MulMono(r' + 1, r, pitch);
      assert false;
    }
  }

  /** Sample `c` of `cols` ends before byte `cols * step` of its row. */
  lemma ColumnBound(c: int, cols: int, step: int, d: int)
    requires 0 <= c < cols && 0 <= d < step
    ensures 0 <= c * step + d < cols * step
  {
    MulMono(0, c, step);
    MulMono(c + 1, cols, step);
  }

  /** Lanes interleaved within one step, in rows that do not run into each other. */
  ghost predicate Interleaved(p: Raster, base: int) {
    && (forall l :: 0 <= l < |p.lanes| ==> base <= p.lanes[l] < base + p.step)
    && (forall l, l' :: 0 <= l < l' < |p.lanes| ==> p.lanes[l] != p.lanes[l'])
    && p.cols * p.step <= p.pitch
  }

  lemma InterleavedSeparate(p: Raster, base: int)
    requires Interleaved(p, base)
    ensures Separate(p)
  {
    forall l, c, r, l', c', r' |
      Cell(p, l, c, r) && Cell(p, l', c', r') && At(p, l, c, r) == At(p, l', c', r')
      ensures l == l' && c == c' && r == r'
    {
      var d, d' := p.lanes[l] - base, p.lanes[l'] - base;
      ColumnBound(c, p.cols, p.step, d);
      ColumnBound(c', p.cols, p.step, d');
      RowUnique(p.pitch, r, c * p.step + d, r', c' * p.step + d');
      RowUnique(p.step, c, d, c', d');
    }
  }

  lemma InterleavedFits(p: Raster, base: int, n: int)
    requires Interleaved(p, base) && 0 <= base
    requires base + p.rows * p.pitch <= n
    ensures Fits(p, n)
  {
    forall l, c, r | Cell(p, l, c, r)
      ensures 0 <= At(p, l, c, r) < n
    {
      AtRange(p, base, l, c, r);
    }
  }

  /** Every sample of an interleaved raster lies in the bytes of its own rows. */
  lemma AtRange(p: Raster, base: int, l: int, c: int, r: int)
    requires Interleaved(p, base) && Cell(p, l, c, r)
    ensures base + r * p.pitch <= At(p, l, c, r) < base + (r + 1) * p.pitch
    ensures base <= At(p, l, c, r) < base + p.rows * p.pitch
  {
    ColumnBound(c, p.cols, p.step, p.lanes[l] - base);
    MulMono(0, r, p.pitch);
    MulMono(r + 1, p.rows, p.pitch);
  }

  /** Two rasters in disjoint byte ranges. */
  lemma RangesDisjoint(p: Raster, base: int, q: Raster, base': int)
    requires Interleaved(p, base) && Interleaved(q, base')
    requires base + p.rows * p.pitch <= base'
    ensures Disjoint(p, q) && Disjoint(q, p)
  {
    forall l, c, r, l', c', r' | Cell(p, l, c, r) && Cell(q, l', c', r')
      ensures At(p, l, c, r) != At(q, l', c', r')
    {
      AtRange(p, base, l, c, r);
      AtRange(q, base', l', c', r');
    }
  }

  /** Two full planes, one lane each, stacked without overlap and described as one raster. */
  lemma StackedPlanes(p: Raster, q: Raster, both: Raster)
    requires |p.lanes| == |q.lanes| == 1 && p.(lanes := q.lanes) == q
    requires both == p.(lanes := p.lanes + q.lanes)
    requires p.step == 1 && p.cols <= p.pitch
    requires p.lanes[0] + p.rows * p.pitch <= q.lanes[0] || q.lanes[0] + p.rows * p.pitch <= p.lanes[0]
    ensures Separate(both)
  {
    InterleavedSeparate(p, p.lanes[0]);
    InterleavedSeparate(q, q.lanes[0]);
    if p.lanes[0] <= q.lanes[0] {
      assert p.lanes[0] + p.rows * p.pitch <= q.lanes[0] by {
        MulMono(0, p.rows, p.pitch);
      }
      RangesDisjoint(p, p.lanes[0], q, q.lanes[0]);
    } else {
      assert q.lanes[0] + q.rows * q.pitch <= p.lanes[0] by {
        MulMono(0, p.rows, p.pitch);
      }
      RangesDisjoint(q, q.lanes[0], p, p.lanes[0]);
    }
    forall l, c, r, l', c', r' |
      Cell(both, l, c, r) && Cell(both, l', c', r') && At(both, l, c, r) == At(both, l', c', r')
      ensures l == l' && c == c' && r == r'
    {
      var a := if l == 0 then p else q;
      var b := if l' == 0 then p else q;
      assert At(a, 0, c, r) == At(b, 0, c', r');
      assert Cell(a, 0, c, r) && Cell(b, 0, c', r');
    }
  }

  // ----- painting one sample -----

  /** Writing one sample extends the painted part and touches nothing outside the raster. */
  lemma PaintStep(s: seq<Byte>, t: seq<Byte>, p: Raster, img: Image, c: int, r: int)
    requires Separate(p) && Fits(p, |s|) && |t| == |s|
    requires 0 <= c < p.cols && 0 <= r < p.rows
    requires PaintedUpTo(s, p, img, c, r)
    requires forall l :: Cell(p, l, c, r) ==> t[At(p, l, c, r)] == img(l, c, r)
    requires forall i :: 0 <= i < |s| && (forall l :: Cell(p, l, c, r) ==> At(p, l, c, r) != i) ==> t[i] == s[i]
    ensures PaintedUpTo(t, p, img, c + 1, r)
    ensures OnlyIn(s, t, {p})
  {
    forall l, c', r' | Cell(p, l, c', r') && Before(c', r', c + 1, r)
      ensures t[At(p, l, c', r')] == img(l, c', r')
    {
      if c' != c || r' != r {
        assert forall k :: Cell(p, k, c, r) ==> At(p, k, c, r) != At(p, l, c', r');
      }
    }
    forall i | 0 <= i < |s| && (forall q :: q in {p} ==> !Covers(q, i))
      ensures t[i] == s[i]
    {
      assert !Covers(p, i) by {
        assert p in {p};
      }
    }
  }

  lemma OnlyInTrans(s: seq<Byte>, t: seq<Byte>, u: seq<Byte>, ps: set<Raster>, qs: set<Raster>)
    requires OnlyIn(s, t, ps) && OnlyIn(t, u, qs)
    ensures OnlyIn(s, u, ps + qs)
  {
  }

  /** Painting a disjoint raster keeps what was painted before. */
  lemma PaintKeeps(s: seq<Byte>, t: seq<Byte>, p: Raster, q: Raster, img: Image)
    requires Painted(s, p, img) && OnlyIn(s, t, {q}) && Disjoint(p, q)
    ensures Painted(t, p, img)
  {
    forall l, c, r | Cell(p, l, c, r) && 0 <= At(p, l, c, r) < |t|
      ensures t[At(p, l, c, r)] == img(l, c, r)
    {
      assert !Covers(q, At(p, l, c, r));
    }
  }

  /** Store one sample: a byte, a pair of chroma bytes, or the bytes of one pixel word. */
  method PutSample(mem: array<Byte>, lanes: seq<nat>, off: nat, bytes: seq<Byte>,
                   ghost p: Raster, ghost img: Image, ghost c: nat, ghost r: nat, ghost start: seq<Byte>)
    requires lanes == p.lanes && |bytes| == |lanes| && off == r * p.pitch + c * p.step
    requires Separate(p) && Fits(p, mem.Length) && c < p.cols && r < p.rows
    requires forall l :: 0 <= l < |lanes| ==> bytes[l] == img(l, c, r)
    requires PaintedUpTo(mem[..], p, img, c, r) && OnlyIn(start, mem[..], {p})
    modifies mem
    ensures PaintedUpTo(mem[..], p, img, c + 1, r) && OnlyIn(start, mem[..], {p})
  {
    ghost var before := mem[..];
    assert forall l :: 0 <= l < |lanes| ==> Cell(p, l, c, r) && At(p, l, c, r) == lanes[l] + off;
    for l := 0 to |lanes|
      invariant forall k :: 0 <= k < l ==> mem[At(p, k, c, r)] == bytes[k]
      invariant forall i :: 0 <= i < mem.Length && (forall k :: Cell(p, k, c, r) ==> At(p, k, c, r) != i) ==> mem[i] == before[i]
    {
      assert Cell(p, l, c, r) && At(p, l, c, r) == lanes[l] + off;
      mem[lanes[l] + off] := bytes[l];
    }
    PaintStep(before, mem[..], p, img, c, r);
    OnlyInTrans(start, before, mem[..], {p}, {p});
    assert {p} + {p} == {p};
  }
}
