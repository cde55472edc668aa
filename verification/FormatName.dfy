/** Where the names of the RGB formats put their components. */
module FormatNames {
  import opened Formats
  import opened Buffers

  datatype Channel = Red | Green | Blue | Alpha | Unused

  /** The components that the name of an RGB format lists, from the most significant bit of the word down;
      a name of three has nothing in front. */
  function Channels(f: Format): (c: seq<Channel>)
    requires FamilyOf(f).Words?
    ensures |c| == 4
  {
    match f
    case ARGB4444 | ARGB1555 | ARGB8888 | ARGB2101010 => [Alpha, Red, Green, Blue]
    case XRGB4444 | XRGB1555 | XRGB8888 | XRGB2101010 => [Unused, Red, Green, Blue]
    case ABGR4444 | ABGR1555 | ABGR8888 | ABGR2101010 => [Alpha, Blue, Green, Red]
    case XBGR4444 | XBGR1555 | XBGR8888 | XBGR2101010 => [Unused, Blue, Green, Red]
    case RGBA4444 | RGBA5551 | RGBA8888 | RGBA1010102 => [Red, Green, Blue, Alpha]
    case RGBX4444 | RGBX5551 | RGBX8888 | RGBX1010102 => [Red, Green, Blue, Unused]
    case BGRA4444 | BGRA5551 | BGRA8888 | BGRA1010102 => [Blue, Green, Red, Alpha]
    case BGRX4444 | BGRX5551 | BGRX8888 | BGRX1010102 => [Blue, Green, Red, Unused]
    case RGB565 | RGB888 => [Unused, Red, Green, Blue]
    case BGR565 | BGR888 => [Unused, Blue, Green, Red]
  }

  /** Their lengths in bits. */
  function Lengths(f: Format): (n: seq<nat>)
    requires FamilyOf(f).Words?
    ensures |n| == 4
  {
    match f
    case ARGB4444 | XRGB4444 | ABGR4444 | XBGR4444 | RGBA4444 | RGBX4444 | BGRA4444 | BGRX4444 => [4, 4, 4, 4]
    case ARGB1555 | XRGB1555 | ABGR1555 | XBGR1555 => [1, 5, 5, 5]
    case RGBA5551 | RGBX5551 | BGRA5551 | BGRX5551 => [5, 5, 5, 1]
    case RGB565 | BGR565 => [0, 5, 6, 5]
    case BGR888 | RGB888 => [0, 8, 8, 8]
    case ARGB8888 | XRGB8888 | ABGR8888 | XBGR8888 | RGBA8888 | RGBX8888 | BGRA8888 | BGRX8888 => [8, 8, 8, 8]
    case ARGB2101010 | XRGB2101010 | ABGR2101010 | XBGR2101010 => [2, 10, 10, 10]
    case RGBA1010102 | RGBX1010102 | BGRA1010102 | BGRX1010102 => [10, 10, 10, 2]
  }

  /** The field of a component: above everything that the name lists after it; empty when the name does not list it. */
  function Field(f: Format, c: Channel): Component
    requires FamilyOf(f).Words?
  {
    var cs, n := Channels(f), Lengths(f);
    if cs[0] == c then Component(n[0], n[1] + n[2] + n[3])
    else if cs[1] == c then Component(n[1], n[2] + n[3])
    else if cs[2] == c then Component(n[2], n[3])
    else if cs[3] == c then Component(n[3], 0)
    else Component(0, 0)
  }

  /** The layout that the name describes. */
  function NamedRgb(f: Format): RgbInfo
    requires FamilyOf(f).Words?
  {
    RgbInfo(Field(f, Red), Field(f, Green), Field(f, Blue), Field(f, Alpha))
  }

  function WordBits(f: Format): nat
    requires FamilyOf(f).Words?
  {
    var n := Lengths(f);
    n[0] + n[1] + n[2] + n[3]
  }

  /** The row of the table has the fields that the name says, and the pixel has exactly the bits it lists. */
  predicate NamedLikeTable(f: Format) {
    && FamilyOf(f).Words? && Info(f).Some?
    && Info(f).value.rgb == NamedRgb(f)
    && 8 * FamilyOf(f).bytes == WordBits(f)
  }

  lemma NamedArgb4444(f: Format)
    requires f in {ARGB4444, XRGB4444, ABGR4444, XBGR4444}
    ensures NamedLikeTable(f)
  {
  }

  lemma NamedRgba4444(f: Format)
    requires f in {RGBA4444, RGBX4444, BGRA4444, BGRX4444}
    ensures NamedLikeTable(f)
  {
  }

  lemma NamedArgb1555(f: Format)
    requires f in {ARGB1555, XRGB1555, ABGR1555, XBGR1555}
    ensures NamedLikeTable(f)
  {
  }

  lemma NamedRgba5551(f: Format)
    requires f in {RGBA5551, RGBX5551, BGRA5551, BGRX5551}
    ensures NamedLikeTable(f)
  {
  }

  lemma NamedNoAlpha(f: Format)
    requires f in {RGB565, BGR565, BGR888, RGB888}
    ensures NamedLikeTable(f)
  {
  }

  lemma NamedArgb8888(f: Format)
    requires f in {ARGB8888, XRGB8888, ABGR8888, XBGR8888}
    ensures NamedLikeTable(f)
  {
  }

  lemma NamedRgba8888(f: Format)
    requires f in {RGBA8888, RGBX8888, BGRA8888, BGRX8888}
    ensures NamedLikeTable(f)
  {
  }

  lemma NamedArgb2101010(f: Format)
    requires f in {ARGB2101010, XRGB2101010, ABGR2101010, XBGR2101010}
    ensures NamedLikeTable(f)
  {
  }

  lemma NamedRgba1010102(f: Format)
    requires f in {RGBA1010102, RGBX1010102, BGRA1010102, BGRX1010102}
    ensures NamedLikeTable(f)
  {
  }

  /** Every RGB row of the table is the one that the name of its format describes. */
  lemma TableFollowsNames(f: Format)
    requires FamilyOf(f).Words?
    ensures NamedLikeTable(f)
  {
    match f {
      case ARGB4444 | XRGB4444 | ABGR4444 | XBGR4444 => NamedArgb4444(f);
      case RGBA4444 | RGBX4444 | BGRA4444 | BGRX4444 => NamedRgba4444(f);
      case ARGB1555 | XRGB1555 | ABGR1555 | XBGR1555 => NamedArgb1555(f);
      case RGBA5551 | RGBX5551 | BGRA5551 | BGRX5551 => NamedRgba5551(f);
      case RGB565 | BGR565 | BGR888 | RGB888 => NamedNoAlpha(f);
      case ARGB8888 | XRGB8888 | ABGR8888 | XBGR8888 => NamedArgb8888(f);
      case RGBA8888 | RGBX8888 | BGRA8888 | BGRX8888 => NamedRgba8888(f);
      case ARGB2101010 | XRGB2101010 | ABGR2101010 | XBGR2101010 => NamedArgb2101010(f);
      case _ => NamedRgba1010102(f);
    }
  }
}
