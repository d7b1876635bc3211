/** The subtitle compositor: regions of palette indices painted, clipped, into a flat bitmap. */
module Subtitle {
  import opened Words

  datatype Color = Color(r: byte, g: byte, b: byte, a: byte)

  const CLEAR := Color(0, 0, 0, 0)

  /** What a region's pixel pointer leads to: every byte that can be read relative to it. */
  datatype Pixels = Null | Memory(at: int -> byte)

  datatype Region = Region(left: int, top: int, width: int, height: int,
                           entry: int, clut: seq<Color>, p_buf: Pixels)

  datatype Picture = Picture(original_x: int, original_y: int, original_width: int, original_height: int,
                             regions: seq<Region>)

  datatype Shown = NoPicture | Show(pic: Picture)

  predicate ValidRegion(rgn: Region) {
    |rgn.clut| == 256
  }

  /** A palette index painted over a pixel: an index beyond the palette leaves it alone, a transparent
      colour changes only the alpha. */
  function Blend(rgn: Region, c: byte, under: Color): Color
    requires ValidRegion(rgn)
  {
    if c >= rgn.entry then under
    else if rgn.clut[c].a != 0 then rgn.clut[c]
    else under.(a := 0)
  }

  // ---------------------------------------------------------------- one axis of the clipping

  /** Where painting starts, what it skips in the source, and how many pixels it paints, along one axis:
      the part before 0 is skipped in the source, but the length is not shortened by it. */
  function Start(d: int): nat {
    if d < 0 then 0 else d
  }

  function Skip(d: int): nat {
    if d < 0 then -d else 0
  }

  function Extent(d: int, len: int, limit: int): int {
    if Start(d) + len > limit then limit - Start(d) else len
  }

  /** The colour of (x, y) after a region has been painted as the program paints it. */
  function Covered(rgn: Region, ox: int, oy: int, w: int, h: int, x: int, y: int, under: Color): Color
    requires ValidRegion(rgn)
  {
    var dx, dy := ox + rgn.left, oy + rgn.top;
    var u, v := x - Start(dx), y - Start(dy);
    if rgn.p_buf.Memory? && 0 <= u < Extent(dx, rgn.width, w) && 0 <= v < Extent(dy, rgn.height, h)
    then Blend(rgn, rgn.p_buf.at((Skip(dy) + v) * rgn.width + Skip(dx) + u), under)
    else under
  }

  /** The painter's fold: from a clear bitmap, each region over the ones before it. */
  function Painted(rs: seq<Region>, ox: int, oy: int, w: int, h: int, x: int, y: int): Color
    requires forall r :: r in rs ==> ValidRegion(r)
  {
    if rs == [] then CLEAR
    else
      var n := |rs| - 1;
      Covered(rs[n], ox, oy, w, h, x, y, Painted(rs[..n], ox, oy, w, h, x, y))
  }

  // ---------------------------------------------------------------- the flat bitmap

  /** The byte where pixel (x, y) begins, w pixels of four bytes to a row. */
  function At(w: nat, x: nat, y: nat): nat {
    y * (w * 4) + x * 4
  }

  lemma InBitmap(w: nat, h: nat, x: nat, y: nat)
    requires x < w && y < h
    ensures At(w, x, y) + 4 <= h * (w * 4)
  {
    assert (y + 1) * (w * 4) <= h * (w * 4);
  }

  lemma PixelsApart(w: nat, x: nat, y: nat, x': nat, y': nat)
    requires x < w && x' < w && (x, y) != (x', y')
    ensures At(w, x, y) + 4 <= At(w, x', y') || At(w, x', y') + 4 <= At(w, x, y)
  {
    if y < y' {
      assert (y + 1) * (w * 4) <= y' * (w * 4);
    } else if y' < y {
      assert (y' + 1) * (w * 4) <= y * (w * 4);
    }
  }

  class CTvSubtitle {
    const bmp_w: nat
    const bmp_h: nat
    const bmp_pitch: nat
    const buffer: array<byte>
    var sub_w: int
    var sub_h: int

    predicate Valid() {
      bmp_pitch == bmp_w * 4 && buffer.Length == bmp_h * bmp_pitch
    }

    constructor (bmp_width: nat, bmp_height: nat, buffer: array<byte>)
      requires buffer.Length == bmp_height * (bmp_width * 4)
      ensures Valid() && bmp_w == bmp_width && bmp_h == bmp_height && this.buffer == buffer
      ensures sub_w == 720 && sub_h == 576
    {
      bmp_w, bmp_h, bmp_pitch := bmp_width, bmp_height, bmp_width * 4;
      this.buffer := buffer;
      sub_w, sub_h := 720, 576;
    }

    function PixelAt(x: nat, y: nat): Color
      requires Valid() && x < bmp_w && y < bmp_h
      reads buffer
    {
      InBitmap(bmp_w, bmp_h, x, y);
      var i := At(bmp_w, x, y);
      Color(buffer[i], buffer[i + 1], buffer[i + 2], buffer[i + 3])
    }

    /** Red, green, blue and alpha stand in four bytes, pixel by pixel and row by row. */
    lemma PixelBytes(x: nat, y: nat)
      requires Valid() && x < bmp_w && y < bmp_h
      ensures var o := 4 * (y * bmp_w + x);
              && o + 4 <= buffer.Length
              && PixelAt(x, y) == Color(buffer[o], buffer[o + 1], buffer[o + 2], buffer[o + 3])
    {
      InBitmap(bmp_w, bmp_h, x, y);
      assert At(bmp_w, x, y) == 4 * (y * bmp_w + x);
    }

    /** Clears the bitmap row by row. */
    method ClearBitmap()
      requires Valid()
      modifies buffer
      ensures forall x, y :: 0 <= x < bmp_w && 0 <= y < bmp_h ==> PixelAt(x, y) == CLEAR
    {
      var ptr := 0;
      var y := bmp_h;
      while y > 0
        invariant 0 <= y <= bmp_h && ptr == (bmp_h - y) * bmp_pitch
        invariant forall i :: 0 <= i < ptr ==> buffer[i] == 0
      {
        RowFits(bmp_h, bmp_h - y, bmp_pitch);
        forall i | ptr <= i < ptr + bmp_pitch {
          buffer[i] := 0;
        }
        y := y - 1;
        ptr := ptr + bmp_pitch;
      }
      forall x, y | 0 <= x < bmp_w && 0 <= y < bmp_h ensures PixelAt(x, y) == CLEAR {
        InBitmap(bmp_w, bmp_h, x, y);
      }
    }

    lemma RowFits(h: nat, row: nat, pitch: nat)
      requires row < h
      ensures row * pitch + pitch <= h * pitch
    {
      assert (row + 1) * pitch <= h * pitch;
    }

    /** Paints one source byte at the pixel that starts at dst; only that pixel changes. */
    method PutPixel(rgn: Region, c: byte, dst: nat, ghost x: nat, ghost y: nat) returns (next: nat)
      requires Valid() && ValidRegion(rgn)
      requires x < bmp_w && y < bmp_h && dst == At(bmp_w, x, y)
      modifies buffer
      ensures next == dst + 4
      ensures forall x', y' :: 0 <= x' < bmp_w && 0 <= y' < bmp_h ==>
                PixelAt(x', y') == if x' == x && y' == y then Blend(rgn, c, old(PixelAt(x, y)))
                                   else old(PixelAt(x', y'))
    {
      InBitmap(bmp_w, bmp_h, x, y);
      next := dst;
      if c < rgn.entry {
        if rgn.clut[c].a != 0 {
          buffer[next] := rgn.clut[c].r;
          buffer[next + 1] := rgn.clut[c].g;
          buffer[next + 2] := rgn.clut[c].b;
          next := next + 3;
        } else {
          next := next + 3;
        }
        buffer[next] := rgn.clut[c].a;
        next := next + 1;
      } else {
        next := next + 4;
      }
      forall x', y' | 0 <= x' < bmp_w && 0 <= y' < bmp_h
        ensures PixelAt(x', y') == if x' == x && y' == y then Blend(rgn, c, old(PixelAt(x, y)))
                                   else old(PixelAt(x', y'))
      {
        if (x, y) != (x', y') {
          PixelsApart(bmp_w, x, y, x', y');
        }
      }
    }

    /** One row of a region: n source bytes from src on, painted from dst on. */
    method BlitRow(rgn: Region, src: int, dst: nat, n: nat, ghost dx: nat, ghost y: nat)
      requires Valid() && ValidRegion(rgn) && rgn.p_buf.Memory?
      requires dx + n <= bmp_w && y < bmp_h && dst == At(bmp_w, dx, y)
      modifies buffer
      ensures forall x', y' :: 0 <= x' < bmp_w && 0 <= y' < bmp_h ==>
                PixelAt(x', y') == if y' == y && dx <= x' < dx + n
                                   then Blend(rgn, rgn.p_buf.at(src + (x' - dx)), old(PixelAt(x', y')))
                                   else old(PixelAt(x', y'))
    {
      hide PixelAt, Blend;
      var s, d, size := src, dst, n;
      while size > 0
        invariant 0 <= size <= n && s == src + (n - size) && d == At(bmp_w, dx + (n - size), y)
        invariant forall x', y' :: 0 <= x' < bmp_w && 0 <= y' < bmp_h ==>
                    PixelAt(x', y') == if y' == y && dx <= x' < dx + (n - size)
                                       then Blend(rgn, rgn.p_buf.at(src + (x' - dx)), old(PixelAt(x', y')))
                                       else old(PixelAt(x', y'))
      {
        size := size - 1;
        d := PutPixel(rgn, rgn.p_buf.at(s), d, dx + (n - size) - 1, y);
        s := s + 1;
      }
    }

    /** The rows of a region after clipping. */
    method BlitRows(rgn: Region, sx: nat, sy: nat, dx: nat, dy: nat, rw: nat, rh: nat)
      requires Valid() && ValidRegion(rgn) && rgn.p_buf.Memory?
      requires dx + rw <= bmp_w && dy + rh <= bmp_h
      modifies buffer
      ensures forall x', y' :: 0 <= x' < bmp_w && 0 <= y' < bmp_h ==>
                PixelAt(x', y') ==
                if dx <= x' < dx + rw && dy <= y' < dy + rh
                then Blend(rgn, rgn.p_buf.at((sy + (y' - dy)) * rgn.width + sx + (x' - dx)), old(PixelAt(x', y')))
                else old(PixelAt(x', y'))
    {
      hide PixelAt, Blend;
      var sbegin := sy * rgn.width + sx;
      var dbegin := dy * bmp_pitch + dx * 4;
      var rows := rh;
      while rows > 0
        invariant 0 <= rows <= rh
        invariant sbegin == (sy + (rh - rows)) * rgn.width + sx
        invariant dbegin == At(bmp_w, dx, dy + (rh - rows))
        invariant forall x', y' :: 0 <= x' < bmp_w && 0 <= y' < bmp_h ==>
                    PixelAt(x', y') ==
                    if dx <= x' < dx + rw && dy <= y' < dy + (rh - rows)
                    then Blend(rgn, rgn.p_buf.at((sy + (y' - dy)) * rgn.width + sx + (x' - dx)), old(PixelAt(x', y')))
                    else old(PixelAt(x', y'))
      {
        BlitRow(rgn, sbegin, dbegin, rw, dx, dy + (rh - rows));
        NextRow(sy + (rh - rows), rgn.width);
        NextRow(dy + (rh - rows), bmp_pitch);
        sbegin := sbegin + rgn.width;
        dbegin := dbegin + bmp_pitch;
        rows := rows - 1;
      }
    }

    lemma NextRow(row: int, width: int)
      ensures (row + 1) * width == row * width + width
    {}

    /** One region: skipped without pixels, otherwise clipped and painted. */
    method PaintRegion(rgn: Region, original_x: int, original_y: int)
      requires Valid() && ValidRegion(rgn)
      modifies buffer
      ensures forall x, y :: 0 <= x < bmp_w && 0 <= y < bmp_h ==>
                PixelAt(x, y) == Covered(rgn, original_x, original_y, bmp_w, bmp_h, x, y, old(PixelAt(x, y)))
    {
      hide PixelAt, Blend;
      if rgn.p_buf.Memory? {
        var sx, sy, dx, dy, rw, rh := 0, 0, original_x + rgn.left, original_y + rgn.top, rgn.width, rgn.height;
        if dx < 0 {
          sx := -dx;
          dx := 0;
          rw := rw + dx;
        }
        if dx + rw > bmp_w {
          rw := bmp_w - dx;
        }
        if dy < 0 {
          sy := -dy;
          dy := 0;
          rh := rh + dy;
        }
        if dy + rh > bmp_h {
          rh := bmp_h - dy;
        }
        if rw > 0 && rh > 0 {
          BlitRows(rgn, sx, sy, dx, dy, rw, rh);
        }
      }
    }

    /** The callback: the bitmap is cleared and shows the painter's fold over the regions. */
    method ShowSub(shown: Shown)
      requires Valid()
      requires shown.Show? ==> forall r :: r in shown.pic.regions ==> ValidRegion(r)
      modifies this`sub_w, this`sub_h, buffer
      ensures shown.NoPicture? ==> sub_w == old(sub_w) && sub_h == old(sub_h)
      ensures shown.Show? ==> sub_w == shown.pic.original_width && sub_h == shown.pic.original_height
      ensures forall x, y :: 0 <= x < bmp_w && 0 <= y < bmp_h ==>
                PixelAt(x, y) ==
                if shown.NoPicture? then CLEAR
                else Painted(shown.pic.regions, shown.pic.original_x, shown.pic.original_y, bmp_w, bmp_h, x, y)
    {
      hide PixelAt, Covered;
      ClearBitmap();
      if shown.Show? {
        var pic := shown.pic;
        sub_w, sub_h := pic.original_width, pic.original_height;
        for i := 0 to |pic.regions|
          invariant sub_w == pic.original_width && sub_h == pic.original_height
          invariant forall x, y :: 0 <= x < bmp_w && 0 <= y < bmp_h ==>
                      PixelAt(x, y) ==
                      Painted(pic.regions[..i], pic.original_x, pic.original_y, bmp_w, bmp_h, x, y)
        {
          PaintRegion(pic.regions[i], pic.original_x, pic.original_y);
          assert pic.regions[..i + 1][..i] == pic.regions[..i];
        }
        assert pic.regions[..|pic.regions|] == pic.regions;
      }
    }
  }

  // ---------------------------------------------------------------- the painter that clips properly

  /** The colour of (x, y) after a region painted where it belongs and nowhere else. */
  function Ideal(rgn: Region, ox: int, oy: int, x: int, y: int, under: Color): Color
    requires ValidRegion(rgn)
  {
    var u, v := x - (ox + rgn.left), y - (oy + rgn.top);
    if rgn.p_buf.Memory? && 0 <= u < rgn.width && 0 <= v < rgn.height
    then Blend(rgn, rgn.p_buf.at(v * rgn.width + u), under)
    else under
  }

  function IdealPainted(rs: seq<Region>, ox: int, oy: int, x: int, y: int): Color
    requires forall r :: r in rs ==> ValidRegion(r)
  {
    if rs == [] then CLEAR
    else
      var n := |rs| - 1;
      Ideal(rs[n], ox, oy, x, y, IdealPainted(rs[..n], ox, oy, x, y))
  }

  /** The region has a pixel at (x, y). */
  predicate Contains(rgn: Region, ox: int, oy: int, x: int, y: int) {
    && rgn.p_buf.Memory?
    && ox + rgn.left <= x < ox + rgn.left + rgn.width && oy + rgn.top <= y < oy + rgn.top + rgn.height
  }

  /** The index of the region's pixel at (x, y), which lies row by row in its memory. */
  function IndexAt(rgn: Region, ox: int, oy: int, x: int, y: int): byte
    requires rgn.p_buf.Memory?
  {
    rgn.p_buf.at((y - oy - rgn.top) * rgn.width + (x - ox - rgn.left))
  }

  /** What shows at a pixel is decided by the last region that has an opaque pixel there: its palette's red,
      green and blue. A transparent pixel over it clears the alpha and leaves these three alone, and an index
      beyond the palette leaves all four. */
  lemma {:induction false} LastOpaqueShows(rs: seq<Region>, k: nat, ox: int, oy: int, x: int, y: int)
    requires (forall r :: r in rs ==> ValidRegion(r)) && forall j :: 0 <= j < |rs| ==> |rs[j].clut| == 256
    requires k < |rs| && Contains(rs[k], ox, oy, x, y)
    requires var c := IndexAt(rs[k], ox, oy, x, y); c < rs[k].entry && rs[k].clut[c].a != 0
    requires forall j :: k < j < |rs| && Contains(rs[j], ox, oy, x, y) ==>
               var c := IndexAt(rs[j], ox, oy, x, y); c >= rs[j].entry || rs[j].clut[c].a == 0
    ensures var top, shown := rs[k].clut[IndexAt(rs[k], ox, oy, x, y)], IdealPainted(rs, ox, oy, x, y);
            && shown.r == top.r && shown.g == top.g && shown.b == top.b
            && shown.a == if exists j :: k < j < |rs| && Contains(rs[j], ox, oy, x, y)
                                         && IndexAt(rs[j], ox, oy, x, y) < rs[j].entry
                          then 0 else top.a
    decreases |rs|
  {
    var n := |rs| - 1;
    if k < n {
      var p := rs[..n];
      LastOpaqueShows(p, k, ox, oy, x, y);
      if j :| k < j < n && Contains(rs[j], ox, oy, x, y) && IndexAt(rs[j], ox, oy, x, y) < rs[j].entry {
        assert p[j] == rs[j];
      }
      if j :| k < j < n && Contains(p[j], ox, oy, x, y) && IndexAt(p[j], ox, oy, x, y) < p[j].entry {
        assert p[j] == rs[j];
      }
    }
    if rs[n].p_buf.Memory? {
      SameIndex(rs[n], ox, oy, x, y);
    }
  }

  lemma SameIndex(rgn: Region, ox: int, oy: int, x: int, y: int)
    requires rgn.p_buf.Memory?
    ensures rgn.p_buf.at((y - (oy + rgn.top)) * rgn.width + (x - (ox + rgn.left))) == IndexAt(rgn, ox, oy, x, y)
  {
    assert y - (oy + rgn.top) == y - oy - rgn.top && x - (ox + rgn.left) == x - ox - rgn.left;
  }

  /** Along one axis: the region does not start before the bitmap, or reaches to its far edge. */
  predicate AxisFits(d: int, len: int, limit: int) {
    d >= 0 || d + len >= limit
  }

  /** Nothing is painted, or both axes fit. */
  predicate Faithful(rgn: Region, ox: int, oy: int, w: int, h: int) {
    var dx, dy := ox + rgn.left, oy + rgn.top;
    || Extent(dx, rgn.width, w) <= 0 || Extent(dy, rgn.height, h) <= 0
    || (AxisFits(dx, rgn.width, w) && AxisFits(dy, rgn.height, h))
  }

  lemma FaithfulIsIdeal(rgn: Region, ox: int, oy: int, w: int, h: int, x: int, y: int, under: Color)
    requires ValidRegion(rgn) && 0 <= x < w && 0 <= y < h && Faithful(rgn, ox, oy, w, h)
    ensures Covered(rgn, ox, oy, w, h, x, y, under) == Ideal(rgn, ox, oy, x, y, under)
  {
    hide Blend;
    var dx, dy := ox + rgn.left, oy + rgn.top;
    assert Skip(dx) + x - Start(dx) == x - dx && Skip(dy) + y - Start(dy) == y - dy;
  }

  /** The same region with any pixels and any palette. */
  predicate SameShape(r: Region, rgn: Region) {
    ValidRegion(r) && r.left == rgn.left && r.top == rgn.top && r.width == rgn.width && r.height == rgn.height
  }

  ghost predicate AlwaysIdeal(rgn: Region, ox: int, oy: int, w: int, h: int) {
    forall r: Region, x, y, under | SameShape(r, rgn) && 0 <= x < w && 0 <= y < h ::
      Covered(r, ox, oy, w, h, x, y, under) == Ideal(r, ox, oy, x, y, under)
  }

  /** The program paints a region of a given position and size as it should, whatever its pixels and
      palette, exactly when the region is faithful: starting before the bitmap's left or top edge is
      harmless only if the region is not seen or still reaches the opposite edge. */
  lemma PaintsIdeallyIff(rgn: Region, ox: int, oy: int, w: int, h: int)
    ensures AlwaysIdeal(rgn, ox, oy, w, h) <==> Faithful(rgn, ox, oy, w, h)
  {
    if Faithful(rgn, ox, oy, w, h) {
      forall r: Region, x, y, under | SameShape(r, rgn) && 0 <= x < w && 0 <= y < h
        ensures Covered(r, ox, oy, w, h, x, y, under) == Ideal(r, ox, oy, x, y, under)
      {
        FaithfulIsIdeal(r, ox, oy, w, h, x, y, under);
      }
    } else {
      var white := Color(255, 255, 255, 255);
      var r := rgn.(entry := 1, clut := seq(256, _ => white), p_buf := Memory(_ => 0));
      var dx, dy := ox + rgn.left, oy + rgn.top;
      var x := if AxisFits(dx, rgn.width, w) then Start(dx) else Start(dx + rgn.width);
      var y := if AxisFits(dy, rgn.height, h) then Start(dy) else Start(dy + rgn.height);
      assert Covered(r, ox, oy, w, h, x, y, CLEAR) == white;
      assert Ideal(r, ox, oy, x, y, CLEAR) == CLEAR;
      assert SameShape(r, rgn);
    }
  }

  /** If every region is faithful, the whole bitmap is what an ideal painter leaves. */
  lemma {:induction false} PaintedIsIdeal(rs: seq<Region>, ox: int, oy: int, w: int, h: int, x: int, y: int)
    requires forall r :: r in rs ==> ValidRegion(r) && Faithful(r, ox, oy, w, h)
    requires 0 <= x < w && 0 <= y < h
    ensures Painted(rs, ox, oy, w, h, x, y) == IdealPainted(rs, ox, oy, x, y)
  {
    hide Faithful, Covered, Ideal;
    if rs != [] {
      var n := |rs| - 1;
      PaintedIsIdeal(rs[..n], ox, oy, w, h, x, y);
      FaithfulIsIdeal(rs[n], ox, oy, w, h, x, y, Painted(rs[..n], ox, oy, w, h, x, y));
    }
  }

  /** A faithful region is read only inside its own width * height pixels. */
  lemma ReadsInside(rgn: Region, ox: int, oy: int, w: int, h: int, u: int, v: int)
    requires Faithful(rgn, ox, oy, w, h)
    requires 0 <= u < Extent(ox + rgn.left, rgn.width, w) && 0 <= v < Extent(oy + rgn.top, rgn.height, h)
    ensures var i := (Skip(oy + rgn.top) + v) * rgn.width + (Skip(ox + rgn.left) + u);
            0 <= i < rgn.width * rgn.height
  {
    InsideRows(Skip(oy + rgn.top) + v, Skip(ox + rgn.left) + u, rgn.width, rgn.height);
  }

  lemma InsideRows(row: nat, column: nat, width: nat, height: nat)
    requires row < height && column < width
    ensures 0 <= row * width && row * width + column < width * height
  {
    assert (row + 1) * width <= height * width;
  }

  /** A region two pixels wide that starts one pixel left of a bitmap four pixels wide leaves a mark
      outside itself: column 1 shows the byte behind the region's row. */
  lemma LeftEdgeSmears(pixels: int -> byte, clut: seq<Color>, under: Color)
    requires |clut| == 256
    ensures var rgn := Region(-1, 0, 2, 1, 256, clut, Memory(pixels));
            && Covered(rgn, 0, 0, 4, 1, 1, 0, under) == Blend(rgn, pixels(2), under)
            && Ideal(rgn, 0, 0, 1, 0, under) == under
  {}
}
