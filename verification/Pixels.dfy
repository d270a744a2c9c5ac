/**
  The colour converters: YUYV and NV12 into packed RGB.
 */
module Pixels {
  import opened Basics

  datatype Rgb = Rgb(r: Byte, g: Byte, b: Byte)

  function Clamp(x: int): Byte {
    if x < 0 then 0 else if x > 255 then 255 else x
  }

  // BT.601 chroma coefficients in Q10.
  const C_RV := 1436
  const C_GU := 352
  const C_GV := 731
  const C_BU := 1814

  datatype Chroma = Chroma(cr: int, cg: int, cb: int)

  function ChromaQ10(u: Byte, v: Byte): Chroma {
    var du, dv := u - 128, v - 128;
    Chroma(C_RV * dv, -(C_GU * du + C_GV * dv), C_BU * du)
  }

  /** An arithmetic shift right by ten is division by 1024 rounding down. */
  function PixelOf(y: Byte, c: Chroma): Rgb {
    Rgb(Clamp((y * 1024 + c.cr) / 1024), Clamp((y * 1024 + c.cg) / 1024), Clamp((y * 1024 + c.cb) / 1024))
  }

  /** The colour arithmetic the converters share: chroma once for each pair, then each luma sample. */
  datatype Colour = Colour(chroma: (Byte, Byte) -> Chroma, pixel: (Byte, Chroma) -> Rgb)

  const BT601 := Colour(ChromaQ10, PixelOf)

  /** Packed RGB bytes. */
  function Packed(px: seq<Rgb>): seq<Byte> {
    if px == [] then []
    else
      var last := px[|px| - 1];
      Packed(px[..|px| - 1]) + [last.r, last.g, last.b]
  }

  lemma PackedSnoc(px: seq<Rgb>, p: Rgb)
    ensures Packed(px + [p]) == Packed(px) + [p.r, p.g, p.b]
  {
    assert (px + [p])[..|px|] == px;
  }

  /** The cells of a grid `w` wide in row-major order, up to (`row`, `col`). */
  function Grid<T>(cell: (nat, nat) -> T, w: nat, row: nat, col: nat): seq<T>
    decreases row, col
  {
    if col > 0 then Grid(cell, w, row, col - 1) + [cell(row, col - 1)]
    else if row > 0 then Grid(cell, w, row - 1, w)
    else []
  }

  /** The cells of so many rows, added up row by row. */
  function Area(rows: nat, w: nat): nat { if rows == 0 then 0 else Area(rows - 1, w) + w }

  lemma {:induction false} AreaIs(rows: nat, w: nat)
    ensures Area(rows, w) == rows * w
    decreases rows
  {
    if rows > 0 {
      AreaIs(rows - 1, w);
      assert rows * w == (rows - 1) * w + w;
    }
  }

  lemma {:induction false} AreaInside(w: nat, h: nat, row: nat, col: nat)
    requires row < h && col < w
    ensures Area(row, w) + col < Area(h, w)
    decreases h
  {
    if row < h - 1 { AreaInside(w, h - 1, row, col); }
  }

  lemma {:induction false} GridSize<T>(cell: (nat, nat) -> T, w: nat, row: nat, col: nat)
    ensures |Grid(cell, w, row, col)| == Area(row, w) + col
    decreases row, col
  {
    if col > 0 {
      GridSize(cell, w, row, col - 1);
    } else if row > 0 {
      GridSize(cell, w, row - 1, w);
    }
  }

  lemma CellInside(w: nat, h: nat, row: nat, col: nat)
    requires row < h && col < w
    ensures row * w + col < h * w
  {
    assert (row + 1) * w <= h * w;
  }

  lemma {:induction false} GridAt<T>(cell: (nat, nat) -> T, w: nat, row: nat, col: nat, r: nat, c: nat)
    requires c < w && (r < row || (r == row && c < col)) && col <= w
    ensures Area(r, w) + c < |Grid(cell, w, row, col)| && Grid(cell, w, row, col)[Area(r, w) + c] == cell(r, c)
    decreases row, col
  {
    GridSize(cell, w, row, col);
    if col > 0 {
      GridSize(cell, w, row, col - 1);
      if r < row || c < col - 1 {
        GridAt(cell, w, row, col - 1, r, c);
      }
    } else {
      GridAt(cell, w, row - 1, w, r, c);
    }
  }

  // ------------------------------------------------------------------------- YUYV

  /** The two pixels of each whole four-byte group share its chroma pair. */
  function YuyvPixels(hue: Colour, data: seq<Byte>, groups: nat): seq<Rgb>
    requires 4 * groups <= |data|
  {
    if groups == 0 then []
    else
      var at := 4 * (groups - 1);
      var chroma := hue.chroma(data[at + 1], data[at + 3]);
      YuyvPixels(hue, data, groups - 1) + [hue.pixel(data[at], chroma)] + [hue.pixel(data[at + 2], chroma)]
  }

  lemma YuyvStep(hue: Colour, data: seq<Byte>, k: nat, a: Rgb, b: Rgb)
    requires 4 * k + 4 <= |data|
    requires a == hue.pixel(data[4 * k], hue.chroma(data[4 * k + 1], data[4 * k + 3]))
    requires b == hue.pixel(data[4 * k + 2], hue.chroma(data[4 * k + 1], data[4 * k + 3]))
    ensures Packed(YuyvPixels(hue, data, k + 1)) ==
            Packed(YuyvPixels(hue, data, k)) + [a.r, a.g, a.b] + [b.r, b.g, b.b]
  {
    PackedSnoc(YuyvPixels(hue, data, k), a);
    PackedSnoc(YuyvPixels(hue, data, k) + [a], b);
  }

  /** `yuyv_to_rgb`. */
  method YuyvToRgb(hue: Colour, data: seq<Byte>) returns (rgb: seq<Byte>)
    ensures rgb == Packed(YuyvPixels(hue, data, |data| / 4))
  {
    rgb := [];
    for k := 0 to |data| / 4
      invariant rgb == Packed(YuyvPixels(hue, data, k))
    {
      var chunk := data[4 * k..4 * k + 4];
      var chroma := hue.chroma(chunk[1], chunk[3]);
      var a, b := hue.pixel(chunk[0], chroma), hue.pixel(chunk[2], chroma);
      YuyvStep(hue, data, k, a, b);
      rgb := rgb + [a.r, a.g, a.b];
      rgb := rgb + [b.r, b.g, b.b];
    }
  }

  // ------------------------------------------------------------------------- NV12

  function Half(n: nat): nat { (n + 1) / 2 }

  /** Bytes in a full NV12 frame: luma, then one UV pair for each 2x2 block. */
  function Nv12Size(w: nat, h: nat): nat { Area(h, w) + Area(Half(h), 2 * Half(w)) }

  /** Where the UV pair of a pixel starts. */
  function UvIndex(w: nat, h: nat, row: nat, col: nat): nat {
    Area(h, w) + Area(row / 2, 2 * Half(w)) + 2 * (col / 2)
  }

  /** Every byte a pixel asks for is in the frame, for odd sizes too. */
  lemma Nv12Inside(w: nat, h: nat, row: nat, col: nat)
    requires row < h && col < w
    ensures Area(row, w) + col < Area(h, w) <= UvIndex(w, h, row, col)
    ensures UvIndex(w, h, row, col) + 1 < Nv12Size(w, h)
  {
    AreaInside(w, h, row, col);
    AreaInside(2 * Half(w), Half(h), row / 2, 2 * (col / 2) + 1);
  }

  function Nv12Pixel(hue: Colour, data: seq<Byte>, w: nat, h: nat, row: nat, col: nat): Rgb
    requires |data| >= Nv12Size(w, h) && row < h && col < w
  {
    Nv12Inside(w, h, row, col);
    var uv := UvIndex(w, h, row, col);
    hue.pixel(data[Area(row, w) + col], hue.chroma(data[uv], data[uv + 1]))
  }

  function Nv12Pixels(hue: Colour, data: seq<Byte>, w: nat, h: nat, row: nat, col: nat): seq<Rgb>
    requires |data| >= Nv12Size(w, h) && col <= w && (row < h || (row == h && col == 0))
    decreases row, col
  {
    if col > 0 then Nv12Pixels(hue, data, w, h, row, col - 1) + [Nv12Pixel(hue, data, w, h, row, col - 1)]
    else if row > 0 then Nv12Pixels(hue, data, w, h, row - 1, w)
    else []
  }

  /** One pixel, with its UV pair `pair` bytes into the row `row` bytes into the UV plane. */
  method PixelFrom(hue: Colour, data: seq<Byte>, at: nat, plane: nat, row: nat, pair: nat) returns (p: Rgb)
    requires at < |data| && plane + row + pair + 1 < |data|
    ensures p == hue.pixel(data[at], hue.chroma(data[plane + row + pair], data[plane + row + pair + 1]))
  {
    var uvPlane := data[plane..];
    var uvRow := uvPlane[row..];
    var chroma := hue.chroma(uvRow[pair], uvRow[pair + 1]);
    p := hue.pixel(data[at], chroma);
  }

  /** The body of the inner loop. */
  method Nv12At(hue: Colour, data: seq<Byte>, w: nat, h: nat, row: nat, col: nat) returns (p: Rgb)
    requires |data| >= Nv12Size(w, h) && row < h && col < w
    ensures p == Nv12Pixel(hue, data, w, h, row, col)
  {
    Nv12Inside(w, h, row, col);
    AreaIs(row, w);
    AreaIs(h, w);
    AreaIs(row / 2, 2 * Half(w));
    p := PixelFrom(hue, data, row * w + col, h * w, row / 2 * (2 * Half(w)), col / 2 * 2);
  }

  /** `nv12_to_rgb`. */
  method Nv12ToRgb(hue: Colour, data: seq<Byte>, w: nat, h: nat) returns (rgb: Option<seq<Byte>>)
    ensures rgb == if |data| < Nv12Size(w, h) then None else Some(Packed(Nv12Pixels(hue, data, w, h, h, 0)))
  {
    AreaIs(h, w);
    AreaIs(Half(h), 2 * Half(w));
    var uvStride := 2 * Half(w);
    if |data| < h * w + Half(h) * uvStride {
      return None;
    }
    var out: seq<Byte> := [];
    for row := 0 to h
      invariant out == Packed(Nv12Pixels(hue, data, w, h, row, 0))
    {
      for col := 0 to w
        invariant out == Packed(Nv12Pixels(hue, data, w, h, row, col))
      {
        var p := Nv12At(hue, data, w, h, row, col);
        out := out + [p.r, p.g, p.b];
        PackedSnoc(Nv12Pixels(hue, data, w, h, row, col), p);
      }
      assert Nv12Pixels(hue, data, w, h, row + 1, 0) == Nv12Pixels(hue, data, w, h, row, w);
    }
    rgb := Some(out);
  }

  // --------------------------------------------------- one image, packed both ways

  /** A 4:2:0 image: luma by pixel, chroma by 2x2 block. */
  datatype Image = Image(w: nat, h: nat, y: (nat, nat) -> Byte, u: (nat, nat) -> Byte, v: (nat, nat) -> Byte)

  /** What a pixel of an image looks like, packing aside. */
  function ImagePixel(hue: Colour, img: Image, row: nat, col: nat): Rgb {
    hue.pixel(img.y(row, col), hue.chroma(img.u(row / 2, col / 2), img.v(row / 2, col / 2)))
  }

  function ImagePixels(hue: Colour, img: Image, row: nat, col: nat): seq<Rgb> {
    Grid((r, c) => ImagePixel(hue, img, r, c), img.w, row, col)
  }

  function UvByte(img: Image, row: nat, col: nat): Byte {
    if col % 2 == 0 then img.u(row, col / 2) else img.v(row, col / 2)
  }

  function UvBytes(img: Image): (nat, nat) -> Byte { (r: nat, c: nat) => UvByte(img, r, c) }

  function UvPlane(img: Image): seq<Byte> { Grid(UvBytes(img), 2 * Half(img.w), Half(img.h), 0) }

  function PackNv12(img: Image): seq<Byte> {
    Grid(img.y, img.w, img.h, 0) + UvPlane(img)
  }

  function YuyvByte(img: Image, row: nat, col: nat): Byte {
    if col % 2 == 0 then img.y(row, col / 2)
    else if col % 4 == 1 then img.u(row / 2, col / 4)
    else img.v(row / 2, col / 4)
  }

  function PackYuyv(img: Image, row: nat, col: nat): seq<Byte> {
    Grid((r, c) => YuyvByte(img, r, c), 2 * img.w, row, col)
  }

  lemma PackedSize(img: Image)
    ensures |Grid(img.y, img.w, img.h, 0)| == Area(img.h, img.w)
    ensures |PackNv12(img)| == Nv12Size(img.w, img.h)
  {
    GridSize(img.y, img.w, img.h, 0);
    GridSize(UvBytes(img), 2 * Half(img.w), Half(img.h), 0);
  }

  lemma UvPair(img: Image, row: nat, col: nat)
    requires row < Half(img.h) && col < Half(img.w)
    ensures var at := Area(row, 2 * Half(img.w)) + 2 * col;
            && at + 1 < |UvPlane(img)|
            && UvPlane(img)[at] == img.u(row, col) && UvPlane(img)[at + 1] == img.v(row, col)
  {
    GridAt(UvBytes(img), 2 * Half(img.w), Half(img.h), 0, row, 2 * col);
    GridAt(UvBytes(img), 2 * Half(img.w), Half(img.h), 0, row, 2 * col + 1);
    assert UvByte(img, row, 2 * col) == img.u(row, col) && UvByte(img, row, 2 * col + 1) == img.v(row, col);
  }

  lemma Nv12PixelOfImage(hue: Colour, img: Image, row: nat, col: nat)
    requires row < img.h && col < img.w
    ensures |PackNv12(img)| == Nv12Size(img.w, img.h)
    ensures Nv12Pixel(hue, PackNv12(img), img.w, img.h, row, col) == ImagePixel(hue, img, row, col)
  {
    PackedSize(img);
    GridAt(img.y, img.w, img.h, 0, row, col);
    UvPair(img, row / 2, col / 2);
    Nv12Inside(img.w, img.h, row, col);
  }

  lemma {:induction false} Nv12RoundTrip(hue: Colour, img: Image, row: nat, col: nat)
    requires col <= img.w && (row < img.h || (row == img.h && col == 0))
    ensures |PackNv12(img)| == Nv12Size(img.w, img.h)
    ensures Nv12Pixels(hue, PackNv12(img), img.w, img.h, row, col) == ImagePixels(hue, img, row, col)
    decreases row, col
  {
    PackedSize(img);
    if col > 0 {
      Nv12RoundTrip(hue, img, row, col - 1);
      Nv12PixelOfImage(hue, img, row, col - 1);
    } else if row > 0 {
      Nv12RoundTrip(hue, img, row - 1, img.w);
    }
  }

  /** Four bytes more are one more group. */
  lemma {:induction false} YuyvPrefix(hue: Colour, data: seq<Byte>, more: seq<Byte>, groups: nat)
    requires 4 * groups <= |data|
    ensures YuyvPixels(hue, data + more, groups) == YuyvPixels(hue, data, groups)
    decreases groups
  {
    if groups > 0 { YuyvPrefix(hue, data, more, groups - 1); }
  }

  /** Two pixels of an image are packed into one group, and that group decodes to them. */
  lemma YuyvGroup(hue: Colour, img: Image, row: nat, pair: nat)
    ensures PackYuyv(img, row, 4 * pair + 4) == PackYuyv(img, row, 4 * pair) +
              [img.y(row, 2 * pair), img.u(row / 2, pair), img.y(row, 2 * pair + 1), img.v(row / 2, pair)]
    ensures ImagePixels(hue, img, row, 2 * pair + 2) ==
            ImagePixels(hue, img, row, 2 * pair) + [ImagePixel(hue, img, row, 2 * pair)] + [ImagePixel(hue, img, row, 2 * pair + 1)]
  {
    var c := 4 * pair;
    assert YuyvByte(img, row, c) == img.y(row, 2 * pair) && YuyvByte(img, row, c + 1) == img.u(row / 2, pair);
    assert YuyvByte(img, row, c + 2) == img.y(row, 2 * pair + 1) && YuyvByte(img, row, c + 3) == img.v(row / 2, pair);
    assert PackYuyv(img, row, c + 1) == PackYuyv(img, row, c) + [YuyvByte(img, row, c)];
    assert PackYuyv(img, row, c + 2) == PackYuyv(img, row, c + 1) + [YuyvByte(img, row, c + 1)];
    assert PackYuyv(img, row, c + 3) == PackYuyv(img, row, c + 2) + [YuyvByte(img, row, c + 2)];
    assert PackYuyv(img, row, c + 4) == PackYuyv(img, row, c + 3) + [YuyvByte(img, row, c + 3)];
    assert ImagePixels(hue, img, row, 2 * pair + 1) == ImagePixels(hue, img, row, 2 * pair) + [ImagePixel(hue, img, row, 2 * pair)];
  }

  /** The groups of a packed stretch decode to these pixels. */
  predicate DecodesTo(hue: Colour, data: seq<Byte>, px: seq<Rgb>) {
    |data| % 4 == 0 && YuyvPixels(hue, data, |data| / 4) == px
  }

  lemma YuyvPairMore(hue: Colour, img: Image, row: nat, k: nat)
    requires DecodesTo(hue, PackYuyv(img, row, 4 * k), ImagePixels(hue, img, row, 2 * k))
    ensures DecodesTo(hue, PackYuyv(img, row, 4 * k + 4), ImagePixels(hue, img, row, 2 * k + 2))
  {
    YuyvGroup(hue, img, row, k);
    YuyvOneMore(hue, PackYuyv(img, row, 4 * k),
                img.y(row, 2 * k), img.u(row / 2, k), img.y(row, 2 * k + 1), img.v(row / 2, k));
    assert ImagePixel(hue, img, row, 2 * k) == hue.pixel(img.y(row, 2 * k), hue.chroma(img.u(row / 2, k), img.v(row / 2, k)));
    assert (2 * k + 1) / 2 == k;
  }

  lemma {:induction false} YuyvRoundTrip(hue: Colour, img: Image, row: nat, pair: nat)
    requires img.w % 2 == 0
    ensures DecodesTo(hue, PackYuyv(img, row, 4 * pair), ImagePixels(hue, img, row, 2 * pair))
    decreases row, pair
  {
    if pair > 0 {
      YuyvRoundTrip(hue, img, row, pair - 1);
      YuyvPairMore(hue, img, row, pair - 1);
    } else if row > 0 {
      YuyvRoundTrip(hue, img, row - 1, img.w / 2);
      assert 4 * (img.w / 2) == 2 * img.w && 2 * (img.w / 2) == img.w;
    }
  }

  lemma YuyvOneMore(hue: Colour, data: seq<Byte>, y0: Byte, u: Byte, y1: Byte, v: Byte)
    requires |data| % 4 == 0
    ensures var more := data + [y0, u, y1, v];
            && |more| % 4 == 0
            && YuyvPixels(hue, more, |more| / 4) ==
               YuyvPixels(hue, data, |data| / 4) + [hue.pixel(y0, hue.chroma(u, v))] + [hue.pixel(y1, hue.chroma(u, v))]
  {
    var more := data + [y0, u, y1, v];
    YuyvPrefix(hue, data, [y0, u, y1, v], |data| / 4);
    assert |more| / 4 == |data| / 4 + 1;
  }

  /** Both packings of an even-width image decode to the same RGB, that of the image itself. */
  lemma PackingsDecodeAlike(hue: Colour, img: Image)
    requires img.w % 2 == 0
    ensures |PackNv12(img)| == Nv12Size(img.w, img.h)
    ensures var yuyv := PackYuyv(img, img.h, 0);
            && Packed(Nv12Pixels(hue, PackNv12(img), img.w, img.h, img.h, 0)) == Packed(YuyvPixels(hue, yuyv, |yuyv| / 4))
            && Packed(YuyvPixels(hue, yuyv, |yuyv| / 4)) == Packed(ImagePixels(hue, img, img.h, 0))
  {
    Nv12RoundTrip(hue, img, img.h, 0);
    YuyvRoundTrip(hue, img, img.h, 0);
  }
}
