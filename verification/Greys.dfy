/**
  Grey frames: strided GREY and Y16 into packed RGB, and the luma that brings
  them back.
 */
module Greys {
  import opened Basics
  import opened Pixels

  function Luma(p: Rgb): Byte {
    (77 * p.r + 150 * p.g + 29 * p.b) / 256
  }

  /** The Q8 luma stays within one and a half levels of the BT.601 weights. */
  lemma LumaFollowsBt601(p: Rgb)
    ensures var exact := 299 * p.r + 587 * p.g + 114 * p.b;
            exact - 1455 < 1000 * Luma(p) <= exact + 455
  {
    var q := Luma(p);
    assert 256 * q <= 77 * p.r + 150 * p.g + 29 * p.b < 256 * q + 256;
  }

  /** `rgb_to_gray`: whole three-byte groups only. */
  function RgbToGray(rgb: seq<Byte>): seq<Byte> {
    seq(|rgb| / 3, i requires 0 <= i < |rgb| / 3 => Luma(Rgb(rgb[3 * i], rgb[3 * i + 1], rgb[3 * i + 2])))
  }

  function Lumas(px: seq<Rgb>): seq<Byte> {
    seq(|px|, i requires 0 <= i < |px| => Luma(px[i]))
  }

  lemma {:induction false} PackedAt(px: seq<Rgb>, i: nat)
    requires i < |px|
    ensures |Packed(px)| == 3 * |px|
    ensures Packed(px)[3 * i] == px[i].r && Packed(px)[3 * i + 1] == px[i].g && Packed(px)[3 * i + 2] == px[i].b
    decreases |px|
  {
    var front := px[..|px| - 1];
    if front != [] {
      PackedAt(front, if i < |front| then i else 0);
    }
  }

  /** The luma of packed pixels, pixel by pixel. */
  lemma GrayOfPacked(px: seq<Rgb>)
    ensures RgbToGray(Packed(px)) == Lumas(px)
  {
    if px != [] { PackedAt(px, 0); }
    forall i | 0 <= i < |px|
      ensures RgbToGray(Packed(px))[i] == Luma(px[i])
    {
      PackedAt(px, i);
    }
  }

  function Grey(p: Byte): Rgb { Rgb(p, p, p) }

  function Greyed(gray: seq<Byte>): seq<Rgb> {
    seq(|gray|, i requires 0 <= i < |gray| => Grey(gray[i]))
  }

  /** Each sample three times over. */
  function Replicated(gray: seq<Byte>): seq<Byte> { Packed(Greyed(gray)) }

  lemma ReplicatedSnoc(gray: seq<Byte>, p: Byte)
    ensures Replicated(gray + [p]) == Replicated(gray) + [p, p, p]
  {
    assert Greyed(gray + [p]) == Greyed(gray) + [Grey(p)];
    PackedSnoc(Greyed(gray), Grey(p));
  }

  lemma LumaOfGrey(p: Byte)
    ensures Luma(Grey(p)) == p
  {
  }

  /** Luma undoes replication. */
  lemma GrayOfReplicated(gray: seq<Byte>)
    ensures RgbToGray(Replicated(gray)) == gray
  {
    GrayOfPacked(Greyed(gray));
    forall i | 0 <= i < |gray|
      ensures Lumas(Greyed(gray))[i] == gray[i]
    {
      LumaOfGrey(gray[i]);
    }
  }

  // ------------------------------------------------------------------- strided GREY

  /** The frame holds its last row. */
  predicate HoldsFrame(length: nat, width: nat, height: nat, stride: nat) {
    stride >= width && (height == 0 || stride * (height - 1) + width <= length)
  }

  /** No row of a frame that holds its last one is short. */
  lemma RowIsWhole(length: nat, width: nat, height: nat, stride: nat, row: nat)
    requires HoldsFrame(length, width, height, stride) && row < height
    ensures 0 <= stride * row && stride * row + width <= length
    ensures row + 1 < height ==> stride * row + stride <= length
  {
    assert stride * row <= stride * (height - 1);
    assert row + 1 < height ==> stride * (row + 1) <= stride * (height - 1);
  }

  /** `width` bytes from `at` on, none where the buffer ends before that. */
  function Slice(buf: seq<Byte>, at: int, width: nat): seq<Byte> {
    if 0 <= at && at + width <= |buf| then buf[at..at + width] else []
  }

  /** The first `rows` rows of a padded frame, without the padding. */
  function Unpadded(buf: seq<Byte>, width: nat, rows: nat, stride: nat): seq<Byte>
    decreases rows
  {
    if rows == 0 then [] else Unpadded(buf, width, rows - 1, stride) + Slice(buf, stride * (rows - 1), width)
  }

  datatype CameraError = ShortFrame(length: nat, width: nat, height: nat, stride: nat)

  /** The inner loop of `grey_to_rgb`: one row's samples, three times each. */
  method AppendRow(rgb: seq<Byte>, row: seq<Byte>, ghost before: seq<Byte>) returns (out: seq<Byte>)
    requires rgb == Replicated(before)
    ensures out == Replicated(before + row)
  {
    out := rgb;
    assert before + row[..0] == before;
    for col := 0 to |row|
      invariant out == Replicated(before + row[..col])
    {
      var p := row[col];
      ReplicatedSnoc(before + row[..col], p);
      assert before + row[..col + 1] == before + row[..col] + [p];
      out := out + [p, p, p];
    }
    assert row[..|row|] == row;
  }

  function ChunkSize(stride: nat): nat { if stride == 0 then 1 else stride }

  function Chunk(buf: seq<Byte>, start: nat, size: nat): seq<Byte>
    requires start <= |buf|
  {
    if start + size <= |buf| then buf[start..start + size] else buf[start..]
  }

  /** Where chunk `row` starts. */
  function ChunkStart(row: nat, size: nat): nat {
    if row == 0 then 0 else ChunkStart(row - 1, size) + size
  }

  lemma {:induction false} ChunkStartIs(row: nat, size: nat)
    ensures ChunkStart(row, size) == size * row
    decreases row
  {
    if row > 0 { ChunkStartIs(row - 1, size); }
  }

  lemma ChunkFront(buf: seq<Byte>, start: nat, size: nat, width: nat)
    requires start + width <= |buf| && width <= size
    ensures |Chunk(buf, start, size)| >= width && Chunk(buf, start, size)[..width] == Slice(buf, start, width)
  {
  }

  /** The row error inside the loop of `grey_to_rgb` cannot happen, and the row is the frame's. */
  lemma ChunkHoldsRow(buf: seq<Byte>, width: nat, height: nat, stride: nat, row: nat)
    requires HoldsFrame(|buf|, width, height, stride) && row < height && ChunkStart(row, ChunkSize(stride)) < |buf|
    ensures var chunk := Chunk(buf, ChunkStart(row, ChunkSize(stride)), ChunkSize(stride));
            |chunk| >= width && chunk[..width] == Slice(buf, stride * row, width)
  {
    RowIsWhole(|buf|, width, height, stride, row);
    if stride > 0 {
      ChunkStartIs(row, stride);
      ChunkFront(buf, stride * row, stride, width);
    }
  }

  /** The body of the loop of `grey_to_rgb`: the chunk that starts at `start`. */
  method GreyRow(buf: seq<Byte>, width: nat, ghost height: nat, stride: nat, ghost row: nat, start: nat, rgb: seq<Byte>)
    returns (out: seq<Byte>)
    requires HoldsFrame(|buf|, width, height, stride) && row < height
    requires start == ChunkStart(row, ChunkSize(stride)) && start < |buf|
    requires rgb == Replicated(Unpadded(buf, width, row, stride))
    ensures out == Replicated(Unpadded(buf, width, row + 1, stride))
  {
    var chunk := Chunk(buf, start, ChunkSize(stride));
    ChunkHoldsRow(buf, width, height, stride, row);
    if |chunk| < width {
      assert false;
    }
    out := AppendRow(rgb, chunk[..width], Unpadded(buf, width, row, stride));
  }

  /** The loop of `grey_to_rgb`, over the `stride`-sized chunks of the buffer. */
  method GreyRows(buf: seq<Byte>, width: nat, height: nat, stride: nat) returns (rgb: seq<Byte>)
    requires HoldsFrame(|buf|, width, height, stride)
    ensures rgb == Replicated(Unpadded(buf, width, height, stride))
  {
    rgb := [];
    var row, start := 0, 0;
    while row < height && start < |buf|
      invariant 0 <= row <= height && start == ChunkStart(row, ChunkSize(stride))
      invariant rgb == Replicated(Unpadded(buf, width, row, stride))
      decreases height - row
    {
      rgb := GreyRow(buf, width, height, stride, row, start, rgb);
      row, start := row + 1, start + ChunkSize(stride);
    }
    if row < height {
      PastTheBuffer(buf, width, height, stride, row);
    }
  }

  /** `grey_to_rgb`. */
  method GreyToRgb(buf: seq<Byte>, width: nat, height: nat, stride: nat)
    returns (r: Result<seq<Byte>, CameraError>)
    ensures r.Ok? <==> HoldsFrame(|buf|, width, height, stride)
    ensures r.Ok? ==> r.value == Replicated(Unpadded(buf, width, height, stride))
    ensures r.Err? ==> r.error == ShortFrame(|buf|, width, height, stride)
  {
    var needed := if height == 0 then 0 else stride * (height - 1) + width;
    if stride < width || |buf| < needed {
      return Err(ShortFrame(|buf|, width, height, stride));
    }
    var rgb := GreyRows(buf, width, height, stride);
    r := Ok(rgb);
  }

  /** Rows the loop has no chunk left for hold nothing. */
  lemma PastTheBuffer(buf: seq<Byte>, width: nat, height: nat, stride: nat, row: nat)
    requires HoldsFrame(|buf|, width, height, stride) && row < height && ChunkStart(row, ChunkSize(stride)) >= |buf|
    ensures Unpadded(buf, width, height, stride) == Unpadded(buf, width, row, stride)
  {
    RowIsWhole(|buf|, width, height, stride, row);
    ChunkStartIs(row, stride);
    assert width == 0;
    NoWidth(buf, height, stride);
    NoWidth(buf, row, stride);
  }

  lemma {:induction false} NoWidth(buf: seq<Byte>, rows: nat, stride: nat)
    ensures Unpadded(buf, 0, rows, stride) == []
    decreases rows
  {
    if rows > 0 { NoWidth(buf, rows - 1, stride); }
  }

  // --------------------------------------------------------- delivered frames come back

  function Flat(rows: seq<seq<Byte>>): seq<Byte> {
    if rows == [] then [] else Flat(rows[..|rows| - 1]) + rows[|rows| - 1]
  }

  /** Rows as a node with row padding delivers them; the padding of the last row may be cut. */
  function Delivered(rows: seq<seq<Byte>>, pads: seq<seq<Byte>>): seq<Byte>
    requires |rows| == |pads|
  {
    if rows == [] then []
    else
      var n := |rows| - 1;
      Delivered(rows[..n], pads[..n]) + rows[n] + pads[n]
  }

  predicate Framed(rows: seq<seq<Byte>>, pads: seq<seq<Byte>>, width: nat, stride: nat) {
    && |rows| == |pads| && width <= stride
    && (forall i :: 0 <= i < |rows| ==> |rows[i]| == width)
    && (forall i :: 0 <= i < |pads| - 1 ==> |pads[i]| == stride - width)
  }

  lemma {:induction false} DeliveredSize(rows: seq<seq<Byte>>, pads: seq<seq<Byte>>, width: nat, stride: nat)
    requires Framed(rows, pads, width, stride) && rows != []
    ensures |Delivered(rows, pads)| == stride * (|rows| - 1) + width + |pads[|pads| - 1]|
    decreases |rows|
  {
    var n := |rows| - 1;
    if n > 0 {
      DeliveredSize(rows[..n], pads[..n], width, stride);
      assert stride * n == stride * (n - 1) + stride;
    }
  }

  lemma FrontSize(rows: seq<seq<Byte>>, pads: seq<seq<Byte>>, width: nat, stride: nat)
    requires Framed(rows, pads, width, stride) && rows != []
    ensures var n := |rows| - 1; |Delivered(rows[..n], pads[..n])| == stride * n
  {
    var n := |rows| - 1;
    if n > 0 {
      DeliveredSize(rows[..n], pads[..n], width, stride);
      assert stride * n == stride * (n - 1) + stride;
    }
  }

  lemma {:induction false} UnpaddedPrefix(buf: seq<Byte>, more: seq<Byte>, width: nat, rows: nat, stride: nat)
    requires HoldsFrame(|buf|, width, rows, stride)
    ensures Unpadded(buf + more, width, rows, stride) == Unpadded(buf, width, rows, stride)
    decreases rows
  {
    if rows > 0 {
      RowIsWhole(|buf|, width, rows, stride, rows - 1);
      if rows > 1 { RowIsWhole(|buf|, width, rows, stride, rows - 2); }
      UnpaddedPrefix(buf, more, width, rows - 1, stride);
      SlicePrefix(buf, more, stride * (rows - 1), width);
    }
  }

  lemma SlicePrefix(buf: seq<Byte>, more: seq<Byte>, at: nat, width: nat)
    requires at + width <= |buf|
    ensures Slice(buf + more, at, width) == Slice(buf, at, width)
  {
  }

  lemma DeliveredHolds(rows: seq<seq<Byte>>, pads: seq<seq<Byte>>, width: nat, stride: nat)
    requires Framed(rows, pads, width, stride)
    ensures HoldsFrame(|Delivered(rows, pads)|, width, |rows|, stride)
  {
    if rows != [] { DeliveredSize(rows, pads, width, stride); }
  }

  lemma FramedFront(rows: seq<seq<Byte>>, pads: seq<seq<Byte>>, width: nat, stride: nat)
    requires Framed(rows, pads, width, stride) && rows != []
    ensures var n := |rows| - 1; Framed(rows[..n], pads[..n], width, stride) && |rows[n]| == width
  {
  }

  /** Whatever the padding, unpadding a delivered frame gives its rows. */
  lemma {:induction false} UnpaddedDelivered(rows: seq<seq<Byte>>, pads: seq<seq<Byte>>, width: nat, stride: nat)
    requires Framed(rows, pads, width, stride)
    ensures Unpadded(Delivered(rows, pads), width, |rows|, stride) == Flat(rows)
    decreases |rows|
  {
    if rows != [] {
      var n := |rows| - 1;
      FramedFront(rows, pads, width, stride);
      UnpaddedDelivered(rows[..n], pads[..n], width, stride);
      DeliveredHolds(rows[..n], pads[..n], width, stride);
      FrontSize(rows, pads, width, stride);
      OneMoreRow(Delivered(rows[..n], pads[..n]), rows[n], pads[n], width, n, stride);
    }
  }

  lemma OneMoreRow(front: seq<Byte>, row: seq<Byte>, pad: seq<Byte>, width: nat, n: nat, stride: nat)
    requires HoldsFrame(|front|, width, n, stride) && |front| == stride * n && |row| == width
    ensures Unpadded(front + row + pad, width, n + 1, stride) == Unpadded(front, width, n, stride) + row
  {
    UnpaddedPrefix(front, row + pad, width, n, stride);
    SliceAfter(front, row, pad);
    assert front + row + pad == front + (row + pad);
  }

  lemma SliceAfter(front: seq<Byte>, row: seq<Byte>, pad: seq<Byte>)
    ensures Slice(front + (row + pad), |front|, |row|) == row
  {
  }

  /** A delivered GREY frame, expanded to RGB and reduced to luma, is the frame. */
  lemma GreyRoundTrip(rows: seq<seq<Byte>>, pads: seq<seq<Byte>>, width: nat, stride: nat)
    requires Framed(rows, pads, width, stride)
    ensures HoldsFrame(|Delivered(rows, pads)|, width, |rows|, stride)
    ensures RgbToGray(Replicated(Unpadded(Delivered(rows, pads), width, |rows|, stride))) == Flat(rows)
  {
    DeliveredHolds(rows, pads, width, stride);
    UnpaddedDelivered(rows, pads, width, stride);
    GrayOfReplicated(Flat(rows));
  }

  // ------------------------------------------------------------------- neutral chroma

  lemma NeutralPixel(y: Byte)
    ensures BT601.pixel(y, BT601.chroma(128, 128)) == Grey(y)
  {
  }

  /** An image without colour decodes to its own luma plane. */
  lemma {:induction false} NeutralImageIsGrey(img: Image, row: nat, col: nat)
    requires forall r: nat, c: nat :: img.u(r, c) == 128
    requires forall r: nat, c: nat :: img.v(r, c) == 128
    ensures ImagePixels(BT601, img, row, col) == Greyed(Grid(img.y, img.w, row, col))
    decreases row, col
  {
    if col > 0 {
      NeutralImageIsGrey(img, row, col - 1);
      NeutralPixel(img.y(row, col - 1));
      assert img.u(row / 2, (col - 1) / 2) == 128 && img.v(row / 2, (col - 1) / 2) == 128;
      var front := Grid(img.y, img.w, row, col - 1);
      assert Greyed(front + [img.y(row, col - 1)]) == Greyed(front) + [Grey(img.y(row, col - 1))];
    } else if row > 0 {
      NeutralImageIsGrey(img, row - 1, img.w);
    }
  }

  // ------------------------------------------------------------- colour against BT.601

  /** A channel value in millionths of a level, held to the range of a byte. */
  function Held(millionths: int): int {
    if millionths < 0 then 0 else if millionths > 255_000_000 then 255_000_000 else millionths
  }

  /** Within a tenth of a level above and a level and a tenth below the exact value. */
  predicate Near(value: Byte, exact: int) {
    Held(exact) - 1_100_000 <= 1_000_000 * value <= Held(exact) + 100_000
  }

  lemma ChannelNear(y: Byte, chroma: int, exact: int)
    requires -100_000 * 1024 <= 1_000_000 * chroma - 1024 * (exact - 1_000_000 * y) <= 100_000 * 1024
    ensures Near(Clamp((y * 1024 + chroma) / 1024), exact)
  {
    var q := (y * 1024 + chroma) / 1024;
    assert 1024 * q <= y * 1024 + chroma < 1024 * q + 1024;
  }

  lemma RedNear(y: Byte, dv: int)
    requires -128 <= dv < 128
    ensures Near(Clamp((y * 1024 + C_RV * dv) / 1024), 1_000_000 * y + 1_402_000 * dv)
  {
    ChannelNear(y, C_RV * dv, 1_000_000 * y + 1_402_000 * dv);
  }

  lemma GreenNear(y: Byte, du: int, dv: int)
    requires -128 <= du < 128 && -128 <= dv < 128
    ensures Near(Clamp((y * 1024 - (C_GU * du + C_GV * dv)) / 1024), 1_000_000 * y - 344_136 * du - 714_136 * dv)
  {
    ChannelNear(y, -(C_GU * du + C_GV * dv), 1_000_000 * y - 344_136 * du - 714_136 * dv);
  }

  lemma BlueNear(y: Byte, du: int)
    requires -128 <= du < 128
    ensures Near(Clamp((y * 1024 + C_BU * du) / 1024), 1_000_000 * y + 1_772_000 * du)
  {
    ChannelNear(y, C_BU * du, 1_000_000 * y + 1_772_000 * du);
  }

  lemma Channels(y: Byte, u: Byte, v: Byte)
    ensures var p := PixelOf(y, ChromaQ10(u, v));
            && p.r == Clamp((y * 1024 + C_RV * (v - 128)) / 1024)
            && p.g == Clamp((y * 1024 - (C_GU * (u - 128) + C_GV * (v - 128))) / 1024)
            && p.b == Clamp((y * 1024 + C_BU * (u - 128)) / 1024)
  {
  }

  /** The Q10 conversion follows the BT.601 matrix in each channel. */
  lemma RedFollowsBt601(y: Byte, u: Byte, v: Byte)
    ensures Near(PixelOf(y, ChromaQ10(u, v)).r, 1_000_000 * y + 1_402_000 * (v - 128))
  {
    Channels(y, u, v);
    RedNear(y, v - 128);
  }

  lemma GreenFollowsBt601(y: Byte, u: Byte, v: Byte)
    ensures Near(PixelOf(y, ChromaQ10(u, v)).g, 1_000_000 * y - 344_136 * (u - 128) - 714_136 * (v - 128))
  {
    Channels(y, u, v);
    GreenNear(y, u - 128, v - 128);
  }

  lemma BlueFollowsBt601(y: Byte, u: Byte, v: Byte)
    ensures Near(PixelOf(y, ChromaQ10(u, v)).b, 1_000_000 * y + 1_772_000 * (u - 128))
  {
    Channels(y, u, v);
    BlueNear(y, u - 128);
  }
}
