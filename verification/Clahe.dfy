/**
  CLAHE: the 8x8 tile grid, each tile's clipped histogram and tone map, and the
  interpolation between tile maps. Tile edges are exact; the tone map and the
  interpolation are taken over the reals, rounding down.
 */
module Clahe {
  import opened Basics

  const TILES: nat := 8

  /** An image by position. */
  type Plane = (nat, nat) -> Byte

  /** A rectangle of rows `y0..y1` and columns `x0..x1`. */
  datatype Box = Box(y0: nat, y1: nat, x0: nat, x1: nat)

  /** Where the `k`-th of eight equal parts of `n` starts. */
  function Edge(n: nat, k: nat): nat { k * n / 8 }

  function Tile(w: nat, h: nat, ty: nat, tx: nat): Box {
    Box(Edge(h, ty), Edge(h, ty + 1), Edge(w, tx), Edge(w, tx + 1))
  }

  lemma EdgesSpan(n: nat)
    ensures Edge(n, 0) == 0 && Edge(n, TILES) == n
    ensures forall k: nat :: Edge(n, k) <= Edge(n, k + 1)
  {
    forall k: nat
      ensures Edge(n, k) <= Edge(n, k + 1)
    {
      assert (k + 1) * n == k * n + n;
    }
  }

  // ------------------------------------------------------------------ counting pixels

  type Kind = Byte -> bool

  function RowTally(px: Plane, row: nat, x0: nat, x1: nat, kind: Kind): nat
    decreases x1
  {
    if x1 <= x0 then 0
    else RowTally(px, row, x0, x1 - 1, kind) + if kind(px(row, x1 - 1)) then 1 else 0
  }

  /** How many pixels of a kind a rectangle holds. */
  function Tally(px: Plane, b: Box, kind: Kind): nat
    decreases b.y1
  {
    if b.y1 <= b.y0 then 0
    else Tally(px, b.(y1 := b.y1 - 1), kind) + RowTally(px, b.y1 - 1, b.x0, b.x1, kind)
  }

  lemma {:induction false} RowSplit(px: Plane, row: nat, a: nat, b: nat, c: nat, kind: Kind)
    requires a <= b <= c
    ensures RowTally(px, row, a, b, kind) + RowTally(px, row, b, c, kind) == RowTally(px, row, a, c, kind)
    decreases c
  {
    if b < c { RowSplit(px, row, a, b, c - 1, kind); }
  }

  lemma {:induction false} ColumnsSplit(px: Plane, b: Box, mid: nat, kind: Kind)
    requires b.x0 <= mid <= b.x1
    ensures Tally(px, b.(x1 := mid), kind) + Tally(px, b.(x0 := mid), kind) == Tally(px, b, kind)
    decreases b.y1
  {
    if b.y0 < b.y1 {
      var up := b.(y1 := b.y1 - 1);
      ColumnsSplit(px, up, mid, kind);
      RowSplit(px, b.y1 - 1, b.x0, mid, b.x1, kind);
      assert b.(x1 := mid).(y1 := b.y1 - 1) == up.(x1 := mid);
      assert b.(x0 := mid).(y1 := b.y1 - 1) == up.(x0 := mid);
    }
  }

  lemma {:induction false} RowsSplit(px: Plane, b: Box, mid: nat, kind: Kind)
    requires b.y0 <= mid <= b.y1
    ensures Tally(px, b.(y1 := mid), kind) + Tally(px, b.(y0 := mid), kind) == Tally(px, b, kind)
    decreases b.y1
  {
    if mid < b.y1 {
      var up := b.(y1 := b.y1 - 1);
      RowsSplit(px, up, mid, kind);
      assert b.(y0 := mid).(y1 := b.y1 - 1) == up.(y0 := mid);
      assert up.(y1 := mid) == b.(y1 := mid);
    }
  }

  /** The tallies of the first `k` tiles of a row of tiles, added up. */
  function AcrossTiles(px: Plane, w: nat, h: nat, ty: nat, k: nat, kind: Kind): nat {
    if k == 0 then 0 else AcrossTiles(px, w, h, ty, k - 1, kind) + Tally(px, Tile(w, h, ty, k - 1), kind)
  }

  function AllTiles(px: Plane, w: nat, h: nat, k: nat, kind: Kind): nat {
    if k == 0 then 0 else AllTiles(px, w, h, k - 1, kind) + AcrossTiles(px, w, h, k - 1, TILES, kind)
  }

  lemma {:induction false} AcrossIsStrip(px: Plane, w: nat, h: nat, ty: nat, k: nat, kind: Kind)
    ensures AcrossTiles(px, w, h, ty, k, kind) == Tally(px, Box(Edge(h, ty), Edge(h, ty + 1), 0, Edge(w, k)), kind)
    decreases k
  {
    EdgesSpan(w);
    var strip := Box(Edge(h, ty), Edge(h, ty + 1), 0, Edge(w, k));
    if k == 0 {
      NoColumns(px, strip, kind);
    } else {
      AcrossIsStrip(px, w, h, ty, k - 1, kind);
      assert Edge(w, k - 1) <= Edge(w, k - 1 + 1);
      ColumnsSplit(px, strip, Edge(w, k - 1), kind);
    }
  }

  lemma {:induction false} NoColumns(px: Plane, b: Box, kind: Kind)
    requires b.x1 <= b.x0
    ensures Tally(px, b, kind) == 0
    decreases b.y1
  {
    if b.y0 < b.y1 { NoColumns(px, b.(y1 := b.y1 - 1), kind); }
  }

  lemma {:induction false} AllIsPart(px: Plane, w: nat, h: nat, k: nat, kind: Kind)
    ensures AllTiles(px, w, h, k, kind) == Tally(px, Box(0, Edge(h, k), 0, w), kind)
    decreases k
  {
    EdgesSpan(h);
    EdgesSpan(w);
    if k > 0 {
      AllIsPart(px, w, h, k - 1, kind);
      AcrossIsStrip(px, w, h, k - 1, TILES, kind);
      assert Edge(h, k - 1) <= Edge(h, k - 1 + 1);
      RowsSplit(px, Box(0, Edge(h, k), 0, w), Edge(h, k - 1), kind);
    }
  }

  /** The 64 tiles partition the image: pixels of every kind are counted exactly once between them. */
  lemma TilesPartition(px: Plane, w: nat, h: nat, kind: Kind)
    ensures AllTiles(px, w, h, TILES, kind) == Tally(px, Box(0, h, 0, w), kind)
  {
    EdgesSpan(h);
    AllIsPart(px, w, h, TILES, kind);
  }

  function Anything(): Kind { (v: Byte) => true }

  function Is(v: Byte): Kind { (x: Byte) => x == v }

  lemma {:induction false} AreaOfRow(px: Plane, row: nat, x0: nat, x1: nat)
    requires x0 <= x1
    ensures RowTally(px, row, x0, x1, Anything()) == x1 - x0
    decreases x1
  {
    if x0 < x1 { AreaOfRow(px, row, x0, x1 - 1); }
  }

  lemma {:induction false} Area(px: Plane, b: Box)
    requires b.y0 <= b.y1 && b.x0 <= b.x1
    ensures Tally(px, b, Anything()) == (b.y1 - b.y0) * (b.x1 - b.x0)
    decreases b.y1
  {
    if b.y0 < b.y1 {
      Area(px, b.(y1 := b.y1 - 1));
      AreaOfRow(px, b.y1 - 1, b.x0, b.x1);
      assert (b.y1 - b.y0) * (b.x1 - b.x0) == (b.y1 - 1 - b.y0) * (b.x1 - b.x0) + (b.x1 - b.x0);
    }
  }

  /** The tile counts add up to the number of pixels. */
  lemma TileCountsAddUp(px: Plane, w: nat, h: nat)
    ensures AllTiles(px, w, h, TILES, Anything()) == h * w
  {
    TilesPartition(px, w, h, Anything());
    Area(px, Box(0, h, 0, w));
  }

  // ------------------------------------------------------------------ one tile's tone map

  type Hist = h: seq<nat> | |h| == 256 witness seq(256, i => 0)

  /** The sum of the first `n` bins. */
  function Sum(h: seq<nat>, n: nat): nat
    requires n <= |h|
  {
    if n == 0 then 0 else Sum(h, n - 1) + h[n - 1]
  }

  function ClipLimit(count: nat): nat {
    if count / 128 < 1 then 1 else count / 128
  }

  function Clipped(h: seq<nat>, limit: nat): seq<nat> {
    seq(|h|, i requires 0 <= i < |h| => Min(h[i], limit))
  }

  function Excess(h: seq<nat>, limit: nat, n: nat): nat
    requires n <= |h|
  {
    if n == 0 then 0 else Excess(h, limit, n - 1) + (h[n - 1] - Min(h[n - 1], limit))
  }

  function Share(excess: nat, i: nat): nat {
    excess / 256 + if i < excess % 256 then 1 else 0
  }

  function Redistributed(h: seq<nat>, excess: nat): seq<nat> {
    seq(|h|, i requires 0 <= i < |h| => h[i] + Share(excess, i))
  }

  /** A tile's histogram as equalised: clipped, with the excess shared out again. */
  function Limited(h: seq<nat>, limit: nat): seq<nat> {
    Redistributed(Clipped(h, limit), Excess(h, limit, |h|))
  }

  lemma {:induction false} ClipMovesExcess(h: seq<nat>, limit: nat, n: nat)
    requires n <= |h|
    ensures Sum(Clipped(h, limit), n) + Excess(h, limit, n) == Sum(h, n)
    decreases n
  {
    if n > 0 { ClipMovesExcess(h, limit, n - 1); }
  }

  lemma {:induction false} SharesGiven(h: seq<nat>, excess: nat, q: nat, rest: nat, n: nat)
    requires n <= |h| && q == excess / 256 && rest == excess % 256
    ensures Sum(Redistributed(h, excess), n) == Sum(h, n) + n * q + Min(n, rest)
    decreases n
  {
    if n > 0 {
      SharesGiven(h, excess, q, rest, n - 1);
      assert n * q == (n - 1) * q + q;
      assert Redistributed(h, excess)[n - 1] == h[n - 1] + Share(excess, n - 1);
    }
  }

  /** Clipping and redistribution keep the total. */
  lemma LimitedKeepsTotal(h: Hist, limit: nat)
    ensures Sum(Limited(h, limit), 256) == Sum(h, 256)
  {
    var excess := Excess(h, limit, 256);
    ClipMovesExcess(h, limit, 256);
    SharesGiven(Clipped(h, limit), excess, excess / 256, excess % 256, 256);
  }

  /** The first non-zero cumulative count, looking from bin `i` on. */
  function FirstPositive(h: seq<nat>, i: nat): nat
    requires i <= |h|
    decreases |h| - i
  {
    if i == |h| then 0
    else if Sum(h, i + 1) > 0 then Sum(h, i + 1)
    else FirstPositive(h, i + 1)
  }

  function Floor(x: real): int { x.Floor }

  /** One entry of a tone map, from the cumulative counts. */
  function Tone(h: Hist, v: Byte): int {
    var least := FirstPositive(h, 0);
    var denom := SatSub(Sum(h, 256), least);
    if denom == 0 then v
    else Floor(SatSub(Sum(h, v + 1), least) as real / denom as real * 255.0)
  }

  lemma {:induction false} SumGrows(h: seq<nat>, m: nat, n: nat)
    requires m <= n <= |h|
    ensures Sum(h, m) <= Sum(h, n)
    decreases n
  {
    if m < n { SumGrows(h, m, n - 1); }
  }

  lemma DivOrdered(a: real, b: real, d: real)
    requires a <= b && d > 0.0
    ensures a / d <= b / d
  {
    MulNonNegative(b - a, 1.0 / d);
    assert (b - a) * (1.0 / d) == b / d - a / d;
  }

  lemma ScaleOrdered(a: nat, b: nat, denom: nat)
    requires a <= b <= denom && denom > 0
    ensures 0.0 <= a as real / denom as real * 255.0 <= b as real / denom as real * 255.0 <= 255.0
  {
    var d := denom as real;
    DivOrdered(0.0, a as real, d);
    DivOrdered(a as real, b as real, d);
    DivOrdered(b as real, d, d);
  }

  /** Tone maps are monotone, into 0..255. */
  lemma ToneMonotone(h: Hist, u: Byte, v: Byte)
    requires u <= v
    ensures 0 <= Tone(h, u) <= Tone(h, v) <= 255
  {
    var least := FirstPositive(h, 0);
    var denom := SatSub(Sum(h, 256), least);
    SumGrows(h, u + 1, v + 1);
    SumGrows(h, v + 1, 256);
    if denom > 0 {
      ScaleOrdered(SatSub(Sum(h, u + 1), least), SatSub(Sum(h, v + 1), least), denom);
    }
  }

  /** The brightest level maps to the brightest tone. */
  lemma ToneReachesWhite(h: Hist)
    ensures Tone(h, 255) == 255
  {
    var denom := SatSub(Sum(h, 256), FirstPositive(h, 0));
    if denom > 0 {
      assert denom as real / denom as real == 1.0;
    }
  }

  type Tones = Byte -> Byte

  ghost predicate Monotone(t: Tones) {
    forall u, v :: u <= v ==> t(u) <= t(v)
  }

  function TileHist(px: Plane, b: Box): Hist {
    seq(256, v requires 0 <= v < 256 => Tally(px, b, Is(v)))
  }

  /** One kind of pixel made of two others. */
  ghost predicate Splits(whole: Kind, a: Kind, b: Kind) {
    forall v :: (whole(v) <==> a(v) || b(v)) && !(a(v) && b(v))
  }

  lemma {:induction false} RowTallyAdds(px: Plane, row: nat, x0: nat, x1: nat, whole: Kind, a: Kind, b: Kind)
    requires Splits(whole, a, b)
    ensures RowTally(px, row, x0, x1, whole) == RowTally(px, row, x0, x1, a) + RowTally(px, row, x0, x1, b)
    decreases x1
  {
    if x0 < x1 { RowTallyAdds(px, row, x0, x1 - 1, whole, a, b); }
  }

  lemma {:induction false} TallyAdds(px: Plane, box: Box, whole: Kind, a: Kind, b: Kind)
    requires Splits(whole, a, b)
    ensures Tally(px, box, whole) == Tally(px, box, a) + Tally(px, box, b)
    decreases box.y1
  {
    if box.y0 < box.y1 {
      TallyAdds(px, box.(y1 := box.y1 - 1), whole, a, b);
      RowTallyAdds(px, box.y1 - 1, box.x0, box.x1, whole, a, b);
    }
  }

  function Below(n: nat): Kind { (v: Byte) => v < n }

  lemma {:induction false} BinsCountBelow(px: Plane, b: Box, n: nat)
    requires n <= 256
    ensures Sum(TileHist(px, b), n) == Tally(px, b, Below(n))
    decreases n
  {
    if n == 0 {
      assert Splits(Below(0), Below(0), Below(0));
      TallyAdds(px, b, Below(0), Below(0), Below(0));
    } else {
      BinsCountBelow(px, b, n - 1);
      assert Splits(Below(n), Below(n - 1), Is(n - 1));
      TallyAdds(px, b, Below(n), Below(n - 1), Is(n - 1));
    }
  }

  /** Clipped and redistributed, a tile's histogram still totals its number of pixels. */
  lemma TileTotalIsCount(px: Plane, b: Box, limit: nat)
    ensures Sum(Limited(TileHist(px, b), limit), 256) == Tally(px, b, Anything())
  {
    LimitedKeepsTotal(TileHist(px, b), limit);
    BinsCountBelow(px, b, 256);
    assert Splits(Anything(), Below(256), Below(0));
    TallyAdds(px, b, Anything(), Below(256), Below(0));
    BinsCountBelow(px, b, 0);
  }

  /** The map of one tile: the identity when it holds no pixel. */
  function TileTones(px: Plane, b: Box): (t: Tones) {
    var count := Tally(px, b, Anything());
    if count == 0 then (v: Byte) => v
    else
      var h := Limited(TileHist(px, b), ClipLimit(count));
      (v: Byte) => ToneByte(h, v)
  }

  function ToneByte(h: Hist, v: Byte): Byte {
    ToneMonotone(h, v, v);
    Tone(h, v)
  }

  lemma TileTonesMonotone(px: Plane, b: Box)
    ensures Monotone(TileTones(px, b))
  {
    var count := Tally(px, b, Anything());
    if count > 0 {
      var h := Limited(TileHist(px, b), ClipLimit(count));
      forall u: Byte, v: Byte | u <= v
        ensures TileTones(px, b)(u) <= TileTones(px, b)(v)
      {
        ToneMonotone(h, u, v);
      }
    }
  }

  // ------------------------------------------------------------------ between the tiles

  function ClampTile(k: int): nat {
    if k < 0 then 0 else if k > 7 then 7 else k
  }

  function Clamp01(x: real): real {
    if x < 0.0 then 0.0 else if x > 1.0 then 1.0 else x
  }

  /** The position of pixel `i` of `n` in units of tiles, tile centres on whole numbers. */
  function TilePos(n: nat, i: nat): real
    requires n > 0
  {
    (i as real + 0.5) / (n as real / 8.0) - 0.5
  }

  function Mix(a: real, b: real, t: real): real { a * (1.0 - t) + b * t }

  /** The interpolated value at a position, for a pixel value, before rounding. */
  function Blend(v00: Byte, v10: Byte, v01: Byte, v11: Byte, ax: real, ay: real): real {
    Mix(Mix(v00 as real, v10 as real, ax), Mix(v01 as real, v11 as real, ax), ay)
  }

  lemma MulNonNegative(a: real, k: real)
    requires a >= 0.0 && k >= 0.0
    ensures a * k >= 0.0
  {
  }

  lemma MixOrdered(a: real, b: real, c: real, d: real, t: real)
    requires a <= c && b <= d && 0.0 <= t <= 1.0
    ensures Mix(a, b, t) <= Mix(c, d, t)
  {
    MulNonNegative(c - a, 1.0 - t);
    MulNonNegative(d - b, t);
    assert Mix(c, d, t) - Mix(a, b, t) == (c - a) * (1.0 - t) + (d - b) * t;
  }

  lemma MixOfSame(a: real, t: real)
    ensures Mix(a, a, t) == a
  {
  }

  lemma BlendOrdered(v00: Byte, v10: Byte, v01: Byte, v11: Byte,
                     w00: Byte, w10: Byte, w01: Byte, w11: Byte, ax: real, ay: real)
    requires v00 <= w00 && v10 <= w10 && v01 <= w01 && v11 <= w11
    requires 0.0 <= ax <= 1.0 && 0.0 <= ay <= 1.0
    ensures Blend(v00, v10, v01, v11, ax, ay) <= Blend(w00, w10, w01, w11, ax, ay)
  {
    MixOrdered(v00 as real, v10 as real, w00 as real, w10 as real, ax);
    MixOrdered(v01 as real, v11 as real, w01 as real, w11 as real, ax);
    MixOrdered(Mix(v00 as real, v10 as real, ax), Mix(v01 as real, v11 as real, ax),
               Mix(w00 as real, w10 as real, ax), Mix(w01 as real, w11 as real, ax), ay);
  }

  lemma BlendOfSame(v: Byte, ax: real, ay: real)
    ensures Blend(v, v, v, v, ax, ay) == v as real
  {
    MixOfSame(v as real, ax);
    MixOfSame(v as real, ay);
  }

  /** Between a lower and an upper bound of the four tile values. */
  lemma BlendBetween(v00: Byte, v10: Byte, v01: Byte, v11: Byte, lo: Byte, hi: Byte, ax: real, ay: real)
    requires lo <= v00 <= hi && lo <= v10 <= hi && lo <= v01 <= hi && lo <= v11 <= hi
    requires 0.0 <= ax <= 1.0 && 0.0 <= ay <= 1.0
    ensures lo as real <= Blend(v00, v10, v01, v11, ax, ay) <= hi as real
  {
    BlendOrdered(lo, lo, lo, lo, v00, v10, v01, v11, ax, ay);
    BlendOrdered(v00, v10, v01, v11, hi, hi, hi, hi, ax, ay);
    BlendOfSame(lo, ax, ay);
    BlendOfSame(hi, ax, ay);
  }

  /** Tone maps by tile row and tile column. */
  type Maps = (nat, nat) -> Tones

  /** The four tiles around a pixel, and how far between them it is. */
  datatype Around = Around(ty0: nat, ty1: nat, tx0: nat, tx1: nat, ax: real, ay: real)

  function Surroundings(w: nat, h: nat, row: nat, col: nat): (a: Around)
    requires w > 0 && h > 0
    ensures a.ty0 < TILES && a.ty1 < TILES && a.tx0 < TILES && a.tx1 < TILES
    ensures 0.0 <= a.ax <= 1.0 && 0.0 <= a.ay <= 1.0
  {
    var fy, fx := TilePos(h, row), TilePos(w, col);
    var tx0, ty0 := ClampTile(Floor(fx)), ClampTile(Floor(fy));
    Around(ty0, if ty0 < 7 then ty0 + 1 else 7, tx0, if tx0 < 7 then tx0 + 1 else 7,
           Clamp01(fx - tx0 as real), Clamp01(fy - ty0 as real))
  }

  function Blended(maps: Maps, a: Around, v: Byte): real {
    Blend(maps(a.ty0, a.tx0)(v), maps(a.ty0, a.tx1)(v), maps(a.ty1, a.tx0)(v), maps(a.ty1, a.tx1)(v), a.ax, a.ay)
  }

  lemma BlendedInRange(maps: Maps, a: Around, v: Byte)
    requires 0.0 <= a.ax <= 1.0 && 0.0 <= a.ay <= 1.0
    ensures 0.0 <= Blended(maps, a, v) <= 255.0
  {
    BlendBetween(maps(a.ty0, a.tx0)(v), maps(a.ty0, a.tx1)(v), maps(a.ty1, a.tx0)(v), maps(a.ty1, a.tx1)(v),
                 0, 255, a.ax, a.ay);
  }

  /** The output for a pixel of value `v` at a position. */
  function Equalised(maps: Maps, w: nat, h: nat, row: nat, col: nat, v: Byte): Byte
    requires w > 0 && h > 0
  {
    var a := Surroundings(w, h, row, col);
    BlendedInRange(maps, a, v);
    Floor(Blended(maps, a, v))
  }

  /** At any position a brighter pixel never comes out darker. */
  lemma EqualisedMonotone(maps: Maps, w: nat, h: nat, row: nat, col: nat, u: Byte, v: Byte)
    requires w > 0 && h > 0 && u <= v
    requires forall ty: nat, tx: nat :: ty < TILES && tx < TILES ==> Monotone(maps(ty, tx))
    ensures Equalised(maps, w, h, row, col, u) <= Equalised(maps, w, h, row, col, v)
  {
    var a := Surroundings(w, h, row, col);
    assert Monotone(maps(a.ty0, a.tx0)) && Monotone(maps(a.ty0, a.tx1));
    assert Monotone(maps(a.ty1, a.tx0)) && Monotone(maps(a.ty1, a.tx1));
    BlendOrdered(maps(a.ty0, a.tx0)(u), maps(a.ty0, a.tx1)(u), maps(a.ty1, a.tx0)(u), maps(a.ty1, a.tx1)(u),
                 maps(a.ty0, a.tx0)(v), maps(a.ty0, a.tx1)(v), maps(a.ty1, a.tx0)(v), maps(a.ty1, a.tx1)(v),
                 a.ax, a.ay);
  }

  /** The output lies between the values the four surrounding tiles give. */
  lemma EqualisedBetween(maps: Maps, w: nat, h: nat, row: nat, col: nat, v: Byte, lo: Byte, hi: Byte)
    requires w > 0 && h > 0
    requires var a := Surroundings(w, h, row, col);
             forall ty, tx :: (ty == a.ty0 || ty == a.ty1) && (tx == a.tx0 || tx == a.tx1) ==> lo <= maps(ty, tx)(v) <= hi
    ensures lo <= Equalised(maps, w, h, row, col, v) <= hi
  {
    var a := Surroundings(w, h, row, col);
    BlendBetween(maps(a.ty0, a.tx0)(v), maps(a.ty0, a.tx1)(v), maps(a.ty1, a.tx0)(v), maps(a.ty1, a.tx1)(v),
                 lo, hi, a.ax, a.ay);
  }

  /** CLAHE as a whole: at every position of every image, monotone in the pixel value. */
  lemma ClaheMonotone(px: Plane, w: nat, h: nat, row: nat, col: nat, u: Byte, v: Byte)
    requires w > 0 && h > 0 && u <= v
    ensures var maps: Maps := (ty, tx) => TileTones(px, Tile(w, h, ty, tx));
            Equalised(maps, w, h, row, col, u) <= Equalised(maps, w, h, row, col, v)
  {
    var maps: Maps := (ty, tx) => TileTones(px, Tile(w, h, ty, tx));
    forall ty: nat, tx: nat | ty < TILES && tx < TILES
      ensures Monotone(maps(ty, tx))
    {
      TileTonesMonotone(px, Tile(w, h, ty, tx));
    }
    EqualisedMonotone(maps, w, h, row, col, u, v);
  }

  // --------------------------------------------------------- what the steps amount to

  /** The clip limit is twice the average bin, at least one, rounded down. */
  lemma ClipLimitIsTwiceAverage(count: nat)
    ensures var twice := 2.0 * (count as real / 256.0);
            ClipLimit(count) == Floor(if twice > 1.0 then twice else 1.0)
  {
    var q := count / 128;
    assert 2.0 * (count as real / 256.0) == count as real / 128.0;
    assert q as real <= count as real / 128.0 < q as real + 1.0;
  }

  /** What clipping takes is shared out evenly, a level getting at most one more than a later one. */
  lemma LimitedSpreadsEvenly(h: Hist, limit: nat, i: nat, j: nat)
    requires i < j < 256
    ensures var g := Limited(h, limit);
            var a, b := g[i] - Min(h[i], limit), g[j] - Min(h[j], limit);
            0 <= b <= a <= b + 1
  {
  }

  lemma {:induction false} FirstPositiveIs(h: seq<nat>, i: nat, v: nat)
    requires i <= v < |h| && Sum(h, v) == 0 && Sum(h, v + 1) > 0
    ensures FirstPositive(h, i) == Sum(h, v + 1)
    decreases v - i
  {
    if i < v {
      SumGrows(h, i + 1, v);
      FirstPositiveIs(h, i + 1, v);
    }
  }

  lemma {:induction false} NothingClipped(h: seq<nat>, limit: nat, n: nat, i: nat)
    requires i < n <= |h| && Excess(h, limit, n) == 0
    ensures Min(h[i], limit) == h[i]
    decreases n
  {
    if i < n - 1 { NothingClipped(h, limit, n - 1, i); }
  }

  /** Without excess a histogram is left as it is. */
  lemma UnclippedStays(h: Hist, limit: nat)
    requires Excess(h, limit, 256) == 0
    ensures Limited(h, limit) == h
  {
    forall i | 0 <= i < 256
      ensures Limited(h, limit)[i] == h[i]
    {
      NothingClipped(h, limit, 256, i);
    }
  }

  lemma ScaledBack(x: real, d: real)
    requires d > 0.0
    ensures x / d * 255.0 * d == 255.0 * x
  {
    assert x / d * d == x;
  }

  lemma BelowOne(y: real, whole: real, d: real)
    requires y >= 0.0 && d > 0.0 && y * d == whole
    ensures Floor(y) == 0 <==> whole < d
  {
    MulLessOne(y, d);
  }

  lemma AsReal(x: nat, d: nat)
    ensures 255.0 * (x as real) < d as real <==> 255 * x < d
  {
    assert 255.0 * (x as real) == (255 * x) as real;
  }

  lemma MulLessOne(y: real, d: real)
    requires d > 0.0
    ensures y < 1.0 <==> y * d < d
  {
    if y < 1.0 {
      MulPositive(1.0 - y, d);
      assert (1.0 - y) * d == d - y * d;
    } else {
      MulNonNegative(y - 1.0, d);
      assert (y - 1.0) * d == y * d - d;
    }
  }

  lemma MulPositive(a: real, d: real)
    requires a > 0.0 && d > 0.0
    ensures a * d > 0.0
  {
  }

  lemma RoundsToZero(x: nat, d: nat)
    requires x <= d && d > 0
    ensures Floor(x as real / d as real * 255.0) == 0 <==> 255 * x < d
  {
    ScaleOrdered(x, x, d);
    ScaledBack(x as real, d as real);
    BelowOne(x as real / d as real * 255.0, 255.0 * (x as real), d as real);
    AsReal(x, d);
  }

  lemma FloorScales(x: nat, d: nat, t: int)
    requires d > 0 && t == Floor(x as real / d as real * 255.0)
    ensures t * d <= 255 * x < (t + 1) * d
  {
    var y, e, whole := x as real / d as real * 255.0, d as real, 255.0 * (x as real);
    ScaledBack(x as real, e);
    BetweenSteps(y, e, whole, t as real, (t + 1) as real);
    assert (t * d) as real == t as real * e && ((t + 1) * d) as real == (t + 1) as real * e;
    assert (255 * x) as real == whole;
  }

  lemma BetweenSteps(y: real, e: real, whole: real, t: real, next: real)
    requires e > 0.0 && y * e == whole && t <= y < next
    ensures t * e <= whole < next * e
  {
    StepBelow(t, y, e);
    StepAbove(y, next, e);
  }

  lemma StepBelow(a: real, b: real, e: real)
    requires e > 0.0 && a <= b
    ensures a * e <= b * e
  {
    MulNonNegative(b - a, e);
    assert (b - a) * e == b * e - a * e;
  }

  lemma StepAbove(a: real, b: real, e: real)
    requires e > 0.0 && a < b
    ensures a * e < b * e
  {
    MulPositive(b - a, e);
    assert (b - a) * e == b * e - a * e;
  }

  /**
    From the first occupied level `f` on, a tone is the share of the other levels' pixels
    that lie at or below it, scaled to 255 and rounded down; where all pixels have one
    level, every level stays as it is.
   */
  lemma ToneScales(h: Hist, f: nat, v: Byte)
    requires f < 256 && Sum(h, f) == 0 && h[f] > 0
    ensures var others := Sum(h, 256) - h[f];
            && (others == 0 ==> Tone(h, v) == v)
            && (others > 0 && v < f ==> Tone(h, v) == 0)
            && (others > 0 && v >= f ==>
                  Tone(h, v) * others <= 255 * (Sum(h, v + 1) - h[f]) < (Tone(h, v) + 1) * others)
  {
    var others := Sum(h, 256) - h[f];
    FirstPositiveIs(h, 0, f);
    SumGrows(h, f + 1, 256);
    if others > 0 {
      if v < f { SumGrows(h, v + 1, f); } else { SumGrows(h, f + 1, v + 1); }
      FloorScales(SatSub(Sum(h, v + 1), h[f]), others, Tone(h, v));
    }
  }

  /** A tile without pixels changes nothing. */
  lemma EmptyTileIsIdentity(px: Plane, b: Box, v: Byte)
    requires b.y1 <= b.y0 || b.x1 <= b.x0
    ensures TileTones(px, b)(v) == v
  {
    if b.x1 <= b.x0 { NoColumns(px, b, Anything()); }
  }

  /** The darkest level of an unclipped histogram maps to black unless it is the only one, and not black itself. */
  lemma DarkestUnclipped(h: Hist, v: Byte)
    requires Sum(h, v) == 0 && h[v] > 0
    ensures Tone(h, v) == 0 <==> v == 0 || Sum(h, 256) > h[v]
  {
    FirstPositiveIs(h, 0, v);
    SumGrows(h, v + 1, 256);
  }

  /** The share of the excess that level 0 gets moves the black point there. */
  lemma DarkestClipped(h: Hist, g: Hist, v: Byte)
    requires v > 0 && g[0] > 0 && g[v] > 0 && Sum(g, 256) == Sum(h, 256)
    ensures Sum(g, v + 1) >= g[0]
    ensures Tone(g, v) == 0 <==> 255 * (Sum(g, v + 1) - g[0]) < Sum(h, 256) - g[0]
  {
    assert Sum(g, 0) == 0 && Sum(g, 1) == g[0];
    FirstPositiveIs(g, 0, 0);
    SumGrows(g, 1, v);
    SumGrows(g, v + 1, 256);
    RoundsToZero(Sum(g, v + 1) - g[0], Sum(g, 256) - g[0]);
  }

  /** Whether the darkest level of a histogram comes out black once limited. */
  predicate DarkestIsBlack(h: Hist, limit: nat, v: Byte) {
    var g := Limited(h, limit);
    || v == 0
    || if Excess(h, limit, 256) == 0 then Sum(h, 256) > h[v]
       else 255 * (Sum(g, v + 1) - g[0]) < Sum(h, 256) - g[0]
  }

  lemma DarkestIsBlackIff(h: Hist, limit: nat, v: Byte)
    requires limit > 0 && Sum(h, v) == 0 && h[v] > 0
    ensures Tone(Limited(h, limit), v) == 0 <==> DarkestIsBlack(h, limit, v)
  {
    var g := Limited(h, limit);
    if Excess(h, limit, 256) == 0 {
      UnclippedStays(h, limit);
      DarkestUnclipped(h, v);
    } else if v > 0 {
      LimitedKeepsTotal(h, limit);
      DarkestClipped(h, g, v);
    } else {
      BlackStays(g);
    }
  }

  /** Level 0 stays black where it is occupied. */
  lemma BlackStays(g: Hist)
    requires g[0] > 0
    ensures Tone(g, 0) == 0
  {
    assert Sum(g, 0) == 0 && Sum(g, 1) == g[0];
    FirstPositiveIs(g, 0, 0);
  }

  /** The darkest level of a tile comes out black exactly if it is level 0, or nothing was
      clipped and the tile holds another level, or the clipped excess that the levels
      from 1 up to it got back still rounds down to nothing. */
  lemma TileDarkestIsBlackIff(px: Plane, b: Box, v: Byte)
    requires Tally(px, b, Below(v)) == 0 && Tally(px, b, Is(v)) > 0
    ensures TileTones(px, b)(v) == 0 <==>
            DarkestIsBlack(TileHist(px, b), ClipLimit(Tally(px, b, Anything())), v)
  {
    BinsCountBelow(px, b, v);
    KindWithin(px, b, v);
    DarkestIsBlackIff(TileHist(px, b), ClipLimit(Tally(px, b, Anything())), v);
  }

  lemma KindWithin(px: Plane, b: Box, v: Byte)
    ensures Tally(px, b, Is(v)) <= Tally(px, b, Anything())
  {
    TileTotalIsCount(px, b, 1);
    LimitedKeepsTotal(TileHist(px, b), 1);
    SumGrows(TileHist(px, b), v + 1, 256);
  }

  // ------------------------------------------------------ a tile whose darkest level is white

  /** Two pixels of level 100. */
  function Pair(): Box { Box(0, 1, 0, 2) }

  function Flat100(): Plane { (r: nat, c: nat) => 100 }

  lemma PairTally(kind: Kind)
    ensures Tally(Flat100(), Pair(), kind) == if kind(100) then 2 else 0
  {
    var px := Flat100();
    assert RowTally(px, 0, 0, 0, kind) == 0;
    assert RowTally(px, 0, 0, 1, kind) == if kind(100) then 1 else 0;
    assert RowTally(px, 0, 0, 2, kind) == if kind(100) then 2 else 0;
    assert Tally(px, Pair().(y1 := 0), kind) == 0;
  }

  lemma {:induction false} ExcessBetween(h: seq<nat>, limit: nat, m: nat, n: nat)
    requires m <= n <= |h|
    ensures 0 <= Excess(h, limit, n) - Excess(h, limit, m) <= Sum(h, n) - Sum(h, m)
    decreases n
  {
    if m < n { ExcessBetween(h, limit, m, n - 1); }
  }

  /** Both pixels are the darkest, one is clipped and returned to level 0, and 100 becomes 255. */
  lemma DarkestCanBeWhite()
    ensures TileTones(Flat100(), Pair())(100) == 255
  {
    var px, b := Flat100(), Pair();
    var h := TileHist(px, b);
    PairTally(Anything());
    PairTally(Is(100));
    PairTally(Below(100));
    PairTally(Below(101));
    PairTally(Below(256));
    BinsCountBelow(px, b, 100);
    BinsCountBelow(px, b, 101);
    BinsCountBelow(px, b, 256);
    PairOfOneLevel(h);
  }

  lemma PairOfOneLevel(h: Hist)
    requires h[100] == 2 && Sum(h, 100) == 0 && Sum(h, 101) == 2 && Sum(h, 256) == 2
    ensures Tone(Limited(h, ClipLimit(2)), 100) == 255
  {
    var g := Limited(h, 1);
    ExcessBetween(h, 1, 0, 100);
    ExcessBetween(h, 1, 101, 256);
    assert Excess(h, 1, 101) == 1 && Excess(h, 1, 256) == 1;
    SumGrows(h, 1, 100);
    assert h[0] == 0 by { assert Sum(h, 1) == Sum(h, 0) + h[0]; }
    assert g[0] == 1;
    assert Sum(g, 0) == 0 && Sum(g, 1) == 1;
    FirstPositiveIs(g, 0, 0);
    LimitedKeepsTotal(h, 1);
    ClipMovesExcess(h, 1, 101);
    SharesGiven(Clipped(h, 1), 1, 0, 1, 101);
    assert Sum(g, 101) == 2;
  }

  /** Between the outermost tile centres the two tiles and the weight give back the position. */
  lemma SurroundingsLocate(w: nat, h: nat, row: nat, col: nat)
    requires w > 0 && h > 0
    ensures var a := Surroundings(w, h, row, col);
            && (0.0 <= TilePos(w, col) < 7.0 ==> a.tx1 == a.tx0 + 1 && a.tx0 as real + a.ax == TilePos(w, col))
            && (TilePos(w, col) < 0.0 ==> a.tx0 == 0 && a.ax == 0.0)
            && (TilePos(w, col) >= 7.0 ==> a.tx0 == a.tx1 == 7)
            && (0.0 <= TilePos(h, row) < 7.0 ==> a.ty1 == a.ty0 + 1 && a.ty0 as real + a.ay == TilePos(h, row))
            && (TilePos(h, row) < 0.0 ==> a.ty0 == 0 && a.ay == 0.0)
            && (TilePos(h, row) >= 7.0 ==> a.ty0 == a.ty1 == 7)
  {
  }
}
