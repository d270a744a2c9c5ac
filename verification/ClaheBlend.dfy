/**
  The interpolation between tile maps against its textbook form: every tile weighs in with
  the product of two hat functions, which fall from one at the tile's centre to nothing one
  tile away, along the rows and along the columns.
 */
module ClaheBlend {
  import opened Basics
  import opened Clahe

  /** The centre of tile `k` along an edge of `n` pixels. */
  function Centre(n: nat, k: nat): real { (k as real + 0.5) * n as real / 8.0 }

  /** The centre of pixel `i`. */
  function Middle(i: nat): real { i as real + 0.5 }

  /** Outside the outermost tile centres a pixel counts as lying on the nearest of them. */
  function Held(n: nat, i: nat): real {
    if Middle(i) < Centre(n, 0) then Centre(n, 0) else if Middle(i) > Centre(n, 7) then Centre(n, 7) else Middle(i)
  }

  function Distance(a: real, b: real): real { if a < b then b - a else a - b }

  /** The weight of tile `k` at pixel `i`: one at its centre, falling to nothing one tile away. */
  function Hat(n: nat, k: nat, i: nat): real
    requires n > 0
  {
    var d := Distance(Held(n, i), Centre(n, k)) / (n as real / 8.0);
    if d < 1.0 then 1.0 - d else 0.0
  }

  /** The first `k` tiles' values, weighted. */
  function Weighed(weight: nat -> real, value: nat -> real, k: nat): real {
    if k == 0 then 0.0 else Weighed(weight, value, k - 1) + weight(k - 1) * value(k - 1)
  }

  /** The tiles of one tile row, each by how near it is along the row. */
  function Across(maps: Maps, w: nat, ty: nat, col: nat, v: Byte): real
    requires w > 0
  {
    Weighed((tx: nat) => Hat(w, tx, col), (tx: nat) => maps(ty, tx)(v) as real, TILES)
  }

  /** All tiles, each by how near it is along the row and along the column. */
  function HatSum(maps: Maps, w: nat, h: nat, row: nat, col: nat, v: Byte): real
    requires w > 0 && h > 0
  {
    Weighed((ty: nat) => Hat(h, ty, row), (ty: nat) => Across(maps, w, ty, col, v), TILES)
  }

  // -------------------------------------------------------------------- in units of tiles

  lemma DivideBack(x: real, n: real)
    requires n > 0.0
    ensures x * n / 8.0 / (n / 8.0) == x
  {
    assert x * n / 8.0 == x * (n / 8.0);
  }

  lemma DivideOrdered(x: real, y: real, d: real)
    requires d > 0.0
    ensures x < y <==> x / d < y / d
    ensures (y - x) / d == y / d - x / d
  {
  }

  /** A position clamped to the tile centres, in units of tiles. */
  function Clamp07(u: real): real { if u < 0.0 then 0.0 else if u > 7.0 then 7.0 else u }

  function Slope(u: real, k: nat): real {
    var d := Distance(Clamp07(u), k as real);
    if d < 1.0 then 1.0 - d else 0.0
  }

  lemma CentreInTiles(n: nat, k: nat)
    requires n > 0
    ensures Centre(n, k) / (n as real / 8.0) == k as real + 0.5
  {
    var x, y := k as real + 0.5, n as real;
    assert Centre(n, k) == x * y / 8.0;
    DivideBack(x, y);
  }

  lemma HeldInTiles(n: nat, i: nat)
    requires n > 0
    ensures Held(n, i) / (n as real / 8.0) == Clamp07(TilePos(n, i)) + 0.5
  {
    var d := n as real / 8.0;
    CentreInTiles(n, 0);
    CentreInTiles(n, 7);
    DivideOrdered(Middle(i), Centre(n, 0), d);
    DivideOrdered(Centre(n, 7), Middle(i), d);
  }

  lemma HatInTiles(n: nat, k: nat, i: nat)
    requires n > 0
    ensures Hat(n, k, i) == Slope(TilePos(n, i), k)
  {
    var d := n as real / 8.0;
    HeldInTiles(n, i);
    CentreInTiles(n, k);
    DivideOrdered(Held(n, i), Centre(n, k), d);
    DivideOrdered(Centre(n, k), Held(n, i), d);
  }

  /** The two tiles on either side of a position and the share of the second. */
  predicate Flanked(u: real, t0: nat, t1: nat, a: real) {
    && t0 == ClampTile(Floor(u)) && t1 == (if t0 < 7 then t0 + 1 else 7) && a == Clamp01(u - t0 as real)
  }

  lemma SlopeAround(u: real, t0: nat, t1: nat, a: real, k: nat)
    requires Flanked(u, t0, t1, a) && k < TILES
    ensures Slope(u, k) == Share(t0, t1, a, k)
  {
  }

  lemma NoWeight(x: real, y: real)
    requires x == 0.0
    ensures x * y == 0.0
  {
  }

  /** A sum in which only two tiles have weight. */
  lemma {:induction false} TwoWeigh(weight: nat -> real, value: nat -> real, t0: nat, t1: nat, k: nat)
    requires forall j: nat :: j < k && j != t0 && j != t1 ==> weight(j) == 0.0
    ensures Weighed(weight, value, k) == (if t0 < k then weight(t0) * value(t0) else 0.0) +
                                         (if t1 < k && t1 != t0 then weight(t1) * value(t1) else 0.0)
    decreases k
  {
    if k > 0 {
      TwoWeigh(weight, value, t0, t1, k - 1);
      if k - 1 != t0 && k - 1 != t1 { NoWeight(weight(k - 1), value(k - 1)); }
    }
  }

  /** The weight of tile `k` between two tiles. */
  function Share(t0: nat, t1: nat, a: real, k: nat): real {
    if k == t0 then (if t0 == t1 then 1.0 else 1.0 - a) else if k == t1 then a else 0.0
  }

  lemma TwoSharesMix(x: real, y: real, t0: nat, t1: nat, a: real)
    requires t0 == t1 ==> x == y
    ensures Share(t0, t1, a, t0) * x + (if t1 != t0 then Share(t0, t1, a, t1) * y else 0.0) == Mix(x, y, a)
  {
    MixOfSame(x, a);
  }

  lemma SharesMix(weight: nat -> real, value: nat -> real, t0: nat, t1: nat, a: real, n: nat)
    requires t0 < n && t1 < n && forall k: nat :: k < n ==> weight(k) == Share(t0, t1, a, k)
    ensures Weighed(weight, value, n) == Mix(value(t0), value(t1), a)
  {
    TwoWeigh(weight, value, t0, t1, n);
    assert weight(t0) == Share(t0, t1, a, t0) && weight(t1) == Share(t0, t1, a, t1);
    TwoSharesMix(value(t0), value(t1), t0, t1, a);
  }

  lemma HatIsShare(n: nat, i: nat, t0: nat, t1: nat, a: real, k: nat)
    requires n > 0 && Flanked(TilePos(n, i), t0, t1, a) && k < TILES
    ensures Hat(n, k, i) == Share(t0, t1, a, k)
  {
    HatInTiles(n, k, i);
    SlopeAround(TilePos(n, i), t0, t1, a, k);
  }

  /** Along one direction, the hats give the linear interpolation. */
  lemma WeighedIsMix(n: nat, i: nat, value: nat -> real, t0: nat, t1: nat, a: real)
    requires n > 0 && Flanked(TilePos(n, i), t0, t1, a)
    ensures Weighed((k: nat) => Hat(n, k, i), value, TILES) == Mix(value(t0), value(t1), a)
  {
    forall k: nat | k < TILES
      ensures Hat(n, k, i) == Share(t0, t1, a, k)
    {
      HatIsShare(n, i, t0, t1, a, k);
    }
    SharesMix((k: nat) => Hat(n, k, i), value, t0, t1, a, TILES);
  }

  /** The interpolated value is the sum of all tile values by their hats. */
  lemma BlendedIsHatSum(maps: Maps, w: nat, h: nat, row: nat, col: nat, v: Byte)
    requires w > 0 && h > 0
    ensures Blended(maps, Surroundings(w, h, row, col), v) == HatSum(maps, w, h, row, col, v)
  {
    var a := Surroundings(w, h, row, col);
    WeighedIsMix(w, col, (tx: nat) => maps(a.ty0, tx)(v) as real, a.tx0, a.tx1, a.ax);
    WeighedIsMix(w, col, (tx: nat) => maps(a.ty1, tx)(v) as real, a.tx0, a.tx1, a.ax);
    WeighedIsMix(h, row, (ty: nat) => Across(maps, w, ty, col, v), a.ty0, a.ty1, a.ay);
  }

  /** CLAHE at a position: the sum of all tile values by their hats, rounded down. */
  lemma EqualisedIsHatSum(maps: Maps, w: nat, h: nat, row: nat, col: nat, v: Byte)
    requires w > 0 && h > 0
    ensures Equalised(maps, w, h, row, col, v) == Floor(HatSum(maps, w, h, row, col, v))
  {
    BlendedIsHatSum(maps, w, h, row, col, v);
  }

  // ---------------------------------------------------------------------- what follows

  lemma {:induction false} WeighedAgrees(weight: nat -> real, value: nat -> real, other: nat -> real, n: nat)
    requires forall k: nat :: k < n ==> weight(k) == 0.0 || value(k) == other(k)
    ensures Weighed(weight, value, n) == Weighed(weight, other, n)
    decreases n
  {
    if n > 0 {
      WeighedAgrees(weight, value, other, n - 1);
      assert weight(n - 1) * value(n - 1) == weight(n - 1) * other(n - 1);
    }
  }

  /** Only tiles less than one tile away, along the row and along the column, matter. */
  lemma OnlyNearTilesMatter(maps: Maps, other: Maps, w: nat, h: nat, row: nat, col: nat, v: Byte)
    requires w > 0 && h > 0
    requires forall ty: nat, tx: nat :: ty < TILES && tx < TILES && Hat(h, ty, row) != 0.0 && Hat(w, tx, col) != 0.0 ==>
               maps(ty, tx)(v) == other(ty, tx)(v)
    ensures Equalised(maps, w, h, row, col, v) == Equalised(other, w, h, row, col, v)
  {
    forall ty: nat | ty < TILES
      ensures Hat(h, ty, row) == 0.0 || Across(maps, w, ty, col, v) == Across(other, w, ty, col, v)
    {
      if Hat(h, ty, row) != 0.0 {
        WeighedAgrees((tx: nat) => Hat(w, tx, col), (tx: nat) => maps(ty, tx)(v) as real,
                      (tx: nat) => other(ty, tx)(v) as real, TILES);
      }
    }
    WeighedAgrees((ty: nat) => Hat(h, ty, row), (ty: nat) => Across(maps, w, ty, col, v),
                  (ty: nat) => Across(other, w, ty, col, v), TILES);
    EqualisedIsHatSum(maps, w, h, row, col, v);
    EqualisedIsHatSum(other, w, h, row, col, v);
  }

  /** Beyond the outermost centres only the outermost tile has weight. */
  lemma HatsBeyond(n: nat, k: nat, i: nat)
    requires n > 0
    ensures Middle(i) <= Centre(n, 0) && k > 0 ==> Hat(n, k, i) == 0.0
    ensures Middle(i) >= Centre(n, 7) && k < 7 ==> Hat(n, k, i) == 0.0
  {
    HatInTiles(n, k, i);
    PlaceInTiles(n, 0, i);
    PlaceInTiles(n, 7, i);
  }

  /** Above the first row of tile centres, only the maps of the first tile row matter. */
  lemma AboveFirstCentres(maps: Maps, other: Maps, w: nat, h: nat, row: nat, col: nat, v: Byte)
    requires w > 0 && h > 0 && Middle(row) <= Centre(h, 0)
    requires forall tx: nat :: tx < TILES ==> maps(0, tx)(v) == other(0, tx)(v)
    ensures Equalised(maps, w, h, row, col, v) == Equalised(other, w, h, row, col, v)
  {
    forall ty: nat, tx: nat | ty < TILES && tx < TILES && Hat(h, ty, row) != 0.0 && Hat(w, tx, col) != 0.0
      ensures maps(ty, tx)(v) == other(ty, tx)(v)
    {
      HatsBeyond(h, ty, row);
    }
    OnlyNearTilesMatter(maps, other, w, h, row, col, v);
  }

  /** A pixel against a tile centre, in pixels and in units of tiles. */
  lemma PlaceInTiles(n: nat, k: nat, i: nat)
    requires n > 0
    ensures Middle(i) < Centre(n, k) <==> TilePos(n, i) < k as real
    ensures Centre(n, k) < Middle(i) <==> k as real < TilePos(n, i)
    ensures (Middle(i) - Centre(n, k)) / (n as real / 8.0) == TilePos(n, i) - k as real
  {
    CentreInTiles(n, k);
    DivideOrdered(Middle(i), Centre(n, k), n as real / 8.0);
    DivideOrdered(Centre(n, k), Middle(i), n as real / 8.0);
  }

  /** Pixel `i` lies the share `t` of the way from the centre of tile `k` to the next. */
  predicate Between(n: nat, k: nat, i: nat, t: real) {
    k < 7 && 0.0 <= t < 1.0 && Middle(i) == Centre(n, k) + t * (n as real / 8.0)
  }

  lemma BetweenCentres(n: nat, k: nat, i: nat, t: real)
    requires n > 0 && Between(n, k, i, t)
    ensures Flanked(TilePos(n, i), k, k + 1, t)
  {
    var d := n as real / 8.0;
    CentreInTiles(n, k);
    assert Middle(i) / d == Centre(n, k) / d + t;
  }

  lemma RowsBlend(x: Byte, y: Byte, ax: real, ay: real)
    ensures Blend(x, y, x, y, ax, ay) == x as real * (1.0 - ax) + y as real * ax
  {
    MixOfSame(Mix(x as real, y as real, ax), ay);
  }

  lemma ColumnsBlend(x: Byte, y: Byte, ax: real, ay: real)
    ensures Blend(x, x, y, y, ax, ay) == x as real * (1.0 - ay) + y as real * ay
  {
    MixOfSame(x as real, ax);
    MixOfSame(y as real, ax);
  }

  lemma RowsAlikeAt(maps: Maps, a: Around, v: Byte, k: nat, t: real)
    requires t == a.ax
    requires a.ty0 < TILES && a.ty1 < TILES && a.tx0 == k && a.tx1 == k + 1 && k < 7
    requires forall ty: nat, tx: nat :: ty < TILES && tx < TILES ==> maps(ty, tx)(v) == maps(0, tx)(v)
    ensures Blended(maps, a, v) == maps(0, k)(v) as real * (1.0 - t) + maps(0, k + 1)(v) as real * t
  {
    RowsBlend(maps(0, k)(v), maps(0, k + 1)(v), a.ax, a.ay);
  }

  lemma ColumnsAlikeAt(maps: Maps, a: Around, v: Byte, k: nat, t: real)
    requires t == a.ay
    requires a.tx0 < TILES && a.tx1 < TILES && a.ty0 == k && a.ty1 == k + 1 && k < 7
    requires forall ty: nat, tx: nat :: ty < TILES && tx < TILES ==> maps(ty, tx)(v) == maps(ty, 0)(v)
    ensures Blended(maps, a, v) == maps(k, 0)(v) as real * (1.0 - t) + maps(k + 1, 0)(v) as real * t
  {
    ColumnsBlend(maps(k, 0)(v), maps(k + 1, 0)(v), a.ax, a.ay);
  }

  lemma ColumnPlace(w: nat, h: nat, row: nat, col: nat, k: nat, t: real) returns (a: Around)
    requires w > 0 && h > 0 && Between(w, k, col, t)
    ensures a == Surroundings(w, h, row, col) && a.tx0 == k && a.tx1 == k + 1 && a.ax == t
  {
    BetweenCentres(w, k, col, t);
    a := Surroundings(w, h, row, col);
  }

  lemma RowPlace(w: nat, h: nat, row: nat, col: nat, k: nat, t: real) returns (a: Around)
    requires w > 0 && h > 0 && Between(h, k, row, t)
    ensures a == Surroundings(w, h, row, col) && a.ty0 == k && a.ty1 == k + 1 && a.ay == t
  {
    BetweenCentres(h, k, row, t);
    a := Surroundings(w, h, row, col);
  }

  lemma EqualisedAs(maps: Maps, w: nat, h: nat, row: nat, col: nat, v: Byte, a: Around, x: real)
    requires w > 0 && h > 0 && a == Surroundings(w, h, row, col) && Blended(maps, a, v) == x
    ensures Equalised(maps, w, h, row, col, v) == Floor(x)
  {
  }

  /** Where the maps do not depend on the tile row, two neighbouring tile columns are mixed by the pixel's column. */
  lemma RowsAlike(maps: Maps, w: nat, h: nat, row: nat, col: nat, v: Byte, k: nat, t: real)
    requires w > 0 && h > 0 && Between(w, k, col, t)
    requires forall ty: nat, tx: nat :: ty < TILES && tx < TILES ==> maps(ty, tx)(v) == maps(0, tx)(v)
    ensures Equalised(maps, w, h, row, col, v) ==
            Floor(maps(0, k)(v) as real * (1.0 - t) + maps(0, k + 1)(v) as real * t)
  {
    var a := ColumnPlace(w, h, row, col, k, t);
    var x := maps(0, k)(v) as real * (1.0 - t) + maps(0, k + 1)(v) as real * t;
    RowsAlikeAt(maps, a, v, k, t);
    EqualisedAs(maps, w, h, row, col, v, a, x);
  }

  /** Where they do not depend on the tile column, two neighbouring tile rows by the pixel's row. */
  lemma ColumnsAlike(maps: Maps, w: nat, h: nat, row: nat, col: nat, v: Byte, k: nat, t: real)
    requires w > 0 && h > 0 && Between(h, k, row, t)
    requires forall ty: nat, tx: nat :: ty < TILES && tx < TILES ==> maps(ty, tx)(v) == maps(ty, 0)(v)
    ensures Equalised(maps, w, h, row, col, v) ==
            Floor(maps(k, 0)(v) as real * (1.0 - t) + maps(k + 1, 0)(v) as real * t)
  {
    var a := RowPlace(w, h, row, col, k, t);
    var x := maps(k, 0)(v) as real * (1.0 - t) + maps(k + 1, 0)(v) as real * t;
    ColumnsAlikeAt(maps, a, v, k, t);
    EqualisedAs(maps, w, h, row, col, v, a, x);
  }

  lemma AtCentre(n: nat, k: nat, i: nat)
    requires n > 0 && k < TILES && Middle(i) == Centre(n, k)
    ensures Flanked(TilePos(n, i), k, if k < 7 then k + 1 else 7, 0.0)
  {
    PlaceInTiles(n, k, i);
  }

  lemma MixNone(x: real, y: real)
    ensures Mix(x, y, 0.0) == x
  {
  }

  /** At the centre of a tile the output is the tile's own map. */
  lemma CentreKeepsOwnMap(maps: Maps, w: nat, h: nat, row: nat, col: nat, v: Byte, ty: nat, tx: nat)
    requires w > 0 && h > 0 && ty < TILES && tx < TILES
    requires Middle(row) == Centre(h, ty) && Middle(col) == Centre(w, tx)
    ensures Equalised(maps, w, h, row, col, v) == maps(ty, tx)(v)
  {
    var a := Surroundings(w, h, row, col);
    AtCentre(h, ty, row);
    AtCentre(w, tx, col);
    var top := Mix(maps(ty, tx)(v) as real, maps(ty, a.tx1)(v) as real, 0.0);
    MixNone(maps(ty, tx)(v) as real, maps(ty, a.tx1)(v) as real);
    MixNone(top, Mix(maps(a.ty1, tx)(v) as real, maps(a.ty1, a.tx1)(v) as real, 0.0));
  }

  /** A pixel belongs to the tile in which its far corner lies, edges counting to the tile before them. */
  lemma TileHoldsIff(w: nat, h: nat, ty: nat, tx: nat, row: nat, col: nat)
    ensures var b := Tile(w, h, ty, tx);
            b.y0 <= row < b.y1 && b.x0 <= col < b.x1 <==>
            ty * h < 8 * (row + 1) <= (ty + 1) * h && tx * w < 8 * (col + 1) <= (tx + 1) * w
  {
  }
}
