/**
  The loops of CLAHE over their histogram, cumulative and output arrays, each
  against its specification.
 */
module ClaheRun {
  import opened Basics
  import opened Clahe
  import P = Pixels

  /** A row-major buffer as a plane. */
  function PlaneOf(gray: seq<Byte>, w: nat): Plane {
    (r: nat, c: nat) => if 0 <= r * w + c < |gray| then gray[r * w + c] else 0
  }

  /** The pixels counted once row `row` of a box has been read up to column `col`. */
  function Read(px: Plane, b: Box, row: nat, col: nat, kind: Kind): nat {
    Tally(px, b.(y1 := row), kind) + RowTally(px, row, b.x0, col, kind)
  }

  method Histogram(gray: seq<Byte>, w: nat, h: nat, b: Box) returns (hist: array<nat>, count: nat)
    requires |gray| >= h * w && b.y0 <= b.y1 <= h && b.x0 <= b.x1 <= w
    ensures fresh(hist) && hist.Length == 256
    ensures hist[..] == TileHist(PlaneOf(gray, w), b)
    ensures count == Tally(PlaneOf(gray, w), b, Anything())
  {
    ghost var px := PlaneOf(gray, w);
    hist := new nat[256](_ => 0);
    count := 0;
    for row := b.y0 to b.y1
      invariant forall v: Byte :: hist[v] == Tally(px, b.(y1 := row), Is(v))
      invariant count == Tally(px, b.(y1 := row), Anything())
    {
      for col := b.x0 to b.x1
        invariant forall v: Byte :: hist[v] == Read(px, b, row, col, Is(v))
        invariant count == Read(px, b, row, col, Anything())
      {
        P.CellInside(w, h, row, col);
        var p := gray[row * w + col];
        assert px(row, col) == p;
        hist[p] := hist[p] + 1;
        count := count + 1;
      }
      assert b.(y1 := row + 1).(y1 := row) == b.(y1 := row);
    }
    assert b.(y1 := b.y1) == b;
  }

  method Clip(hist: array<nat>, limit: nat) returns (excess: nat)
    modifies hist
    ensures hist[..] == Clipped(old(hist[..]), limit)
    ensures excess == Excess(old(hist[..]), limit, hist.Length)
  {
    ghost var was := hist[..];
    excess := 0;
    for i := 0 to hist.Length
      invariant excess == Excess(was, limit, i)
      invariant forall j :: 0 <= j < i ==> hist[j] == Min(was[j], limit)
      invariant forall j :: i <= j < hist.Length ==> hist[j] == was[j]
    {
      if hist[i] > limit {
        excess := excess + (hist[i] - limit);
        hist[i] := limit;
      }
    }
  }

  method Redistribute(hist: array<nat>, excess: nat)
    modifies hist
    ensures hist[..] == Redistributed(old(hist[..]), excess)
  {
    ghost var was := hist[..];
    var redist, residual := excess / 256, excess % 256;
    for i := 0 to hist.Length
      invariant forall j :: 0 <= j < i ==> hist[j] == was[j] + Share(excess, j)
      invariant forall j :: i <= j < hist.Length ==> hist[j] == was[j]
    {
      hist[i] := hist[i] + redist;
      if i < residual {
        hist[i] := hist[i] + 1;
      }
    }
  }

  method Cumulate(hist: array<nat>) returns (cdf: array<nat>)
    requires hist.Length == 256
    ensures fresh(cdf) && cdf.Length == 256
    ensures forall i :: 0 <= i < 256 ==> cdf[i] == Sum(hist[..], i + 1)
  {
    cdf := new nat[256];
    cdf[0] := hist[0];
    assert Sum(hist[..], 0) == 0;
    for i := 1 to 256
      invariant forall j :: 0 <= j < i ==> cdf[j] == Sum(hist[..], j + 1)
    {
      cdf[i] := cdf[i - 1] + hist[i];
    }
  }

  method LeastPositive(cdf: array<nat>, ghost h: Hist) returns (least: nat)
    requires cdf.Length == 256 && forall i :: 0 <= i < 256 ==> cdf[i] == Sum(h, i + 1)
    ensures least == FirstPositive(h, 0)
  {
    for i := 0 to 256
      invariant FirstPositive(h, 0) == FirstPositive(h, i)
    {
      if cdf[i] > 0 {
        return cdf[i];
      }
    }
    least := 0;
  }

  method Normalise(cdf: array<nat>, ghost h: Hist) returns (tones: seq<Byte>)
    requires cdf.Length == 256 && forall i :: 0 <= i < 256 ==> cdf[i] == Sum(h, i + 1)
    ensures |tones| == 256 && forall v: Byte :: tones[v] == ToneByte(h, v)
  {
    var least := LeastPositive(cdf, h);
    var denom := SatSub(cdf[255], least);
    tones := [];
    for i := 0 to 256
      invariant |tones| == i && forall v: Byte :: v < i ==> tones[v] == ToneByte(h, v)
    {
      var tone := if denom == 0 then i else Floor(SatSub(cdf[i], least) as real / denom as real * 255.0);
      assert tone == ToneByte(h, i);
      tones := tones + [tone];
    }
  }

  predicate HoldsMap(tones: seq<Byte>, px: Plane, b: Box) {
    |tones| == 256 && forall v: Byte :: tones[v] == TileTones(px, b)(v)
  }

  /** One tile's map. */
  method TileMap(gray: seq<Byte>, w: nat, h: nat, b: Box) returns (tones: seq<Byte>)
    requires |gray| >= h * w && b.y0 <= b.y1 <= h && b.x0 <= b.x1 <= w
    ensures HoldsMap(tones, PlaneOf(gray, w), b)
  {
    var hist, count := Histogram(gray, w, h, b);
    if count == 0 {
      tones := seq(256, i requires 0 <= i < 256 => i as Byte);
    } else {
      ghost var was := hist[..];
      var excess := Clip(hist, ClipLimit(count));
      Redistribute(hist, excess);
      ghost var limited := Limited(was, ClipLimit(count));
      var cdf := Cumulate(hist);
      tones := Normalise(cdf, limited);
    }
  }

  /** The tile maps of an image. */
  function MapsOf(px: Plane, w: nat, h: nat): Maps {
    (ty: nat, tx: nat) => TileTones(px, Tile(w, h, ty, tx))
  }

  /** What the output holds at each position. */
  function OutputAt(px: Plane, w: nat, h: nat, r: nat, c: nat): Byte {
    if w > 0 && h > 0 then Equalised(MapsOf(px, w, h), w, h, r, c, px(r, c)) else 0
  }

  lemma TileInside(n: nat, k: nat)
    requires k < TILES
    ensures Edge(n, k) <= Edge(n, k + 1) <= n
  {
    EdgesSpan(n);
    assert Edge(n, k) <= Edge(n, k + 1);
    assert (k + 1) * n <= 8 * n;
  }

  /** `cdfs[ty * 8 + tx]` is the map of tile (`ty`, `tx`), for the tiles before `n`. */
  predicate HoldMaps(cdfs: seq<seq<Byte>>, px: Plane, w: nat, h: nat, n: nat) {
    && |cdfs| == n
    && (forall k :: 0 <= k < n ==> HoldsMap(cdfs[k], px, Tile(w, h, k / 8, k % 8)))
  }

  lemma OneMoreMap(cdfs: seq<seq<Byte>>, tones: seq<Byte>, px: Plane, w: nat, h: nat, ty: nat, tx: nat)
    requires HoldMaps(cdfs, px, w, h, 8 * ty + tx) && tx < TILES && HoldsMap(tones, px, Tile(w, h, ty, tx))
    ensures HoldMaps(cdfs + [tones], px, w, h, 8 * ty + tx + 1)
  {
    assert (8 * ty + tx) / 8 == ty && (8 * ty + tx) % 8 == tx;
  }

  method AllMaps(gray: seq<Byte>, w: nat, h: nat) returns (cdfs: seq<seq<Byte>>)
    requires |gray| >= h * w
    ensures HoldMaps(cdfs, PlaneOf(gray, w), w, h, 64)
  {
    cdfs := [];
    for ty := 0 to TILES
      invariant HoldMaps(cdfs, PlaneOf(gray, w), w, h, 8 * ty)
    {
      for tx := 0 to TILES
        invariant HoldMaps(cdfs, PlaneOf(gray, w), w, h, 8 * ty + tx)
      {
        TileInside(w, tx);
        TileInside(h, ty);
        var tones := TileMap(gray, w, h, Tile(w, h, ty, tx));
        OneMoreMap(cdfs, tones, PlaneOf(gray, w), w, h, ty, tx);
        cdfs := cdfs + [tones];
      }
    }
  }

  function At(cdfs: seq<seq<Byte>>, ghost px: Plane, w: nat, h: nat, ty: nat, tx: nat, v: Byte): (r: Byte)
    requires HoldMaps(cdfs, px, w, h, 64) && ty < TILES && tx < TILES
    ensures r == MapsOf(px, w, h)(ty, tx)(v)
  {
    assert (ty * 8 + tx) / 8 == ty && (ty * 8 + tx) % 8 == tx;
    assert HoldsMap(cdfs[ty * 8 + tx], px, Tile(w, h, ty, tx));
    cdfs[ty * 8 + tx][v]
  }

  /** A plane holds the output; instantiated only where an `OutputAt` is at hand. */
  ghost predicate IsOutput(cell: Plane, px: Plane, w: nat, h: nat) {
    forall r: nat, c: nat {:trigger OutputAt(px, w, h, r, c)} :: cell(r, c) == OutputAt(px, w, h, r, c)
  }

  /** One output pixel, from the maps of the four tiles around it. */
  method OutputPixel(cdfs: seq<seq<Byte>>, ghost px: Plane, ghost cell: Plane, w: nat, h: nat, row: nat, col: nat, pixel: Byte)
    returns (value: Byte)
    requires w > 0 && h > 0 && HoldMaps(cdfs, px, w, h, 64) && pixel == px(row, col) && IsOutput(cell, px, w, h)
    ensures value == cell(row, col)
  {
    var a := Surroundings(w, h, row, col);
    ghost var maps := MapsOf(px, w, h);
    var v00, v10 := At(cdfs, px, w, h, a.ty0, a.tx0, pixel), At(cdfs, px, w, h, a.ty0, a.tx1, pixel);
    var v01, v11 := At(cdfs, px, w, h, a.ty1, a.tx0, pixel), At(cdfs, px, w, h, a.ty1, a.tx1, pixel);
    BlendedInRange(maps, a, pixel);
    value := Floor(Blend(v00, v10, v01, v11, a.ax, a.ay));
    assert value == OutputAt(px, w, h, row, col);
  }

  /** Row `row` of the output, whose pixels start at `start`. */
  method EqualiseRow(gray: seq<Byte>, cdfs: seq<seq<Byte>>, ghost px: Plane, ghost cell: Plane, w: nat, h: nat, row: nat, start: nat,
                     output: array<Byte>)
    requires w > 0 && h > 0 && start + w <= |gray| && start + w <= output.Length
    requires forall c: nat :: c < w ==> px(row, c) == gray[start + c]
    requires HoldMaps(cdfs, px, w, h, 64) && IsOutput(cell, px, w, h)
    modifies output
    ensures forall i :: 0 <= i < start ==> output[i] == old(output[i])
    ensures forall c: nat :: c < w ==> output[start + c] == cell(row, c)
  {
    for col := 0 to w
      invariant forall i :: 0 <= i < start ==> output[i] == old(output[i])
      invariant forall c: nat :: c < col ==> output[start + c] == cell(row, c)
    {
      var value := OutputPixel(cdfs, px, cell, w, h, row, col, gray[start + col]);
      output[start + col] := value;
    }
  }

  lemma PlaneRow(gray: seq<Byte>, w: nat, h: nat, row: nat)
    requires |gray| >= h * w && row < h
    ensures (row + 1) * w == row * w + w <= h * w
    ensures forall c: nat :: c < w ==> PlaneOf(gray, w)(row, c) == gray[row * w + c]
  {
    assert (row + 1) * w <= h * w;
  }

  /** The first `rows` rows of an output. */
  predicate Filled(out: seq<Byte>, cell: Plane, w: nat, rows: nat) {
    forall r: nat, c: nat :: r < rows && c < w ==> r * w + c < |out| && out[r * w + c] == cell(r, c)
  }

  lemma OneMoreRow(was: seq<Byte>, out: seq<Byte>, cell: Plane, w: nat, row: nat)
    requires |was| == |out| && row * w + w <= |out| && Filled(was, cell, w, row)
    requires forall i :: 0 <= i < row * w ==> out[i] == was[i]
    requires forall c: nat :: c < w ==> out[row * w + c] == cell(row, c)
    ensures Filled(out, cell, w, row + 1)
  {
    forall r: nat, c: nat | r < row + 1 && c < w
      ensures r * w + c < |out| && out[r * w + c] == cell(r, c)
    {
      if r < row { P.CellInside(w, row, r, c); }
    }
  }

  method NextRow(gray: seq<Byte>, cdfs: seq<seq<Byte>>, ghost cell: Plane, w: nat, h: nat, row: nat, output: array<Byte>)
    requires w > 0 && row < h && |gray| >= h * w && output.Length == h * w
    requires HoldMaps(cdfs, PlaneOf(gray, w), w, h, 64) && IsOutput(cell, PlaneOf(gray, w), w, h)
    requires Filled(output[..], cell, w, row)
    modifies output
    ensures Filled(output[..], cell, w, row + 1)
  {
    PlaneRow(gray, w, h, row);
    ghost var was := output[..];
    EqualiseRow(gray, cdfs, PlaneOf(gray, w), cell, w, h, row, row * w, output);
    OneMoreRow(was, output[..], cell, w, row);
  }

  /** What CLAHE gives at each position of an image. */
  function OutputOf(px: Plane, w: nat, h: nat): Plane {
    (r: nat, c: nat) => OutputAt(px, w, h, r, c)
  }

  lemma OutputIsOutput(px: Plane, w: nat, h: nat)
    ensures IsOutput(OutputOf(px, w, h), px, w, h)
  {
  }

  /** `clahe`. */
  method Equalise(gray: seq<Byte>, w: nat, h: nat) returns (output: array<Byte>)
    requires |gray| >= h * w
    ensures fresh(output) && output.Length == h * w
    ensures Filled(output[..], OutputOf(PlaneOf(gray, w), w, h), w, h)
  {
    var cdfs := AllMaps(gray, w, h);
    ghost var cell := OutputOf(PlaneOf(gray, w), w, h);
    OutputIsOutput(PlaneOf(gray, w), w, h);
    output := new Byte[h * w](_ => 0);
    if w > 0 {
      for row := 0 to h
        invariant Filled(output[..], cell, w, row)
      {
        NextRow(gray, cdfs, cell, w, h, row, output);
      }
    }
  }
}
