/**
 * `getTile` of the iSyntax tile source: the walk from the requested tile
 * level to the nearest filled slot at or below it, the trimming of the pixel
 * box to that native level, the buffer geometry, the region request and the
 * strided subsampling when a finer native level stands in for a missing one.
 *
 * The pixel box and step come from the tile-to-pixel mapping of the generic
 * tile source (`_xyzToCorners`), and the pixels from the rendering engine:
 * both are inputs here, the engine as a function from the region request and
 * a buffer position to the pixel it writes there.
 */
module TileCompositor {
  import opened Wrappers
  import opened Numbers
  import opened LevelTable
  import opened IsyntaxSource

  // ---------------------------------------------------------------------------
  // Integer helpers

  lemma DivMod(a: nat, b: nat)
    requires b >= 1
    ensures a == (a / b) * b + a % b && 0 <= a % b < b
  {
  }

  lemma MulMono(a: nat, b: nat, d: nat)
    requires a <= b
    ensures a * d <= b * d
  {
  }

  lemma MulCancel(n: nat, m: nat, d: nat)
    requires d >= 1 && n * d <= m * d
    ensures n <= m
  {
  }

  /** `int(a / b)` for a positive `b`: true division truncated toward zero. */
  function TruncDiv(a: int, b: nat): int
    requires b >= 1
  {
    if a >= 0 then a / b else -((-a) / b)
  }

  /**
   * `int(a / b)` is negative exactly when `a` is at most `-b`: a box inverted
   * by less than one step still gives an empty buffer side, not an error.
   */
  lemma TruncDivNegative(a: int, b: nat)
    requires b >= 1
    ensures TruncDiv(a, b) < 0 <==> a + b <= 0
  {
    if a >= 0 {
      QuotientNonNegative(a, b);
    } else {
      var m: nat := -a;
      var q := m / b;
      assert TruncDiv(a, b) == -q;
      QuotientPositive(m, b);
      assert q >= 1 <==> m >= b;
    }
  }

  lemma QuotientNonNegative(a: nat, b: nat)
    requires b >= 1
    ensures a / b >= 0
  {
  }

  /** `m / b` is positive exactly when `m` is at least `b`. */
  lemma QuotientPositive(m: nat, b: nat)
    requires b >= 1
    ensures m / b >= 1 <==> m >= b
  {
    DivMod(m, b);
    if m / b >= 1 {
      MulMono(1, m / b, b);
    }
  }

  /** For a box that is not inverted, `int(a / b)` whole steps fit in it. */
  lemma TruncDivBelow(a: int, b: nat)
    requires b >= 1 && a >= 0
    ensures TruncDiv(a, b) * b <= a
  {
    DivMod(a, b);
  }

  /** `ceil(n / d)`. */
  function CeilDiv(n: nat, d: nat): nat
    requires d >= 1
  {
    (n + d - 1) / d
  }

  /** The buffer position of the `i`-th pixel kept when striding by `scale`. */
  function Stride(i: nat, scale: nat): nat {
    i * scale
  }

  /** Striding by `d` keeps position `i` exactly when `i * d` lies inside: `ceil(n / d)` positions. */
  lemma CeilDivStride(n: nat, d: nat, i: nat)
    requires d >= 1
    ensures i < CeilDiv(n, d) <==> Stride(i, d) < n
  {
    var c := CeilDiv(n, d);
    DivMod(n + d - 1, d);
    if i < c {
      MulMono(i, c - 1, d);
      assert (c - 1) * d == c * d - d;
    } else {
      MulMono(c, i, d);
    }
  }

  /** `CeilDivStride` for every position at once. */
  lemma CeilDivStrides(n: nat, d: nat)
    requires d >= 1
    ensures forall i: nat :: i < CeilDiv(n, d) <==> Stride(i, d) < n
  {
    forall i: nat ensures i < CeilDiv(n, d) <==> Stride(i, d) < n {
      CeilDivStride(n, d, i);
    }
  }

  /** Striding a side of at most `TileSize * scale` positions by `scale` leaves at most `TileSize`. */
  lemma StrideFitsTile(n: nat, scale: nat)
    requires scale >= 1
    requires n <= TileSize * scale
    ensures CeilDiv(n, scale) <= TileSize
  {
    CeilDivStride(n, scale, TileSize);
  }

  // ---------------------------------------------------------------------------
  // The level walk

  /**
   * The slot `getTile` settles on when it starts from `level`: the nearest
   * filled slot at or below it. Slot 0 is filled, so there always is one.
   */
  function NearestFilled(table: seq<Option<Slot>>, level: nat): (k: nat)
    requires level < |table| && table[0].Some?
    ensures k <= level && table[k].Some?
    ensures forall l :: k < l <= level ==> table[l].None?
  {
    if table[level].Some? then level else NearestFilled(table, level - 1)
  }

  // ---------------------------------------------------------------------------
  // Trimming and subsampling

  /**
   * `x1 -= int(x1 % step)` followed by `x1 = min(x1, stop)`: the box edge
   * lowered to a whole number of steps and capped at the native level's stop.
   */
  function Trim(edge: nat, step: nat, stop: int): int
    requires step >= 1
  {
    Min(edge - edge % step, stop)
  }

  /**
   * Trimming never raises an edge: the result is the stop, or the largest
   * multiple of the step at or below the edge.
   */
  lemma TrimFacts(edge: nat, step: nat, stop: int)
    requires step >= 1
    ensures var t := Trim(edge, step, stop);
      && t <= edge && t <= stop
      && (t == stop || (t == (edge / step) * step && edge - step < t))
  {
    DivMod(edge, step);
  }

  /** `tile[::scale, ::scale]` of a `|buf|` by `cols` buffer. */
  function Subsample<T>(buf: seq<seq<T>>, cols: nat, scale: nat): (r: seq<seq<T>>)
    requires scale >= 1
    requires forall i :: 0 <= i < |buf| ==> |buf[i]| == cols
    ensures |r| == CeilDiv(|buf|, scale)
    ensures forall i :: 0 <= i < |r| ==> |r[i]| == CeilDiv(cols, scale)
    ensures forall i, j :: 0 <= i < |r| && 0 <= j < |r[i]| ==>
      Stride(i, scale) < |buf| && Stride(j, scale) < cols && r[i][j] == buf[Stride(i, scale)][Stride(j, scale)]
  {
    CeilDivStrides(|buf|, scale);
    CeilDivStrides(cols, scale);
    seq(CeilDiv(|buf|, scale), i requires 0 <= i < CeilDiv(|buf|, scale) =>
      seq(CeilDiv(cols, scale), j requires 0 <= j < CeilDiv(cols, scale) =>
        buf[Stride(i, scale)][Stride(j, scale)]))
  }

  /** Striding by 1 keeps every pixel: `getTile` skips the subsample when the scale is 1. */
  lemma SubsampleByOne<T>(buf: seq<seq<T>>, cols: nat)
    requires forall i :: 0 <= i < |buf| ==> |buf[i]| == cols
    ensures Subsample(buf, cols, 1) == buf
  {
    var r := Subsample(buf, cols, 1);
    assert |r| == |buf|;
    forall i | 0 <= i < |buf| ensures r[i] == buf[i] {
      assert |r[i]| == |buf[i]|;
    }
  }

  // ---------------------------------------------------------------------------
  // getTile

  /** `[x0, x1 - step, y0, y1 - step, level]`: the inclusive pixel box and the native level's id. */
  datatype Region = Region(x0: int, x1: int, y0: int, y1: int, level: nat)

  /** One pixel of the RGBA buffer. */
  datatype Rgba = Rgba(r: Byte, g: Byte, b: Byte, a: Byte)

  /**
   * The geometry of a tile: the slot used and its subsampling scale, the
   * region requested from the engine, and the buffer's rows and columns.
   */
  datatype Plan = Plan(slot: nat, scale: nat, region: Region, rows: nat, cols: nat)

  /** A composed tile: its geometry and the pixels handed on. */
  datatype Tile = Tile(plan: Plan, pixels: seq<seq<Rgba>>)

  /** `numpy.empty` with a negative dimension raises. */
  datatype TileError = NegativeDimensions

  /** The `rows` by `cols` buffer the engine fills for `region` (`region.get(tile)`). */
  function Buffer(region: Region, rows: nat, cols: nat, render: (Region, nat, nat) -> Rgba): (buf: seq<seq<Rgba>>)
    ensures |buf| == rows
    ensures forall i :: 0 <= i < rows ==> |buf[i]| == cols
    ensures forall i, j :: 0 <= i < rows && 0 <= j < cols ==> buf[i][j] == render(region, i, j)
  {
    seq(rows, i requires 0 <= i < rows => seq(cols, j requires 0 <= j < cols => render(region, i, j)))
  }

  /** The first `n` pixels of row `i` of the buffer, strided by `scale`. */
  function StridedRow(region: Region, i: nat, scale: nat, render: (Region, nat, nat) -> Rgba, n: nat): (row: seq<Rgba>)
    ensures |row| == n
  {
    if n == 0 then [] else StridedRow(region, i, scale, render, n - 1) + [render(region, i, Stride(n - 1, scale))]
  }

  /** The first `m` rows of the strided buffer, each `ceil(cols / scale)` pixels wide. */
  function StridedRows(region: Region, cols: nat, scale: nat, render: (Region, nat, nat) -> Rgba, m: nat): (rows: seq<seq<Rgba>>)
    requires scale >= 1
    ensures |rows| == m
  {
    if m == 0 then []
    else StridedRows(region, cols, scale, render, m - 1) + [StridedRow(region, Stride(m - 1, scale), scale, render, CeilDiv(cols, scale))]
  }

  /** The pixels `getTile` hands on, pixel by pixel from the engine. */
  function Compose(region: Region, rows: nat, cols: nat, scale: nat, render: (Region, nat, nat) -> Rgba): seq<seq<Rgba>>
    requires scale >= 1
  {
    StridedRows(region, cols, scale, render, CeilDiv(rows, scale))
  }

  lemma {:induction false} StridedRowAt(region: Region, i: nat, scale: nat, render: (Region, nat, nat) -> Rgba, n: nat, j: nat)
    requires j < n
    ensures StridedRow(region, i, scale, render, n)[j] == render(region, i, Stride(j, scale))
  {
    if j < n - 1 {
      StridedRowAt(region, i, scale, render, n - 1, j);
    }
  }

  lemma {:induction false} StridedRowsAt(region: Region, cols: nat, scale: nat, render: (Region, nat, nat) -> Rgba, m: nat, i: nat)
    requires scale >= 1 && i < m
    ensures StridedRows(region, cols, scale, render, m)[i] == StridedRow(region, Stride(i, scale), scale, render, CeilDiv(cols, scale))
  {
    if i < m - 1 {
      StridedRowsAt(region, cols, scale, render, m - 1, i);
    }
  }

  /**
   * The composed tile has `ceil(rows / scale)` by `ceil(cols / scale)` pixels,
   * pixel `(i, j)` being the engine's pixel at `(i * scale, j * scale)`.
   */
  lemma ComposeFacts(region: Region, rows: nat, cols: nat, scale: nat, render: (Region, nat, nat) -> Rgba)
    requires scale >= 1
    ensures var pixels := Compose(region, rows, cols, scale, render);
      && |pixels| == CeilDiv(rows, scale)
      && (forall i :: 0 <= i < |pixels| ==> |pixels[i]| == CeilDiv(cols, scale))
      && (forall i, j :: 0 <= i < |pixels| && 0 <= j < |pixels[i]| ==>
            pixels[i][j] == render(region, Stride(i, scale), Stride(j, scale)))
  {
    var pixels := Compose(region, rows, cols, scale, render);
    forall i | 0 <= i < |pixels|
      ensures pixels[i] == StridedRow(region, Stride(i, scale), scale, render, CeilDiv(cols, scale))
    {
      StridedRowsAt(region, cols, scale, render, CeilDiv(rows, scale), i);
    }
    forall i, j | 0 <= i < |pixels| && 0 <= j < |pixels[i]|
      ensures pixels[i][j] == render(region, Stride(i, scale), Stride(j, scale))
    {
      StridedRowAt(region, Stride(i, scale), scale, render, CeilDiv(cols, scale), j);
    }
  }

  /**
   * The composed pixels are what `getTile` leaves in its buffer: the engine's
   * buffer itself when the scale is 1, and `tile[::scale, ::scale]` otherwise.
   */
  lemma ComposeIsStridedBuffer(region: Region, rows: nat, cols: nat, scale: nat, render: (Region, nat, nat) -> Rgba)
    requires scale >= 1
    ensures Compose(region, rows, cols, scale, render) == Subsample(Buffer(region, rows, cols, render), cols, scale)
    ensures scale == 1 ==> Compose(region, rows, cols, scale, render) == Buffer(region, rows, cols, render)
  {
    var pixels := Compose(region, rows, cols, scale, render);
    var buf := Buffer(region, rows, cols, render);
    var sub := Subsample(buf, cols, scale);
    ComposeFacts(region, rows, cols, scale, render);
    assert |pixels| == |sub|;
    forall i | 0 <= i < |pixels| ensures pixels[i] == sub[i] {
      assert |pixels[i]| == |sub[i]|;
    }
    if scale == 1 {
      SubsampleByOne(buf, cols);
    }
  }

  /**
   * A box of at most `TileSize` steps of the requested level gives at most
   * `TileSize` pixels per side once the finer buffer is strided by `scale`.
   */
  lemma BufferFitsTile(lo: nat, hi: nat, trimmed: int, st: nat, scale: nat, step: nat)
    requires st >= 1 && scale >= 1 && step == scale * st
    requires trimmed <= hi
    requires TruncDiv(trimmed - lo, st) >= 0
    ensures hi <= lo + TileSize * step ==> CeilDiv(TruncDiv(trimmed - lo, st), scale) <= TileSize
  {
    var n: nat := TruncDiv(trimmed - lo, st);
    if hi <= lo + TileSize * step && n > 0 {
      TruncDivNegative(trimmed - lo, st);
      TruncDivBelow(trimmed - lo, st);
      assert TileSize * step == (TileSize * scale) * st;
      MulCancel(n, TileSize * scale, st);
      StrideFitsTile(n, scale);
    }
  }

  /**
   * The `while` loop of `getTile`: from slot `top`, step down to the nearest
   * filled slot, doubling the subsampling scale and halving the pixel step
   * at each empty slot passed.
   */
  method WalkToFilled(table: seq<Option<Slot>>, top: nat, step: nat) returns (level: nat, scale: nat, st: nat)
    requires top < |table| && table[0].Some?
    requires step == Pow2(top)
    ensures level == NearestFilled(table, top)
    ensures st == Pow2(level) && scale == Pow2(top - level)
    ensures scale * st == step
  {
    level := top;
    scale := 1;
    st := step;
    while table[level].None?
      invariant level <= top
      invariant NearestFilled(table, level) == NearestFilled(table, top)
      invariant st == Pow2(level)
      invariant scale == Pow2(top - level)
      decreases level
    {
      level := level - 1;
      scale := scale * 2;
      st := st / 2;
    }
    Pow2Add(top - level, level);
    assert top - level + level == top;
  }

  /**
   * The geometry `getTile` works out once the walk has settled on slot `k`,
   * with native step `st` and subsampling scale `scale`: the box trimmed to
   * that native level, the buffer sizes and the region request.
   */
  function PlanFromSlot(src: Source, x0: nat, y0: nat, x1: nat, y1: nat, k: nat, st: nat, scale: nat): Result<Plan, TileError>
    requires Valid(src) && k < src.levels && src.table[k].Some? && st >= 1
  {
    var slot := src.table[k].value;
    var right := Trim(x1, st, slot.dim[src.axes.x][2]);
    var bottom := Trim(y1, st, slot.dim[src.axes.y][2]);
    var rows := TruncDiv(bottom - y0, st);
    var cols := TruncDiv(right - x0, st);
    if rows < 0 || cols < 0 then Failure(NegativeDimensions)
    else Success(Plan(k, scale, Region(x0, right - st, y0, bottom - st, slot.level), rows, cols))
  }

  /**
   * The geometry of the tile `getTile` returns for tile level `z` and the
   * pixel box `[x0, x1) x [y0, y1)` of that level: that of the nearest
   * filled slot at or below the requested one, at that slot's native step.
   */
  function PlanSpec(src: Source, x0: nat, y0: nat, x1: nat, y1: nat, z: nat): Result<Plan, TileError>
    requires Valid(src) && z < src.levels
  {
    var top := src.levels - 1 - z;
    var k := NearestFilled(src.table, top);
    PlanFromSlot(src, x0, y0, x1, y1, k, Pow2(k), Pow2(top - k))
  }

  /**
   * The part of `getTile` after the walk: `x1`/`y1` trimmed, the buffer
   * allocated (failing on a negative side), filled by the engine for the
   * region request, and strided when the scale is not 1.
   */
  method ComposeTile(src: Source, x0: nat, y0: nat, x1: nat, y1: nat, level: nat, st: nat, scale: nat,
                     render: (Region, nat, nat) -> Rgba)
    returns (r: Result<Tile, TileError>)
    requires Valid(src) && level < src.levels && src.table[level].Some? && st >= 1 && scale >= 1
    ensures r.Failure? <==> PlanFromSlot(src, x0, y0, x1, y1, level, st, scale).Failure?
    ensures r.Failure? ==> r.error == PlanFromSlot(src, x0, y0, x1, y1, level, st, scale).error
    ensures r.Success? ==> r.value.plan == PlanFromSlot(src, x0, y0, x1, y1, level, st, scale).value
    ensures r.Success? ==> var p := r.value.plan; r.value.pixels == Compose(p.region, p.rows, p.cols, p.scale, render)
  {
    var slot := src.table[level].value;
    var right := Trim(x1, st, slot.dim[src.axes.x][2]);
    var bottom := Trim(y1, st, slot.dim[src.axes.y][2]);
    var rows := TruncDiv(bottom - y0, st);
    var cols := TruncDiv(right - x0, st);
    if rows < 0 || cols < 0 {
      assert PlanFromSlot(src, x0, y0, x1, y1, level, st, scale) == Failure(NegativeDimensions);
      return Failure(NegativeDimensions);
    }
    var region := Region(x0, right - st, y0, bottom - st, slot.level);
    assert PlanFromSlot(src, x0, y0, x1, y1, level, st, scale) == Success(Plan(level, scale, region, rows, cols));
    var tile := Buffer(region, rows, cols, render);
    if scale != 1 {
      tile := Subsample(tile, cols, scale);
    }
    ComposeIsStridedBuffer(region, rows, cols, scale, render);
    r := Success(Tile(Plan(level, scale, region, rows, cols), tile));
  }

  /**
   * `getTile` for tile level `z`, from the pixel box `[x0, x1) x [y0, y1)`
   * and step `2^(levels - 1 - z)` of that level, as `_xyzToCorners` gives
   * them: the level walk, then the trimming and composing.
   */
  method GetTile(src: Source, x0: nat, y0: nat, x1: nat, y1: nat, step: nat, z: nat,
                 render: (Region, nat, nat) -> Rgba)
    returns (r: Result<Tile, TileError>)
    requires Valid(src)
    requires z < src.levels
    requires step == Pow2(src.levels - 1 - z)
    ensures r.Failure? <==> PlanSpec(src, x0, y0, x1, y1, z).Failure?
    ensures r.Failure? ==> r.error == NegativeDimensions
    ensures r.Success? ==> r.value.plan == PlanSpec(src, x0, y0, x1, y1, z).value
    ensures r.Success? ==> var p := r.value.plan; r.value.pixels == Compose(p.region, p.rows, p.cols, p.scale, render)
  {
    var level, scale, st := WalkToFilled(src.table, src.levels - 1 - z, step);
    assert PlanSpec(src, x0, y0, x1, y1, z) == PlanFromSlot(src, x0, y0, x1, y1, level, st, scale);
    r := ComposeTile(src, x0, y0, x1, y1, level, st, scale, render);
  }

  /**
   * The tile comes from the nearest filled slot at or below the requested
   * one, subsampled by the power of two between the two, so that scale and
   * native step multiply back to the requested step.
   */
  lemma TileSlot(src: Source, x0: nat, y0: nat, x1: nat, y1: nat, z: nat)
    requires Valid(src) && z < src.levels
    ensures var p := PlanSpec(src, x0, y0, x1, y1, z);
      p.Success? ==>
        && p.value.slot <= src.levels - 1 - z
        && src.table[p.value.slot].Some?
        && (forall l :: p.value.slot < l <= src.levels - 1 - z ==> src.table[l].None?)
        && p.value.scale * Pow2(p.value.slot) == Pow2(src.levels - 1 - z)
  {
    var top := src.levels - 1 - z;
    var k := NearestFilled(src.table, top);
    Pow2Add(top - k, k);
    assert top - k + k == top;
  }

  /**
   * The region requested from the engine spans the box with its right and
   * bottom edges trimmed to the native step and the native level's extent;
   * the tile fails only when that trimmed box is inverted by a whole step.
   */
  lemma TileRegion(src: Source, x0: nat, y0: nat, x1: nat, y1: nat, z: nat)
    requires Valid(src) && z < src.levels
    ensures var k := NearestFilled(src.table, src.levels - 1 - z);
      var dim := src.table[k].value.dim;
      var right := Trim(x1, Pow2(k), dim[src.axes.x][2]);
      var bottom := Trim(y1, Pow2(k), dim[src.axes.y][2]);
      var p := PlanSpec(src, x0, y0, x1, y1, z);
      && (p.Failure? <==> bottom - y0 + Pow2(k) <= 0 || right - x0 + Pow2(k) <= 0)
      && (p.Success? ==>
        p.value.region == Region(x0, right - Pow2(k), y0, bottom - Pow2(k), src.table[k].value.level))
  {
    var k := NearestFilled(src.table, src.levels - 1 - z);
    var dim := src.table[k].value.dim;
    TruncDivNegative(Trim(y1, Pow2(k), dim[src.axes.y][2]) - y0, Pow2(k));
    TruncDivNegative(Trim(x1, Pow2(k), dim[src.axes.x][2]) - x0, Pow2(k));
  }

  /**
   * A pixel box of at most `TileSize` steps of the requested level, as the
   * tile-to-pixel mapping gives for every tile, yields at most `TileSize`
   * pixels per side: `ceil(rows / scale)` by `ceil(cols / scale)`.
   */
  lemma TileFits(src: Source, x0: nat, y0: nat, x1: nat, y1: nat, z: nat)
    requires Valid(src) && z < src.levels
    ensures var p := PlanSpec(src, x0, y0, x1, y1, z);
      var step := Pow2(src.levels - 1 - z);
      && (p.Success? && y1 <= y0 + TileSize * step ==> CeilDiv(p.value.rows, p.value.scale) <= TileSize)
      && (p.Success? && x1 <= x0 + TileSize * step ==> CeilDiv(p.value.cols, p.value.scale) <= TileSize)
  {
    var top := src.levels - 1 - z;
    var k := NearestFilled(src.table, top);
    var st := Pow2(k);
    var dim := src.table[k].value.dim;
    var scale := Pow2(top - k);
    Pow2Add(top - k, k);
    assert top - k + k == top;
    if PlanSpec(src, x0, y0, x1, y1, z).Success? {
      var p := PlanSpec(src, x0, y0, x1, y1, z).value;
      assert p.rows == TruncDiv(Trim(y1, st, dim[src.axes.y][2]) - y0, st);
      assert p.cols == TruncDiv(Trim(x1, st, dim[src.axes.x][2]) - x0, st);
      assert p.scale == scale;
      TrimFacts(y1, st, dim[src.axes.y][2]);
      TrimFacts(x1, st, dim[src.axes.x][2]);
      BufferFitsTile(y0, y1, Trim(y1, st, dim[src.axes.y][2]), st, scale, Pow2(top));
      BufferFitsTile(x0, x1, Trim(x1, st, dim[src.axes.x][2]), st, scale, Pow2(top));
    }
  }
}
