/**
 * The pyramid geometry the iSyntax tile source works out when it opens a
 * file: how many 512-pixel-tile levels the image needs, and which of the
 * container's native levels serves each of them.
 *
 * The source computes both with floating-point logarithms; here they are
 * the integer characterisations the logarithms stand for: the least level
 * count whose coarsest tile covers the image, and the power of two nearest
 * to a level's step.
 */
module LevelTable {
  import opened Wrappers

  /** `_tileSize`: the width and height of a tile. */
  const TileSize: nat := 512

  function Pow2(k: nat): (p: nat)
    ensures p >= 1
  {
    if k == 0 then 1 else 2 * Pow2(k - 1)
  }

  lemma {:induction false} Pow2Monotone(i: nat, j: nat)
    requires i <= j
    ensures Pow2(i) <= Pow2(j)
    decreases j
  {
    if i < j {
      Pow2Monotone(i, j - 1);
    }
  }

  lemma {:induction false} Pow2Add(a: nat, b: nat)
    ensures Pow2(a + b) == Pow2(a) * Pow2(b)
    decreases a
  {
    if a > 0 {
      Pow2Add(a - 1, b);
      assert Pow2(a + b) == 2 * Pow2(a - 1 + b);
    }
  }

  // ---------------------------------------------------------------------------
  // The level count

  /**
   * `levels = max(1, ceil(log2(size / 512)) + 1)` for the larger image side
   * `size`: the least count whose coarsest level, 512 pixels scaled up by a
   * factor of two per level, covers the image.
   */
  function LevelCount(size: nat): (levels: nat)
    requires size >= 1
    ensures levels >= 1
    ensures TileSize * Pow2(levels - 1) >= size
    ensures levels == 1 || TileSize * Pow2(levels - 2) < size
    decreases size
  {
    if size <= TileSize then 1
    else
      var half := (size + 1) / 2;
      var rest := LevelCount(half);
      assert rest == 1 || TileSize * Pow2(rest - 2) <= half - 1;
      1 + rest
  }

  /** No smaller count covers the image. */
  lemma LevelCountIsLeast(size: nat, levels: nat)
    requires size >= 1 && levels >= 1
    requires TileSize * Pow2(levels - 1) >= size
    ensures LevelCount(size) <= levels
  {
    var l := LevelCount(size);
    if levels < l {
      Pow2Monotone(levels - 1, l - 2);
    }
  }

  /** A 2000-pixel image needs three levels: 512, 1024 and 2048 pixels. */
  lemma LevelCountExample()
    ensures LevelCount(2000) == 3
    ensures LevelCount(512) == 1 && LevelCount(513) == 2
  {
  }

  // ---------------------------------------------------------------------------
  // The slot of a native level

  function Pow4(k: nat): (p: nat)
    ensures p >= 1
  {
    if k == 0 then 1 else 4 * Pow4(k - 1)
  }

  lemma {:induction false} Pow4Monotone(i: nat, j: nat)
    requires i <= j
    ensures Pow4(i) <= Pow4(j)
    decreases j
  {
    if i < j {
      Pow4Monotone(i, j - 1);
    }
  }

  /** `4^k` is `2^k` squared. */
  lemma {:induction false} Pow2Square(k: nat)
    ensures Pow2(k) * Pow2(k) == Pow4(k)
  {
    if k > 0 {
      var h := Pow2(k - 1);
      Pow2Square(k - 1);
      assert Pow2(k) * Pow2(k) == 4 * (h * h);
    }
  }

  /** `floor(log4(m))`. */
  function FloorLog4(m: nat): (f: nat)
    requires m >= 1
    ensures Pow4(f) <= m < Pow4(f + 1)
  {
    if m < 4 then 0 else 1 + FloorLog4(m / 4)
  }

  /** Only one `f` has powers of four bracketing `m` that way. */
  lemma FloorLog4Unique(m: nat, f: nat)
    requires m >= 1
    requires Pow4(f) <= m < Pow4(f + 1)
    ensures FloorLog4(m) == f
  {
    var g := FloorLog4(m);
    if g < f {
      Pow4Monotone(g + 1, f);
    }
    if f < g {
      Pow4Monotone(f + 1, g);
    }
  }

  /**
   * `round(log2(n))` for `n >= 1`: the `k` with `2^(k - 1/2) <= n < 2^(k + 1/2)`,
   * that is `4^k <= 2 * (n * n) < 4^(k + 1)`, so that it stays in integers. `n`
   * is never an exact half power of two, so Python's round-half-to-even never
   * comes into play.
   */
  function RoundLog2(n: nat): (k: nat)
    requires n >= 1
    ensures Pow4(k) <= 2 * (n * n) < Pow4(k + 1)
  {
    FloorLog4(2 * (n * n))
  }

  /** Only one `k` satisfies the bounds `RoundLog2` promises. */
  lemma RoundLog2Unique(n: nat, k: nat)
    requires n >= 1
    requires Pow4(k) <= 2 * (n * n) < Pow4(k + 1)
    ensures RoundLog2(n) == k
  {
    FloorLog4Unique(2 * (n * n), k);
  }

  /** A native level whose step is `2^k` goes into slot `k`. */
  lemma RoundLog2OfPow2(k: nat)
    ensures RoundLog2(Pow2(k)) == k
  {
    var p := Pow2(k);
    Pow2Square(k);
    assert Pow4(k + 1) == 4 * Pow4(k);
    RoundLog2Unique(p, k);
  }

  /** Slot 0, the full-resolution slot, takes exactly the native levels of step 1. */
  lemma RoundLog2Zero(n: nat)
    requires n >= 1
    ensures RoundLog2(n) == 0 <==> n == 1
  {
    if n == 1 {
      RoundLog2Unique(1, 0);
    } else {
      assert n * n >= 2 * n;
      assert Pow4(1) == 4;
    }
  }

  // ---------------------------------------------------------------------------
  // The level table

  /**
   * `dimension_ranges(level)`: one `[start, step, stop]` range per axis of
   * the native level, in the order of the view's dimension names.
   */
  type Ranges = seq<seq<int>>

  /** The positions of the `x`, `y` and `component` axes among the dimension names. */
  datatype Axes = Axes(x: nat, y: nat, component: nat)

  /** The ranges of a native level hold a triple for every axis. */
  predicate Shaped(dim: Ranges, axes: Axes) {
    axes.x < |dim| && axes.y < |dim| && axes.component < |dim| &&
    forall a :: 0 <= a < |dim| ==> |dim[a]| == 3
  }

  /** `list(range(n))`. */
  function Iota(n: nat): (r: seq<int>)
    ensures |r| == n && forall i :: 0 <= i < n ==> r[i] == i
  {
    seq(n, i => i)
  }

  /**
   * A native level is a candidate when its x and y steps agree and its
   * component range is `list(range(len(range)))`.
   */
  predicate Candidate(dim: Ranges, axes: Axes)
    requires Shaped(dim, axes)
  {
    dim[axes.x][1] == dim[axes.y][1] && dim[axes.component] == Iota(|dim[axes.component]|)
  }

  /** A candidate whose step is not positive makes `math.log` raise. */
  predicate StepFails(dim: Ranges, axes: Axes)
    requires Shaped(dim, axes)
  {
    Candidate(dim, axes) && dim[axes.x][1] < 1
  }

  /** A native level goes into slot `k` of a `levels`-slot table. */
  predicate Maps(dim: Ranges, axes: Axes, levels: nat, k: nat)
    requires Shaped(dim, axes)
  {
    Candidate(dim, axes) && dim[axes.x][1] >= 1 && RoundLog2(dim[axes.x][1]) == k && k < levels
  }

  /** What `_levelIdx` holds in a slot: the native level's number and its ranges. */
  datatype Slot = Slot(level: nat, dim: Ranges)

  /** The last of the first `n` native levels that goes into slot `k`. */
  function LastMatch(dims: seq<Ranges>, axes: Axes, levels: nat, n: nat, k: nat): (m: Option<nat>)
    requires n <= |dims|
    requires forall i :: 0 <= i < |dims| ==> Shaped(dims[i], axes)
    ensures m.Some? ==> m.value < n
  {
    if n == 0 then None
    else if Maps(dims[n - 1], axes, levels, k) then Some(n - 1)
    else LastMatch(dims, axes, levels, n - 1, k)
  }

  /** Slot `k` after the loop has seen the first `n` native levels. */
  function SlotAfter(dims: seq<Ranges>, axes: Axes, levels: nat, n: nat, k: nat): Option<Slot>
    requires n <= |dims|
    requires forall i :: 0 <= i < |dims| ==> Shaped(dims[i], axes)
  {
    match LastMatch(dims, axes, levels, n, k)
    case None => None
    case Some(i) => Some(Slot(i, dims[i]))
  }

  /**
   * A later native level overwrites an earlier one: the level `LastMatch`
   * picks goes into slot `k`, and no later one does; None means none does.
   */
  lemma {:induction false} LastMatchFacts(dims: seq<Ranges>, axes: Axes, levels: nat, n: nat, k: nat)
    requires n <= |dims|
    requires forall i :: 0 <= i < |dims| ==> Shaped(dims[i], axes)
    ensures var m := LastMatch(dims, axes, levels, n, k);
      && (m.Some? ==> m.value < n && Maps(dims[m.value], axes, levels, k))
      && (m.Some? ==> forall j :: m.value < j < n ==> !Maps(dims[j], axes, levels, k))
      && (m.None? ==> forall j :: 0 <= j < n ==> !Maps(dims[j], axes, levels, k))
  {
    if n > 0 && !Maps(dims[n - 1], axes, levels, k) {
      LastMatchFacts(dims, axes, levels, n - 1, k);
    }
  }

  /** A filled slot holds a level of the right step, so slot `k` serves steps of `2^k`. */
  lemma SlotHoldsItsStep(dims: seq<Ranges>, axes: Axes, levels: nat, k: nat)
    requires forall i :: 0 <= i < |dims| ==> Shaped(dims[i], axes)
    requires SlotAfter(dims, axes, levels, |dims|, k).Some?
    ensures var s := SlotAfter(dims, axes, levels, |dims|, k).value;
      && s.level < |dims| && s.dim == dims[s.level]
      && s.dim[axes.x][1] == s.dim[axes.y][1] >= 1
      && RoundLog2(s.dim[axes.x][1]) == k < levels
  {
    LastMatchFacts(dims, axes, levels, |dims|, k);
  }

  datatype LevelError = NonPositiveStep  // math.log of a step that is not positive raises

  /**
   * The `_levelIdx` loop: a `levels`-slot table, every slot None at first,
   * filled from the native levels in order; a candidate goes into the slot of
   * its rounded step logarithm when that slot exists.
   */
  method ResolveLevels(dims: seq<Ranges>, axes: Axes, levels: nat) returns (r: Result<seq<Option<Slot>>, LevelError>)
    requires forall i :: 0 <= i < |dims| ==> Shaped(dims[i], axes)
    ensures r.Failure? <==> exists i :: 0 <= i < |dims| && StepFails(dims[i], axes)
    ensures r.Success? ==> |r.value| == levels
    ensures r.Success? ==> forall k :: 0 <= k < levels ==> r.value[k] == SlotAfter(dims, axes, levels, |dims|, k)
  {
    var table := new Option<Slot>[levels](_ => None);
    for level := 0 to |dims|
      invariant forall k :: 0 <= k < levels ==> table[k] == SlotAfter(dims, axes, levels, level, k)
      invariant forall i :: 0 <= i < level ==> !StepFails(dims[i], axes)
    {
      var dim := dims[level];
      if dim[axes.x][1] != dim[axes.y][1] {
        continue;
      }
      if dim[axes.component] != Iota(|dim[axes.component]|) {
        continue;
      }
      if dim[axes.x][1] < 1 {
        return Failure(NonPositiveStep);
      }
      // `idx < 0` cannot hold: the rounded logarithm of a positive step is a natural number.
      var idx := RoundLog2(dim[axes.x][1]);
      if idx >= levels {
        continue;
      }
      table[idx] := Some(Slot(level, dim));
    }
    r := Success(table[..]);
  }
}
