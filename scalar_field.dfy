/**
 * The dense 2D grid container `ScalarField2D`: an `nx * ny` row-major array of
 * scalar values (floats in the program, reals here), updated in place.
 * The element at (row, column) lives at flat index `row * nx + column`.
 */
module ScalarField {

  /** `a <= b` scales to `a * c <= b * c` for `c >= 0`. */
  lemma MulMono(a: int, b: int, c: int)
    requires a <= b && 0 <= c
    ensures a * c <= b * c
  {
  }

  /** Row-major flat index of (r, c) in a grid `w` cells wide and `h` high is in range. */
  lemma FlatIndexBound(r: int, c: int, w: int, h: int)
    requires 0 <= r < h && 0 <= c < w
    ensures 0 <= r * w + c < h * w
  {
    MulMono(0, r, w);
    MulMono(r + 1, h, w);
  }

  /** Two grids of equal length that agree cell by cell are equal. */
  lemma SameValues(x: seq<real>, y: seq<real>)
    requires |x| == |y| && forall m :: 0 <= m < |x| ==> x[m] == y[m]
    ensures x == y
  {
  }

  /** Row `i + 1` of an `s x s` grid starts `s` cells after row `i`, within the grid. */
  lemma NextRow(i: nat, s: nat)
    requires i < s
    ensures (i + 1) * s == i * s + s && i * s + s <= s * s
  {
    FlatIndexBound(i, s - 1, s, s);
  }

  /** Division and remainder by the width recover row and column from a flat index. */
  lemma FlatIndexSplit(r: int, c: int, w: int)
    requires 0 <= r && 0 <= c < w
    ensures (r * w + c) / w == r && (r * w + c) % w == c
  {
    var k := r * w + c;
    var q, m := k / w, k % w;
    assert q * w + m == r * w + c;
    assert (q - r) * w == c - m;
    if q > r {
      MulMono(1, q - r, w);
    } else if q < r {
      MulMono(1, r - q, w);
    }
  }

  /** Row and column of a flat index, as division and remainder by the width. */
  lemma FlatIndexJoin(k: int, w: int)
    requires 0 <= k && 0 < w
    ensures k / w >= 0 && k == (k / w) * w + k % w && 0 <= k % w < w
  {
  }

  /** A flat index below `w * h` lies in row `k / w < h`. */
  lemma FlatIndexRow(k: int, w: int, h: int)
    requires 0 <= k < h * w && 0 < w
    ensures 0 <= k / w < h && 0 <= k % w < w
  {
    if k / w >= h {
      MulMono(h, k / w, w);
    }
  }

  /** Largest element of `s` as the left-to-right scan of `Max` finds it; 0 when empty. */
  function MaxOf(s: seq<real>): (m: real)
    ensures |s| == 0 ==> m == 0.0
    ensures |s| > 0 ==> m in s && forall k :: 0 <= k < |s| ==> s[k] <= m
  {
    if |s| <= 1 then (if |s| == 0 then 0.0 else s[0])
    else
      var m := MaxOf(s[..|s| - 1]);
      assert forall k :: 0 <= k < |s| - 1 ==> s[..|s| - 1][k] == s[k];
      if s[|s| - 1] > m then s[|s| - 1] else m
  }

  /** One more step of the scan for the largest element. */
  lemma MaxOfSnoc(s: seq<real>, i: nat)
    requires 1 <= i < |s|
    ensures MaxOf(s[..i + 1]) == if s[i] > MaxOf(s[..i]) then s[i] else MaxOf(s[..i])
  {
    assert s[..i + 1][..i] == s[..i];
  }

  /** Smallest element of `s` as the left-to-right scan of `Min` finds it; 0 when empty. */
  function MinOf(s: seq<real>): (m: real)
    ensures |s| == 0 ==> m == 0.0
    ensures |s| > 0 ==> m in s && forall k :: 0 <= k < |s| ==> m <= s[k]
  {
    if |s| <= 1 then (if |s| == 0 then 0.0 else s[0])
    else
      var m := MinOf(s[..|s| - 1]);
      assert forall k :: 0 <= k < |s| - 1 ==> s[..|s| - 1][k] == s[k];
      if s[|s| - 1] < m then s[|s| - 1] else m
  }

  /** One more step of the scan for the smallest element. */
  lemma MinOfSnoc(s: seq<real>, i: nat)
    requires 1 <= i < |s|
    ensures MinOf(s[..i + 1]) == if s[i] < MinOf(s[..i]) then s[i] else MinOf(s[..i])
  {
    assert s[..i + 1][..i] == s[..i];
  }

  /** Sum of the elements, accumulated left to right. */
  function Sum(s: seq<real>): real
  {
    if |s| == 0 then 0.0 else Sum(s[..|s| - 1]) + s[|s| - 1]
  }

  /** The sum of values in `[lo, hi]` lies between `|s| * lo` and `|s| * hi`. */
  lemma {:induction false} SumBounds(s: seq<real>, lo: real, hi: real)
    requires forall k :: 0 <= k < |s| ==> lo <= s[k] <= hi
    ensures |s| as real * lo <= Sum(s) <= |s| as real * hi
  {
    if |s| > 0 {
      var p := s[..|s| - 1];
      SumBounds(p, lo, hi);
      var n := |p| as real;
      assert (n + 1.0) * lo == n * lo + lo;
      assert (n + 1.0) * hi == n * hi + hi;
    }
  }

  /** Dividing by a positive `n` keeps `x` between `lo` and `hi` when `n * lo <= x <= n * hi`. */
  lemma DivBetween(x: real, n: real, lo: real, hi: real)
    requires n > 0.0 && n * lo <= x <= n * hi
    ensures lo <= x / n <= hi
  {
    var q := x / n;
    assert q * n == x;
  }

  /** The mean of values in `[lo, hi]` lies in `[lo, hi]`. */
  lemma MeanBounds(s: seq<real>, lo: real, hi: real)
    requires |s| > 0
    requires forall k :: 0 <= k < |s| ==> lo <= s[k] <= hi
    ensures lo <= Sum(s) / |s| as real <= hi
  {
    SumBounds(s, lo, hi);
    DivBetween(Sum(s), |s| as real, lo, hi);
  }

  /** The average of a non-empty sequence lies between its minimum and its maximum. */
  lemma AverageBetween(s: seq<real>)
    requires |s| > 0
    ensures MinOf(s) <= Sum(s) / |s| as real <= MaxOf(s)
  {
    var lo, hi := MinOf(s), MaxOf(s);
    assert forall k :: 0 <= k < |s| ==> lo <= s[k] <= hi;
    MeanBounds(s, lo, hi);
  }

  /** `x` rescaled so that `lo` maps to 0 and `hi` to 1. */
  function Rescale(x: real, lo: real, hi: real): real
    requires lo != hi
  {
    (x - lo) / (hi - lo)
  }

  /** Rescaling sends `lo` to 0, `hi` to 1 and `[lo, hi]` into `[0, 1]`. */
  lemma RescaleRange(x: real, lo: real, hi: real)
    requires lo < hi
    ensures Rescale(lo, lo, hi) == 0.0 && Rescale(hi, lo, hi) == 1.0
    ensures lo <= x <= hi ==> 0.0 <= Rescale(x, lo, hi) <= 1.0
  {
    var d := hi - lo;
    assert d / d == 1.0;
    if lo <= x <= hi {
      DivBetween(x - lo, d, 0.0, 1.0);
    }
  }

  /** Rescaling is the affine map `a * x + b` with `a = 1/(hi-lo)` and `b = -lo/(hi-lo)`. */
  lemma RescaleIsAffine(x: real, lo: real, hi: real)
    requires lo != hi
    ensures Rescale(x, lo, hi) == (1.0 / (hi - lo)) * x + (-lo / (hi - lo))
  {
    var d := hi - lo;
    var a, b := 1.0 / d, -lo / d;
    assert a * d == 1.0;
    assert b * d == -lo;
    assert (a * x + b) * d == x - lo;
  }

  /** Every element rescaled by the same `lo` and `hi`. */
  function RescaleAll(s: seq<real>, lo: real, hi: real): (r: seq<real>)
    requires lo != hi
    ensures |r| == |s|
  {
    seq(|s|, k requires 0 <= k < |s| => Rescale(s[k], lo, hi))
  }

  /** The values of a field after `NormalizeField`: each one rescaled by the old minimum and maximum. */
  function Normalize(s: seq<real>): (r: seq<real>)
    requires |s| == 0 || MinOf(s) != MaxOf(s)
    ensures |r| == |s|
  {
    if |s| == 0 then [] else RescaleAll(s, MinOf(s), MaxOf(s))
  }

  lemma NormalizeIsRescale(s: seq<real>, lo: real, hi: real)
    requires |s| > 0 && lo == MinOf(s) && hi == MaxOf(s) && lo != hi
    ensures Normalize(s) == RescaleAll(s, lo, hi)
  {
  }

  /** Rescaling a sequence whose values lie in `[lo, hi]`, with `lo` and `hi` attained. */
  lemma {:induction false} RescaleAllRange(s: seq<real>, lo: real, hi: real)
    requires lo < hi
    requires forall k :: 0 <= k < |s| ==> lo <= s[k] <= hi
    ensures forall k :: 0 <= k < |s| ==> 0.0 <= RescaleAll(s, lo, hi)[k] <= 1.0
    ensures forall k :: 0 <= k < |s| && s[k] == lo ==> RescaleAll(s, lo, hi)[k] == 0.0
    ensures forall k :: 0 <= k < |s| && s[k] == hi ==> RescaleAll(s, lo, hi)[k] == 1.0
    ensures forall k :: 0 <= k < |s| ==>
      RescaleAll(s, lo, hi)[k] == (1.0 / (hi - lo)) * s[k] + (-lo / (hi - lo))
  {
    var r := RescaleAll(s, lo, hi);
    forall k | 0 <= k < |s|
      ensures 0.0 <= r[k] <= 1.0
      ensures s[k] == lo ==> r[k] == 0.0
      ensures s[k] == hi ==> r[k] == 1.0
      ensures r[k] == (1.0 / (hi - lo)) * s[k] + (-lo / (hi - lo))
    {
      RescaleRange(s[k], lo, hi);
      RescaleIsAffine(s[k], lo, hi);
    }
  }

  /**
   * Normalising a field that is not constant puts every value in [0, 1],
   * and sends the old minimum to 0 and the old maximum to 1; by `RescaleAllRange`
   * it is the affine transform `a * v + b` with `a = 1/(max-min)`, `b = -min/(max-min)`.
   */
  lemma NormalizeRange(s: seq<real>)
    requires |s| > 0 && MinOf(s) != MaxOf(s)
    ensures forall k :: 0 <= k < |s| ==> 0.0 <= Normalize(s)[k] <= 1.0
    ensures forall k :: 0 <= k < |s| && s[k] == MinOf(s) ==> Normalize(s)[k] == 0.0
    ensures forall k :: 0 <= k < |s| && s[k] == MaxOf(s) ==> Normalize(s)[k] == 1.0
    ensures MinOf(Normalize(s)) == 0.0 && MaxOf(Normalize(s)) == 1.0
  {
    var lo, hi := MinOf(s), MaxOf(s);
    assert lo < hi by { assert lo <= s[0] <= hi; }
    assert forall k :: 0 <= k < |s| ==> lo <= s[k] <= hi;
    RescaleAllRange(s, lo, hi);
    var r := Normalize(s);
    assert r == RescaleAll(s, lo, hi);
    var kl :| 0 <= kl < |s| && s[kl] == lo;
    var kh :| 0 <= kh < |s| && s[kh] == hi;
    assert r[kl] == 0.0 && r[kh] == 1.0;
    ExtremaOf(r, kl, kh);
  }

  /** A sequence in `[0, 1]` that attains 0 at `kl` and 1 at `kh` has minimum 0 and maximum 1. */
  lemma ExtremaOf(r: seq<real>, kl: int, kh: int)
    requires 0 <= kl < |r| && 0 <= kh < |r| && r[kl] == 0.0 && r[kh] == 1.0
    requires forall k :: 0 <= k < |r| ==> 0.0 <= r[k] <= 1.0
    ensures MinOf(r) == 0.0 && MaxOf(r) == 1.0
  {
  }

  class ScalarField2D {
    var nx: int
    var ny: int
    var values: seq<real>

    /** The container invariant: exactly `nx * ny` values. */
    ghost predicate Valid()
      reads this
    {
      0 <= nx && 0 <= ny && |values| == nx * ny
    }

    /** Default constructor: the 0 x 0 field. */
    constructor Empty()
      ensures Valid() && nx == 0 && ny == 0 && values == []
    {
      nx, ny := 0, 0;
      values := [];
    }

    /** An `nx x ny` field; `resize` value-initialises every float to 0. */
    constructor (nx: int, ny: int)
      requires 0 <= nx && 0 <= ny
      ensures Valid() && this.nx == nx && this.ny == ny
      ensures forall k :: 0 <= k < |values| ==> values[k] == 0.0
    {
      this.nx, this.ny := nx, ny;
      values := seq(nx * ny, _ => 0.0);
    }

    /** An `nx x ny` field filled with `value`. */
    constructor Filled(nx: int, ny: int, value: real)
      requires 0 <= nx && 0 <= ny
      ensures Valid() && this.nx == nx && this.ny == ny
      ensures forall k :: 0 <= k < |values| ==> values[k] == value
    {
      this.nx, this.ny := nx, ny;
      values := seq(nx * ny, _ => 0.0);
      new;
      Fill(value);
    }

    /** Copy constructor: same dimensions, equal values, in a fresh object. */
    constructor Copy(field: ScalarField2D)
      requires field.Valid()
      ensures Valid() && nx == field.nx && ny == field.ny && values == field.values
    {
      nx, ny := field.nx, field.ny;
      values := seq(field.nx * field.ny, _ => 0.0);
      new;
      var i := 0;
      while i < |values|
        invariant 0 <= i <= |values| == |field.values|
        invariant forall k :: 0 <= k < i ==> values[k] == field.values[k]
        invariant nx == field.nx && ny == field.ny
      {
        values := values[i := field.values[i]];
        i := i + 1;
      }
    }

    function SizeX(): int
      reads this
    {
      nx
    }

    function SizeY(): int
      reads this
    {
      ny
    }

    /** Flat index of (i, j). */
    function ToIndex1D(i: int, j: int): int
      reads this
    {
      i * nx + j
    }

    /** Row and column of a flat index. */
    function ToIndex2D(index: int): (int, int)
      reads this
      requires 0 < nx && 0 <= index
    {
      (index / nx, index % nx)
    }

    /** `ToIndex2D` inverts `ToIndex1D` for every column in `[0, nx)`. */
    lemma IndexRoundTrip(i: int, j: int)
      requires 0 < nx && 0 <= i && 0 <= j < nx
      ensures ToIndex1D(i, j) >= 0 && ToIndex2D(ToIndex1D(i, j)) == (i, j)
    {
      FlatIndexSplit(i, j, nx);
    }

    /** `ToIndex1D` inverts `ToIndex2D`. */
    lemma IndexRoundTrip2D(index: int)
      requires 0 < nx && 0 <= index
      ensures ToIndex1D(ToIndex2D(index).0, ToIndex2D(index).1) == index
    {
      FlatIndexJoin(index, nx);
    }

    /** The value at (row, column). */
    function Get(row: int, column: int): real
      reads this
      requires 0 <= ToIndex1D(row, column) < |values|
    {
      values[ToIndex1D(row, column)]
    }

    method Set(row: int, column: int, v: real)
      requires Valid() && 0 <= ToIndex1D(row, column) < |values|
      modifies this
      ensures Valid() && nx == old(nx) && ny == old(ny)
      ensures Get(row, column) == v
      ensures |values| == old(|values|)
      ensures forall k :: 0 <= k < |values| && k != ToIndex1D(row, column) ==> values[k] == old(values[k])
    {
      values := values[ToIndex1D(row, column) := v];
    }

    method Fill(v: real)
      requires Valid()
      modifies this
      ensures Valid() && nx == old(nx) && ny == old(ny) && |values| == old(|values|)
      ensures forall k :: 0 <= k < |values| ==> values[k] == v
    {
      values := seq(|values|, _ => v);
    }

    /** `Add(i, j, v)`: adds `v` to the element at (i, j) only. */
    method AddAt(i: int, j: int, v: real)
      requires Valid() && 0 <= ToIndex1D(i, j) < |values|
      modifies this
      ensures Valid() && nx == old(nx) && ny == old(ny) && |values| == old(|values|)
      ensures values[ToIndex1D(i, j)] == old(values[ToIndex1D(i, j)]) + v
      ensures forall k :: 0 <= k < |values| && k != ToIndex1D(i, j) ==> values[k] == old(values[k])
    {
      var k := ToIndex1D(i, j);
      values := values[k := values[k] + v];
    }

    /** `Remove(i, j, v)`: subtracts `v` from the element at (i, j) only. */
    method RemoveAt(i: int, j: int, v: real)
      requires Valid() && 0 <= ToIndex1D(i, j) < |values|
      modifies this
      ensures Valid() && nx == old(nx) && ny == old(ny) && |values| == old(|values|)
      ensures values[ToIndex1D(i, j)] == old(values[ToIndex1D(i, j)]) - v
      ensures forall k :: 0 <= k < |values| && k != ToIndex1D(i, j) ==> values[k] == old(values[k])
    {
      var k := ToIndex1D(i, j);
      values := values[k := values[k] - v];
    }

    /** `Add(field)`: elementwise sum; `field` may be this very object. */
    method AddField(field: ScalarField2D)
      requires Valid() && field.Valid() && |field.values| >= |values|
      modifies this
      ensures Valid() && nx == old(nx) && ny == old(ny) && |values| == old(|values|)
      ensures forall k :: 0 <= k < |values| ==> values[k] == old(values[k]) + old(field.values[k])
    {
      var i := 0;
      while i < |values|
        invariant 0 <= i <= |values| == old(|values|)
        invariant nx == old(nx) && ny == old(ny)
        invariant forall k :: 0 <= k < i ==> values[k] == old(values[k]) + old(field.values[k])
        invariant forall k :: i <= k < |values| ==> values[k] == old(values[k])
      {
        values := values[i := values[i] + field.values[i]];
        i := i + 1;
      }
    }

    /** `Remove(field)`: elementwise difference; `field` may be this very object. */
    method RemoveField(field: ScalarField2D)
      requires Valid() && field.Valid() && |field.values| >= |values|
      modifies this
      ensures Valid() && nx == old(nx) && ny == old(ny) && |values| == old(|values|)
      ensures forall k :: 0 <= k < |values| ==> values[k] == old(values[k]) - old(field.values[k])
    {
      var i := 0;
      while i < |values|
        invariant 0 <= i <= |values| == old(|values|)
        invariant nx == old(nx) && ny == old(ny)
        invariant forall k :: 0 <= k < i ==> values[k] == old(values[k]) - old(field.values[k])
        invariant forall k :: i <= k < |values| ==> values[k] == old(values[k])
      {
        values := values[i := values[i] - field.values[i]];
        i := i + 1;
      }
    }

    /** Every value `v` becomes `a * v + b`; `b` defaults to 0. */
    method AffineTransform(a: real, b: real := 0.0)
      requires Valid()
      modifies this
      ensures Valid() && nx == old(nx) && ny == old(ny) && |values| == old(|values|)
      ensures forall k :: 0 <= k < |values| ==> values[k] == a * old(values[k]) + b
    {
      var i := 0;
      while i < ny * nx
        invariant nx == old(nx) && ny == old(ny)
        invariant 0 <= i <= ny * nx == |values| == old(|values|)
        invariant forall k :: 0 <= k < i ==> values[k] == a * old(values[k]) + b
        invariant forall k :: i <= k < |values| ==> values[k] == old(values[k])
      {
        values := values[i := a * values[i] + b];
        i := i + 1;
      }
    }

    /** Largest value, 0 for an empty field (the contract of `MaxOf`). */
    method Max() returns (max: real)
      requires Valid()
      ensures max == MaxOf(values)
    {
      if |values| == 0 {
        return 0.0;
      }
      var v := values;
      max := v[0];
      var i: nat := 1;
      while i < |v|
        invariant 1 <= i <= |v|
        invariant max == MaxOf(v[..i])
      {
        MaxOfSnoc(v, i);
        if v[i] > max {
          max := v[i];
        }
        i := i + 1;
      }
      assert v[..i] == v;
    }

    /** Smallest value, 0 for an empty field (the contract of `MinOf`). */
    method Min() returns (min: real)
      requires Valid()
      ensures min == MinOf(values)
    {
      if |values| == 0 {
        return 0.0;
      }
      var v := values;
      min := v[0];
      var i: nat := 1;
      while i < |v|
        invariant 1 <= i <= |v|
        invariant min == MinOf(v[..i])
      {
        MinOfSnoc(v, i);
        if v[i] < min {
          min := v[i];
        }
        i := i + 1;
      }
      assert v[..i] == v;
    }

    /** Mean value of a non-empty field; it lies between `Min` and `Max` (`AverageBetween`). */
    method Average() returns (avg: real)
      requires Valid() && |values| > 0
      ensures avg == Sum(values) / |values| as real
      ensures MinOf(values) <= avg <= MaxOf(values)
    {
      var sum := 0.0;
      var i := 0;
      while i < |values|
        invariant 0 <= i <= |values|
        invariant sum == Sum(values[..i])
      {
        assert values[..i + 1][..i] == values[..i];
        sum := sum + values[i];
        i := i + 1;
      }
      assert values[..i] == values;
      avg := sum / |values| as real;
      AverageBetween(values);
    }

    /** Rescales the field in place so that its minimum becomes 0 and its maximum 1. */
    method NormalizeField()
      requires Valid() && (|values| == 0 || MinOf(values) != MaxOf(values))
      modifies this
      ensures Valid() && nx == old(nx) && ny == old(ny)
      ensures values == Normalize(old(values))
    {
      var min := Min();
      var max := Max();
      ghost var s := values;
      assert |s| > 0 ==> min != max;
      var i := 0;
      while i < ny * nx
        invariant nx == old(nx) && ny == old(ny) && |values| == |s| == nx * ny
        invariant |s| > 0 ==> min != max
        invariant 0 <= i <= |values|
        invariant forall k :: 0 <= k < i ==> values[k] == Rescale(s[k], min, max)
        invariant forall k :: i <= k < |values| ==> values[k] == s[k]
      {
        values := values[i := Rescale(values[i], min, max)];
        i := i + 1;
      }
      if |s| > 0 {
        assert values == RescaleAll(s, min, max);
        NormalizeIsRescale(s, min, max);
      }
    }

    /** A normalised copy; this field is left as it was. */
    method Normalized() returns (ret: ScalarField2D)
      requires Valid() && (|values| == 0 || MinOf(values) != MaxOf(values))
      ensures fresh(ret) && ret.Valid() && ret.nx == nx && ret.ny == ny
      ensures ret.values == Normalize(values)
    {
      ret := new ScalarField2D.Copy(this);
      var min := Min();
      var max := Max();
      assert |values| > 0 ==> min != max;
      var i := 0;
      while i < ny * nx
        invariant ret.nx == nx && ret.ny == ny && |ret.values| == |values| == nx * ny
        invariant |values| > 0 ==> min != max
        invariant 0 <= i <= |values|
        invariant forall k :: 0 <= k < i ==> ret.values[k] == Rescale(values[k], min, max)
        invariant forall k :: i <= k < |values| ==> ret.values[k] == values[k]
      {
        ret.values := ret.values[i := Rescale(ret.values[i], min, max)];
        i := i + 1;
      }
      if |values| > 0 {
        assert ret.values == RescaleAll(values, min, max);
        NormalizeIsRescale(values, min, max);
      }
    }
  }
}
