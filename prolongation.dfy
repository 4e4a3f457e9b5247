/**
 * Prolongation, as done by `VCycle` on its way back up: the `s x s` buffer of a
 * level is overwritten by bilinear interpolation of the solution on the next
 * coarser level, whose side is `s / 2 + 1`. Fine cell (i, j) sits over coarse
 * cell (i / 2, j / 2); the parity of i and j decides which coarse cells it
 * averages and with which weights.
 */
module BilinearProlongation {
  import opened ScalarField
  import opened Restriction

  /** Value written to fine cell (i, j) from the coarse buffer `a`. */
  function ProlongCell(a: seq<real>, s: nat, i: int, j: int): real
  {
    var cs, r, c := CoarseSide(s), i / 2, j / 2;
    if i % 2 == 0 && j % 2 == 0 then
      At(a, cs, r, c)
    else if i % 2 == 0 && j % 2 == 1 then
      0.5 * At(a, cs, r, c) + 0.5 * At(a, cs, r, c + 1)
    else if i % 2 == 1 && j % 2 == 0 then
      0.5 * At(a, cs, r, c) + 0.5 * At(a, cs, r + 1, c)
    else
      0.25 * At(a, cs, r, c) + 0.25 * At(a, cs, r, c + 1)
      + 0.25 * At(a, cs, r + 1, c) + 0.25 * At(a, cs, r + 1, c + 1)
  }

  /** The whole prolongated `s x s` buffer, row-major. */
  function Prolongation(a: seq<real>, s: nat): (p: seq<real>)
    ensures |p| == s * s
  {
    if s == 0 then [] else seq(s * s, k => ProlongCell(a, s, k / s, k % s))
  }

  /** Cell (i, j) of `Prolongation(a, s)`. */
  lemma ProlongationAt(a: seq<real>, s: nat, i: int, j: int)
    requires 0 <= i < s && 0 <= j < s
    ensures 0 <= i * s + j < s * s && Prolongation(a, s)[i * s + j] == ProlongCell(a, s, i, j)
  {
    FlatIndexBound(i, j, s, s);
    FlatIndexSplit(i, j, s);
  }

  /**
   * Every coarse cell the prolongation reads lies inside the coarser grid,
   * whatever the parity of `s`: the row and column `i / 2`, and `i / 2 + 1`
   * when `i` is odd, are below `s / 2 + 1`.
   */
  lemma ProlongReadsInside(s: nat, i: int, j: int)
    requires 0 <= i < s && 0 <= j < s
    ensures 0 <= i / 2 < CoarseSide(s) && 0 <= j / 2 < CoarseSide(s)
    ensures i % 2 == 1 ==> i / 2 + 1 < CoarseSide(s)
    ensures j % 2 == 1 ==> j / 2 + 1 < CoarseSide(s)
  {
  }

  /** A read of the coarse buffer at a computed flat index `k` is the read of `At`. */
  lemma CoarseIndex(a: seq<real>, cs: nat, r: int, c: int, k: int)
    requires |a| == cs * cs && 0 <= r < cs && 0 <= c < cs && k == r * cs + c
    ensures 0 <= k < |a| && a[k] == At(a, cs, r, c)
  {
    FlatIndexBound(r, c, cs, cs);
  }

  /** A coarse cell inside the grid holds one of the buffer's values. */
  lemma AtBetween(a: seq<real>, cs: nat, r: int, c: int, lo: real, hi: real)
    requires |a| == cs * cs && 0 <= r < cs && 0 <= c < cs
    requires forall k :: 0 <= k < |a| ==> lo <= a[k] <= hi
    ensures lo <= At(a, cs, r, c) <= hi
  {
    CoarseIndex(a, cs, r, c, r * cs + c);
  }

  /** Each prolongated value is a convex combination of coarse values in `[lo, hi]`. */
  lemma ProlongCellBetween(a: seq<real>, s: nat, i: int, j: int, lo: real, hi: real)
    requires |a| == CoarseSide(s) * CoarseSide(s)
    requires 0 <= i < s && 0 <= j < s
    requires forall k :: 0 <= k < |a| ==> lo <= a[k] <= hi
    ensures lo <= ProlongCell(a, s, i, j) <= hi
  {
    var cs, r, c := CoarseSide(s), i / 2, j / 2;
    ProlongReadsInside(s, i, j);
    AtBetween(a, cs, r, c, lo, hi);
    if i % 2 == 1 {
      AtBetween(a, cs, r + 1, c, lo, hi);
    }
    if j % 2 == 1 {
      AtBetween(a, cs, r, c + 1, lo, hi);
    }
    if i % 2 == 1 && j % 2 == 1 {
      AtBetween(a, cs, r + 1, c + 1, lo, hi);
    }
  }

  /** Prolongation never leaves the range of the coarse solution. */
  lemma ProlongationBetween(a: seq<real>, s: nat, lo: real, hi: real)
    requires |a| == CoarseSide(s) * CoarseSide(s)
    requires forall k :: 0 <= k < |a| ==> lo <= a[k] <= hi
    ensures forall k :: 0 <= k < s * s ==> lo <= Prolongation(a, s)[k] <= hi
  {
    forall k | 0 <= k < s * s ensures lo <= Prolongation(a, s)[k] <= hi {
      FlatIndexRow(k, s, s);
      assert Prolongation(a, s)[k] == ProlongCell(a, s, k / s, k % s);
      ProlongCellBetween(a, s, k / s, k % s, lo, hi);
    }
  }

  /** A constant coarse buffer prolongates to a constant fine buffer. */
  lemma ProlongationConstant(a: seq<real>, s: nat, v: real)
    requires |a| == CoarseSide(s) * CoarseSide(s)
    requires forall k :: 0 <= k < |a| ==> a[k] == v
    ensures forall k :: 0 <= k < s * s ==> Prolongation(a, s)[k] == v
  {
    ProlongationBetween(a, s, v, v);
  }

  /** Fine cells with both coordinates even copy the coarse cell beneath them. */
  lemma ProlongationInjects(a: seq<real>, s: nat, r: int, c: int)
    requires |a| == CoarseSide(s) * CoarseSide(s)
    requires 0 <= 2 * r < s && 0 <= 2 * c < s
    ensures 0 <= r * CoarseSide(s) + c < |a|
    ensures ProlongCell(a, s, 2 * r, 2 * c) == a[r * CoarseSide(s) + c]
  {
    CoarseIndex(a, CoarseSide(s), r, c, r * CoarseSide(s) + c);
  }

  /** Coarse samples of the affine map `(r, c) |-> p*r + q*c + t`. */
  ghost predicate AffineSamples(a: seq<real>, cs: nat, p: real, q: real, t: real)
  {
    |a| == cs * cs &&
    forall r, c :: 0 <= r < cs && 0 <= c < cs ==> At(a, cs, r, c) == Affine(p, q, t, r as real, c as real)
  }

  /** The affine map `(x, y) |-> p*x + q*y + t`. */
  function Affine(p: real, q: real, t: real, x: real, y: real): real
  {
    p * x + q * y + t
  }

  /** Moving an affine map's argument by `(dx, dy)` adds `p*dx + q*dy`. */
  lemma AffineShift(p: real, q: real, t: real, x: real, y: real, dx: real, dy: real)
    ensures Affine(p, q, t, x + dx, y + dy) == Affine(p, q, t, x, y) + p * dx + q * dy
  {
    assert p * (x + dx) == p * x + p * dx;
    assert q * (y + dy) == q * y + q * dy;
  }

  /**
   * Bilinear prolongation reproduces affine data: if coarse cell (r, c) holds
   * `p*r + q*c + t`, fine cell (i, j) receives the same map at the half-way
   * point `(i/2, j/2)` of the fine grid.
   */
  lemma ProlongCellAffine(a: seq<real>, s: nat, i: int, j: int, p: real, q: real, t: real)
    requires AffineSamples(a, CoarseSide(s), p, q, t)
    requires 0 <= i < s && 0 <= j < s
    ensures ProlongCell(a, s, i, j) == Affine(p, q, t, i as real / 2.0, j as real / 2.0)
  {
    var cs, r, c := CoarseSide(s), i / 2, j / 2;
    ProlongReadsInside(s, i, j);
    var x, y := r as real, c as real;
    var v := Affine(p, q, t, x, y);
    var hx := if i % 2 == 1 then 0.5 else 0.0;
    var hy := if j % 2 == 1 then 0.5 else 0.0;
    assert i as real / 2.0 == x + hx;
    assert j as real / 2.0 == y + hy;
    AffineShift(p, q, t, x, y, hx, hy);
    assert At(a, cs, r, c) == v;
    if i % 2 == 1 {
      AffineShift(p, q, t, x, y, 1.0, 0.0);
      assert At(a, cs, r + 1, c) == Affine(p, q, t, x + 1.0, y + 0.0);
    }
    if j % 2 == 1 {
      AffineShift(p, q, t, x, y, 0.0, 1.0);
      assert At(a, cs, r, c + 1) == Affine(p, q, t, x + 0.0, y + 1.0);
    }
    if i % 2 == 1 && j % 2 == 1 {
      AffineShift(p, q, t, x, y, 1.0, 1.0);
      assert At(a, cs, r + 1, c + 1) == Affine(p, q, t, x + 1.0, y + 1.0);
    }
  }

  /**
   * The prolongation loop of `VCycle`: every cell of the `s x s` buffer
   * `fine0` is overwritten with its interpolated value.
   */
  method Prolongate(coarse: seq<real>, s: nat, fine0: seq<real>) returns (fine: seq<real>)
    requires |coarse| == CoarseSide(s) * CoarseSide(s) && |fine0| == s * s
    ensures fine == Prolongation(coarse, s)
  {
    fine := ProlongateRows(coarse, s, fine0);
    SameCells(fine, coarse, s);
  }

  /** The two nested loops of the prolongation, row by row. */
  method ProlongateRows(coarse: seq<real>, s: nat, fine0: seq<real>) returns (fine: seq<real>)
    requires |coarse| == CoarseSide(s) * CoarseSide(s) && |fine0| == s * s
    ensures |fine| == s * s && forall m :: 0 <= m < s * s ==> fine[m] == Prolongation(coarse, s)[m]
  {
    fine := fine0;
    ghost var target := Prolongation(coarse, s);
    var i: nat, k: nat := 0, 0;
    while i < s
      invariant i <= s && k == i * s && k <= s * s && |fine| == s * s
      invariant forall m :: 0 <= m < k ==> fine[m] == target[m]
    {
      NextRow(i, s);
      fine := ProlongateRow(coarse, s, i, k, fine);
      i, k := i + 1, k + s;
    }
  }

  /** A buffer that agrees with the prolongation cell by cell is the prolongation. */
  lemma SameCells(fine: seq<real>, coarse: seq<real>, s: nat)
    requires |fine| == s * s && forall m :: 0 <= m < s * s ==> fine[m] == Prolongation(coarse, s)[m]
    ensures fine == Prolongation(coarse, s)
  {
    assert |fine| == |Prolongation(coarse, s)|;
  }

  /** Row `i` of the prolongation: cells `k0 .. k0 + s - 1` of the fine buffer. */
  method ProlongateRow(coarse: seq<real>, s: nat, i: nat, k0: nat, fine0: seq<real>) returns (fine: seq<real>)
    requires |coarse| == CoarseSide(s) * CoarseSide(s) && |fine0| == s * s
    requires i < s && k0 == i * s && k0 + s <= s * s
    ensures |fine| == s * s
    ensures forall m :: 0 <= m < k0 ==> fine[m] == fine0[m]
    ensures forall m :: k0 <= m < k0 + s ==> fine[m] == Prolongation(coarse, s)[m]
  {
    fine := fine0;
    ghost var target := Prolongation(coarse, s);
    var j: nat, k: nat := 0, k0;
    while j < s
      invariant j <= s && k == k0 + j && |fine| == s * s
      invariant forall m :: 0 <= m < k0 ==> fine[m] == fine0[m]
      invariant forall m :: k0 <= m < k ==> fine[m] == target[m]
    {
      var val := ProlongValue(coarse, s, i, j);
      ProlongationAt(coarse, s, i, j);
      fine := fine[k := val];
      j, k := j + 1, k + 1;
    }
  }

  /** The body of the prolongation loop: `val` for fine cell (i, j), read with flat indices. */
  method ProlongValue(coarse: seq<real>, s: nat, i: nat, j: nat) returns (val: real)
    requires |coarse| == CoarseSide(s) * CoarseSide(s)
    requires i < s && j < s
    ensures val == ProlongCell(coarse, s, i, j)
  {
    var cs := s / 2 + 1;
    ProlongReadsInside(s, i, j);
    var k00 := (i / 2) * cs + j / 2;
    CoarseIndex(coarse, cs, i / 2, j / 2, k00);
    if i % 2 == 0 && j % 2 == 0 {
      val := coarse[k00];
    } else if i % 2 == 0 && j % 2 == 1 {
      CoarseIndex(coarse, cs, i / 2, j / 2 + 1, k00 + 1);
      val := 0.5 * coarse[k00] + 0.5 * coarse[k00 + 1];
    } else if i % 2 == 1 && j % 2 == 0 {
      var k10 := (i / 2 + 1) * cs + j / 2;
      CoarseIndex(coarse, cs, i / 2 + 1, j / 2, k10);
      val := 0.5 * coarse[k00] + 0.5 * coarse[k10];
    } else {
      var k10 := (i / 2 + 1) * cs + j / 2;
      CoarseIndex(coarse, cs, i / 2, j / 2 + 1, k00 + 1);
      CoarseIndex(coarse, cs, i / 2 + 1, j / 2, k10);
      CoarseIndex(coarse, cs, i / 2 + 1, j / 2 + 1, k10 + 1);
      val := 0.25 * coarse[k00] + 0.25 * coarse[k00 + 1] + 0.25 * coarse[k10] + 0.25 * coarse[k10 + 1];
    }
  }
}
