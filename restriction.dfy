/**
 * Restriction, as done by the constructor of `SimpleGeometricMultigridFloat`:
 * cell (i, j) of a coarser level summarises the clipped 3 x 3 stencil of the
 * finer level centred on fine cell (2i, 2j).
 *
 * - If some cell of the stencil carries a fixed altitude (`alpha < 1`), the
 *   coarse cell is fixed: alpha 0, with an altitude averaged over the fixed
 *   cells. The weights are `coef * (1 - alpha)`.
 * - Otherwise the coarse cell is free: alpha 1, with a Laplacian equal to the
 *   weighted sum `coef * alpha * laplacian` over the cells with `alpha > 0`.
 *   This sum is not normalised.
 * - The field a cell does not write keeps the zero it was created with.
 */
module Restriction {
  import opened ScalarField
  import opened LevelSizes

  /**
   * One level of the hierarchy: `alpha`, `altitude` and `laplacian`, each a
   * `side x side` grid stored row-major.
   */
  datatype Level = Level(side: nat, alpha: seq<real>, altitude: seq<real>, laplacian: seq<real>)

  predicate WellFormed(f: Level)
  {
    |f.alpha| == f.side * f.side && |f.altitude| == f.side * f.side && |f.laplacian| == f.side * f.side
  }

  /** Cell (r, c) of an `n x n` row-major grid; 0 off the grid. */
  function At(a: seq<real>, n: nat, r: int, c: int): real
  {
    if 0 <= r < n && 0 <= c < n && 0 <= r * n + c < |a| then a[r * n + c] else 0.0
  }

  /** The fine cell at offset (di, dj) from (2i, 2j). */
  function Fine(a: seq<real>, n: nat, i: int, j: int, di: int, dj: int): real
  {
    At(a, n, 2 * i + di, 2 * j + dj)
  }

  /** Side of the next coarser level: `s / 2 + 1`, the side prolongation reads from too. */
  function CoarseSide(n: nat): (cs: nat)
    ensures cs >= 1
  {
    n / 2 + 1
  }

  /** First stencil offset: the first row (column) has no neighbour before it. */
  function RowLo(i: int): int
  {
    if i == 0 then 0 else -1
  }

  /**
   * Last stencil offset: on the last coarse row (column) the offset is 0. The
   * test `i == 0` comes first, so a one-wide level keeps offset 1.
   */
  function RowHi(i: int, s: int): int
  {
    if i == 0 then 1 else if i == s - 1 then 0 else 1
  }

  function Abs(d: int): nat
  {
    if d < 0 then -d else d
  }

  /** The stencil weight: 1 at the centre, 1/2 next to it, 1/4 on the diagonal. */
  function Coef(di: int, dj: int): real
  {
    if di == 0 && dj == 0 then 1.0 else if di == 0 || dj == 0 then 0.5 else 0.25
  }

  /** `Coef` is the constructor's weight `1 / ((1 << |di|) * (1 << |dj|))` on the 3 x 3 stencil. */
  lemma CoefIsShiftQuotient(di: int, dj: int)
    requires -1 <= di <= 1 && -1 <= dj <= 1
    ensures (Pow2(Abs(di)) * Pow2(Abs(dj))) as real > 0.0
    ensures 1.0 / ((Pow2(Abs(di)) * Pow2(Abs(dj))) as real) == Coef(di, dj)
    ensures Coef(di, dj) > 0.0
  {
    assert Pow2(0) == 1;
    assert Pow2(1) == 2;
  }

  /** What one fine cell of the stencil brings: its weight and its three fields. */
  datatype Contrib = Contrib(coef: real, alpha: real, altitude: real, laplacian: real)

  /** Fine cell (2i + di, 2j + dj) as seen from coarse cell (i, j). */
  function ContribAt(f: Level, i: int, j: int, di: int, dj: int): Contrib
  {
    Contrib(Coef(di, dj), Fine(f.alpha, f.side, i, j, di, dj),
            Fine(f.altitude, f.side, i, j, di, dj), Fine(f.laplacian, f.side, i, j, di, dj))
  }

  /** Column offsets `lo..hi` of row offset `di`, in loop order. */
  function Row(f: Level, i: int, j: int, di: int, lo: int, hi: int): seq<Contrib>
    decreases hi - lo
  {
    if hi < lo then [] else Row(f, i, j, di, lo, hi - 1) + [ContribAt(f, i, j, di, hi)]
  }

  /** Visiting one more column offset `hi` appends its contribution. */
  lemma RowSnoc(visited: seq<Contrib>, f: Level, i: int, j: int, di: int, lo: int, hi: int)
    requires lo <= hi
    ensures visited + Row(f, i, j, di, lo, hi) == (visited + Row(f, i, j, di, lo, hi - 1)) + [ContribAt(f, i, j, di, hi)]
  {
  }

  /** The block `rlo..rhi x clo..chi` of offsets, in loop order (row offset outermost). */
  function Block(f: Level, i: int, j: int, rlo: int, rhi: int, clo: int, chi: int): seq<Contrib>
    decreases rhi - rlo
  {
    if rhi < rlo then [] else Block(f, i, j, rlo, rhi - 1, clo, chi) + Row(f, i, j, rhi, clo, chi)
  }

  /** The clipped stencil of coarse cell (i, j). */
  function Stencil(f: Level, i: int, j: int): seq<Contrib>
  {
    var s := CoarseSide(f.side);
    Block(f, i, j, RowLo(i), RowHi(i, s), RowLo(j), RowHi(j, s))
  }

  /** The three accumulators of the constructor's stencil loop. */
  datatype Quantity = FixedWeight | FixedMoment | Curvature

  /** What one fine cell adds to accumulator `q`. */
  function Value(q: Quantity, c: Contrib): real
  {
    match q
    case FixedWeight => if c.alpha < 1.0 then c.coef * (1.0 - c.alpha) else 0.0
    case FixedMoment => if c.alpha < 1.0 then c.coef * (1.0 - c.alpha) * c.altitude else 0.0
    case Curvature => if c.alpha > 0.0 then c.coef * c.alpha * c.laplacian else 0.0
  }

  /** Accumulator `q` after visiting `cs` in order. */
  function SumOf(q: Quantity, cs: seq<Contrib>): real
  {
    if |cs| == 0 then 0.0 else SumOf(q, cs[..|cs| - 1]) + Value(q, cs[|cs| - 1])
  }

  /** The `fixed` flag after visiting `cs`: raised by each cell with `alpha < 1`. */
  predicate AnyFixed(cs: seq<Contrib>)
  {
    |cs| > 0 && (AnyFixed(cs[..|cs| - 1]) || cs[|cs| - 1].alpha < 1.0)
  }

  /** The flag is raised exactly when some visited cell has `alpha < 1`. */
  lemma {:induction false} AnyFixedWitness(cs: seq<Contrib>)
    ensures AnyFixed(cs) <==> exists k :: 0 <= k < |cs| && cs[k].alpha < 1.0
  {
    if |cs| > 0 {
      var init := cs[..|cs| - 1];
      AnyFixedWitness(init);
      if AnyFixed(init) {
        var k :| 0 <= k < |init| && init[k].alpha < 1.0;
        assert cs[k] == init[k];
      }
      if exists k :: 0 <= k < |cs| && cs[k].alpha < 1.0 {
        var k :| 0 <= k < |cs| && cs[k].alpha < 1.0;
        if k < |init| {
          assert init[k] == cs[k];
        }
      }
    }
  }

  /** Accumulator `q` of coarse cell (i, j). */
  function CellSum(f: Level, q: Quantity, i: int, j: int): real
  {
    SumOf(q, Stencil(f, i, j))
  }

  /** The `fixed` flag of coarse cell (i, j). */
  predicate Fixed(f: Level, i: int, j: int)
  {
    AnyFixed(Stencil(f, i, j))
  }

  function CellAlpha(f: Level, i: int, j: int): real
  {
    if Fixed(f, i, j) then 0.0 else 1.0
  }

  function CellAltitude(f: Level, i: int, j: int): real
  {
    if Fixed(f, i, j) then
      WeightPositive(f, i, j);
      CellSum(f, FixedMoment, i, j) / CellSum(f, FixedWeight, i, j)
    else 0.0
  }

  function CellLaplacian(f: Level, i: int, j: int): real
  {
    if Fixed(f, i, j) then 0.0 else CellSum(f, Curvature, i, j)
  }

  /** The next coarser level. */
  function Restrict(f: Level): (c: Level)
    ensures c.side == CoarseSide(f.side) && WellFormed(c)
  {
    var s := CoarseSide(f.side);
    Level(s,
          seq(s * s, k => CellAlpha(f, k / s, k % s)),
          seq(s * s, k => CellAltitude(f, k / s, k % s)),
          seq(s * s, k => CellLaplacian(f, k / s, k % s)))
  }

  /** Cell (i, j) of `Restrict(f)`, for each of the three fields. */
  lemma RestrictAt(f: Level, i: int, j: int)
    requires 0 <= i < CoarseSide(f.side) && 0 <= j < CoarseSide(f.side)
    ensures var s := CoarseSide(f.side);
      0 <= i * s + j < s * s &&
      Restrict(f).alpha[i * s + j] == CellAlpha(f, i, j) &&
      Restrict(f).altitude[i * s + j] == CellAltitude(f, i, j) &&
      Restrict(f).laplacian[i * s + j] == CellLaplacian(f, i, j)
  {
    var s := CoarseSide(f.side);
    FlatIndexBound(i, j, s, s);
    FlatIndexSplit(i, j, s);
  }

  // ---------------------------------------------------------------- sums over a visit order

  /** Visiting one more cell adds its value and may raise the flag. */
  lemma VisitOne(cs: seq<Contrib>, c: Contrib)
    ensures SumOf(FixedWeight, cs + [c]) == SumOf(FixedWeight, cs) + Value(FixedWeight, c)
    ensures SumOf(FixedMoment, cs + [c]) == SumOf(FixedMoment, cs) + Value(FixedMoment, c)
    ensures SumOf(Curvature, cs + [c]) == SumOf(Curvature, cs) + Value(Curvature, c)
    ensures AnyFixed(cs + [c]) <==> AnyFixed(cs) || c.alpha < 1.0
  {
    assert (cs + [c])[..|cs|] == cs;
  }

  lemma PositiveProduct(x: real, y: real)
    requires x > 0.0 && y > 0.0
    ensures x * y > 0.0
  {
  }

  /**
   * With positive weights, the fixed weight is never negative, it is positive
   * exactly when some cell is fixed, and with no fixed cell there is no fixed
   * moment either.
   */
  lemma {:induction false} SumWeightSign(cs: seq<Contrib>)
    requires forall k :: 0 <= k < |cs| ==> cs[k].coef > 0.0
    ensures SumOf(FixedWeight, cs) >= 0.0
    ensures AnyFixed(cs) <==> SumOf(FixedWeight, cs) > 0.0
    ensures !AnyFixed(cs) ==> SumOf(FixedMoment, cs) == 0.0
  {
    if |cs| > 0 {
      var init, c := cs[..|cs| - 1], cs[|cs| - 1];
      assert cs == init + [c];
      SumWeightSign(init);
      VisitOne(init, c);
      if c.alpha < 1.0 {
        PositiveProduct(c.coef, 1.0 - c.alpha);
        assert Value(FixedWeight, c) > 0.0;
      } else {
        assert Value(FixedWeight, c) == 0.0 && Value(FixedMoment, c) == 0.0;
      }
    }
  }

  lemma MulLe(w: real, x: real, y: real)
    requires w >= 0.0 && x <= y
    ensures w * x <= w * y
  {
  }

  /** The fixed moment taken about altitude `x`: the sum of `weight * (altitude - x)`. */
  function SumDev(cs: seq<Contrib>, x: real): real
  {
    if |cs| == 0 then 0.0 else SumDev(cs[..|cs| - 1], x) + Value(FixedWeight, cs[|cs| - 1]) * (cs[|cs| - 1].altitude - x)
  }

  lemma Distribute(w: real, a: real, x: real, d: real, m: real)
    requires d == w * (a - x) && m == w * a
    ensures d == m - x * w
  {
  }

  lemma DistributeSum(x: real, a: real, b: real, s: real)
    requires s == a + b
    ensures x * s == x * a + x * b
  {
  }

  lemma {:induction false} DevIdentity(cs: seq<Contrib>, x: real)
    ensures SumDev(cs, x) == SumOf(FixedMoment, cs) - x * SumOf(FixedWeight, cs)
  {
    if |cs| > 0 {
      var init, c := cs[..|cs| - 1], cs[|cs| - 1];
      DevIdentity(init, x);
      var w := Value(FixedWeight, c);
      assert Value(FixedMoment, c) == w * c.altitude;
      Distribute(w, c.altitude, x, w * (c.altitude - x), Value(FixedMoment, c));
      DistributeSum(x, SumOf(FixedWeight, init), w, SumOf(FixedWeight, cs));
    }
  }

  lemma {:induction false} DevAbove(cs: seq<Contrib>, x: real)
    requires forall k :: 0 <= k < |cs| ==> cs[k].coef > 0.0
    requires forall k :: 0 <= k < |cs| && cs[k].alpha < 1.0 ==> x <= cs[k].altitude
    ensures SumDev(cs, x) >= 0.0
  {
    if |cs| > 0 {
      var init, c := cs[..|cs| - 1], cs[|cs| - 1];
      DevAbove(init, x);
      if c.alpha < 1.0 {
        MulLe(Value(FixedWeight, c), 0.0, c.altitude - x);
      }
    }
  }

  lemma {:induction false} DevBelow(cs: seq<Contrib>, x: real)
    requires forall k :: 0 <= k < |cs| ==> cs[k].coef > 0.0
    requires forall k :: 0 <= k < |cs| && cs[k].alpha < 1.0 ==> cs[k].altitude <= x
    ensures SumDev(cs, x) <= 0.0
  {
    if |cs| > 0 {
      var init, c := cs[..|cs| - 1], cs[|cs| - 1];
      DevBelow(init, x);
      if c.alpha < 1.0 {
        MulLe(Value(FixedWeight, c), c.altitude - x, 0.0);
      }
    }
  }

  /**
   * With positive weights, the fixed moment lies between `low` and `high`
   * times the fixed weight when every fixed cell's altitude is in `low..high`.
   */
  lemma SumMomentBounds(cs: seq<Contrib>, low: real, high: real)
    requires forall k :: 0 <= k < |cs| ==> cs[k].coef > 0.0
    requires forall k :: 0 <= k < |cs| && cs[k].alpha < 1.0 ==> low <= cs[k].altitude <= high
    ensures low * SumOf(FixedWeight, cs) <= SumOf(FixedMoment, cs) <= high * SumOf(FixedWeight, cs)
  {
    DevAbove(cs, low);
    DevBelow(cs, high);
    DevIdentity(cs, low);
    DevIdentity(cs, high);
  }

  /** With every cell free and of Laplacian `v`, the curvature is `v` times the sum of the weights. */
  lemma {:induction false} SumCurvatureUniform(cs: seq<Contrib>, v: real)
    requires forall k :: 0 <= k < |cs| ==> cs[k].alpha == 1.0 && cs[k].laplacian == v
    ensures SumOf(Curvature, cs) == v * SumCoef(cs)
  {
    if |cs| > 0 {
      var init, c := cs[..|cs| - 1], cs[|cs| - 1];
      assert cs == init + [c];
      SumCurvatureUniform(init, v);
    }
  }

  function SumCoef(cs: seq<Contrib>): real
  {
    if |cs| == 0 then 0.0 else SumCoef(cs[..|cs| - 1]) + cs[|cs| - 1].coef
  }

  // ---------------------------------------------------------------- the stencil's cells

  /** The cells of a row are exactly its offsets `lo..hi`. */
  lemma {:induction false} RowMembers(f: Level, i: int, j: int, di: int, lo: int, hi: int)
    ensures forall c :: c in Row(f, i, j, di, lo, hi) <==> exists dj :: lo <= dj <= hi && c == ContribAt(f, i, j, di, dj)
    decreases hi - lo
  {
    if hi >= lo {
      RowMembers(f, i, j, di, lo, hi - 1);
      assert lo <= hi <= hi;
    }
  }

  /** The cells of a block are exactly its offsets `rlo..rhi x clo..chi`. */
  lemma {:induction false} BlockMembers(f: Level, i: int, j: int, rlo: int, rhi: int, clo: int, chi: int)
    ensures forall c :: c in Block(f, i, j, rlo, rhi, clo, chi) <==>
      exists di, dj :: rlo <= di <= rhi && clo <= dj <= chi && c == ContribAt(f, i, j, di, dj)
    decreases rhi - rlo
  {
    if rhi >= rlo {
      BlockMembers(f, i, j, rlo, rhi - 1, clo, chi);
      RowMembers(f, i, j, rhi, clo, chi);
      forall c | c in Row(f, i, j, rhi, clo, chi)
        ensures exists di, dj :: rlo <= di <= rhi && clo <= dj <= chi && c == ContribAt(f, i, j, di, dj)
      {
        var dj :| clo <= dj <= chi && c == ContribAt(f, i, j, rhi, dj);
        assert rlo <= rhi <= rhi;
      }
    }
  }

  /** The cells of the clipped stencil of (i, j) are exactly its clipped offsets. */
  lemma StencilMembers(f: Level, i: int, j: int)
    ensures var s := CoarseSide(f.side);
      forall c :: c in Stencil(f, i, j) <==>
        exists di, dj :: RowLo(i) <= di <= RowHi(i, s) && RowLo(j) <= dj <= RowHi(j, s) && c == ContribAt(f, i, j, di, dj)
    ensures forall k :: 0 <= k < |Stencil(f, i, j)| ==> Stencil(f, i, j)[k].coef > 0.0
  {
    var s := CoarseSide(f.side);
    BlockMembers(f, i, j, RowLo(i), RowHi(i, s), RowLo(j), RowHi(j, s));
    forall k | 0 <= k < |Stencil(f, i, j)| ensures Stencil(f, i, j)[k].coef > 0.0 {
      assert Stencil(f, i, j)[k] in Stencil(f, i, j);
    }
  }

  // ---------------------------------------------------------------- fixed and free cells

  /** A coarse cell is fixed exactly when some fine cell of its clipped stencil has `alpha < 1`. */
  lemma FixedIffSomeFixedNeighbour(f: Level, i: int, j: int)
    ensures var s := CoarseSide(f.side);
      Fixed(f, i, j) <==>
      exists di, dj :: RowLo(i) <= di <= RowHi(i, s) && RowLo(j) <= dj <= RowHi(j, s) &&
                       Fine(f.alpha, f.side, i, j, di, dj) < 1.0
  {
    var s := CoarseSide(f.side);
    var cs := Stencil(f, i, j);
    StencilMembers(f, i, j);
    AnyFixedWitness(cs);
    if Fixed(f, i, j) {
      var k :| 0 <= k < |cs| && cs[k].alpha < 1.0;
      assert cs[k] in cs;
    }
    if exists di, dj :: RowLo(i) <= di <= RowHi(i, s) && RowLo(j) <= dj <= RowHi(j, s) &&
                        Fine(f.alpha, f.side, i, j, di, dj) < 1.0 {
      var di, dj :| RowLo(i) <= di <= RowHi(i, s) && RowLo(j) <= dj <= RowHi(j, s) &&
                    Fine(f.alpha, f.side, i, j, di, dj) < 1.0;
      var c := ContribAt(f, i, j, di, dj);
      assert c in cs;
      var k :| 0 <= k < |cs| && cs[k] == c;
    }
  }

  /**
   * A coarse cell is fixed exactly when its fixed weight is positive, so the
   * division in the fixed case never divides by zero; a free cell has neither
   * fixed weight nor fixed moment.
   */
  lemma WeightPositive(f: Level, i: int, j: int)
    ensures Fixed(f, i, j) <==> CellSum(f, FixedWeight, i, j) > 0.0
    ensures !Fixed(f, i, j) ==> CellSum(f, FixedWeight, i, j) == 0.0 && CellSum(f, FixedMoment, i, j) == 0.0
  {
    StencilMembers(f, i, j);
    SumWeightSign(Stencil(f, i, j));
  }

  /**
   * A fixed coarse cell has alpha 0 and no Laplacian, and its altitude is a
   * weighted average: it lies between the lowest and the highest altitude of
   * the fixed fine cells of its stencil.
   */
  lemma FixedCellAltitudeBetween(f: Level, i: int, j: int, low: real, high: real)
    requires Fixed(f, i, j)
    requires var s := CoarseSide(f.side);
      forall di, dj :: RowLo(i) <= di <= RowHi(i, s) && RowLo(j) <= dj <= RowHi(j, s) &&
                       Fine(f.alpha, f.side, i, j, di, dj) < 1.0 ==>
        low <= Fine(f.altitude, f.side, i, j, di, dj) <= high
    ensures CellAlpha(f, i, j) == 0.0 && CellLaplacian(f, i, j) == 0.0
    ensures low <= CellAltitude(f, i, j) <= high
  {
    var cs := Stencil(f, i, j);
    StencilMembers(f, i, j);
    forall k | 0 <= k < |cs| && cs[k].alpha < 1.0 ensures low <= cs[k].altitude <= high {
      assert cs[k] in cs;
    }
    WeightedMeanBetween(cs, low, high);
  }

  /** A quotient `m / w` with `low * w <= m <= high * w` and positive `w` lies in `[low, high]`. */
  lemma QuotientBetween(m: real, w: real, low: real, high: real)
    requires w > 0.0 && low * w <= m <= high * w
    ensures low <= m / w <= high
  {
    assert w * low == low * w && w * high == high * w;
    DivBetween(m, w, low, high);
  }

  /** The fixed altitude of a visit with some fixed cell is a weighted mean of the fixed cells' altitudes. */
  lemma WeightedMeanBetween(cs: seq<Contrib>, low: real, high: real)
    requires AnyFixed(cs)
    requires forall k :: 0 <= k < |cs| ==> cs[k].coef > 0.0
    requires forall k :: 0 <= k < |cs| && cs[k].alpha < 1.0 ==> low <= cs[k].altitude <= high
    ensures SumOf(FixedWeight, cs) > 0.0
    ensures low <= SumOf(FixedMoment, cs) / SumOf(FixedWeight, cs) <= high
  {
    SumWeightSign(cs);
    SumMomentBounds(cs, low, high);
    QuotientBetween(SumOf(FixedMoment, cs), SumOf(FixedWeight, cs), low, high);
  }

  /** Where every fixed fine cell of the stencil has altitude `h`, the coarse altitude is `h`. */
  lemma FixedCellKeepsCommonAltitude(f: Level, i: int, j: int, h: real)
    requires Fixed(f, i, j)
    requires var s := CoarseSide(f.side);
      forall di, dj :: RowLo(i) <= di <= RowHi(i, s) && RowLo(j) <= dj <= RowHi(j, s) &&
                       Fine(f.alpha, f.side, i, j, di, dj) < 1.0 ==>
        Fine(f.altitude, f.side, i, j, di, dj) == h
    ensures CellAltitude(f, i, j) == h
  {
    FixedCellAltitudeBetween(f, i, j, h, h);
  }

  /** The three weights of a row of offsets add up to 2 on the middle row and to 1 on the others. */
  lemma RowCoefSum(f: Level, i: int, j: int, di: int)
    requires -1 <= di <= 1
    ensures SumCoef(Row(f, i, j, di, -1, 1)) == if di == 0 then 2.0 else 1.0
  {
    var a, b, c := ContribAt(f, i, j, di, -1), ContribAt(f, i, j, di, 0), ContribAt(f, i, j, di, 1);
    assert Row(f, i, j, di, -1, -1) == [a];
    assert Row(f, i, j, di, -1, 0) == [a, b];
    assert Row(f, i, j, di, -1, 1) == [a, b, c];
    assert [a, b, c][..2] == [a, b];
    assert [a, b][..1] == [a];
    assert [a][..0] == [];
    assert SumCoef([a, b, c]) == SumCoef([a]) + b.coef + c.coef;
    assert SumCoef([a]) == a.coef;
  }

  /** The nine weights of an interior stencil add up to 4. */
  lemma InteriorCoefSum(f: Level, i: int, j: int)
    ensures SumCoef(Block(f, i, j, -1, 1, -1, 1)) == 4.0
  {
    RowCoefSum(f, i, j, -1);
    RowCoefSum(f, i, j, 0);
    RowCoefSum(f, i, j, 1);
    var b0 := Block(f, i, j, -1, -1, -1, 1);
    var b1 := Block(f, i, j, -1, 0, -1, 1);
    assert b0 == [] + Row(f, i, j, -1, -1, 1);
    SumCoefConcat([], Row(f, i, j, -1, -1, 1));
    SumCoefConcat(b0, Row(f, i, j, 0, -1, 1));
    SumCoefConcat(b1, Row(f, i, j, 1, -1, 1));
  }

  lemma {:induction false} SumCoefConcat(a: seq<Contrib>, b: seq<Contrib>)
    ensures SumCoef(a + b) == SumCoef(a) + SumCoef(b)
    decreases |b|
  {
    if |b| > 0 {
      var b' := b[..|b| - 1];
      assert (a + b)[..|a + b| - 1] == a + b';
      SumCoefConcat(a, b');
    } else {
      assert a + b == a;
    }
  }

  /**
   * A free coarse cell has alpha 1 and no altitude, and its Laplacian is the
   * unnormalised weighted sum: on an interior cell whose nine fine cells are
   * all free (`alpha = 1`) with the same Laplacian `v`, it is `4 * v`, the sum
   * of the nine weights times `v`.
   */
  lemma FreeInteriorCellLaplacian(f: Level, i: int, j: int, v: real)
    requires var s := CoarseSide(f.side); 0 < i < s - 1 && 0 < j < s - 1
    requires forall di, dj :: -1 <= di <= 1 && -1 <= dj <= 1 ==>
      Fine(f.alpha, f.side, i, j, di, dj) == 1.0 && Fine(f.laplacian, f.side, i, j, di, dj) == v
    ensures !Fixed(f, i, j)
    ensures CellAlpha(f, i, j) == 1.0 && CellAltitude(f, i, j) == 0.0
    ensures CellLaplacian(f, i, j) == 4.0 * v
  {
    var cs := Stencil(f, i, j);
    assert cs == Block(f, i, j, -1, 1, -1, 1);
    StencilMembers(f, i, j);
    AnyFixedWitness(cs);
    forall k | 0 <= k < |cs| ensures cs[k].alpha == 1.0 && cs[k].laplacian == v {
      assert cs[k] in cs;
    }
    SumCurvatureUniform(cs, v);
    InteriorCoefSum(f, i, j);
  }

  // ---------------------------------------------------------------- stencil bounds

  /**
   * For an odd fine side of at least 3, every stencil row (column) the
   * constructor reads lies inside the fine level.
   */
  lemma StencilRowInside(olds: nat, i: int, di: int)
    requires olds % 2 == 1 && olds >= 3
    requires 0 <= i < CoarseSide(olds) && RowLo(i) <= di <= RowHi(i, CoarseSide(olds))
    ensures 0 <= 2 * i + di < olds
  {
  }

  /**
   * For an even fine side the last coarse row reads fine row `olds`, one past
   * the end, which is why every level that gets coarsened must have an odd side.
   */
  lemma EvenSideOverrunsStencil(olds: nat)
    requires olds % 2 == 0 && olds >= 2
    ensures var s := CoarseSide(olds);
      RowLo(s - 1) <= 0 <= RowHi(s - 1, s) && 2 * (s - 1) + 0 == olds
  {
  }

  /** On a well-formed odd fine level, the flat index read by the constructor is that of `At`. */
  lemma FineIndex(f: Level, i: int, j: int, di: int, dj: int, k: int)
    requires WellFormed(f) && f.side % 2 == 1 && f.side >= 3
    requires var s := CoarseSide(f.side);
      0 <= i < s && 0 <= j < s && RowLo(i) <= di <= RowHi(i, s) && RowLo(j) <= dj <= RowHi(j, s)
    requires k == (2 * i + di) * f.side + (2 * j + dj)
    ensures 0 <= k < |f.alpha| && 0 <= k < |f.altitude| && 0 <= k < |f.laplacian|
    ensures f.alpha[k] == Fine(f.alpha, f.side, i, j, di, dj)
    ensures f.altitude[k] == Fine(f.altitude, f.side, i, j, di, dj)
    ensures f.laplacian[k] == Fine(f.laplacian, f.side, i, j, di, dj)
  {
    StencilRowInside(f.side, i, di);
    StencilRowInside(f.side, j, dj);
    FlatIndexBound(2 * i + di, 2 * j + dj, f.side, f.side);
  }

  // ---------------------------------------------------------------- the loops

  /**
   * The stencil loop for coarse cell (i, j): clipped offsets, the weight
   * `1 / ((1 << |ii|) * (1 << |jj|))`, and the three accumulators and the
   * `fixed` flag, summed in the constructor's loop order.
   */
  method RestrictCell(f: Level, s: nat, i: int, j: int) returns (fixed: bool, maltitude: real, nfixed: real, sumlap: real)
    requires WellFormed(f) && f.side % 2 == 1 && f.side >= 3 && s == CoarseSide(f.side)
    requires 0 <= i < s && 0 <= j < s
    ensures fixed == Fixed(f, i, j)
    ensures maltitude == CellSum(f, FixedMoment, i, j)
    ensures nfixed == CellSum(f, FixedWeight, i, j)
    ensures sumlap == CellSum(f, Curvature, i, j)
  {
    var iimin, iimax := StencilBounds(i, s);
    var jjmin, jjmax := StencilBounds(j, s);
    fixed, maltitude, nfixed, sumlap := false, 0.0, 0.0, 0.0;
    ghost var visited: seq<Contrib> := [];
    var ii := iimin;
    while ii <= iimax
      invariant iimin <= ii <= iimax + 1
      invariant visited == Block(f, i, j, iimin, ii - 1, jjmin, jjmax)
      invariant fixed == AnyFixed(visited)
      invariant maltitude == SumOf(FixedMoment, visited)
      invariant nfixed == SumOf(FixedWeight, visited)
      invariant sumlap == SumOf(Curvature, visited)
    {
      fixed, maltitude, nfixed, sumlap := StencilRow(f, s, i, j, ii, jjmin, jjmax, fixed, maltitude, nfixed, sumlap, visited);
      visited := visited + Row(f, i, j, ii, jjmin, jjmax);
      ii := ii + 1;
    }
    assert visited == Stencil(f, i, j);
  }

  /**
   * The offset range of the stencil along one axis: offsets -1..1, clipped
   * to 0..1 on the first coarse row (column) and to -1..0 on the last.
   */
  method StencilBounds(i: int, s: int) returns (lo: int, hi: int)
    ensures lo == RowLo(i) && hi == RowHi(i, s)
  {
    lo, hi := -1, 1;
    if i == 0 {
      lo := 0;
    } else if i == s - 1 {
      hi := 0;
    }
  }

  /**
   * The inner loop of `RestrictCell`, over the column offsets `jj` of row
   * offset `ii`: it carries on the flag and the accumulators from the cells
   * `visited` before.
   */
  method StencilRow(f: Level, s: nat, i: int, j: int, ii: int, jjmin: int, jjmax: int,
                    fixed0: bool, maltitude0: real, nfixed0: real, sumlap0: real, ghost visited: seq<Contrib>)
    returns (fixed: bool, maltitude: real, nfixed: real, sumlap: real)
    requires WellFormed(f) && f.side % 2 == 1 && f.side >= 3 && s == CoarseSide(f.side)
    requires 0 <= i < s && 0 <= j < s && RowLo(i) <= ii <= RowHi(i, s)
    requires jjmin == RowLo(j) && jjmax == RowHi(j, s)
    requires fixed0 == AnyFixed(visited)
    requires maltitude0 == SumOf(FixedMoment, visited) && nfixed0 == SumOf(FixedWeight, visited)
    requires sumlap0 == SumOf(Curvature, visited)
    ensures var after := visited + Row(f, i, j, ii, jjmin, jjmax);
      fixed == AnyFixed(after) &&
      maltitude == SumOf(FixedMoment, after) && nfixed == SumOf(FixedWeight, after) &&
      sumlap == SumOf(Curvature, after)
  {
    fixed, maltitude, nfixed, sumlap := fixed0, maltitude0, nfixed0, sumlap0;
    ghost var done := visited;
    var jj := jjmin;
    while jj <= jjmax
      invariant jjmin <= jj <= jjmax + 1
      invariant done == visited + Row(f, i, j, ii, jjmin, jj - 1)
      invariant fixed == AnyFixed(done)
      invariant maltitude == SumOf(FixedMoment, done)
      invariant nfixed == SumOf(FixedWeight, done)
      invariant sumlap == SumOf(Curvature, done)
    {
      fixed, maltitude, nfixed, sumlap := StencilCell(f, s, i, j, ii, jj, fixed, maltitude, nfixed, sumlap, done);
      RowSnoc(visited, f, i, j, ii, jjmin, jj);
      done := done + [ContribAt(f, i, j, ii, jj)];
      jj := jj + 1;
    }
  }

  /**
   * The body of the stencil loop for offsets (ii, jj): the fine cell at flat
   * index `(2 * i + ii) * olds + (2 * j + jj)` is accumulated with weight
   * `1 / ((1 << |ii|) * (1 << |jj|))`.
   */
  method StencilCell(f: Level, s: nat, i: int, j: int, ii: int, jj: int,
                     fixed0: bool, maltitude0: real, nfixed0: real, sumlap0: real, ghost done: seq<Contrib>)
    returns (fixed: bool, maltitude: real, nfixed: real, sumlap: real)
    requires WellFormed(f) && f.side % 2 == 1 && f.side >= 3 && s == CoarseSide(f.side)
    requires 0 <= i < s && 0 <= j < s && RowLo(i) <= ii <= RowHi(i, s) && RowLo(j) <= jj <= RowHi(j, s)
    requires fixed0 == AnyFixed(done)
    requires maltitude0 == SumOf(FixedMoment, done) && nfixed0 == SumOf(FixedWeight, done)
    requires sumlap0 == SumOf(Curvature, done)
    ensures var after := done + [ContribAt(f, i, j, ii, jj)];
      fixed == AnyFixed(after) &&
      maltitude == SumOf(FixedMoment, after) && nfixed == SumOf(FixedWeight, after) &&
      sumlap == SumOf(Curvature, after)
  {
    var olds := f.side;
    var iii := 2 * i + ii;
    var jjj := 2 * j + jj;
    CoefIsShiftQuotient(ii, jj);
    var coef := 1.0 / ((Pow2(Abs(ii)) * Pow2(Abs(jj))) as real);
    var k := iii * olds + jjj;
    FineIndex(f, i, j, ii, jj, k);
    ghost var c := ContribAt(f, i, j, ii, jj);
    assert c == Contrib(coef, f.alpha[k], f.altitude[k], f.laplacian[k]);
    VisitOne(done, c);
    fixed, maltitude, nfixed, sumlap :=
      Accumulate(fixed0, maltitude0, nfixed0, sumlap0, coef, f.alpha[k], f.altitude[k], f.laplacian[k]);
  }

  /**
   * The body of the stencil loop for one fine cell with weight `coef`: a cell
   * with `alpha < 1` raises `fixed` and adds to the fixed moment and weight; a
   * cell with `alpha > 0` adds to the Laplacian sum.
   */
  method Accumulate(fixed: bool, maltitude: real, nfixed: real, sumlap: real,
                    coef: real, alpha: real, altitude: real, laplacian: real)
    returns (fixed': bool, maltitude': real, nfixed': real, sumlap': real)
    ensures var c := Contrib(coef, alpha, altitude, laplacian);
      fixed' == (fixed || alpha < 1.0) &&
      maltitude' == maltitude + Value(FixedMoment, c) &&
      nfixed' == nfixed + Value(FixedWeight, c) &&
      sumlap' == sumlap + Value(Curvature, c)
  {
    fixed', maltitude', nfixed', sumlap' := fixed, maltitude, nfixed, sumlap;
    if alpha < 1.0 {
      fixed' := true;
      maltitude' := maltitude' + coef * (1.0 - alpha) * altitude;
      nfixed' := nfixed' + coef * (1.0 - alpha);
    }
    if alpha > 0.0 {
      sumlap' := sumlap' + coef * alpha * laplacian;
    }
  }

  /**
   * One pass of the constructor's level loop: the three coarse fields start
   * as zero grids of side `s`, and each cell writes alpha and, depending on
   * `fixed`, either its altitude or its Laplacian.
   */
  method RestrictLevel(f: Level, s: nat) returns (c: Level)
    requires WellFormed(f) && f.side % 2 == 1 && f.side >= 3 && s == CoarseSide(f.side)
    ensures c == Restrict(f)
  {
    var alpha := seq(s * s, _ => 0.0);
    var altitude := seq(s * s, _ => 0.0);
    var laplacian := seq(s * s, _ => 0.0);
    ghost var target := Restrict(f);
    var i: nat, k: nat := 0, 0;
    while i < s
      invariant 0 <= i <= s && k == i * s && k <= s * s
      invariant |alpha| == s * s && |altitude| == s * s && |laplacian| == s * s
      invariant |target.alpha| == s * s && |target.altitude| == s * s && |target.laplacian| == s * s
      invariant forall m :: 0 <= m < k ==>
        alpha[m] == target.alpha[m] && altitude[m] == target.altitude[m] && laplacian[m] == target.laplacian[m]
      invariant forall m :: k <= m < s * s ==> alpha[m] == 0.0 && altitude[m] == 0.0 && laplacian[m] == 0.0
    {
      NextRow(i, s);
      alpha, altitude, laplacian := RestrictRow(f, s, i, k, alpha, altitude, laplacian);
      i, k := i + 1, k + s;
    }
    SameValues(alpha, target.alpha);
    SameValues(altitude, target.altitude);
    SameValues(laplacian, target.laplacian);
    c := Level(s, alpha, altitude, laplacian);
  }

  /** Row `i` of the coarse level: cells `k0 .. k0 + s - 1` of the flat arrays, which still hold zero. */
  method RestrictRow(f: Level, s: nat, i: nat, k0: nat,
                     alpha0: seq<real>, altitude0: seq<real>, laplacian0: seq<real>)
    returns (alpha: seq<real>, altitude: seq<real>, laplacian: seq<real>)
    requires WellFormed(f) && f.side % 2 == 1 && f.side >= 3 && s == CoarseSide(f.side)
    requires i < s && k0 == i * s && k0 + s <= s * s
    requires |alpha0| == s * s && |altitude0| == s * s && |laplacian0| == s * s
    requires forall m :: k0 <= m < s * s ==> alpha0[m] == 0.0 && altitude0[m] == 0.0 && laplacian0[m] == 0.0
    ensures |alpha| == s * s && |altitude| == s * s && |laplacian| == s * s
    ensures forall m :: 0 <= m < k0 ==>
      alpha[m] == alpha0[m] && altitude[m] == altitude0[m] && laplacian[m] == laplacian0[m]
    ensures forall m :: k0 <= m < k0 + s ==>
      alpha[m] == Restrict(f).alpha[m] && altitude[m] == Restrict(f).altitude[m] &&
      laplacian[m] == Restrict(f).laplacian[m]
    ensures forall m :: k0 + s <= m < s * s ==> alpha[m] == 0.0 && altitude[m] == 0.0 && laplacian[m] == 0.0
  {
    alpha, altitude, laplacian := alpha0, altitude0, laplacian0;
    ghost var target := Restrict(f);
    var j: nat, k: nat := 0, k0;
    while j < s
      invariant 0 <= j <= s && k == k0 + j
      invariant |alpha| == s * s && |altitude| == s * s && |laplacian| == s * s
      invariant forall m :: 0 <= m < k0 ==>
        alpha[m] == alpha0[m] && altitude[m] == altitude0[m] && laplacian[m] == laplacian0[m]
      invariant forall m :: k0 <= m < k ==>
        alpha[m] == target.alpha[m] && altitude[m] == target.altitude[m] && laplacian[m] == target.laplacian[m]
      invariant forall m :: k <= m < s * s ==> alpha[m] == 0.0 && altitude[m] == 0.0 && laplacian[m] == 0.0
    {
      alpha, altitude, laplacian := RestrictWrite(f, s, i, j, k, alpha, altitude, laplacian);
      j, k := j + 1, k + 1;
    }
  }

  /**
   * Coarse cell (i, j) at flat index `k`: a fixed cell gets `alpha = 0` and
   * the weighted mean of the fixed altitudes, a free cell `alpha = 1` and the
   * weighted sum of the curvatures; the field not written keeps its zero.
   */
  method RestrictWrite(f: Level, s: nat, i: nat, j: nat, k: nat,
                       alpha0: seq<real>, altitude0: seq<real>, laplacian0: seq<real>)
    returns (alpha: seq<real>, altitude: seq<real>, laplacian: seq<real>)
    requires WellFormed(f) && f.side % 2 == 1 && f.side >= 3 && s == CoarseSide(f.side)
    requires i < s && j < s && k == i * s + j && k < s * s
    requires |alpha0| == s * s && |altitude0| == s * s && |laplacian0| == s * s
    requires alpha0[k] == 0.0 && altitude0[k] == 0.0 && laplacian0[k] == 0.0
    ensures alpha == alpha0[k := Restrict(f).alpha[k]]
    ensures altitude == altitude0[k := Restrict(f).altitude[k]]
    ensures laplacian == laplacian0[k := Restrict(f).laplacian[k]]
  {
    alpha, altitude, laplacian := alpha0, altitude0, laplacian0;
    var fixed, maltitude, nfixed, sumlap := RestrictCell(f, s, i, j);
    RestrictAt(f, i, j);
    if fixed {
      WeightPositive(f, i, j);
      alpha := alpha[k := 0.0];
      altitude := altitude[k := maltitude / nfixed];
    } else {
      alpha := alpha[k := 1.0];
      laplacian := laplacian[k := sumlap];
    }
  }
}
