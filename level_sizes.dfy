/**
 * The resolution hierarchy of `SimpleGeometricMultigridFloat`: how many levels
 * are built from an `n x n` input and how wide each level is.
 * Level 0 is the input; each coarser side is `s / 2 + 1`; coarsening stops once
 * the side is at most `minsize = 9`.
 */
module LevelSizes {

  /** `minsize`: a level this narrow or narrower is the coarsest. */
  const MinSize: int := 9

  /** Side of level `r`: `n` for level 0, then `s / 2 + 1` per level. */
  function LevelSize(n: nat, r: nat): nat
  {
    if r == 0 then n else LevelSize(n, r - 1) / 2 + 1
  }

  /** Number of levels `mgsize`: one, plus one per halving needed to reach `MinSize`. */
  function Depth(n: nat): nat
    decreases n
  {
    if n <= MinSize then 1 else 1 + Depth(n / 2 + 1)
  }

  /** Coarsening `n` once and then `r` times is coarsening `n` `r + 1` times. */
  lemma {:induction false} LevelSizeShift(n: nat, r: nat)
    ensures LevelSize(n, r + 1) == LevelSize(n / 2 + 1, r)
  {
    if r > 0 {
      LevelSizeShift(n, r - 1);
    }
  }

  /**
   * `Depth(n)` is the level count the constructor computes: the coarsest level
   * is at most `MinSize` wide and every finer level is wider than `MinSize`.
   */
  lemma {:induction false} DepthSpec(n: nat)
    ensures Depth(n) >= 1
    ensures LevelSize(n, Depth(n) - 1) <= MinSize
    ensures forall r :: 0 <= r < Depth(n) - 1 ==> LevelSize(n, r) > MinSize
  {
    if n > MinSize {
      var m := n / 2 + 1;
      DepthSpec(m);
      LevelSizeShift(n, Depth(m) - 1);
      forall r | 0 <= r < Depth(n) - 1 ensures LevelSize(n, r) > MinSize {
        if r > 0 {
          LevelSizeShift(n, r - 1);
        }
      }
    }
  }

  /** The two conditions of `DepthSpec` determine the level count. */
  lemma DepthUnique(n: nat, m: nat)
    requires m >= 1 && LevelSize(n, m - 1) <= MinSize
    requires forall r :: 0 <= r < m - 1 ==> LevelSize(n, r) > MinSize
    ensures m == Depth(n)
  {
    DepthSpec(n);
  }

  /**
   * The counting loop at the start of the constructor: `mgsize` starts at 1
   * and grows by one per `s := s / 2 + 1` while `s > minsize`.
   */
  method CountLevels(n: nat) returns (mgsize: nat)
    ensures mgsize >= 1 && LevelSize(n, mgsize - 1) <= MinSize
    ensures forall r :: 0 <= r < mgsize - 1 ==> LevelSize(n, r) > MinSize
    ensures mgsize == Depth(n)
  {
    var s := n;
    mgsize := 1;
    while s > MinSize
      invariant mgsize >= 1 && s == LevelSize(n, mgsize - 1)
      invariant forall r :: 0 <= r < mgsize - 1 ==> LevelSize(n, r) > MinSize
      decreases s
    {
      mgsize := mgsize + 1;
      s := s / 2 + 1;
    }
    DepthUnique(n, mgsize);
  }

  /**
   * Every level that gets coarsened has an odd side. The clipped restriction
   * stencil reads inside the finer level exactly when that level's side is odd
   * (`Restriction.StencilRowInside`); an even side makes it read one row and one
   * column past the end.
   */
  ghost predicate OddChain(n: nat)
  {
    forall r :: 0 <= r < Depth(n) - 1 ==> LevelSize(n, r) % 2 == 1
  }

  /** `1 << k`. */
  function Pow2(k: nat): (p: nat)
    ensures p >= 1
  {
    if k == 0 then 1 else 2 * Pow2(k - 1)
  }

  /** Sides of the form `2^k + 1` halve to `2^(k-1) + 1`. */
  lemma {:induction false} LevelSizeOfPow2(k: nat, r: nat)
    requires r <= k
    ensures LevelSize(Pow2(k) + 1, r) == Pow2(k - r) + 1
  {
    if r > 0 {
      LevelSizeOfPow2(k, r - 1);
      assert Pow2(k - r + 1) == 2 * Pow2(k - r);
    }
  }

  /** Inputs of side `2^k + 1` (the sizes the solver is meant for) meet `OddChain`. */
  lemma PowerOfTwoPlusOneIsOddChain(k: nat)
    ensures OddChain(Pow2(k) + 1)
  {
    var n := Pow2(k) + 1;
    DepthSpec(n);
    forall r | 0 <= r < Depth(n) - 1 ensures LevelSize(n, r) % 2 == 1 {
      if r <= k {
        LevelSizeOfPow2(k, r);
        if k > r {
          assert Pow2(k - r) == 2 * Pow2(k - r - 1);
        }
      } else {
        // level k already has side 2, so it is the coarsest: r > k cannot occur
        LevelSizeOfPow2(k, k);
        assert false;
      }
    }
  }

  /** `nit`: relaxation passes at `level`, more for finer levels. */
  function Iterations(mgsize: nat, level: nat): nat
    requires level < mgsize
  {
    50 + 10 * (mgsize - level)
  }
}
