/**
 * `SimpleGeometricMultigridFloat`: a geometric multigrid solver for the
 * diffusion problem behind terrain generation. The constructor builds a
 * hierarchy of ever coarser levels from the three input fields; `Solve` runs
 * one cascading cycle over it; `GetResult` copies out the finest solution.
 *
 * Per level the solver keeps the fields `alpha`, `altitude`, `laplacian` (a
 * `Level`) and two solution buffers A and B. The host copy and the device
 * copy of a buffer are one value here; B stands for the device buffer, which
 * is the only copy of B the algorithm ever reads.
 */
module Multigrid {
  import opened ScalarField
  import opened LevelSizes
  import opened Restriction
  import opened BilinearProlongation
  import opened CascadingCycle

  /** Level `r` of the hierarchy grown from level 0 `f`: `r` restrictions of `f`. */
  function LevelAt(f: Level, r: nat): Level
  {
    if r == 0 then f else Restrict(LevelAt(f, r - 1))
  }

  /** Levels `0 .. m - 1` grown from `f`. */
  function Hierarchy(f: Level, m: nat): (h: seq<Level>)
    ensures |h| == m
  {
    if m == 0 then [] else Hierarchy(f, m - 1) + [LevelAt(f, m - 1)]
  }

  lemma {:induction false} HierarchyAt(f: Level, m: nat, r: nat)
    requires r < m
    ensures Hierarchy(f, m)[r] == LevelAt(f, r)
  {
    if r < m - 1 {
      HierarchyAt(f, m - 1, r);
    }
  }

  /** Level `r` is a well-formed grid of side `LevelSize(f.side, r)`. */
  lemma {:induction false} LevelAtShape(f: Level, r: nat)
    requires WellFormed(f)
    ensures LevelAt(f, r).side == LevelSize(f.side, r) && WellFormed(LevelAt(f, r))
  {
    if r > 0 {
      LevelAtShape(f, r - 1);
    }
  }

  /** `n` zeros: a freshly sized field. */
  function Zeros(n: nat): (z: seq<real>)
    ensures |z| == n && forall k :: 0 <= k < n ==> z[k] == 0.0
  {
    seq(n, _ => 0.0)
  }

  /** The constructor's buffers for `m` levels: a copy of `alpha` on level 0, zero grids below. */
  function InitialBuffers(alpha: seq<real>, n: nat, m: nat): (b: seq<seq<real>>)
    ensures |b| == m
  {
    if m == 0 then []
    else if m == 1 then [alpha]
    else InitialBuffers(alpha, n, m - 1) + [Zeros(LevelSize(n, m - 1) * LevelSize(n, m - 1))]
  }

  lemma {:induction false} InitialBuffersAt(alpha: seq<real>, n: nat, m: nat, r: nat)
    requires r < m
    ensures InitialBuffers(alpha, n, m)[r] ==
      if r == 0 then alpha else Zeros(LevelSize(n, r) * LevelSize(n, r))
  {
    if r < m - 1 {
      InitialBuffersAt(alpha, n, m - 1, r);
    }
  }

  /** Sides `LevelSize(n, r)` follow `s / 2 + 1` from level to level. */
  lemma SidesChained(levels: seq<Level>, n: nat)
    requires forall r :: 0 <= r < |levels| ==> levels[r].side == LevelSize(n, r)
    ensures Chained(levels)
  {
    forall r | 0 < r < |levels| ensures levels[r].side == CoarseSide(levels[r - 1].side) {
      assert LevelSize(n, r) == LevelSize(n, r - 1) / 2 + 1;
    }
  }

  /**
   * The level-0 copy of the constructor: the three fields start as copies of
   * `alph` and each cell (i, j) receives the inputs' `Get(i, j)` at flat index
   * `i * ny + j`. For square inputs this reproduces the three inputs.
   */
  method LevelZero(alph: ScalarField2D, alt: ScalarField2D, lap: ScalarField2D) returns (f: Level)
    requires alph.Valid() && alt.Valid() && lap.Valid() && alph.nx == alph.ny
    requires alt.nx == alph.nx && alt.ny == alph.ny && lap.nx == alph.nx && lap.ny == alph.ny
    ensures f == Level(alph.nx, alph.values, alt.values, lap.values)
  {
    var n: nat := alph.nx;
    var a, h, l := alph.values, alph.values, alph.values;
    var i: nat, k: nat := 0, 0;
    while i < n
      invariant i <= n && k == i * n && k <= n * n && |a| == n * n && |h| == n * n && |l| == n * n
      invariant forall m :: 0 <= m < k ==> a[m] == alph.values[m] && h[m] == alt.values[m] && l[m] == lap.values[m]
    {
      NextRow(i, n);
      a, h, l := LevelZeroRow(alph, alt, lap, i, k, a, h, l);
      i, k := i + 1, k + n;
    }
    SameValues(a, alph.values);
    SameValues(h, alt.values);
    SameValues(l, lap.values);
    f := Level(n, a, h, l);
  }

  /** Row `i` of the level-0 copy: cells `k0 .. k0 + n - 1`. */
  method LevelZeroRow(alph: ScalarField2D, alt: ScalarField2D, lap: ScalarField2D, i: nat, k0: nat,
                      a0: seq<real>, h0: seq<real>, l0: seq<real>)
    returns (a: seq<real>, h: seq<real>, l: seq<real>)
    requires alph.Valid() && alt.Valid() && lap.Valid() && alph.nx == alph.ny
    requires alt.nx == alph.nx && alt.ny == alph.ny && lap.nx == alph.nx && lap.ny == alph.ny
    requires i < alph.nx && k0 == i * alph.ny && k0 + alph.ny <= alph.nx * alph.ny
    requires |a0| == |alph.values| && |h0| == |alph.values| && |l0| == |alph.values|
    ensures |a| == |a0| && |h| == |h0| && |l| == |l0|
    ensures forall m :: 0 <= m < k0 ==> a[m] == a0[m] && h[m] == h0[m] && l[m] == l0[m]
    ensures forall m :: k0 <= m < k0 + alph.ny ==>
      a[m] == alph.values[m] && h[m] == alt.values[m] && l[m] == lap.values[m]
  {
    a, h, l := a0, h0, l0;
    var j: nat, k: nat := 0, k0;
    while j < alph.ny
      invariant j <= alph.ny && k == k0 + j
      invariant |a| == |a0| && |h| == |h0| && |l| == |l0|
      invariant forall m :: 0 <= m < k0 ==> a[m] == a0[m] && h[m] == h0[m] && l[m] == l0[m]
      invariant forall m :: k0 <= m < k ==>
        a[m] == alph.values[m] && h[m] == alt.values[m] && l[m] == lap.values[m]
    {
      a := a[k := alph.Get(i, j)];
      h := h[k := alt.Get(i, j)];
      l := l[k := lap.Get(i, j)];
      j, k := j + 1, k + 1;
    }
  }

  /**
   * The level loop of the constructor: level `r` is restricted from level
   * `r - 1` into a grid of side `s = olds / 2 + 1`, and both buffers of level
   * `r` start as zero grids of that size.
   */
  method BuildLevels(f0: Level, m: nat) returns (lv: seq<Level>, ba: seq<seq<real>>)
    requires WellFormed(f0) && OddChain(f0.side) && m == Depth(f0.side)
    ensures lv == Hierarchy(f0, m) && ba == InitialBuffers(f0.alpha, f0.side, m)
  {
    var n := f0.side;
    lv, ba := [f0], [f0.alpha];
    var s := n / 2 + 1;
    var olds := n;
    var r := 1;
    while r < m
      invariant 1 <= r <= m && s == LevelSize(n, r) && olds == LevelSize(n, r - 1)
      invariant lv == Hierarchy(f0, r) && ba == InitialBuffers(f0.alpha, n, r)
    {
      HierarchyAt(f0, r, r - 1);
      Restrictable(f0, r);
      var c := RestrictLevel(lv[r - 1], s);
      lv := lv + [c];
      ba := ba + [Zeros(s * s)];
      s := s / 2 + 1;
      olds := olds / 2 + 1;
      r := r + 1;
    }
  }

  /** Every level but the last is an odd grid wider than `MinSize` that restricts to the next level's side. */
  lemma Restrictable(f0: Level, r: nat)
    requires WellFormed(f0) && OddChain(f0.side) && 0 < r < Depth(f0.side)
    ensures var f := LevelAt(f0, r - 1);
      WellFormed(f) && f.side % 2 == 1 && f.side >= 3 && LevelSize(f0.side, r) == CoarseSide(f.side)
  {
    DepthSpec(f0.side);
    LevelAtShape(f0, r - 1);
  }

  /** Every level of the hierarchy has its side `LevelSize(n, r)`, and its initial buffers that size squared. */
  lemma HierarchyShaped(f0: Level, m: nat)
    requires WellFormed(f0)
    ensures forall r :: 0 <= r < m ==>
      Hierarchy(f0, m)[r].side == LevelSize(f0.side, r) && WellFormed(Hierarchy(f0, m)[r])
    ensures Shaped(Hierarchy(f0, m), Buffers(InitialBuffers(f0.alpha, f0.side, m), InitialBuffers(f0.alpha, f0.side, m)))
  {
    var h := Hierarchy(f0, m);
    var b := InitialBuffers(f0.alpha, f0.side, m);
    forall r | 0 <= r < m ensures h[r].side == LevelSize(f0.side, r) && WellFormed(h[r]) {
      HierarchyAt(f0, m, r);
      LevelAtShape(f0, r);
    }
    forall r | 0 <= r < m ensures |b[r]| == h[r].side * h[r].side {
      InitialBuffersAt(f0.alpha, f0.side, m, r);
    }
  }

  class SimpleGeometricMultigridFloat {
    /** The inherited `ScalarField2D` part: the grid size and a copy of the altitude input. */
    var nx: nat
    var ny: nat
    var values: seq<real>
    /** Number of levels. */
    var mgsize: nat
    /** `alpha`, `altitude` and `laplacian` of every level. */
    var levels: seq<Level>
    var bufferA: seq<seq<real>>
    var bufferB: seq<seq<real>>
    /** The steps performed so far, in order. */
    ghost var trace: seq<Event>

    /**
     * Square, `mgsize` levels of sides `LevelSize(nx, r)`, and two buffers per
     * level of its size.
     */
    ghost predicate Valid()
      reads this
    {
      nx == ny && |values| == nx * ny && mgsize == Depth(nx) && |levels| == mgsize &&
      (forall r :: 0 <= r < mgsize ==> levels[r].side == LevelSize(nx, r) && WellFormed(levels[r])) &&
      Shaped(levels, Buffers(bufferA, bufferB))
    }

    /**
     * Builds the hierarchy: `mgsize` levels, level 0 copied from the inputs,
     * each coarser level restricted from the one above it; both buffers start
     * as `alph` on level 0 and as zero grids below.
     */
    constructor (alph: ScalarField2D, alt: ScalarField2D, lap: ScalarField2D)
      requires alph.Valid() && alt.Valid() && lap.Valid() && alph.nx == alph.ny
      requires alt.nx == alph.nx && alt.ny == alph.ny && lap.nx == alph.nx && lap.ny == alph.ny
      requires OddChain(alph.nx)
      ensures Valid() && nx == alph.nx && values == alt.values
      ensures mgsize == Depth(nx)
      ensures levels == Hierarchy(Level(nx, alph.values, alt.values, lap.values), mgsize)
      ensures bufferA == InitialBuffers(alph.values, nx, mgsize) && bufferB == bufferA
      ensures trace == []
    {
      var n: nat := alph.nx;
      var m := CountLevels(n);
      var f0 := LevelZero(alph, alt, lap);
      var lv, ba := BuildLevels(f0, m);
      nx, ny, values := n, n, alt.values;
      mgsize, levels := m, lv;
      bufferA, bufferB := ba, ba;
      trace := [];
      new;
      HierarchyShaped(f0, m);
    }

    /**
     * `nit` relaxation passes on `level`: each pass writes B from A, then the
     * two buffers swap roles.
     */
    method Smooth(level: nat, nit: nat, relax: Relax)
      requires Valid() && level < mgsize && KeepsShape(relax)
      modifies this
      ensures Valid()
      ensures nx == old(nx) && ny == old(ny) && values == old(values)
      ensures mgsize == old(mgsize) && levels == old(levels)
      ensures Buffers(bufferA, bufferB) ==
        Smoothed(relax, levels[level], level, nit, old(bufferA[level]), old(Buffers(bufferA, bufferB)))
      ensures trace == old(trace) + PassEvents(level, nit)
    {
      ghost var x := bufferA[level];
      ghost var st := Buffers(bufferA, bufferB);
      var l := levels[level];
      var step := 0;
      while step < nit
        invariant 0 <= step <= nit
        invariant nx == old(nx) && ny == old(ny) && values == old(values)
        invariant mgsize == old(mgsize) && levels == old(levels)
        invariant bufferA == st.a[level := Iterate(relax, l, step, x)]
        invariant bufferB == if step == 0 then st.b else st.b[level := Iterate(relax, l, step - 1, x)]
        invariant trace == old(trace) + PassEvents(level, step)
      {
        bufferB := bufferB[level := relax(l, bufferA[level])];
        bufferA, bufferB := bufferA[level := bufferB[level]], bufferB[level := bufferA[level]];
        trace := trace + [Pass(level)];
        step := step + 1;
      }
      if nit == 0 {
        assert st.a[level := x] == st.a;
      }
      assert Buffers(bufferA, bufferB) == Smoothed(relax, l, level, nit, x, st);
      SmoothedShaped(relax, levels, level, nit, x, st);
      assert Shaped(levels, Buffers(bufferA, bufferB));
    }

    /**
     * One cascading cycle from `level` down: the coarsest level is only
     * smoothed; any finer level goes through `CycleThroughCoarser`.
     */
    method VCycle(level: nat, relax: Relax)
      requires Valid() && level < mgsize && KeepsShape(relax)
      modifies this
      ensures Valid()
      ensures nx == old(nx) && ny == old(ny) && values == old(values)
      ensures mgsize == old(mgsize) && levels == old(levels)
      ensures Buffers(bufferA, bufferB) == Cycle(relax, levels, mgsize, level, old(Buffers(bufferA, bufferB)))
      ensures trace == old(trace) + CycleTrace(mgsize, level)
      decreases mgsize - level, 1
    {
      if level == mgsize - 1 {
        ghost var st := Buffers(bufferA, bufferB);
        var nit := 50 + 10 * (mgsize - level);
        Smooth(level, nit, relax);
        CycleCoarsest(relax, levels, mgsize, st);
      } else {
        CycleThroughCoarser(level, relax);
      }
    }

    /**
     * `VCycle` on a level that is not the coarsest: cycle the next coarser
     * level, then take the prolongation of its A buffer as this level's A
     * buffer and smooth it.
     */
    method CycleThroughCoarser(level: nat, relax: Relax)
      requires Valid() && level + 1 < mgsize && KeepsShape(relax)
      modifies this
      ensures Valid()
      ensures nx == old(nx) && ny == old(ny) && values == old(values)
      ensures mgsize == old(mgsize) && levels == old(levels)
      ensures Buffers(bufferA, bufferB) == Cycle(relax, levels, mgsize, level, old(Buffers(bufferA, bufferB)))
      ensures trace == old(trace) + CycleTrace(mgsize, level)
      decreases mgsize - level, 0
    {
      ghost var t := trace;
      ghost var st := Buffers(bufferA, bufferB);
      VCycle(level + 1, relax);
      ProlongateAndSmooth(level, relax, st, t);
    }

    /** The side of `level`, recomputed from `nx` by `s := s / 2 + 1` once per level. */
    method LevelSide(level: nat) returns (s: nat)
      ensures s == LevelSize(nx, level)
    {
      s := nx;
      var i := 0;
      while i < level
        invariant 0 <= i <= level && s == LevelSize(nx, i)
      {
        s := s / 2 + 1;
        i := i + 1;
      }
    }

    /**
     * The way back up at a level that is not the coarsest: its A buffer is
     * overwritten by the prolongation of the coarser A buffer, then smoothed.
     */
    method ProlongateAndSmooth(level: nat, relax: Relax, ghost st: Buffers, ghost t: seq<Event>)
      requires Valid() && level + 1 < mgsize && KeepsShape(relax)
      requires mgsize <= |st.a| && mgsize <= |st.b|
      requires Buffers(bufferA, bufferB) == Cycle(relax, levels, mgsize, level + 1, st)
      requires trace == t + CycleTrace(mgsize, level + 1)
      modifies this
      ensures Valid()
      ensures nx == old(nx) && ny == old(ny) && values == old(values)
      ensures mgsize == old(mgsize) && levels == old(levels)
      ensures Buffers(bufferA, bufferB) == Cycle(relax, levels, mgsize, level, st)
      ensures trace == t + CycleTrace(mgsize, level)
    {
      var s := LevelSide(level);
      var nit := 50 + 10 * (mgsize - level);
      ghost var inner := Buffers(bufferA, bufferB);
      assert levels[level + 1].side == CoarseSide(s);
      var fine := Prolongate(bufferA[level + 1], s, bufferA[level]);
      bufferA := bufferA[level := fine];
      trace := trace + [Prolong(level)];
      Smooth(level, nit, relax);
      SmoothedOverwritesA(relax, levels[level], level, nit, fine, inner, fine);
      CycleFinerStep(relax, levels, mgsize, level, st, inner, nit, Buffers(bufferA, bufferB));
      CycleTraceFiner(t, mgsize, level);
    }

    /**
     * The hierarchy of a valid solver shrinks by `s / 2 + 1` per level, so the
     * cycle lemmas (`CycleShaped`, `CycleKeepsConstant`) apply to its levels.
     */
    lemma LevelsChained()
      requires Valid()
      ensures Chained(levels)
    {
      SidesChained(levels, nx);
    }

    /** One solve: a cycle over the whole hierarchy. */
    method Solve(relax: Relax)
      requires Valid() && KeepsShape(relax)
      modifies this
      ensures Valid()
      ensures nx == old(nx) && ny == old(ny) && values == old(values)
      ensures mgsize == old(mgsize) && levels == old(levels)
      ensures Buffers(bufferA, bufferB) == Cycle(relax, levels, mgsize, 0, old(Buffers(bufferA, bufferB)))
      ensures trace == old(trace) + CycleTrace(mgsize, 0)
    {
      VCycle(0, relax);
    }

    /** The solution: a fresh `nx x ny` field holding the finest A buffer. */
    method GetResult() returns (result: ScalarField2D)
      requires Valid()
      ensures fresh(result) && result.Valid() && result.nx == nx && result.ny == ny
      ensures result.values == bufferA[0]
    {
      result := new ScalarField2D(nx, ny);
      var farray := bufferA[0];
      var i: nat, k: nat := 0, 0;
      while i < nx
        invariant 0 <= i <= nx && k == i * nx && k <= |farray|
        invariant fresh(result) && result.Valid() && result.nx == nx && result.ny == ny
        invariant forall m :: 0 <= m < k ==> result.values[m] == farray[m]
      {
        NextRow(i, nx);
        CopyRow(result, farray, i, k);
        i, k := i + 1, k + nx;
      }
      SameValues(result.values, farray);
    }

    /** Row `i` of `GetResult`: `result.Set(i, j, farray[i * ny + j])` for every column. */
    method CopyRow(result: ScalarField2D, farray: seq<real>, i: nat, k0: nat)
      requires result.Valid() && result.nx == nx && result.ny == ny && nx == ny
      requires |farray| == nx * ny && i < nx && k0 == i * ny && k0 + ny <= nx * ny
      modifies result
      ensures result.Valid() && result.nx == old(result.nx) && result.ny == old(result.ny)
      ensures |result.values| == old(|result.values|)
      ensures forall m :: 0 <= m < k0 ==> result.values[m] == old(result.values[m])
      ensures forall m :: k0 <= m < k0 + ny ==> result.values[m] == farray[m]
    {
      var j: nat, k: nat := 0, k0;
      while j < ny
        invariant j <= ny && k == k0 + j
        invariant result.Valid() && result.nx == old(result.nx) && result.ny == old(result.ny)
        invariant forall m :: 0 <= m < k0 ==> result.values[m] == old(result.values[m])
        invariant forall m :: k0 <= m < k ==> result.values[m] == farray[m]
      {
        result.Set(i, j, farray[k]);
        j, k := j + 1, k + 1;
      }
    }
  }
}
