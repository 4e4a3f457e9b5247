/**
 * What one call of `VCycle(level)` does to the solver's buffers, stated on
 * values.
 *
 * Each level owns two buffers, A and B. One relaxation pass of the compute
 * shader reads the level's fields and buffer A and writes buffer B; the host
 * then swaps the two buffer handles. `nit` passes therefore leave the `nit`-th
 * iterate in A and the one before it in B. The shader program itself is not
 * part of this model: a pass is the parameter `relax`.
 */
module CascadingCycle {
  import opened LevelSizes
  import opened Restriction
  import opened BilinearProlongation

  /** One relaxation pass: the level's fields and buffer A in, buffer B out. */
  type Relax = (Level, seq<real>) -> seq<real>

  /** A pass maps a grid of the level's size to a grid of the same size. */
  ghost predicate KeepsShape(relax: Relax)
  {
    forall l: Level, x: seq<real> :: |x| == l.side * l.side ==> |relax(l, x)| == |x|
  }

  /** `n` passes in a row, starting from `x`. */
  function Iterate(relax: Relax, l: Level, n: nat, x: seq<real>): seq<real>
  {
    if n == 0 then x else relax(l, Iterate(relax, l, n - 1, x))
  }

  lemma {:induction false} IterateKeepsShape(relax: Relax, l: Level, n: nat, x: seq<real>)
    requires KeepsShape(relax) && |x| == l.side * l.side
    ensures |Iterate(relax, l, n, x)| == |x|
  {
    if n > 0 {
      IterateKeepsShape(relax, l, n - 1, x);
    }
  }

  /** The A and B buffers of every level. */
  datatype Buffers = Buffers(a: seq<seq<real>>, b: seq<seq<real>>)

  /** Every level has both buffers, each of its level's size. */
  ghost predicate Shaped(levels: seq<Level>, st: Buffers)
  {
    |st.a| == |levels| && |st.b| == |levels| &&
    forall r :: 0 <= r < |levels| ==>
      |st.a[r]| == levels[r].side * levels[r].side && |st.b[r]| == levels[r].side * levels[r].side
  }

  /**
   * `nit` ping-pong passes on `level`, with `x` in the A role: A ends with the
   * `nit`-th iterate and B with the one before it (B is untouched when `nit == 0`).
   */
  function Smoothed(relax: Relax, l: Level, level: nat, nit: nat, x: seq<real>, st: Buffers): (r: Buffers)
    requires level < |st.a| && level < |st.b|
    ensures |r.a| == |st.a| && |r.b| == |st.b|
  {
    Buffers(st.a[level := Iterate(relax, l, nit, x)],
            st.b[level := if nit == 0 then st.b[level] else Iterate(relax, l, nit - 1, x)])
  }

  /** Smoothing a level from a grid of its size keeps every buffer at its level's size. */
  lemma SmoothedShaped(relax: Relax, levels: seq<Level>, level: nat, nit: nat, x: seq<real>, st: Buffers)
    requires KeepsShape(relax) && Shaped(levels, st) && level < |levels|
    requires |x| == levels[level].side * levels[level].side
    ensures Shaped(levels, Smoothed(relax, levels[level], level, nit, x, st))
  {
    IterateKeepsShape(relax, levels[level], nit, x);
    if nit > 0 {
      IterateKeepsShape(relax, levels[level], nit - 1, x);
    }
  }

  /** Smoothing a level leaves the buffers of every other level as they are. */
  lemma SmoothedElsewhere(relax: Relax, l: Level, level: nat, nit: nat, x: seq<real>, st: Buffers, r: nat)
    requires level < |st.a| && level < |st.b| && r < |st.a| && r < |st.b| && r != level
    ensures Smoothed(relax, l, level, nit, x, st).a[r] == st.a[r]
    ensures Smoothed(relax, l, level, nit, x, st).b[r] == st.b[r]
  {
  }

  /** Smoothing overwrites the A buffer of its level, whatever it held. */
  lemma SmoothedOverwritesA(relax: Relax, l: Level, level: nat, nit: nat, x: seq<real>, st: Buffers, y: seq<real>)
    requires level < |st.a| && level < |st.b|
    ensures Smoothed(relax, l, level, nit, x, Buffers(st.a[level := y], st.b)) == Smoothed(relax, l, level, nit, x, st)
  {
    assert st.a[level := y][level := Iterate(relax, l, nit, x)] == st.a[level := Iterate(relax, l, nit, x)];
  }

  /**
   * The buffers after `VCycle(level)`: the coarsest level is smoothed from its
   * own A buffer; any finer level first cycles the next coarser level, then
   * smooths from the prolongation of that level's A buffer.
   */
  function Cycle(relax: Relax, levels: seq<Level>, mgsize: nat, level: nat, st: Buffers): (r: Buffers)
    requires level < mgsize <= |levels| && mgsize <= |st.a| && mgsize <= |st.b|
    ensures |r.a| == |st.a| && |r.b| == |st.b|
    decreases mgsize - level
  {
    var l := levels[level];
    if level == mgsize - 1 then
      Smoothed(relax, l, level, Iterations(mgsize, level), st.a[level], st)
    else
      var inner := Cycle(relax, levels, mgsize, level + 1, st);
      Smoothed(relax, l, level, Iterations(mgsize, level), Prolongation(inner.a[level + 1], l.side), inner)
  }

  /** `Cycle` on the coarsest level: smoothing from its own A buffer. */
  lemma CycleCoarsest(relax: Relax, levels: seq<Level>, mgsize: nat, st: Buffers)
    requires 0 < mgsize <= |levels| && mgsize <= |st.a| && mgsize <= |st.b|
    ensures Cycle(relax, levels, mgsize, mgsize - 1, st) ==
      Smoothed(relax, levels[mgsize - 1], mgsize - 1, Iterations(mgsize, mgsize - 1), st.a[mgsize - 1], st)
  {
  }

  /** `Cycle` on a finer level: the coarser cycle, then smoothing from the prolongation of its result. */
  lemma CycleFiner(relax: Relax, levels: seq<Level>, mgsize: nat, level: nat, st: Buffers)
    requires level + 1 < mgsize <= |levels| && mgsize <= |st.a| && mgsize <= |st.b|
    ensures var inner := Cycle(relax, levels, mgsize, level + 1, st);
      Cycle(relax, levels, mgsize, level, st) ==
      Smoothed(relax, levels[level], level, Iterations(mgsize, level),
               Prolongation(inner.a[level + 1], levels[level].side), inner)
  {
  }

  /**
   * The way back up at a finer level completes its cycle: smoothing from the
   * prolongation of the coarser cycle's result is the cycle at `level`.
   */
  lemma CycleFinerStep(relax: Relax, levels: seq<Level>, mgsize: nat, level: nat, st: Buffers, inner: Buffers, nit: nat, after: Buffers)
    requires level + 1 < mgsize <= |levels| && mgsize <= |st.a| && mgsize <= |st.b|
    requires inner == Cycle(relax, levels, mgsize, level + 1, st) && nit == Iterations(mgsize, level)
    requires after == Smoothed(relax, levels[level], level, nit, Prolongation(inner.a[level + 1], levels[level].side), inner)
    ensures after == Cycle(relax, levels, mgsize, level, st)
  {
    CycleFiner(relax, levels, mgsize, level, st);
  }

  /** Sizes of consecutive levels follow `s / 2 + 1`. */
  ghost predicate Chained(levels: seq<Level>)
  {
    forall r :: 0 < r < |levels| ==> levels[r].side == CoarseSide(levels[r - 1].side)
  }

  /** A cycle keeps every buffer at its level's size. */
  lemma {:induction false} CycleShaped(relax: Relax, levels: seq<Level>, mgsize: nat, level: nat, st: Buffers)
    requires KeepsShape(relax) && Chained(levels) && Shaped(levels, st)
    requires level < mgsize <= |levels|
    ensures Shaped(levels, Cycle(relax, levels, mgsize, level, st))
    decreases mgsize - level
  {
    var l := levels[level];
    if level == mgsize - 1 {
      IterateKeepsShape(relax, l, Iterations(mgsize, level), st.a[level]);
      IterateKeepsShape(relax, l, Iterations(mgsize, level) - 1, st.a[level]);
    } else {
      CycleShaped(relax, levels, mgsize, level + 1, st);
      var inner := Cycle(relax, levels, mgsize, level + 1, st);
      var p := Prolongation(inner.a[level + 1], l.side);
      IterateKeepsShape(relax, l, Iterations(mgsize, level), p);
      IterateKeepsShape(relax, l, Iterations(mgsize, level) - 1, p);
    }
  }

  /** Both buffers of level `r` are the same in `x` and `y`. */
  predicate SameAt(x: Buffers, y: Buffers, r: nat)
  {
    r < |x.a| && r < |x.b| && r < |y.a| && r < |y.b| && x.a[r] == y.a[r] && x.b[r] == y.b[r]
  }

  /** `VCycle(level)` never touches the buffers of a finer level. */
  lemma {:induction false} CycleKeepsFinerLevels(relax: Relax, levels: seq<Level>, mgsize: nat, level: nat,
                                                 st: Buffers, r: nat)
    requires level < mgsize <= |levels| && mgsize <= |st.a| && mgsize <= |st.b|
    requires r < level
    ensures SameAt(Cycle(relax, levels, mgsize, level, st), st, r)
    decreases mgsize - level
  {
    if level < mgsize - 1 {
      CycleKeepsFinerLevels(relax, levels, mgsize, level + 1, st, r);
      FinerCycleKeeps(relax, levels, mgsize, level, st, r);
    } else {
      var l, nit := levels[level], Iterations(mgsize, level);
      CycleCoarsest(relax, levels, mgsize, st);
      SmoothedElsewhere(relax, l, level, nit, st.a[level], st, r);
    }
  }

  /** The way back up at `level` keeps a finer level `r` that the coarser cycle kept. */
  lemma FinerCycleKeeps(relax: Relax, levels: seq<Level>, mgsize: nat, level: nat, st: Buffers, r: nat)
    requires level + 1 < mgsize <= |levels| && mgsize <= |st.a| && mgsize <= |st.b| && r < level
    requires SameAt(Cycle(relax, levels, mgsize, level + 1, st), st, r)
    ensures SameAt(Cycle(relax, levels, mgsize, level, st), st, r)
  {
    var l, nit := levels[level], Iterations(mgsize, level);
    var inner := Cycle(relax, levels, mgsize, level + 1, st);
    var x := Prolongation(inner.a[level + 1], l.side);
    CycleFiner(relax, levels, mgsize, level, st);
    SmoothedElsewhere(relax, l, level, nit, x, inner, r);
  }

  /** Every cell of `x` equals `c`. */
  predicate Constant(x: seq<real>, c: real)
  {
    forall k :: 0 <= k < |x| ==> x[k] == c
  }

  /** A pass on any level leaves a constant grid of value `c` as it is. */
  ghost predicate FixesConstant(relax: Relax, c: real)
  {
    forall l: Level, x: seq<real> :: |x| == l.side * l.side && Constant(x, c) ==> relax(l, x) == x
  }

  lemma {:induction false} IterateFixesConstant(relax: Relax, l: Level, n: nat, x: seq<real>, c: real)
    requires FixesConstant(relax, c) && |x| == l.side * l.side && Constant(x, c)
    ensures Iterate(relax, l, n, x) == x
  {
    if n > 0 {
      IterateFixesConstant(relax, l, n - 1, x, c);
    }
  }

  /**
   * When the passes keep the constant `c`, a cycle whose coarsest A buffer
   * holds `c` everywhere leaves `c` in the A buffer of every level it visits:
   * prolongation carries the constant up and the passes keep it.
   */
  lemma {:induction false} CycleKeepsConstant(relax: Relax, levels: seq<Level>, mgsize: nat, level: nat,
                                              st: Buffers, c: real, r: nat)
    requires KeepsShape(relax) && FixesConstant(relax, c) && Chained(levels) && Shaped(levels, st)
    requires level < mgsize <= |levels| && level <= r < mgsize
    requires Constant(st.a[mgsize - 1], c)
    ensures Constant(Cycle(relax, levels, mgsize, level, st).a[r], c)
    decreases mgsize - level
  {
    var l := levels[level];
    var nit := Iterations(mgsize, level);
    if level == mgsize - 1 {
      IterateFixesConstant(relax, l, nit, st.a[level], c);
    } else if r > level {
      CycleKeepsConstant(relax, levels, mgsize, level + 1, st, c, r);
    } else {
      CycleKeepsConstant(relax, levels, mgsize, level + 1, st, c, level + 1);
      var inner := Cycle(relax, levels, mgsize, level + 1, st);
      CycleShaped(relax, levels, mgsize, level + 1, st);
      var p := Prolongation(inner.a[level + 1], l.side);
      ProlongationConstant(inner.a[level + 1], l.side, c);
      IterateFixesConstant(relax, l, nit, p, c);
    }
  }

  // ---------------------------------------------------------------- order of the work

  /** The host-side steps of a cycle, in order: one relaxation pass, or one prolongation. */
  datatype Event = Pass(level: nat) | Prolong(level: nat)

  /** `nit` passes on `level`. */
  function PassEvents(level: nat, nit: nat): (t: seq<Event>)
    ensures |t| == nit && forall k :: 0 <= k < nit ==> t[k] == Pass(level)
  {
    seq(nit, _ => Pass(level))
  }

  /** The steps of `VCycle(level)`: first the whole coarser cycle, then prolongation, then the passes. */
  function CycleTrace(mgsize: nat, level: nat): seq<Event>
    requires level < mgsize
    decreases mgsize - level
  {
    if level == mgsize - 1 then PassEvents(level, Iterations(mgsize, level))
    else CycleTrace(mgsize, level + 1) + ([Prolong(level)] + PassEvents(level, Iterations(mgsize, level)))
  }

  /**
   * The cycle works from coarse to fine: levels never increase along the trace,
   * so every coarser level is finished before a finer one is touched, and no
   * level outside `level .. mgsize - 1` is touched at all.
   */
  lemma {:induction false} CycleTraceCoarseToFine(mgsize: nat, level: nat)
    requires level < mgsize
    ensures forall k :: 0 <= k < |CycleTrace(mgsize, level)| ==>
      level <= CycleTrace(mgsize, level)[k].level < mgsize
    ensures forall k1, k2 :: 0 <= k1 < k2 < |CycleTrace(mgsize, level)| ==>
      CycleTrace(mgsize, level)[k1].level >= CycleTrace(mgsize, level)[k2].level
    decreases mgsize - level
  {
    if level < mgsize - 1 {
      CycleTraceCoarseToFine(mgsize, level + 1);
      var inner := CycleTrace(mgsize, level + 1);
      var t := CycleTrace(mgsize, level);
      var tail := [Prolong(level)] + PassEvents(level, Iterations(mgsize, level));
      assert t == inner + tail;
      forall k | 0 <= k < |t| ensures level <= t[k].level < mgsize {
        if k < |inner| {
          assert t[k] == inner[k];
        } else {
          assert t[k] == tail[k - |inner|];
        }
      }
      forall k1, k2 | 0 <= k1 < k2 < |t| ensures t[k1].level >= t[k2].level {
        if k2 < |inner| {
          assert t[k1] == inner[k1] && t[k2] == inner[k2];
        } else if k1 < |inner| {
          assert t[k1] == inner[k1] && t[k2] == tail[k2 - |inner|];
        } else {
          assert t[k1] == tail[k1 - |inner|] && t[k2] == tail[k2 - |inner|];
        }
      }
    }
  }

  /** The cycle's first step is a relaxation pass on the coarsest level. */
  lemma {:induction false} CycleStartsAtCoarsest(mgsize: nat, level: nat)
    requires level < mgsize
    ensures |CycleTrace(mgsize, level)| > 0 && CycleTrace(mgsize, level)[0] == Pass(mgsize - 1)
    decreases mgsize - level
  {
    if level < mgsize - 1 {
      CycleStartsAtCoarsest(mgsize, level + 1);
    }
  }

  /** Every level `r` the cycle visits gets exactly `Iterations(mgsize, r)` passes. */
  lemma {:induction false} CyclePassCount(mgsize: nat, level: nat, r: nat)
    requires level <= r < mgsize
    ensures Count(CycleTrace(mgsize, level), Pass(r)) == Iterations(mgsize, r)
    decreases mgsize - level
  {
    var nit := Iterations(mgsize, level);
    PassEventsCount(level, nit, r);
    if level < mgsize - 1 {
      var inner := CycleTrace(mgsize, level + 1);
      CountSplit(inner, Prolong(level), PassEvents(level, nit), Pass(r));
      if r > level {
        CyclePassCount(mgsize, level + 1, r);
      } else {
        CycleTraceAbsent(mgsize, level + 1, r);
      }
    }
  }

  /** Every level the cycle visits, except the coarsest, is prolongated onto exactly once. */
  lemma {:induction false} CycleProlongCount(mgsize: nat, level: nat, r: nat)
    requires level <= r < mgsize
    ensures Count(CycleTrace(mgsize, level), Prolong(r)) == if r < mgsize - 1 then 1 else 0
    decreases mgsize - level
  {
    var nit := Iterations(mgsize, level);
    PassEventsCount(level, nit, r);
    if level < mgsize - 1 {
      var inner := CycleTrace(mgsize, level + 1);
      var tail := PassEvents(level, nit);
      assert CycleTrace(mgsize, level) == inner + ([Prolong(level)] + tail);
      CountSplit(inner, Prolong(level), tail, Prolong(r));
      if r > level {
        CycleProlongCount(mgsize, level + 1, r);
        assert Count(inner, Prolong(r)) == if r < mgsize - 1 then 1 else 0;
      } else {
        CycleTraceAbsent(mgsize, level + 1, r);
      }
    }
  }

  /** A trace `t` followed by the coarser cycle and the way back up at `level` is `t` followed by the cycle at `level`. */
  lemma CycleTraceFiner(t: seq<Event>, mgsize: nat, level: nat)
    requires level + 1 < mgsize
    ensures (t + CycleTrace(mgsize, level + 1)) + ([Prolong(level)] + PassEvents(level, Iterations(mgsize, level))) ==
      t + CycleTrace(mgsize, level)
  {
    var inner, tail := CycleTrace(mgsize, level + 1), [Prolong(level)] + PassEvents(level, Iterations(mgsize, level));
    assert (t + inner) + tail == t + (inner + tail);
  }

  /** Number of occurrences of `x` in `t`. */
  function Count(t: seq<Event>, x: Event): nat
  {
    if |t| == 0 then 0 else Count(t[..|t| - 1], x) + (if t[|t| - 1] == x then 1 else 0)
  }

  /** Occurrences in a concatenation add up. */
  lemma {:induction false} CountAppend(a: seq<Event>, b: seq<Event>, x: Event)
    ensures Count(a + b, x) == Count(a, x) + Count(b, x)
  {
    if |b| > 0 {
      assert (a + b)[..|a + b| - 1] == a + b[..|b| - 1];
      CountAppend(a, b[..|b| - 1], x);
    } else {
      assert a + b == a;
    }
  }

  /** Occurrences of `x` in `a + ([e] + b)`. */
  lemma CountSplit(a: seq<Event>, e: Event, b: seq<Event>, x: Event)
    ensures Count(a + ([e] + b), x) == Count(a, x) + (if e == x then 1 else 0) + Count(b, x)
  {
    CountAppend(a, [e] + b, x);
    CountAppend([e], b, x);
    assert [e][..0] == [];
  }

  /** An event that does not occur in `t` has no occurrences. */
  lemma {:induction false} CountAbsent(t: seq<Event>, x: Event)
    requires x !in t
    ensures Count(t, x) == 0
  {
    if |t| > 0 {
      assert forall y :: y in t[..|t| - 1] ==> y in t;
      CountAbsent(t[..|t| - 1], x);
    }
  }

  /** Levels finer than the cycle's own never appear in its trace. */
  lemma CycleTraceAbsent(mgsize: nat, level: nat, r: nat)
    requires level < mgsize && r < level
    ensures Count(CycleTrace(mgsize, level), Pass(r)) == 0
    ensures Count(CycleTrace(mgsize, level), Prolong(r)) == 0
  {
    CycleTraceCoarseToFine(mgsize, level);
    var t := CycleTrace(mgsize, level);
    assert Pass(r) !in t && Prolong(r) !in t by {
      forall k | 0 <= k < |t| ensures t[k] != Pass(r) && t[k] != Prolong(r) {
        assert t[k].level >= level;
      }
    }
    CountAbsent(t, Pass(r));
    CountAbsent(t, Prolong(r));
  }

  /** `PassEvents(level, nit)` holds `nit` passes on `level` and nothing else. */
  lemma {:induction false} PassEventsCount(level: nat, nit: nat, r: nat)
    ensures Count(PassEvents(level, nit), Pass(r)) == if r == level then nit else 0
    ensures Count(PassEvents(level, nit), Prolong(r)) == 0
  {
    if nit > 0 {
      PassEventsCount(level, nit - 1, r);
      assert PassEvents(level, nit)[..nit - 1] == PassEvents(level, nit - 1);
    }
  }
}
