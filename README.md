# Gradient terrains: the multigrid diffusion solver and its helpers, in Dafny

This project models the sequential core of a terrain generator that diffuses
altitude constraints over a grid with a geometric multigrid solver. It has
three parts.

- **`ScalarField2D`** (`scalar_field.dfy`, module `ScalarField`): the dense
  row-major `nx x ny` grid of values. Index conversion, `Get`/`Set`, `Fill`,
  elementwise `Add`/`Remove`, `AffineTransform`, `Min`/`Max`/`Average` and
  normalisation are all modelled. It is a class whose `values` sequence the
  methods update in place, with the invariant `|values| == nx * ny`.
- **`SimpleGeometricMultigridFloat`**, split over five modules:
  - `LevelSizes` (`level_sizes.dfy`): the level count `mgsize` and the side
    `s / 2 + 1` of each coarser level.
  - `Restriction` (`restriction.dfy`): the clipped 3 x 3 stencil with weights
    `1 / (2^|di| * 2^|dj|)`, and the fixed/free rule that builds each coarser
    level.
  - `BilinearProlongation` (`prolongation.dfy`): the parity-weighted
    interpolation of a coarse buffer onto the finer one.
  - `CascadingCycle` (`cycle.dfy`): what `VCycle` does to the A/B buffers,
    stated on values. It also holds a ghost trace of the host-side steps
    (relaxation passes and prolongations) in order.
  - `Multigrid` (`multigrid.dfy`): the solver class itself. The constructor
    builds the hierarchy; `VCycle`, `Solve` and `GetResult` follow.

  One relaxation pass of the compute shader is the function parameter
  `relax`. The cycle is proved against `Cycle` for every such pass that keeps
  grid sizes.
- **Shader source utilities**:
  - `ShaderSource` (`shader_source.dfy`): `prepare_source`, which splices
    definitions in after the `#version` line, and the per-stage definitions
    and stage names.
  - `ShaderListing` (`shader_listing.dfy`): `print_line`, which quotes a range
    of numbered source lines into an error report.

Floats are modelled as `real`. Strings are `seq<char>`.

## Model

| member | source | states |
|---|---|---|
| ScalarField.ScalarField2D.Empty | code/src/basics.h:23-26 | the default field is 0 x 0 with no values |
| ScalarField.ScalarField2D.constructor | code/src/basics.h:34-37 | an `nx x ny` field holds exactly `nx * ny` values, all 0 |
| ScalarField.ScalarField2D.Filled | code/src/basics.h:77-81 | an `nx x ny` field holds `nx * ny` values, every one equal to `value` |
| ScalarField.ScalarField2D.Copy | code/src/basics.h:87-91 | the copy has the same dimensions and equal values, in a fresh object |
| ScalarField.ScalarField2D.IndexRoundTrip | code/src/basics.h:157-185 | `ToIndex2D` inverts `ToIndex1D(i, j) = i * nx + j` for every column `0 <= j < nx` |
| ScalarField.ScalarField2D.IndexRoundTrip2D | code/src/basics.h:157-185 | `ToIndex1D` inverts `ToIndex2D` on every non-negative flat index |
| ScalarField.ScalarField2D.Set | code/src/basics.h:268-271 | afterwards `Get(row, column)` is `v`, every other index is unchanged and the invariant holds |
| ScalarField.ScalarField2D.Fill | code/src/basics.h:251-254 | every value becomes `v`; the length and the dimensions are unchanged |
| ScalarField.ScalarField2D.AddAt | code/src/basics.h:217-220 | only index `i * nx + j` changes, and it grows by `v` |
| ScalarField.ScalarField2D.RemoveAt | code/src/basics.h:225-228 | only index `i * nx + j` changes, and it shrinks by `v` |
| ScalarField.ScalarField2D.AddField | code/src/basics.h:233-237 | each value becomes `old + field`, using the old values even when `field` is this object |
| ScalarField.ScalarField2D.RemoveField | code/src/basics.h:242-246 | each value becomes `old - field`, using the old values even when `field` is this object |
| ScalarField.ScalarField2D.AffineTransform | code/src/basics.h:135-139 | each value becomes `a * old + b`, with `b` defaulting to 0 |
| ScalarField.MaxOf | code/src/basics.h:292-303 | 0 on an empty sequence; otherwise an element of it that is at least every element |
| ScalarField.MinOf | code/src/basics.h:308-319 | 0 on an empty sequence; otherwise an element of it that is at most every element |
| ScalarField.ScalarField2D.Max | code/src/basics.h:292-303 | the scanning loop returns `MaxOf(values)` |
| ScalarField.ScalarField2D.Min | code/src/basics.h:308-319 | the scanning loop returns `MinOf(values)` |
| ScalarField.ScalarField2D.Average | code/src/basics.h:324-330 | the loop returns the sum over the count, and it lies between `Min` and `Max` |
| ScalarField.AverageBetween | code/src/basics.h:324-330 | the mean of a non-empty sequence lies between its minimum and its maximum |
| ScalarField.ScalarField2D.NormalizeField | code/src/basics.h:124-130 | the new values are `Normalize(old values)`: each is `(v - min) / (max - min)` with the old extremes |
| ScalarField.ScalarField2D.Normalized | code/src/basics.h:144-152 | a fresh field of the same size holding `Normalize(values)`; this field is not modified |
| ScalarField.NormalizeRange | code/src/basics.h:124-152 | a normalised non-constant field lies in [0, 1], the old minimum maps to 0 and the old maximum to 1, and the new extremes are exactly 0 and 1 |
| ScalarField.RescaleAllRange | code/src/basics.h:124-139 | normalisation is the affine transform `a * v + b` with `a = 1/(max-min)` and `b = -min/(max-min)`, and it keeps values in [0, 1] |
| LevelSizes.CountLevels | code/src/diffusionterrain.cpp:16-23 | the counting loop ends with `mgsize == Depth(nx)`; the coarsest side is at most 9 and every finer side is above 9 |
| LevelSizes.DepthSpec | code/src/diffusionterrain.cpp:16-23 | `Depth(n) >= 1`; level `Depth(n) - 1` has side at most `minsize` and every finer level has a side above it |
| LevelSizes.DepthUnique | code/src/diffusionterrain.cpp:16-23 | those two conditions determine the level count uniquely |
| LevelSizes.LevelSizeShift | code/src/diffusionterrain.cpp:22 | coarsening once and then `r` times equals coarsening `r + 1` times |
| LevelSizes.LevelSizeOfPow2 | code/src/diffusionterrain.cpp:117-118 | a side `2^k + 1` becomes `2^(k-r) + 1` after `r` coarsenings |
| LevelSizes.PowerOfTwoPlusOneIsOddChain | code/src/diffusionterrain.cpp:56-72 | inputs of side `2^k + 1` give an odd side on every level that gets coarsened |
| Restriction.CoefIsShiftQuotient | code/src/diffusionterrain.cpp:86 | `1 / ((1 << abs(ii)) * (1 << abs(jj)))` is 1 at the centre, 1/2 on an edge and 1/4 on a corner, and the divisor is positive |
| Restriction.Restrict | code/src/diffusionterrain.cpp:49-55 | the coarser level has side `s / 2 + 1`, with all three fields of size side squared |
| Restriction.RestrictAt | code/src/diffusionterrain.cpp:105-114 | cell (i, j) of the coarser level lives at flat index `i * s + j` and holds that cell's alpha, altitude and Laplacian |
| Restriction.AnyFixedWitness | code/src/diffusionterrain.cpp:89-91 | the `fixed` flag is raised exactly when some visited cell has `alpha < 1` |
| Restriction.StencilMembers | code/src/diffusionterrain.cpp:60-86 | the stencil visits exactly the clipped offsets, each with a positive weight |
| Restriction.FixedIffSomeFixedNeighbour | code/src/diffusionterrain.cpp:80-91 | a coarse cell is fixed if and only if some fine cell of its clipped stencil has `alpha < 1` |
| Restriction.WeightPositive | code/src/diffusionterrain.cpp:89-108 | fixed if and only if `nfixed > 0`, so the fixed division never divides by zero; a free cell has zero fixed weight and moment |
| Restriction.WeightedMeanBetween | code/src/diffusionterrain.cpp:93-108 | `maltitude / nfixed` lies between the lowest and highest altitude of the fixed cells visited |
| Restriction.FixedCellAltitudeBetween | code/src/diffusionterrain.cpp:93-108 | a fixed coarse cell has alpha 0 and Laplacian 0, and its altitude lies between the lowest and highest altitude of the fixed fine cells of its stencil |
| Restriction.FixedCellKeepsCommonAltitude | code/src/diffusionterrain.cpp:105-108 | when all fixed fine cells share altitude `h`, the coarse altitude is `h` |
| Restriction.InteriorCoefSum | code/src/diffusionterrain.cpp:84-88 | the nine weights of an interior stencil add up to 4 |
| Restriction.FreeInteriorCellLaplacian | code/src/diffusionterrain.cpp:97-113 | a free cell has alpha 1 and altitude 0; over nine free fine cells of Laplacian `v`, its Laplacian is the unnormalised `4 * v` |
| Restriction.StencilRowInside | code/src/diffusionterrain.cpp:60-85 | for an odd fine side of at least 3, every fine row and column the clipped stencil reads is inside the fine level |
| Restriction.EvenSideOverrunsStencil | code/src/diffusionterrain.cpp:67-84 | for an even fine side, the last coarse row reads fine row `olds`, one past the end |
| Restriction.FineIndex | code/src/diffusionterrain.cpp:84-87 | the flat index `iii * olds + jjj` is in range and reads the stencil's fine cell |
| Restriction.StencilBounds | code/src/diffusionterrain.cpp:60-72 | offsets run from -1 to 1, clipped to start at 0 on the first row and to end at 0 on the last |
| Restriction.Accumulate | code/src/diffusionterrain.cpp:89-101 | `alpha < 1` raises `fixed` and adds to the moment and the weight; `alpha > 0` adds to the Laplacian sum |
| Restriction.StencilCell | code/src/diffusionterrain.cpp:84-101 | one loop body appends the fine cell at offset (ii, jj) to the visited stencil |
| Restriction.StencilRow | code/src/diffusionterrain.cpp:82-102 | the inner loop appends the row of offset `ii` to the visited stencil |
| Restriction.RestrictCell | code/src/diffusionterrain.cpp:60-103 | the two stencil loops yield the flag and the three sums of the whole clipped stencil |
| Restriction.RestrictWrite | code/src/diffusionterrain.cpp:105-114 | only cell `k` is written, with the restricted value of each field; the field not written keeps its zero |
| Restriction.RestrictRow | code/src/diffusionterrain.cpp:58-115 | row `i` of the coarse grids receives the restricted values; earlier rows are kept and later rows stay zero |
| Restriction.RestrictLevel | code/src/diffusionterrain.cpp:50-116 | one pass of the level loop produces exactly `Restrict(f)` |
| BilinearProlongation.ProlongReadsInside | code/src/diffusionterrain.cpp:275-285 | every coarse row and column read lies below `s / 2 + 1`, for every `s` |
| BilinearProlongation.ProlongationInjects | code/src/diffusionterrain.cpp:274-276 | a fine cell with both coordinates even copies the coarse cell below it |
| BilinearProlongation.ProlongCellBetween | code/src/diffusionterrain.cpp:273-286 | each fine value is a convex combination, within the range of the coarse values |
| BilinearProlongation.ProlongationBetween | code/src/diffusionterrain.cpp:271-289 | the whole prolongated buffer stays within the range of the coarse buffer |
| BilinearProlongation.ProlongationConstant | code/src/diffusionterrain.cpp:271-289 | a constant coarse buffer prolongates to the same constant |
| BilinearProlongation.ProlongCellAffine | code/src/diffusionterrain.cpp:273-286 | the weights reproduce affine data: fine cell (i, j) gets the coarse map evaluated at (i/2, j/2) |
| BilinearProlongation.ProlongValue | code/src/diffusionterrain.cpp:273-286 | the loop body computes `val` with the flat coarse indices and the parity weights |
| BilinearProlongation.ProlongateRow | code/src/diffusionterrain.cpp:272-288 | row `i` of the fine buffer is overwritten with the prolongation; earlier cells are kept |
| BilinearProlongation.ProlongateRows | code/src/diffusionterrain.cpp:271-289 | the two loops overwrite every cell of the `s x s` buffer with its prolongated value |
| BilinearProlongation.Prolongate | code/src/diffusionterrain.cpp:271-289 | the resulting buffer is exactly `Prolongation(coarse, s)` |
| CascadingCycle.SmoothedShaped | code/src/diffusionterrain.cpp:227-252 | smoothing keeps every buffer at its level's size |
| CascadingCycle.SmoothedElsewhere | code/src/diffusionterrain.cpp:297-326 | smoothing a level leaves both buffers of every other level as they were |
| CascadingCycle.SmoothedOverwritesA | code/src/diffusionterrain.cpp:287-297 | the buffer A content before prolongation has no effect on the result |
| CascadingCycle.CycleCoarsest | code/src/diffusionterrain.cpp:224-258 | on the coarsest level the cycle is `nit` passes from its own A buffer |
| CascadingCycle.CycleFiner | code/src/diffusionterrain.cpp:268-328 | on a finer level the cycle is the coarser cycle, then `nit` passes from the prolongation of its A buffer |
| CascadingCycle.CycleFinerStep | code/src/diffusionterrain.cpp:268-328 | smoothing from the prolongated coarser result completes the cycle at `level` |
| CascadingCycle.CycleShaped | code/src/diffusionterrain.cpp:214-329 | a cycle keeps every buffer at its level's size |
| CascadingCycle.CycleKeepsFinerLevels | code/src/diffusionterrain.cpp:214-329 | `VCycle(level)` leaves both buffers of every finer level untouched |
| CascadingCycle.FinerCycleKeeps | code/src/diffusionterrain.cpp:268-328 | the way back up at `level` does not touch a finer level that the coarser cycle left alone |
| CascadingCycle.IterateFixesConstant | code/src/diffusionterrain.cpp:297-326 | passes that fix a constant grid leave it unchanged after any number of iterations |
| CascadingCycle.CycleKeepsConstant | code/src/diffusionterrain.cpp:268-328 | with constant-preserving passes and a constant coarsest A buffer, every visited level's A buffer ends constant |
| CascadingCycle.PassEvents | code/src/diffusionterrain.cpp:297-326 | the smoothing loop performs exactly `nit` passes on its level |
| CascadingCycle.CycleTraceCoarseToFine | code/src/diffusionterrain.cpp:224-268 | along a cycle's steps the level never increases and stays in `level .. mgsize - 1`, so coarser levels finish before finer ones start |
| CascadingCycle.CycleStartsAtCoarsest | code/src/diffusionterrain.cpp:224-268 | the first step of every cycle is a pass on the coarsest level |
| CascadingCycle.CyclePassCount | code/src/diffusionterrain.cpp:221-327 | every visited level gets exactly `50 + 10 * (mgsize - r)` passes |
| CascadingCycle.CycleProlongCount | code/src/diffusionterrain.cpp:268-289 | each visited level other than the coarsest is prolongated onto exactly once; the coarsest never is |
| CascadingCycle.CycleTraceAbsent | code/src/diffusionterrain.cpp:214-329 | levels finer than the cycle's own never appear among its steps |
| Multigrid.LevelAtShape | code/src/diffusionterrain.cpp:49-118 | level `r` of the hierarchy is well formed, with side `LevelSize(nx, r)` |
| Multigrid.InitialBuffersAt | code/src/diffusionterrain.cpp:35-54 | both buffers start as `alpha` on level 0 and as zero grids of the level's size below it |
| Multigrid.SidesChained | code/src/diffusionterrain.cpp:117-118 | sides `LevelSize(n, r)` shrink by `s / 2 + 1` from level to level |
| Multigrid.HierarchyShaped | code/src/diffusionterrain.cpp:49-55 | every level has side `LevelSize(nx, r)`, and its initial buffers have that size squared |
| Multigrid.Restrictable | code/src/diffusionterrain.cpp:47-118 | every level except the coarsest is odd, at least 3 wide, and restricts to the next level's side |
| Multigrid.LevelZeroRow | code/src/diffusionterrain.cpp:40-44 | row `i` of level 0 receives the inputs' `Get(i, j)` at flat index `i * ny + j` |
| Multigrid.LevelZero | code/src/diffusionterrain.cpp:32-45 | for square inputs, level 0 holds the three inputs cell for cell |
| Multigrid.BuildLevels | code/src/diffusionterrain.cpp:47-119 | the level loop yields `Hierarchy(f0, mgsize)` and buffers `alpha`, then zero grids |
| Multigrid.SimpleGeometricMultigridFloat.constructor | code/src/diffusionterrain.cpp:11-120 | `mgsize == Depth(nx)`, levels are the restriction hierarchy of the inputs, `bufferA == bufferB` start as `alpha` then zeros, and the solver invariant holds |
| Multigrid.SimpleGeometricMultigridFloat.Smooth | code/src/diffusionterrain.cpp:297-328 | `nit` ping-pong passes leave the `nit`-th iterate in A and the previous one in B; other levels, fields and the trace prefix are unchanged |
| Multigrid.SimpleGeometricMultigridFloat.LevelSide | code/src/diffusionterrain.cpp:215-218 | the side recomputed in `VCycle` is `LevelSize(nx, level)` |
| Multigrid.SimpleGeometricMultigridFloat.ProlongateAndSmooth | code/src/diffusionterrain.cpp:271-328 | overwriting A by prolongation, then smoothing, turns the coarser cycle's buffers into `Cycle(level)` and extends the trace accordingly |
| Multigrid.SimpleGeometricMultigridFloat.CycleThroughCoarser | code/src/diffusionterrain.cpp:262-329 | recursing to `level + 1` and coming back up leaves the buffers equal to `Cycle(level)` and appends `CycleTrace(level)` |
| Multigrid.SimpleGeometricMultigridFloat.VCycle | code/src/diffusionterrain.cpp:214-329 | the buffers become `Cycle(relax, levels, mgsize, level, old buffers)` and the trace grows by `CycleTrace(mgsize, level)`; the fields and the invariant are kept |
| Multigrid.SimpleGeometricMultigridFloat.LevelsChained | code/src/diffusionterrain.cpp:117-118 | the hierarchy of a valid solver shrinks by `s / 2 + 1` per level |
| Multigrid.SimpleGeometricMultigridFloat.Solve | code/src/diffusionterrain.cpp:208-211 | one solve is the cycle from level 0 |
| Multigrid.SimpleGeometricMultigridFloat.CopyRow | code/src/diffusionterrain.cpp:345-349 | row `i` of the result receives `farray[i * ny + j]` through `Set`; earlier rows are kept |
| Multigrid.SimpleGeometricMultigridFloat.GetResult | code/src/diffusionterrain.cpp:333-351 | a fresh `nx x ny` field holding exactly the finest A buffer |
| ShaderSource.Find | code/src/gpu-shader.cpp:38-47 | `std::string::find`: the first occurrence at or after `from`, or none (`npos`) when there is no occurrence |
| ShaderSource.FindNone | code/src/gpu-shader.cpp:38-39 | the search returns `npos` if and only if the pattern does not occur |
| ShaderSource.SplitVersionParts | code/src/gpu-shader.cpp:36-53 | an accepted file is version part + rest; the version part ends at the newline after the first `#version`, and the rest has no `#version` |
| ShaderSource.CutVersion | code/src/gpu-shader.cpp:30-58 | gives up exactly on an empty file, a missing `#version` or a second one below the version line; otherwise returns the version part and the rest |
| ShaderSource.Assemble | code/src/gpu-shader.cpp:60-73 | with definitions: version, definitions, newline, rest; without them only the rest, because `assign` discards the appended version |
| ShaderSource.PrepareSource | code/src/gpu-shader.cpp:28-74 | the step-by-step code computes `Prepared(file, definitions)` |
| ShaderSource.PreparedNeedsVersion | code/src/gpu-shader.cpp:30-58 | an empty file, or one without `#version`, yields the empty string |
| ShaderSource.PreparedRejectsDuplicate | code/src/gpu-shader.cpp:41-51 | a second `#version` after the first version line yields the empty string |
| ShaderSource.PreparedSplice | code/src/gpu-shader.cpp:41-66 | with definitions the result is version line + definitions + newline + rest, and cutting the insertion out gives the file back |
| ShaderSource.PreparedKeepsVersionFirst | code/src/gpu-shader.cpp:33-66 | with definitions, the first `#version` of the result is where the file had it |
| ShaderSource.PreparedDropsVersion | code/src/gpu-shader.cpp:67-71 | as written, empty definitions return only the rest, with no `#version` left |
| ShaderSource.PreparedDropsVersionExample | code/src/gpu-shader.cpp:67-71 | `"#version\nx"` with empty definitions becomes `"x"` |
| ShaderSource.PreparedIntendedKeepsFile | code/src/gpu-shader.cpp:67-71 | corrected: with empty definitions an accepted file comes back unchanged, its `#version` first |
| ShaderSource.PreparedIntendedAgrees | code/src/gpu-shader.cpp:61-66 | the corrected function agrees with the code whenever there are definitions |
| ShaderSource.ShaderName | code/src/gpu-shader.cpp:77-94 | every stage type has a non-empty name, and a type gets "shader" exactly when it is not one of the six stage types |
| ShaderSource.StageNamesDistinct | code/src/gpu-shader.cpp:77-126 | the six stage types have six distinct names, none of them the fallback |
| ShaderSource.StageDefinitions | code/src/gpu-shader.cpp:177 | a stage's definitions are the caller's, followed by `#define <key>` and a newline |
| ShaderSource.StageSourceHasKey | code/src/gpu-shader.cpp:172-177 | the stage source holds `#define <key>` right after the version part and the caller's definitions |
| ShaderSource.StageSourceKeepsVersion | code/src/gpu-shader.cpp:177 | stage definitions are never empty, so the source the code builds for a stage (`Prepared`) equals the intended one and keeps the file's `#version` first |
| ShaderListing.CString | code/src/gpu-shader.cpp:242 | the walk covers the characters before the first NUL, or the whole buffer |
| ShaderListing.LinesJoin | code/src/gpu-shader.cpp:242-268 | cutting the source into lines loses nothing |
| ShaderListing.LinesCut | code/src/gpu-shader.cpp:247-249 | lines are cut just after each newline: none is empty, and every line but the last ends with a newline |
| ShaderListing.Expand | code/src/gpu-shader.cpp:263-266 | an expanded line holds no tab |
| ShaderListing.ExpandWithoutTabs | code/src/gpu-shader.cpp:263-266 | a line without tabs is written unchanged |
| ShaderListing.Digit | code/src/gpu-shader.cpp:253-256 | `'0' + d` is the decimal digit character of `d` |
| ShaderListing.HeaderNumber | code/src/gpu-shader.cpp:252-257 | the header is two spaces, four digits that spell the line number mod 10000, and two spaces |
| ShaderListing.BlockStep | code/src/gpu-shader.cpp:247-268 | each character adds its line's header when it starts a line in range, then itself, tab expanded, when in range |
| ShaderListing.BlockBeyond | code/src/gpu-shader.cpp:244-245 | text after line `line_id` adds nothing, so stopping the walk there loses nothing |
| ShaderListing.BlockEmptyRange | code/src/gpu-shader.cpp:250-261 | `begin_id > line_id` writes nothing |
| ShaderListing.BlockOneLine | code/src/gpu-shader.cpp:247-267 | a one-line range writes that line's header and its expanded text |
| ShaderListing.BlockNoTabs | code/src/gpu-shader.cpp:263-264 | the report never contains a tab |
| ShaderListing.ListingFacts | code/src/gpu-shader.cpp:250-264 | an empty range appends nothing, and the appended text never contains a tab |
| ShaderListing.ListingOneLine | code/src/gpu-shader.cpp:247-267 | asking for line `n` alone appends its header and its expanded text |
| ShaderListing.AppendHeader | code/src/gpu-shader.cpp:252-257 | appends exactly `Header(line)` |
| ShaderListing.PrintStep | code/src/gpu-shader.cpp:247-267 | one loop body counts a new line after a newline and appends exactly the step's output |
| ShaderListing.PrintChar | code/src/gpu-shader.cpp:247-268 | after one more character, the line counter and the report are those of the longer text |
| ShaderListing.WalkEnds | code/src/gpu-shader.cpp:242-245 | wherever the walk stops (NUL, end of buffer or past `line_id`), the report so far is the whole listing |
| ShaderListing.PrintLine | code/src/gpu-shader.cpp:237-270 | `errors` is only appended to, with exactly the listing of lines `begin_id .. line_id` |

## Left out

- The GPU backend is not part of this model:
  - `InitGL`'s buffer uploads and the destructor (code/src/diffusionterrain.cpp:122-206);
  - the shader dispatch and memory barriers;
  - the read-backs `glGetNamedBufferSubData` and `glMapBufferRange`.

  A device buffer and its host copy are one value here. The swap of buffer handles is a swap of the two values.
- The relaxation formula lives in the shader file `mgstepfloat.glsl`, which is not part of this model. One pass is the parameter `relax`, applied atomically; the passes' parallelism is out of scope.
- Floating point is modelled as `real`. Values are exact, with no 32-bit rounding, NaN or infinity.
- PGM load and save (`ScalarField2D(std::string)`, `SavePGM`) are file I/O. `Memory`, `Size` and the `Vector2i` overloads depend on `vec.h`, which is not part of this model. The flat-index `Get(index)`, `Set(index, v)` and `operator[]` are plain reads and writes of `values`.
- The `cout` logging, the `nrec`/`trec` counters and the accumulators that are never read (`newalpha`, `sumcoef`, `nlap`) are dropped.
- The shader program lifecycle is left out: `read` (file I/O), `compile_shader`, `reload_program`, `read_program`, `release_program`, and the formatting and printing of compile errors (`print_errors` and the functions that call it). They are GL calls, or depend on `sscanf` over vendor-specific log text. The per-stage loop of `reload_program` is modelled only through the source it builds (`StageSource`).
- The stage enumerants assume OpenGL 4.3. The `#ifdef` branches that map missing stages to 0 are not modelled.
- Multigrid.SimpleGeometricMultigridFloat.constructor: requires a square input whose coarsened levels all have odd sides (`OddChain`). The code indexes level 0 with `i * ny + j` but reads the inputs with `Get(i, j) = i * nx + j`. For an even side, the clipped stencil reads one row past the fine level (`EvenSideOverrunsStencil`). Both are undefined behaviour, not handled cases.
- Multigrid.LevelZero: requires a square input, for the same reason.
- Multigrid.SimpleGeometricMultigridFloat.VCycle: requires a `relax` that keeps each grid at its level's size (`KeepsShape`). The shader writes a buffer of that size.
- ScalarField.ScalarField2D.NormalizeField: requires a non-constant or empty field. With max == min the code divides by zero, which gives NaN in floats and has no value on reals.
- ScalarField.ScalarField2D.Normalized: requires a non-constant or empty field, for the same reason.
- ScalarField.ScalarField2D.Average: requires a non-empty field. The code computes 0 / 0, which gives NaN.
- ScalarField.ScalarField2D.Set: requires an index inside the field. Out-of-range `std::vector` access is undefined behaviour. The same holds for `AddAt`, `RemoveAt`, and `AddField`/`RemoveField` with a smaller `field`.
- ShaderListing.PrintLine: the source is a finite sequence. When it holds no NUL, the walk stops at its end instead of reading past the buffer.

## Findings

| source | as written | input that shows it | evidently intended | confidence | as-written member | corrected member |
|---|---|---|---|---|---|---|
| code/src/gpu-shader.cpp:67-71 | with empty definitions `source.append(version)` is followed by `source.assign(file)`, which discards the version line just appended | file `"#version\nx"`, definitions `""`: the result is `"x"`, with no `#version` | append the rest after the version line, returning the file unchanged | not executed | ShaderSource.PreparedDropsVersion, ShaderSource.PreparedDropsVersionExample | ShaderSource.PreparedIntended, ShaderSource.PreparedIntendedKeepsFile |
