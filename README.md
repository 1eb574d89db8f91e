# Comet impact heat field — Dafny model

This project models the field evaluator `u(x, y, t)` of the comet-impact
simulation (`pystroid_impact.py`). Given the x- and y-coordinates of a grid
and a time `t`, `u` computes one temperature per grid point. Two pieces are
modelled:

- **Zone classification** (module `Zones`, `zones.dfy`). A point is put
  into one of six concentric layers by `m = x*x + y*y`, the squared
  distance from the grid origin. The layers are inner core, outer core,
  mantle, crust, atmosphere and outer space. Each layer yields a baseline
  temperature `layer_temp` and a diffusivity `a`. `Classify` is the
  source's if/elif cascade, guards as written. An ordered table
  (`Table`, scanned by `FirstMatch`) and an interval predicate (`InBand`)
  are the reference definitions it is proved against.
- **Grid fill** (module `Field`, `field.dfy`). `Evaluate` builds the mesh
  arrays `X`, `Y` and the array `r` of distances from the impact epicentre
  (1.93, 1.93). Its nested loops then overwrite each `r[i, j]` in place with
  the closed-form diffusion solution. That value uses the cell's old value
  and the cell's own zone.

The zoning magnitude (`ZoningMagnitude`, measured from the origin) and the
epicentre distance (`EpicentreDistance`) are two separate functions, as in
the source.

The transcendental functions of the closed form are not modelled. These are
`sqrt`, `exp`, the power `u_0 ** exp(-t/10)` and the Gauss error function.
They come in as the fields of a `Numerics` value. `ValidNumerics` states the
only assumption made about them: `sqrt` is the non-negative square root. The
lemma about the temperature's range adds three more assumptions, given as
named predicates: `erf` is non-decreasing, `erf` stays in [-1, 1], and
powers of a positive base are positive. `Temperature` and `Amplitude` write
out line 53 and line 51 of the source over those fields.

The other definitions map to the source as follows. `Zones.ZoneOf` is the
pair `(layer_temp, a)` that the cascade at lines 32-49 assigns.
`Field.ZoningMagnitude` is the quantity `X[i][j]**2 + Y[i][j]**2` tested at
line 32. `Field.CellUpdate` is the right-hand side of the assignment at
line 53, applied to the cell's old value. `Field.PointTemperature` combines
line 28 with line 53: the value of a cell that still holds its epicentre
distance when it is overwritten.

Three behaviours of the code at its edges:

- The result has shape `(len(y), len(x))`, the shape `np.meshgrid` gives,
  not `(len(x), len(y))`. The loops run `i < len(x)`, `j < len(y)` and index
  `X[i][j]`. So they stay in bounds only when `len(x) == len(y)` or when one
  of the sequences is empty. `Evaluate` requires exactly that
  (`IndexableGrid`), and `IndexableGridExact` proves the condition is exact.
  The only caller passes two equal-length `np.linspace` grids
  (pystroid_impact.py:79-80).
- Empty coordinate sequences raise no error: they give an empty array.
- `t <= 0` raises no error in the code. At `t = 0` the denominator
  `np.sqrt(4*a*t)` is 0.0, so the erf arguments become plus or minus
  infinity and `special.erf` maps them to plus or minus 1. The cell then
  holds `layer_temp + 100` where `r < r_max`, `layer_temp` where
  `r > r_max`, and NaN only where `r == r_max` exactly: a finite step
  profile, the initial condition. The first frame, at the `t = 0` that
  `np.arange` starts from (pystroid_impact.py:77), is this profile. For
  `t < 0`, `np.sqrt` of a negative number gives NaN in every cell. The
  model requires `0 < t`.

## Model

| member | source | states |
|---|---|---|
| `Zones.Classify` | pystroid_impact.py:32-49 | the band the cascade picks is one whose interval, taken from the ordered table of upper bounds, contains m |
| `Zones.Params` | pystroid_impact.py:33-49 | every branch assigns a strictly positive diffusivity `a` |
| `Zones.ClassifyExact` | pystroid_impact.py:32-49 | exhaustive and exclusive: the cascade returns band b if and only if m lies in b's interval |
| `Zones.BandsDisjoint` | pystroid_impact.py:32-49 | no m lies in the intervals of two different bands |
| `Zones.TableWellFormed` | pystroid_impact.py:32-46 | the bounded bands are listed in order, with strictly increasing thresholds 1 < 4 < 6.5 < 7.5 < 8 |
| `Zones.FirstMatchFrom` | pystroid_impact.py:32-49 | scanning the table from any row k whose predecessor's bound m exceeds gives the cascade's band |
| `Zones.ClassifyIsFirstMatch` | pystroid_impact.py:32-49 | the cascade equals a first-match scan of the ordered table, so its repeated lower bounds never change the result |
| `Zones.BoundariesBelongToLowerBand` | pystroid_impact.py:32-46 | m = 1, 4, 6.5, 7.5, 8 map to (55, 1), (40, 2), (30, 3), (20, 0.3), (0, 2): each boundary falls in the lower band |
| `Zones.ExteriorIsSpace` | pystroid_impact.py:47-49 | the band is outer space exactly when m > 8, and every m > 8 gets (-2.7, 10000) |
| `Zones.RadicandPositiveIff` | pystroid_impact.py:32-53 | for the zone of any m, the radicand 4*a*t under the denominator's root is positive exactly when t > 0 |
| `Zones.IndexMonotone` | pystroid_impact.py:32-49 | a larger m never falls into an inner band |
| `Zones.LayerTempDecreasing` | pystroid_impact.py:33-48 | baseline temperatures strictly fall from each band to the next outer one |
| `Zones.LayerTempMonotone` | pystroid_impact.py:33-48 | `layer_temp` is non-increasing in m |
| `Field.EpicentreDistanceSq` | pystroid_impact.py:28 | the squared distance from the epicentre is non-negative |
| `Field.EpicentreDistance` | pystroid_impact.py:28 | the initial value of `r` is non-negative and squares to the squared epicentre distance |
| `Field.SqrtPositive` | pystroid_impact.py:53 | the root of a positive radicand is positive, so the denominator `sqrt(4*a*t)` is non-zero for t > 0 |
| `Field.IndexableGridExact` | pystroid_impact.py:27-31 | the loops stay inside the `(len(y), len(x))` mesh exactly when the lengths are equal or one is zero |
| `Field.Evaluate` | pystroid_impact.py:23-55 | the result has the mesh's shape; every cell (i, j) holds the closed form for the zone of x[j]^2 + y[i]^2, applied to that cell's own epicentre distance; no other cell's value is used, the loop invariants establish that each write reads the cell's original epicentre distance, and nothing outside the fresh result is modified |
| `Field.TemperatureWithinImpactBand` | pystroid_impact.py:51-53 | given a monotone, bounded erf and a positive power, the computed temperature lies between `layer_temp` and `layer_temp` plus the decayed amplitude |
| `Field.ZoningIsNotEpicentric` | pystroid_impact.py:28-33 | the origin is in the inner core, at positive epicentre distance, and its temperature uses (55, 1); the epicentre itself lies in the crust |

## Left out

- The evaluation of `erf`, `exp`, `sqrt` and the power (pystroid_impact.py:51, 53) is floating-point library code. It is a parameter of the model. Convergence and monotonicity of `erf` are not proved. Two properties of the temperature are therefore not stated either: that it tends to `layer_temp` as `t` grows, and that within one zone it does not increase with epicentre distance. Both need the shape of `erf` (an even, unimodal derivative), not only the assumed monotonicity.
- Floating-point rounding is not modelled. `m`, the thresholds and the constants are exact reals. In the source, 0.3, -2.7 and 1.93 are not exactly representable as doubles, and `m` is rounded. A NaN coordinate fails every comparison and lands in outer space; reals have no NaN.
- Field.Evaluate: does not model behaviour at `t <= 0`, because Dafny reals have no infinities or NaN and the limits of the uninterpreted `erf` at plus and minus infinity are not modelled. The source gives a finite step profile at `t = 0` (the first frame, pystroid_impact.py:77) and NaN everywhere for `t < 0`. The model requires `0 < t`.
- Field.Evaluate: does not model the IndexError raised for non-square grids; the model requires `IndexableGrid(|x|, |y|)` instead. The only caller meets it.
- Field.Evaluate: its contract uses `fresh`, and the mesh arrays `X`, `Y` are local to it, so "the loop touches nothing else" is stated through the empty modifies frame and the invariants, not as a separate ensures. That each write reads the cell's original epicentre distance is likewise proved by the inner loop's invariant, not stated as a postcondition.
- `plot_wave`, `animate`, the colormap, `FuncAnimation`, `plt.show` and the GIF export (pystroid_impact.py:57-91) are rendering and file I/O.
- The construction of the grids and times with `np.linspace` and `np.arange` (pystroid_impact.py:77-80) is library code; the coordinate sequences are inputs.
- The constant `rlim` (pystroid_impact.py:16) is unused by `u`; `MAX_ITERATIONS` and `RESOLUTION` only size the grids and frames.
