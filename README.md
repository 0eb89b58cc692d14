# Bounds contiguity check of `iris.plot`

A model of `iris.plot._check_bounds_contiguity_and_mask(coord, data, atol=None)`,
the validator that runs before a coordinate's cells are handed to Matplotlib as a
quadrilateral mesh. Neighbouring cells must share their edge within an absolute
tolerance `atol`. A gap is excused when the data is masked beside it. Otherwise
the call raises `ValueError` ("... coordinate are not contiguous and data is not
masked where the discontiguity occurs").

The model has two modules:

- `Contiguity` (`contiguity.dfy`): the data model and the checker as pure
  functions. `Bounds` is tagged by rank: `Bounds1D` holds one `(lower, upper)`
  pair per cell; `Bounds2D` holds a lattice of four-corner cells. `Data` holds the
  values and an optional boolean mask of the same shape. `Check` gives one of
  three outcomes: `NotChecked`, `Passed` or `Raised`. A raise carries the
  offending boundary, named by the lower-index cell beside it, or `ShapeMismatch`.
  A 1D boundary compares a cell's upper bound with the next cell's lower bound.
  A 2D boundary compares both corners the two cells share, along the columns (X)
  and along the rows (Y). The scanners `Scan1D`, `ScanRow` and `ScanGrid` find an
  offending boundary. Their contracts say they find one exactly when one exists.
  The general properties are lemmas beside them.
- `PlotTests` (`plot_tests.dfy`): one lemma per method of
  `Test_check_bounds_contiguity_and_mask`. Each lemma is stated for every data
  value of the test's shape. The 2D lemmas are stated for every lattice size
  that contains the cells they name.

Modelling choices, where the tests leave the behaviour open:

- Tolerance: a 1D coordinate without `atol` is not checked. A 2D coordinate
  without `atol` is checked with `DefaultAtol2D` = 1e-8, numpy's default
  absolute tolerance. Edge values are `real`s compared with an absolute
  tolerance only.
- Excusal: masking the lower-index neighbour of a gap excuses it (test line 56).
  The tests do not say what masking only the higher-index neighbour does. The
  checker therefore takes an `Excusal` parameter with the two readings
  `LowerNeighbour` and `EitherNeighbour`. Every lemma holds under both, so no
  proved property depends on that case.
- No mask: data without a mask masks nothing, so with `atol` given a gap raises.
- 2D fixtures: `sample_2d_latlons` and `make_bounds_discontiguous_at_point` are
  not part of this model. `Lattice` stands in for the sample longitude bounds: a
  regular lattice whose longitude grows by one per column. `DisplaceTopRight`
  stands in for the perturbation at `(3, 4)`. It moves that cell's top-right
  corner halfway towards its top-left corner. This breaks the boundaries to
  `(3, 5)` and to `(4, 4)`, and `(3, 4)` is the lower-index cell of both; the
  lemma `DisplacedGaps` states exactly which boundaries break. This choice of
  corner carries weight. Moving the whole right edge of `(3, 4)` would also
  break the boundary to `(2, 4)`, whose lower-index cell `(2, 4)` is unmasked.
  Under the `LowerNeighbour` reading that lattice would raise with only `(3, 4)`
  masked, against test_2d_discontigous_masked. `MaskOnly` masks only `(3, 4)`.
  This mask is inferred from line 89 of the test, where unmasking `(3, 4)` turns
  the pass into a raise.
- Scan order: in 1D the first offending boundary is reported. In 2D the check
  reports a boundary along X if there is one, and otherwise one along Y.

## Model

| member | source | states |
|---|---|---|
| `Contiguity.Check` | lib/iris/tests/unit/plot/test__check_bounds_contiguity_and_mask.py:40-92 | Not checked exactly when the coordinate is 1D and `atol` is absent. Shape mismatch exactly when checked with disagreeing shapes. Passes exactly when checked, shapes agree and no boundary offends (a gap not excused by the mask). A raise names a boundary that offends; in 1D, no earlier boundary offends. |
| `Contiguity.Tolerance` | lib/iris/tests/unit/plot/test__check_bounds_contiguity_and_mask.py:41-92 | No tolerance, so no check, exactly for a 1D coordinate without `atol` (line 41). A given `atol` is used as is (line 50). A 2D coordinate without `atol` is checked with `DefaultAtol2D` (lines 69-92). |
| `Contiguity.Discontiguous` | lib/iris/tests/unit/plot/test__check_bounds_contiguity_and_mask.py:42-50 | A gap is reported only at a boundary whose two cells exist in the bounds. With a non-negative tolerance, cells whose shared edge values are exactly equal never form a gap (`[[0,2],[2,4],[4,6]]` at line 48). |
| `Contiguity.ExcusedAt` | lib/iris/tests/unit/plot/test__check_bounds_contiguity_and_mask.py:52-67 | Masking the lower-index cell beside a gap excuses it (line 56). A gap with neither neighbouring cell masked is not excused, wherever else the mask is set (line 63). |
| `Contiguity.ShapesAgree` | lib/iris/tests/unit/plot/test__check_bounds_contiguity_and_mask.py:42-43 | When shapes agree, bounds and data have the same rank. Every cell beside a boundary then has a data value and, when the data is masked, a mask flag. |
| `Contiguity.FindOffender` | lib/iris/tests/unit/plot/test__check_bounds_contiguity_and_mask.py:59-67 | Returns nothing exactly when no boundary offends. Otherwise it returns an offending boundary: the first in 1D, and in 2D one along Y only if none along X offends. |
| `Contiguity.Scan1D` | lib/iris/tests/unit/plot/test__check_bounds_contiguity_and_mask.py:59-67 | Finds the first offending 1D boundary at or after `from`, or proves there is none. |
| `Contiguity.ScanRow` | lib/iris/tests/unit/plot/test__check_bounds_contiguity_and_mask.py:83-92 | Finds an offending boundary along one axis in one row of the lattice, or proves there is none from column `c` on. |
| `Contiguity.ScanGrid` | lib/iris/tests/unit/plot/test__check_bounds_contiguity_and_mask.py:83-92 | Finds an offending boundary along one axis in the lattice from row `r` on, or proves there is none. |
| `Contiguity.ContiguousPasses` | lib/iris/tests/unit/plot/test__check_bounds_contiguity_and_mask.py:46-50 | Once checked, bounds whose cells all meet within the tolerance pass, for any data and any mask. |
| `Contiguity.MaskingMoreKeepsPass` | lib/iris/tests/unit/plot/test__check_bounds_contiguity_and_mask.py:52-67 | Masking more cells never turns a passing check into a raise. |
| `Contiguity.ValuesDoNotMatter` | lib/iris/tests/unit/plot/test__check_bounds_contiguity_and_mask.py:46-50 | Only the shape and the mask of the data matter, never the data values. |
| `Contiguity.SameOffendersSameFinding` | lib/iris/tests/unit/plot/test__check_bounds_contiguity_and_mask.py:55-67 | Two data arrays that make the same boundaries offend lead the scan to the same result. |
| `Contiguity.LowerMaskedGapPasses1D` | lib/iris/tests/unit/plot/test__check_bounds_contiguity_and_mask.py:52-57 | In 1D, with `atol` given, a single gap whose lower-index cell is masked passes. |
| `Contiguity.UnmaskedGapRaises1D` | lib/iris/tests/unit/plot/test__check_bounds_contiguity_and_mask.py:59-67 | In 1D, with `atol` given, a gap with neither neighbour masked raises `DiscontiguousUnmasked` at that gap or an earlier one. |
| `PlotTests.Test1dNotChecked` | lib/iris/tests/unit/plot/test__check_bounds_contiguity_and_mask.py:40-44 | Bounds `[[0,2],[2,4],[5,6]]` without `atol` are not checked, whatever the data. |
| `PlotTests.Test1dContiguous` | lib/iris/tests/unit/plot/test__check_bounds_contiguity_and_mask.py:46-50 | Bounds `[[0,2],[2,4],[4,6]]` with `atol=1e-3` pass for any three unmasked values. |
| `PlotTests.Test1dDiscontiguousMasked` | lib/iris/tests/unit/plot/test__check_bounds_contiguity_and_mask.py:52-57 | The gap between cells 1 and 2 with mask `[0,1,0]` and `atol=1e-3` passes. |
| `PlotTests.Test1dDiscontiguousUnmasked` | lib/iris/tests/unit/plot/test__check_bounds_contiguity_and_mask.py:59-67 | The same gap with mask `[1,0,0]` raises `DiscontiguousUnmasked` at the boundary between cells 1 and 2. |
| `PlotTests.MaskAloneDecides1D` | lib/iris/tests/unit/plot/test__check_bounds_contiguity_and_mask.py:55-67 | With the same bounds, values and `atol`, mask `[0,1,0]` passes and mask `[1,0,0]` raises. |
| `PlotTests.Lattice` | lib/iris/tests/unit/plot/test__check_bounds_contiguity_and_mask.py:71 | A `rows` by `cols` lattice whose cell in column `c` spans longitudes `c` to `c + 1`. |
| `PlotTests.DisplaceTopRight` | lib/iris/tests/unit/plot/test__check_bounds_contiguity_and_mask.py:79 | Moves only the top-right corner of cell `(r, c)` halfway to its top-left corner. Shape and every other cell are unchanged. |
| `PlotTests.DisplacedGaps` | lib/iris/tests/unit/plot/test__check_bounds_contiguity_and_mask.py:79 | For a tolerance below one half, the displaced lattice is discontiguous at exactly the boundaries from `(r, c)` to `(r, c + 1)` and to `(r + 1, c)`, where those cells exist. `(r, c)` is the lower-index cell of both. |
| `PlotTests.MaskOnly` | lib/iris/tests/unit/plot/test__check_bounds_contiguity_and_mask.py:79 | A mask of the lattice's shape in which exactly cell `(r, c)` is masked. |
| `PlotTests.Unmask` | lib/iris/tests/unit/plot/test__check_bounds_contiguity_and_mask.py:89 | Clears the mask at `(r, c)` and leaves the rest of the mask and its shape unchanged. |
| `PlotTests.Test2dContiguous` | lib/iris/tests/unit/plot/test__check_bounds_contiguity_and_mask.py:69-73 | A lattice whose cells all meet passes with `atol` omitted, for any unmasked data of its shape. |
| `PlotTests.Test2dDiscontiguousMasked` | lib/iris/tests/unit/plot/test__check_bounds_contiguity_and_mask.py:75-81 | The lattice displaced at `(3, 4)`, with only `(3, 4)` masked, passes with `atol` omitted. |
| `PlotTests.Test2dDiscontiguousUnmasked` | lib/iris/tests/unit/plot/test__check_bounds_contiguity_and_mask.py:83-92 | The same lattice with `(3, 4)` unmasked raises `DiscontiguousUnmasked` at the boundary between `(3, 4)` and `(3, 5)`, with `atol` omitted. |

## Left out

- The `DimCoord` and cube objects: bounds and data are passed to the checker directly.
- Coordinate names and the text of the error message: a raise is the `DiscontiguousUnmasked` outcome with its location.
- Plotting, Matplotlib availability and the unittest harness: they are not part of the check.
- Relative tolerance and floating-point rounding: edge values are exact `real`s compared with an absolute tolerance only.
- An unsupported rank: bounds are tagged 1D or 2D, so a rank other than 1 or 2 cannot be written. A 1D/2D mix of bounds and data is a `ShapeMismatch`.
- The contents of `sample_2d_latlons` and `make_bounds_discontiguous_at_point`: `Lattice` and `DisplaceTopRight` stand in for them.
- Masking only the higher-index neighbour of a gap: no test pins it, so no lemma states what it does.
