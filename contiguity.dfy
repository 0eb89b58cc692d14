/**
 * The bounds-contiguity validator that runs before a coordinate's cells are
 * drawn as a quadrilateral mesh: neighbouring cells must share their edge
 * within an absolute tolerance, unless the data is masked beside the gap.
 *
 * The outcome has three terminal states: the check is not run at all,
 * it passes, or it raises (the Python `ValueError`).
 */
module Contiguity {

  datatype Option<T> = None | Some(value: T)

  /** One cell of a 1D coordinate: its lower and upper bound. */
  datatype Cell = Cell(lower: real, upper: real)

  /** The four corners of one cell of a 2D coordinate, anticlockwise from bottom-left. */
  datatype Corners = Corners(bl: real, br: real, tr: real, tl: real)

  /** Cell bounds of a coordinate, tagged by its rank. */
  datatype Bounds =
    | Bounds1D(cells: seq<Cell>)
    | Bounds2D(grid: seq<seq<Corners>>)

  /** The data array and its optional mask (true means masked, that is invalid). */
  datatype Data =
    | Data1D(values: seq<real>, mask: Option<seq<bool>>)
    | Data2D(rows: seq<seq<real>>, mask2: Option<seq<seq<bool>>>)

  /**
   * Which masked neighbours excuse a gap. Masking the lower-index neighbour
   * always does; whether masking only the higher-index neighbour does too is
   * left open, and every property below holds under both readings.
   */
  datatype Excusal = LowerNeighbour | EitherNeighbour

  /** X: between cells (r, c) and (r, c + 1). Y: between cells (r, c) and (r + 1, c). */
  datatype Axis = X | Y

  /** A boundary, named by the lower-index cell beside it. */
  datatype Location =
    | Boundary1D(cell: nat)
    | Boundary2D(axis: Axis, row: nat, col: nat)

  datatype CheckError =
    | ShapeMismatch
    | DiscontiguousUnmasked(at: Location)

  datatype Outcome = NotChecked | Passed | Raised(error: CheckError)

  /** Absolute tolerance used for a 2D coordinate when the caller gives none. */
  const DefaultAtol2D: real := 0.00000001

  // ---------------------------------------------------------------------------
  // Leaves: the edge comparison and the mask lookups

  /** Distance between two edge values. */
  function Gap(a: real, b: real): (g: real)
    ensures g >= 0.0
    ensures g == a - b || g == b - a
  {
    if a >= b then a - b else b - a
  }

  /** Two edge values agree within the absolute tolerance `atol`. */
  predicate Close(a: real, b: real, atol: real)
  {
    Gap(a, b) <= atol
  }

  /** Cell `i` is masked; no mask at all masks nothing. */
  predicate Masked1(mask: Option<seq<bool>>, i: nat)
  {
    mask.Some? && i < |mask.value| && mask.value[i]
  }

  /** Cell `(r, c)` is masked; no mask at all masks nothing. */
  predicate Masked2(mask: Option<seq<seq<bool>>>, r: nat, c: nat)
  {
    mask.Some? && r < |mask.value| && c < |mask.value[r]| && mask.value[r][c]
  }

  /** Column neighbours share their vertical edge: the right corners of `p` meet the left corners of `q`. */
  predicate JoinedAlongX(p: Corners, q: Corners, atol: real)
  {
    Close(p.br, q.bl, atol) && Close(p.tr, q.tl, atol)
  }

  /** Row neighbours share their horizontal edge: the top corners of `p` meet the bottom corners of `q`. */
  predicate JoinedAlongY(p: Corners, q: Corners, atol: real)
  {
    Close(p.tl, q.bl, atol) && Close(p.tr, q.br, atol)
  }

  // ---------------------------------------------------------------------------
  // What counts as an offending boundary

  /** Both cells beside `loc` exist in `b`, and `loc` has the rank of `b`. */
  predicate HasBoundary(b: Bounds, loc: Location)
  {
    match loc
    case Boundary1D(i) => b.Bounds1D? && i + 1 < |b.cells|
    case Boundary2D(X, r, c) => b.Bounds2D? && r < |b.grid| && c + 1 < |b.grid[r]|
    case Boundary2D(Y, r, c) => b.Bounds2D? && r + 1 < |b.grid| && c < |b.grid[r]| && c < |b.grid[r + 1]|
  }

  /** The edge values that the two cells beside `loc` share are exactly equal. */
  predicate EdgesCoincide(b: Bounds, loc: Location)
    requires HasBoundary(b, loc)
  {
    match loc
    case Boundary1D(i) => b.cells[i].upper == b.cells[i + 1].lower
    case Boundary2D(X, r, c) =>
      b.grid[r][c].br == b.grid[r][c + 1].bl && b.grid[r][c].tr == b.grid[r][c + 1].tl
    case Boundary2D(Y, r, c) =>
      b.grid[r][c].tl == b.grid[r + 1][c].bl && b.grid[r][c].tr == b.grid[r + 1][c].br
  }

  /**
   * The boundary `loc` exists in `b` and its two cells do not meet within
   * `atol`. A 1D boundary compares a cell's upper bound with the next cell's
   * lower bound; a 2D boundary compares both corners its two cells share.
   */
  predicate Discontiguous(b: Bounds, atol: real, loc: Location): (gap: bool)
    ensures gap ==> HasBoundary(b, loc)
    ensures atol >= 0.0 && HasBoundary(b, loc) && EdgesCoincide(b, loc) ==> !gap
  {
    HasBoundary(b, loc) &&
    match loc
    case Boundary1D(i) => !Close(b.cells[i].upper, b.cells[i + 1].lower, atol)
    case Boundary2D(X, r, c) => !JoinedAlongX(b.grid[r][c], b.grid[r][c + 1], atol)
    case Boundary2D(Y, r, c) => !JoinedAlongY(b.grid[r][c], b.grid[r + 1][c], atol)
  }

  /** The lower-index cell beside `loc` is masked. */
  predicate LowerCellMasked(d: Data, loc: Location)
  {
    match loc
    case Boundary1D(i) => d.Data1D? && Masked1(d.mask, i)
    case Boundary2D(_, r, c) => d.Data2D? && Masked2(d.mask2, r, c)
  }

  /** The higher-index cell beside `loc` is masked. */
  predicate HigherCellMasked(d: Data, loc: Location)
  {
    match loc
    case Boundary1D(i) => d.Data1D? && Masked1(d.mask, i + 1)
    case Boundary2D(X, r, c) => d.Data2D? && Masked2(d.mask2, r, c + 1)
    case Boundary2D(Y, r, c) => d.Data2D? && Masked2(d.mask2, r + 1, c)
  }

  /**
   * The mask excuses a gap at `loc`: always when the lower-index cell is
   * masked, never when neither cell is, and when only the higher-index cell
   * is, as `rule` says.
   */
  predicate ExcusedAt(d: Data, rule: Excusal, loc: Location): (excused: bool)
    ensures LowerCellMasked(d, loc) ==> excused
    ensures !LowerCellMasked(d, loc) && !HigherCellMasked(d, loc) ==> !excused
  {
    LowerCellMasked(d, loc) || (rule == EitherNeighbour && HigherCellMasked(d, loc))
  }

  /** A gap at `loc` that the mask does not excuse: the reason to raise. */
  predicate Offends(b: Bounds, d: Data, atol: real, rule: Excusal, loc: Location)
  {
    Discontiguous(b, atol, loc) && !ExcusedAt(d, rule, loc)
  }

  /** No boundary anywhere offends. */
  ghost predicate Acceptable(b: Bounds, d: Data, atol: real, rule: Excusal)
  {
    forall loc :: !Offends(b, d, atol, rule, loc)
  }

  /** Every cell of `b` meets its neighbours within `atol`. */
  ghost predicate Contiguous(b: Bounds, atol: real)
  {
    forall loc :: !Discontiguous(b, atol, loc)
  }

  // ---------------------------------------------------------------------------
  // Shapes

  /** Every row of `g` is as long as the first. */
  predicate Rectangular<T>(g: seq<seq<T>>)
  {
    forall r :: 0 <= r < |g| ==> |g[r]| == |g[0]|
  }

  predicate SameShape<A, B>(a: seq<seq<A>>, b: seq<seq<B>>)
  {
    |a| == |b| && forall r :: 0 <= r < |a| ==> |a[r]| == |b[r]|
  }

  /** The data holds a value, and a mask flag when it has a mask, for both cells beside `loc`. */
  predicate CoversCells(d: Data, loc: Location)
  {
    match loc
    case Boundary1D(i) =>
      d.Data1D? && i + 1 < |d.values| && (d.mask.Some? ==> i + 1 < |d.mask.value|)
    case Boundary2D(X, r, c) =>
      d.Data2D? && r < |d.rows| && c + 1 < |d.rows[r]|
      && (d.mask2.Some? ==> r < |d.mask2.value| && c + 1 < |d.mask2.value[r]|)
    case Boundary2D(Y, r, c) =>
      d.Data2D? && r + 1 < |d.rows| && c < |d.rows[r]| && c < |d.rows[r + 1]|
      && (d.mask2.Some? ==> r + 1 < |d.mask2.value| && c < |d.mask2.value[r]| && c < |d.mask2.value[r + 1]|)
  }

  /**
   * Bounds, data and mask have the same rank and the same logical shape, so
   * every cell beside a boundary has its value and, when masked, its flag.
   */
  predicate ShapesAgree(b: Bounds, d: Data): (ok: bool)
    ensures ok ==> (b.Bounds1D? <==> d.Data1D?)
    ensures ok ==> forall loc :: HasBoundary(b, loc) ==> CoversCells(d, loc)
  {
    match b
    case Bounds1D(cells) =>
      d.Data1D? && |d.values| == |cells| && (d.mask.Some? ==> |d.mask.value| == |cells|)
    case Bounds2D(grid) =>
      d.Data2D? && Rectangular(grid) && SameShape(grid, d.rows)
      && (d.mask2.Some? ==> SameShape(grid, d.mask2.value))
  }

  // ---------------------------------------------------------------------------
  // Scanners

  /** The first offending 1D boundary at index `from` or later. */
  function Scan1D(b: Bounds, d: Data, atol: real, rule: Excusal, from: nat): (r: Option<nat>)
    requires b.Bounds1D?
    decreases |b.cells| - from
    ensures r.Some? ==> from <= r.value && Offends(b, d, atol, rule, Boundary1D(r.value))
    ensures r.Some? ==> forall j :: from <= j < r.value ==> !Offends(b, d, atol, rule, Boundary1D(j))
    ensures r.None? ==> forall j :: from <= j ==> !Offends(b, d, atol, rule, Boundary1D(j))
  {
    if from + 1 >= |b.cells| then None
    else if Offends(b, d, atol, rule, Boundary1D(from)) then Some(from)
    else Scan1D(b, d, atol, rule, from + 1)
  }

  /** An offending boundary along `axis` in row `r`, at column `c` or later. */
  function ScanRow(b: Bounds, d: Data, atol: real, rule: Excusal, axis: Axis, r: nat, c: nat): (res: Option<nat>)
    requires b.Bounds2D? && r < |b.grid|
    decreases |b.grid[r]| - c
    ensures res.Some? ==> c <= res.value && Offends(b, d, atol, rule, Boundary2D(axis, r, res.value))
    ensures res.None? ==> forall j :: c <= j ==> !Offends(b, d, atol, rule, Boundary2D(axis, r, j))
  {
    if c >= |b.grid[r]| then None
    else if Offends(b, d, atol, rule, Boundary2D(axis, r, c)) then Some(c)
    else ScanRow(b, d, atol, rule, axis, r, c + 1)
  }

  /** An offending boundary along `axis` in row `r` or a later row. */
  function ScanGrid(b: Bounds, d: Data, atol: real, rule: Excusal, axis: Axis, r: nat): (res: Option<Location>)
    requires b.Bounds2D?
    decreases |b.grid| - r
    ensures res.Some? ==> res.value.Boundary2D? && res.value.axis == axis && r <= res.value.row
    ensures res.Some? ==> Offends(b, d, atol, rule, res.value)
    ensures res.None? ==> forall i, j :: r <= i ==> !Offends(b, d, atol, rule, Boundary2D(axis, i, j))
  {
    if r >= |b.grid| then None
    else match ScanRow(b, d, atol, rule, axis, r, 0)
      case Some(c) => Some(Boundary2D(axis, r, c))
      case None => ScanGrid(b, d, atol, rule, axis, r + 1)
  }

  /** An offending boundary of `b`: in 1D the first one, in 2D one along X if any, else one along Y. */
  function FindOffender(b: Bounds, d: Data, atol: real, rule: Excusal): (r: Option<Location>)
    ensures r.Some? ==> Offends(b, d, atol, rule, r.value)
    ensures r.Some? && b.Bounds1D? ==>
      r.value.Boundary1D? && forall j :: 0 <= j < r.value.cell ==> !Offends(b, d, atol, rule, Boundary1D(j))
    ensures r.Some? && b.Bounds2D? ==>
      r.value.Boundary2D? &&
      (r.value.axis == Y ==> forall i, j :: !Offends(b, d, atol, rule, Boundary2D(X, i, j)))
    ensures r.None? <==> Acceptable(b, d, atol, rule)
  {
    match b
    case Bounds1D(_) =>
      (match Scan1D(b, d, atol, rule, 0)
       case Some(i) => Some(Boundary1D(i))
       case None => None)
    case Bounds2D(_) =>
      (match ScanGrid(b, d, atol, rule, X, 0)
       case Some(loc) => Some(loc)
       case None => ScanGrid(b, d, atol, rule, Y, 0))
  }

  // ---------------------------------------------------------------------------
  // Dispatcher

  /** The tolerance the check runs with: none in 1D without `atol` (no check), a default in 2D. */
  function Tolerance(b: Bounds, atol: Option<real>): (t: Option<real>)
    ensures t.None? <==> b.Bounds1D? && atol.None?
    ensures atol.Some? ==> t == atol
    ensures b.Bounds2D? && atol.None? ==> t == Some(DefaultAtol2D)
  {
    if atol.Some? then atol
    else if b.Bounds2D? then Some(DefaultAtol2D)
    else None
  }

  /**
   * `_check_bounds_contiguity_and_mask(coord, data, atol)`: skipped for a 1D
   * coordinate without `atol`; otherwise raises when some boundary is
   * discontiguous and the mask does not excuse it, and passes exactly when
   * no boundary offends.
   */
  function Check(b: Bounds, d: Data, atol: Option<real>, rule: Excusal): (o: Outcome)
    ensures o.NotChecked? <==> b.Bounds1D? && atol.None?
    ensures o == Raised(ShapeMismatch) <==> !o.NotChecked? && !ShapesAgree(b, d)
    ensures o.Passed? <==>
      !o.NotChecked? && ShapesAgree(b, d) && Acceptable(b, d, Tolerance(b, atol).value, rule)
    ensures o.Raised? && o.error.DiscontiguousUnmasked? ==>
      ShapesAgree(b, d) && Offends(b, d, Tolerance(b, atol).value, rule, o.error.at)
    ensures o.Raised? && o.error.DiscontiguousUnmasked? && b.Bounds1D? ==>
      o.error.at.Boundary1D? &&
      forall j :: 0 <= j < o.error.at.cell ==> !Offends(b, d, atol.value, rule, Boundary1D(j))
  {
    match Tolerance(b, atol)
    case None => NotChecked
    case Some(tol) =>
      if !ShapesAgree(b, d) then Raised(ShapeMismatch)
      else match FindOffender(b, d, tol, rule)
        case Some(loc) => Raised(DiscontiguousUnmasked(loc))
        case None => Passed
  }

  // ---------------------------------------------------------------------------
  // Properties of the check

  /** A coordinate whose cells all meet passes once it is checked, whatever the data and its mask. */
  lemma ContiguousPasses(b: Bounds, d: Data, atol: Option<real>, rule: Excusal)
    requires !(b.Bounds1D? && atol.None?) && ShapesAgree(b, d)
    requires Contiguous(b, Tolerance(b, atol).value)
    ensures Check(b, d, atol, rule) == Passed
  {
  }

  /** `d'` has the shape of `d` and masks at least every cell `d` masks. */
  ghost predicate MasksMore(d': Data, d: Data)
  {
    match d
    case Data1D(values, mask) =>
      d'.Data1D? && |d'.values| == |values|
      && (d'.mask.Some? ==> |d'.mask.value| == |values|)
      && forall i :: Masked1(mask, i) ==> Masked1(d'.mask, i)
    case Data2D(rows, mask) =>
      d'.Data2D? && SameShape(d'.rows, rows)
      && (d'.mask2.Some? ==> SameShape(d'.mask2.value, rows))
      && forall r, c :: Masked2(mask, r, c) ==> Masked2(d'.mask2, r, c)
  }

  /** Masking more cells never turns a passing check into one that raises. */
  lemma MaskingMoreKeepsPass(b: Bounds, d: Data, d': Data, atol: Option<real>, rule: Excusal)
    requires MasksMore(d', d)
    requires Check(b, d, atol, rule) == Passed
    ensures Check(b, d', atol, rule) == Passed
  {
    var tol := Tolerance(b, atol).value;
    forall loc
      ensures !Offends(b, d', tol, rule, loc)
    {
      assert !Offends(b, d, tol, rule, loc);
    }
  }

  /** `d'` differs from `d` at most in its values, not in their shape or in the mask. */
  predicate SameShapeAndMask(d': Data, d: Data)
  {
    match d
    case Data1D(values, mask) => d'.Data1D? && |d'.values| == |values| && d'.mask == mask
    case Data2D(rows, mask) => d'.Data2D? && SameShape(d'.rows, rows) && d'.mask2 == mask
  }

  /** The data values never matter, only the shape and the mask. */
  lemma ValuesDoNotMatter(b: Bounds, d: Data, d': Data, atol: Option<real>, rule: Excusal)
    requires SameShapeAndMask(d', d)
    ensures Check(b, d', atol, rule) == Check(b, d, atol, rule)
  {
    if d.Data2D? && b.Bounds2D? {
      assert SameShape(b.grid, d'.rows) <==> SameShape(b.grid, d.rows);
    }
    if Tolerance(b, atol).Some? {
      var tol := Tolerance(b, atol).value;
      forall loc: Location
        ensures Offends(b, d', tol, rule, loc) == Offends(b, d, tol, rule, loc)
      {
      }
      SameOffendersSameFinding(b, d, d', tol, rule);
    }
  }

  /** `d` and `d'` make exactly the same boundaries of `b` offend. */
  ghost predicate SameOffenders(b: Bounds, d: Data, d': Data, atol: real, rule: Excusal)
  {
    forall loc :: Offends(b, d, atol, rule, loc) == Offends(b, d', atol, rule, loc)
  }

  /** The scanners look at the data only through which boundaries offend. */
  lemma SameOffendersSameFinding(b: Bounds, d: Data, d': Data, atol: real, rule: Excusal)
    requires SameOffenders(b, d, d', atol, rule)
    ensures FindOffender(b, d, atol, rule) == FindOffender(b, d', atol, rule)
  {
    if b.Bounds1D? {
      SameOffendersSameScan1D(b, d, d', atol, rule, 0);
    } else {
      SameOffendersSameScanGrid(b, d, d', atol, rule, X, 0);
      SameOffendersSameScanGrid(b, d, d', atol, rule, Y, 0);
    }
  }

  lemma {:induction false} SameOffendersSameScan1D(b: Bounds, d: Data, d': Data, atol: real, rule: Excusal, from: nat)
    requires b.Bounds1D? && SameOffenders(b, d, d', atol, rule)
    decreases |b.cells| - from
    ensures Scan1D(b, d, atol, rule, from) == Scan1D(b, d', atol, rule, from)
  {
    if from + 1 < |b.cells| {
      assert Offends(b, d, atol, rule, Boundary1D(from)) == Offends(b, d', atol, rule, Boundary1D(from));
      SameOffendersSameScan1D(b, d, d', atol, rule, from + 1);
    }
  }

  lemma {:induction false} SameOffendersSameScanRow(b: Bounds, d: Data, d': Data, atol: real, rule: Excusal, axis: Axis, r: nat, c: nat)
    requires b.Bounds2D? && r < |b.grid| && SameOffenders(b, d, d', atol, rule)
    decreases |b.grid[r]| - c
    ensures ScanRow(b, d, atol, rule, axis, r, c) == ScanRow(b, d', atol, rule, axis, r, c)
  {
    if c < |b.grid[r]| {
      assert Offends(b, d, atol, rule, Boundary2D(axis, r, c)) == Offends(b, d', atol, rule, Boundary2D(axis, r, c));
      SameOffendersSameScanRow(b, d, d', atol, rule, axis, r, c + 1);
    }
  }

  lemma {:induction false} SameOffendersSameScanGrid(b: Bounds, d: Data, d': Data, atol: real, rule: Excusal, axis: Axis, r: nat)
    requires b.Bounds2D? && SameOffenders(b, d, d', atol, rule)
    decreases |b.grid| - r
    ensures ScanGrid(b, d, atol, rule, axis, r) == ScanGrid(b, d', atol, rule, axis, r)
  {
    if r < |b.grid| {
      SameOffendersSameScanRow(b, d, d', atol, rule, axis, r, 0);
      SameOffendersSameScanGrid(b, d, d', atol, rule, axis, r + 1);
    }
  }

  /** In 1D a gap whose lower-index cell is masked is excused: with no other gap the check passes. */
  lemma LowerMaskedGapPasses1D(cells: seq<Cell>, d: Data, atol: real, rule: Excusal, i: nat)
    requires ShapesAgree(Bounds1D(cells), d)
    requires Masked1(d.mask, i)
    requires forall j :: j != i ==> !Discontiguous(Bounds1D(cells), atol, Boundary1D(j))
    ensures Check(Bounds1D(cells), d, Some(atol), rule) == Passed
  {
    forall loc
      ensures !Offends(Bounds1D(cells), d, atol, rule, loc)
    {
    }
  }

  /** In 1D a gap with neither neighbour masked makes the check raise, naming that gap or an earlier one. */
  lemma UnmaskedGapRaises1D(cells: seq<Cell>, d: Data, atol: real, rule: Excusal, i: nat)
    requires ShapesAgree(Bounds1D(cells), d)
    requires Discontiguous(Bounds1D(cells), atol, Boundary1D(i))
    requires !Masked1(d.mask, i) && !Masked1(d.mask, i + 1)
    ensures Check(Bounds1D(cells), d, Some(atol), rule).Raised?
    ensures Check(Bounds1D(cells), d, Some(atol), rule).error.DiscontiguousUnmasked?
    ensures Check(Bounds1D(cells), d, Some(atol), rule).error.at.cell <= i
  {
    assert Offends(Bounds1D(cells), d, atol, rule, Boundary1D(i));
  }
}
