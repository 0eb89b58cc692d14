/**
 * The seven cases of `Test_check_bounds_contiguity_and_mask`, each stated as
 * a lemma about `Contiguity.Check`. Every lemma holds under both readings of
 * the excusal rule, and for every data value of the right shape.
 */
module PlotTests {
  import opened Contiguity

  /** Bounds `[[0, 2], [2, 4], [5, 6]]`: a gap between 4 and 5. */
  const GappedBounds: Bounds := Bounds1D([Cell(0.0, 2.0), Cell(2.0, 4.0), Cell(5.0, 6.0)])

  /** Bounds `[[0, 2], [2, 4], [4, 6]]`. */
  const JoinedBounds: Bounds := Bounds1D([Cell(0.0, 2.0), Cell(2.0, 4.0), Cell(4.0, 6.0)])

  /** `atol=1e-3`. */
  const Atol: real := 0.001

  /** test_1d_not_checked: without `atol` a 1D coordinate is never checked, gap or not. */
  lemma Test1dNotChecked(d: Data, rule: Excusal)
    ensures Check(GappedBounds, d, None, rule) == NotChecked
  {
  }

  /** test_1d_contiguous: touching cells pass, whatever the data values. */
  lemma Test1dContiguous(values: seq<real>, rule: Excusal)
    requires |values| == 3
    ensures Check(JoinedBounds, Data1D(values, None), Some(Atol), rule) == Passed
  {
    assert Contiguous(JoinedBounds, Atol) by {
      forall loc ensures !Discontiguous(JoinedBounds, Atol, loc) {
      }
    }
    ContiguousPasses(JoinedBounds, Data1D(values, None), Some(Atol), rule);
  }

  /** test_1d_discontigous_masked: the gap after cell 1 is excused by masking cell 1. */
  lemma Test1dDiscontiguousMasked(values: seq<real>, rule: Excusal)
    requires |values| == 3
    ensures Check(GappedBounds, Data1D(values, Some([false, true, false])), Some(Atol), rule) == Passed
  {
    LowerMaskedGapPasses1D(GappedBounds.cells, Data1D(values, Some([false, true, false])), Atol, rule, 1);
  }

  /** test_1d_discontigous_unmasked: masking cell 0, away from the gap, does not excuse it. */
  lemma Test1dDiscontiguousUnmasked(values: seq<real>, rule: Excusal)
    requires |values| == 3
    ensures Check(GappedBounds, Data1D(values, Some([true, false, false])), Some(Atol), rule)
         == Raised(DiscontiguousUnmasked(Boundary1D(1)))
  {
    var d := Data1D(values, Some([true, false, false]));
    assert !Offends(GappedBounds, d, Atol, rule, Boundary1D(0));
    UnmaskedGapRaises1D(GappedBounds.cells, d, Atol, rule, 1);
  }

  /** The two discontiguous cases differ only in the mask, and the mask decides the outcome. */
  lemma MaskAloneDecides1D(values: seq<real>, rule: Excusal)
    requires |values| == 3
    ensures Check(GappedBounds, Data1D(values, Some([false, true, false])), Some(Atol), rule).Passed?
    ensures Check(GappedBounds, Data1D(values, Some([true, false, false])), Some(Atol), rule).Raised?
  {
    Test1dDiscontiguousMasked(values, rule);
    Test1dDiscontiguousUnmasked(values, rule);
  }

  // ---------------------------------------------------------------------------
  // A 2D longitude lattice standing in for the sample latitude/longitude cube

  /** Cell in column `c`: longitudes `c` on its left edge and `c + 1` on its right edge. */
  function LatticeCell(c: int): (p: Corners)
    ensures p.bl == p.tl && p.br == p.tr && p.br == p.bl + 1.0
  {
    Corners(c as real, (c + 1) as real, (c + 1) as real, c as real)
  }

  /** A `rows` by `cols` lattice of cells that all meet their neighbours. */
  function Lattice(rows: nat, cols: nat): (g: seq<seq<Corners>>)
    ensures |g| == rows
    ensures forall r :: 0 <= r < rows ==> |g[r]| == cols
    ensures forall r, c :: 0 <= r < rows && 0 <= c < cols ==> g[r][c] == LatticeCell(c)
  {
    seq(rows, r => seq(cols, c => LatticeCell(c)))
  }

  /** The lattice made discontiguous at cell `(r, c)`: its top-right corner moves halfway to its top-left corner. */
  function DisplaceTopRight(g: seq<seq<Corners>>, r: nat, c: nat): (g': seq<seq<Corners>>)
    requires r < |g| && c < |g[r]|
    ensures SameShape(g', g)
    ensures g'[r][c].tr == (g[r][c].tl + g[r][c].tr) / 2.0
    ensures g'[r][c] == g[r][c].(tr := g'[r][c].tr)
    ensures forall i, j :: 0 <= i < |g| && 0 <= j < |g[i]| && (i, j) != (r, c) ==> g'[i][j] == g[i][j]
  {
    g[r := g[r][c := g[r][c].(tr := (g[r][c].tl + g[r][c].tr) / 2.0)]]
  }

  /**
   * Displacing the top-right corner of `(r, c)` by half a cell breaks exactly
   * the boundaries to `(r, c + 1)` and to `(r + 1, c)`, where they exist. Both
   * have `(r, c)` as their lower-index cell, so masking `(r, c)` excuses them
   * under either excusal rule.
   */
  lemma DisplacedGaps(rows: nat, cols: nat, r: nat, c: nat, atol: real, loc: Location)
    requires r < rows && c < cols
    requires 0.0 <= atol < 0.5
    ensures Discontiguous(Bounds2D(DisplaceTopRight(Lattice(rows, cols), r, c)), atol, loc)
        <==> (loc == Boundary2D(X, r, c) && c + 1 < cols) || (loc == Boundary2D(Y, r, c) && r + 1 < rows)
  {
    var g: seq<seq<Corners>> := DisplaceTopRight(Lattice(rows, cols), r, c);
    assert forall i: nat, j: nat :: i < rows && j < cols ==>
      g[i][j].bl == j as real && g[i][j].tl == j as real && g[i][j].br == (j + 1) as real
      && g[i][j].tr == if (i, j) == (r, c) then j as real + 0.5 else (j + 1) as real;
  }

  /** A mask of shape `rows` by `cols` with only cell `(r, c)` masked. */
  function MaskOnly(rows: nat, cols: nat, r: nat, c: nat): (m: seq<seq<bool>>)
    ensures |m| == rows
    ensures forall i :: 0 <= i < rows ==> |m[i]| == cols
    ensures forall i, j :: 0 <= i < rows && 0 <= j < cols ==> (m[i][j] <==> i == r && j == c)
  {
    seq(rows, i => seq(cols, j => i == r && j == c))
  }

  /** Assigning `ma.nomask` at `(r, c)` clears that cell's mask and leaves the rest of the mask as it was. */
  function Unmask(m: seq<seq<bool>>, r: nat, c: nat): (m': seq<seq<bool>>)
    requires r < |m| && c < |m[r]|
    ensures SameShape(m', m) && !m'[r][c]
    ensures forall i, j :: 0 <= i < |m| && 0 <= j < |m[i]| && (i, j) != (r, c) ==> m'[i][j] == m[i][j]
  {
    m[r := m[r][c := false]]
  }

  /** test_2d_contiguous: a lattice whose cells all meet passes with `atol` omitted. */
  lemma Test2dContiguous(rows: nat, cols: nat, values: seq<seq<real>>, rule: Excusal)
    requires SameShape(Lattice(rows, cols), values)
    ensures Check(Bounds2D(Lattice(rows, cols)), Data2D(values, None), None, rule) == Passed
  {
    var b := Bounds2D(Lattice(rows, cols));
    assert Contiguous(b, DefaultAtol2D) by {
      forall loc ensures !Discontiguous(b, DefaultAtol2D, loc) {
      }
    }
    ContiguousPasses(b, Data2D(values, None), None, rule);
  }

  /** test_2d_discontigous_masked: the displaced cell `(3, 4)` is masked, so its gaps are excused. */
  lemma Test2dDiscontiguousMasked(rows: nat, cols: nat, values: seq<seq<real>>, rule: Excusal)
    requires 3 < rows && 4 < cols
    requires SameShape(Lattice(rows, cols), values)
    ensures Check(Bounds2D(DisplaceTopRight(Lattice(rows, cols), 3, 4)),
                  Data2D(values, Some(MaskOnly(rows, cols, 3, 4))), None, rule) == Passed
  {
    var g := DisplaceTopRight(Lattice(rows, cols), 3, 4);
    var b := Bounds2D(g);
    var d := Data2D(values, Some(MaskOnly(rows, cols, 3, 4)));
    forall loc ensures !Offends(b, d, DefaultAtol2D, rule, loc) {
      DisplacedGaps(rows, cols, 3, 4, DefaultAtol2D, loc);
    }
  }

  /** test_2d_discontigous_unmasked: with `(3, 4)` unmasked the gap to `(3, 5)` makes the check raise. */
  lemma Test2dDiscontiguousUnmasked(rows: nat, cols: nat, values: seq<seq<real>>, rule: Excusal)
    requires 3 < rows && 5 < cols
    requires SameShape(Lattice(rows, cols), values)
    ensures Check(Bounds2D(DisplaceTopRight(Lattice(rows, cols), 3, 4)),
                  Data2D(values, Some(Unmask(MaskOnly(rows, cols, 3, 4), 3, 4))), None, rule)
         == Raised(DiscontiguousUnmasked(Boundary2D(X, 3, 4)))
  {
  }
}
