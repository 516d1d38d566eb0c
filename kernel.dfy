/**
 * The per-voxel loop `calculate_RMAP_numba` (py_RMAP/RMAP.py:136-162): it allocates the
 * result with `np.zeros` and fills it one voxel at a time with `np.corrcoef` of that
 * voxel's row against the correlate.
 */
module ReferenceKernel {
  import opened Sums
  import opened Correlation

  /** The value `np.zeros` puts in every cell of the result before the loop. */
  const Zero: Coef := Defined(0, 0.0)

  /** Row i of a voxels × fingerprints matrix, `m[i, :]`. */
  function Row(m: array2<real>, i: nat): (r: seq<real>)
    reads m
    requires i < m.Length0
    ensures |r| == m.Length1
    ensures forall j :: 0 <= j < m.Length1 ==> r[j] == m[i, j]
  {
    seq(m.Length1, j requires 0 <= j < m.Length1 reads m => m[i, j])
  }

  /** All rows of the matrix, as the sequence of rows get_RMAP_np takes. */
  function Rows(m: array2<real>): (rs: seq<seq<real>>)
    reads m
    ensures |rs| == m.Length0
    ensures forall i :: 0 <= i < m.Length0 ==> rs[i] == Row(m, i)
  {
    seq(m.Length0, i requires 0 <= i < m.Length0 reads m => Row(m, i))
  }

  /**
   * The loop of lines 157-162 over the matrix it is given: every voxel's entry is
   * np.corrcoef of its row with the correlate, which equals get_RMAP_np on the same rows.
   * np.corrcoef raises on vectors of different lengths, which only happens if there is
   * at least one voxel; hence the precondition.
   */
  method CalculateRmap(fp: array2<real>, varCorrelate: seq<real>) returns (rmap: array<Coef>)
    requires fp.Length0 == 0 || fp.Length1 == |varCorrelate|
    ensures fresh(rmap)
    ensures rmap.Length == fp.Length0
    ensures forall v :: 0 <= v < fp.Length0 ==> rmap[v] == CorrCoef(Row(fp, v), varCorrelate)
    ensures rmap[..] == GetRmapNp(Rows(fp), varCorrelate)
  {
    var numVoxels := fp.Length0;
    rmap := new Coef[numVoxels](_ => Zero);
    for voxel := 0 to numVoxels
      invariant forall v :: 0 <= v < voxel ==> rmap[v] == CorrCoef(Row(fp, v), varCorrelate)
      invariant forall v :: voxel <= v < numVoxels ==> rmap[v] == Zero
    {
      rmap[voxel] := CorrCoef(Row(fp, voxel), varCorrelate);
    }
    forall v | 0 <= v < numVoxels
      ensures rmap[v] == GetRmapNp(Rows(fp), varCorrelate)[v]
    {
      CorrCoefMatchesRowCoef(Row(fp, v), varCorrelate);
    }
  }

  /**
   * calculate_RMAP_numba as written: line 155 rebinds fp_arr to a fresh `np.empty` matrix of
   * the same shape, and the loop correlates that matrix, whose contents are whatever the
   * allocator left there. The result is get_RMAP_np of `scratch`, not of the caller's rows.
   */
  method CalculateRmapNumba(fpArr: array2<real>, varCorrelate: seq<real>)
    returns (rmap: array<Coef>, ghost scratch: array2<real>)
    requires fpArr.Length0 == 0 || fpArr.Length1 == |varCorrelate|
    ensures fresh(rmap) && fresh(scratch)
    ensures scratch.Length0 == fpArr.Length0 && scratch.Length1 == fpArr.Length1
    ensures rmap.Length == fpArr.Length0
    ensures rmap[..] == GetRmapNp(Rows(scratch), varCorrelate)
  {
    var numVoxels, lenFps := fpArr.Length0, fpArr.Length1;
    var empty := new real[numVoxels, lenFps];
    scratch := empty;
    rmap := CalculateRmap(empty, varCorrelate);
  }

  /**
   * The scratch matrix need not hold the caller's data: for the caller's row [1, 2, 3]
   * against y = [1, 2, 3] the intended entry is 1, while a scratch row of zeros, one thing
   * `np.empty` may return, gives NaN.
   */
  lemma ScratchChangesResult()
    ensures GetRmapNp([[1.0, 2.0, 3.0]], [1.0, 2.0, 3.0]) == [Defined(1, 1.0)]
    ensures GetRmapNp([[0.0, 0.0, 0.0]], [1.0, 2.0, 3.0]) == [NaN]
  {
    var y := [1.0, 2.0, 3.0];
    assert y[0] != y[1];
    PerfectCorrelation(y);
    var zeros := [0.0, 0.0, 0.0];
    assert IsConstant(zeros);
    RowCoefNaNIffConstant(zeros, y);
  }
}
