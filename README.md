# RMAP in Dafny

RMAP builds an R-map (one correlation coefficient r per voxel): it loads one connectivity fingerprint (a 3-D NIfTI volume) per
subject and flattens each into a row of a subjects × voxels matrix. Then, for every voxel, it
correlates that voxel's values across the subjects with one clinical variable (the
*correlate*) and writes the per-voxel coefficients back as a 91 × 109 × 91 volume. This
project models the core of `py_RMAP/RMAP.py` and proves properties of it:

- **Sums** (`sums.dfy`): the row sums that `get_RMAP_np` takes with `np.sum`, over exact reals,
  and the algebra behind its raw-sum Pearson formula. This covers symmetry, the centred form,
  the non-negative row term that is zero exactly for constant rows, Cauchy-Schwarz and
  behaviour under affine maps.
- **Correlation** (`correlation.dfy`):
  - `get_RMAP_np`, the vectorised formula;
  - `np.corrcoef` (centred covariance with N − 1 degrees of freedom, clipped to [−1, 1]);
  - `get_corr_numba`.

  Dafny has no square root, so a coefficient `num / sqrt(den)` is kept as a `Coef`:
  `Defined(sign, square)`, `Inf(positive)` or `NaN`, as IEEE arithmetic would produce it.
  `Denotes` and `IsQuotient` say which real number a coefficient stands for.
- **ReferenceKernel** (`kernel.dfy`): the per-voxel loop of `calculate_RMAP_numba`, as a method
  that fills an `array<Coef>` from an `array2<real>`. It comes in two forms: as the source
  writes it, where the loop reads a fresh uninitialised matrix, and as intended.
- **FileFilter** (`file_filter.dfy`): the file-name selection of
  `get_fingerprints_from_path_with_cond`, in its Keep and Omit modes. A `None` argument
  that Python's `in` rejects with TypeError is modelled as an error.
- **Layout** (`layout.dfy`): `convert_to_arr`'s C-order flattening and `save_Nii`'s Fortran-order
  reshape to 91 × 109 × 91. It includes both index maps, their inverses, and the round trips.
- **Wrappers** (`wrappers.dfy`): `Option` and `Result`.

## Model

| member | source | states |
|---|---|---|
| Correlation.RowCoef | py_RMAP/RMAP.py:126-133 | the definition of one voxel's coefficient, (N·Σxy − Σx·Σy) / sqrt((N·Σx² − (Σx)²)·(N·Σy² − (Σy)²)); its contract says it is never infinite and that a finite coefficient has the sign of the numerator; RowCoefNaNIffConstant and RowCoefSquareAtMostOne pin down when it is NaN and that its square is at most 1 |
| Correlation.CorrCoef | py_RMAP/RMAP.py:159-159 | the definition of np.corrcoef(a, b)[0][1]: NaN for fewer than two samples, otherwise the centred covariance over N − 1 divided by the square root of the product of the variances, clipped; its contract says it is never infinite and a finite value has square at most 1; CorrCoefMatchesRowCoef proves it equal to RowCoef |
| Correlation.GetRmapNp | py_RMAP/RMAP.py:110-134 | one coefficient per voxel row; entry v is the raw-sum Pearson coefficient of row v against y, although the sums are computed as whole vectors and the correlate's term once |
| Correlation.DivideBySqrt | py_RMAP/RMAP.py:128-133 | dividing by a square root is finite exactly when the denominator is positive, infinite exactly for a non-zero numerator over zero (with the numerator's sign), NaN otherwise; a finite result is in canonical sign/square form |
| Correlation.DivideBySqrtDenotes | py_RMAP/RMAP.py:128-133 | the coefficient stands for v exactly when v = num / sqrt(den) (v²·den = num², same sign, den > 0) |
| Correlation.DivideBySqrtScale | py_RMAP/RMAP.py:126-133 | scaling the numerator by k ≠ 0 and the denominator by k² keeps the quotient for k > 0 and negates it for k < 0 |
| Correlation.RowCoefNaNIffConstant | py_RMAP/RMAP.py:126-133 | a voxel's coefficient is NaN exactly when its row or the correlate is constant, finite otherwise, and never infinite |
| Correlation.RowCoefSquareAtMostOne | py_RMAP/RMAP.py:126-133 | the square of every finite coefficient is at most 1 |
| Correlation.RowCoefInUnitInterval | py_RMAP/RMAP.py:111-112 | every real number a coefficient stands for lies in [−1, 1], as Pearson's coefficient must |
| Correlation.RowCoefSymmetric | py_RMAP/RMAP.py:126-133 | swapping the row and the correlate gives the same coefficient |
| Correlation.RowCoefAffine | py_RMAP/RMAP.py:126-133 | replacing a row x by k·x + c keeps its coefficient for k > 0, negates it for k < 0 and gives NaN for k = 0 |
| Correlation.RowCoefShiftInvariant | py_RMAP/RMAP.py:126-133 | adding one constant to every value of a row leaves its coefficient unchanged |
| Correlation.PerfectCorrelation | py_RMAP/RMAP.py:126-133 | a non-constant row correlated with itself gives exactly 1 |
| Correlation.PerfectAnticorrelation | py_RMAP/RMAP.py:126-133 | the negation of a non-constant correlate gives exactly −1 |
| Correlation.ConstantCorrelateAllNaN | py_RMAP/RMAP.py:130-131 | a constant correlate makes every entry of the map NaN |
| Correlation.WorkedExample | py_RMAP/RMAP.py:126-134 | rows [1,2,3], [4,4,4], [1,2,4] against y = [1,2,3] give 1, NaN and 9/sqrt(84) |
| Correlation.ThirdRow | py_RMAP/RMAP.py:126-133 | the row [1,2,4] against [1,2,3] has numerator 9 over sqrt(14·6) |
| Correlation.WorkedExampleValue | py_RMAP/RMAP.py:126-133 | 9/sqrt(84) ≈ 0.98198 lies strictly between 0.9819 and 0.9821 |
| Correlation.CorrCoefMatchesRowCoef | py_RMAP/RMAP.py:159-159 | np.corrcoef of two equal-length vectors equals the raw-sum formula: centring, the N − 1 divisor and the clip change nothing over exact reals |
| Correlation.GetCorrNumba | py_RMAP/RMAP.py:164-168 | fails exactly when the two vectors differ in length; otherwise it equals the raw-sum coefficient, whichever argument comes first |
| Sums.DotSymmetric | py_RMAP/RMAP.py:127-127 | Σxy is symmetric in x and y |
| Sums.CoMomentSymmetric | py_RMAP/RMAP.py:127-127 | the numerator N·Σxy − Σx·Σy is symmetric in x and y |
| Sums.CrossDevExpand | py_RMAP/RMAP.py:126-131 | the centred cross product Σ(x−p)(y−q) expands into the raw sums Σxy, Σx, Σy |
| Sums.SquaresNonNegative | py_RMAP/RMAP.py:130-131 | a centred sum of squares is never negative |
| Sums.CauchySchwarz | py_RMAP/RMAP.py:126-133 | the centred cross product squared is at most the product of the centred sums of squares |
| Sums.CoMomentCentred | py_RMAP/RMAP.py:126-127 | the raw-sum numerator is N times the cross product of the rows centred at their means |
| Sums.RowTermZeroIffConstant | py_RMAP/RMAP.py:130-130 | the row term N·Σx² − (Σx)² is non-negative, and zero exactly when the row is constant |
| Sums.ConstantCoMoment | py_RMAP/RMAP.py:127-127 | a constant row has a zero numerator against any correlate |
| Sums.CoMomentBound | py_RMAP/RMAP.py:126-133 | numerator² ≤ row term · correlate term |
| Sums.SumAffine | py_RMAP/RMAP.py:127-127 | Σ(k·x + c) = k·Σx + N·c |
| Sums.DotAffine | py_RMAP/RMAP.py:127-127 | Σ(k·x + c)·y = k·Σxy + c·Σy |
| Sums.CoMomentAffine | py_RMAP/RMAP.py:127-127 | replacing the row by k·x + c scales the numerator by k |
| Sums.RowTermAffine | py_RMAP/RMAP.py:130-130 | replacing the row by k·x + c scales the row term by k² |
| ReferenceKernel.Row | py_RMAP/RMAP.py:159-159 | `fp_arr[voxel, :]` is the voxel's row, element by element |
| ReferenceKernel.CalculateRmap | py_RMAP/RMAP.py:157-162 | the loop over the matrix it reads returns a new array with one entry per voxel; entry v is np.corrcoef of row v with the correlate, and the whole result equals get_RMAP_np on the same rows |
| ReferenceKernel.CalculateRmapNumba | py_RMAP/RMAP.py:154-162 | as written: the result is a new array holding get_RMAP_np of a fresh matrix of the input's shape, not of the caller's rows |
| ReferenceKernel.ScratchChangesResult | py_RMAP/RMAP.py:155-155 | the contents of the scratch matrix decide the result: the caller's row [1,2,3] gives 1 and a zero row gives NaN |
| FileFilter.ModeOf | py_RMAP/RMAP.py:65-78 | `keep` selects the Keep branch, and only then; the Keep branch carries str_to_keep and the Omit branch str_to_omit |
| FileFilter.ContainsIffOccurs | py_RMAP/RMAP.py:68-68 | Python's substring test holds exactly when the substring occurs at some position |
| FileFilter.InTest | py_RMAP/RMAP.py:68-68 | `s in k` fails exactly when s is None and otherwise is the substring test |
| FileFilter.Matches | py_RMAP/RMAP.py:68-75 | the definition of the filter's lambda with short-circuit `and`: it raises exactly when conn is None, or when the name contains conn and the mode's string is None; it is true exactly when the name contains conn and contains str_to_keep (Keep) or does not contain str_to_omit (Omit); FilterNames lifts it to the whole listing |
| FileFilter.FilterNames | py_RMAP/RMAP.py:66-78 | the filter fails exactly when the test raises on some listed name; otherwise it keeps the names that pass, in listing order, each as often as it was listed |
| FileFilter.GetFingerprintsFromPathWithCond | py_RMAP/RMAP.py:34-79 | returns the selected names and, position by position, the volume loaded from each; it fails exactly when the filter does |
| FileFilter.KeepSelectsExactly | py_RMAP/RMAP.py:65-71 | the entry point with keep = True and str_to_keep given succeeds and selects exactly the listed names containing both the connectivity string and str_to_keep, whatever str_to_omit is |
| FileFilter.OmitSelectsExactly | py_RMAP/RMAP.py:72-78 | the entry point with keep = False and str_to_omit given succeeds and selects exactly the listed names containing the connectivity string and not str_to_omit, whatever str_to_keep is |
| FileFilter.DefaultArgumentsFail | py_RMAP/RMAP.py:37-40 | with every argument at its default (keep = True, both strings None, connectivity string "_AvgR_Fz.nii") the call raises exactly when some listed name contains "_AvgR_Fz.nii", and otherwise returns no names and no volumes |
| Layout.CIndexBijective | py_RMAP/RMAP.py:82-82 | the C-order position of an in-range cell lies within the flat array and determines the cell |
| Layout.CUnindexBijective | py_RMAP/RMAP.py:82-82 | every flat position is the C-order position of an in-range cell |
| Layout.FIndexBijective | py_RMAP/RMAP.py:104-104 | the Fortran-order position of an in-range cell lies within the flat array and determines the cell |
| Layout.FUnindexBijective | py_RMAP/RMAP.py:104-104 | every flat position is the Fortran-order position of an in-range cell |
| Layout.FlattenC | py_RMAP/RMAP.py:82-82 | `flatten()` has one value per cell, and cell (a, b, c) sits at position a·d1·d2 + b·d2 + c |
| Layout.ReshapeC | py_RMAP/RMAP.py:104-104 | a C-order reshape is a well-formed volume whose cell (a, b, c) is the value at a·d1·d2 + b·d2 + c |
| Layout.ReshapeF | py_RMAP/RMAP.py:104-104 | a Fortran-order reshape is a well-formed volume whose cell (a, b, c) is the value at a + d0·b + d0·d1·c |
| Layout.ConvertToArr | py_RMAP/RMAP.py:81-82 | fails exactly when the volumes differ in size; otherwise one row per volume, in order, each its C-order flattening |
| Layout.SaveNii | py_RMAP/RMAP.py:103-106 | with reshape set, fails exactly when the map does not have 91·109·91 values and otherwise passes on its Fortran-order reshape; without it, passes the map unchanged |
| Layout.SaveNiiMatchingOrder | py_RMAP/RMAP.py:103-104 | corrected: the same error cases, and the reshaped volume flattens back to the map it came from |
| Layout.ReshapeCInvertsFlattenC | py_RMAP/RMAP.py:82-82 | reshaping a C-order flattening in C order gives the volume back |
| Layout.FlattenCInvertsReshapeC | py_RMAP/RMAP.py:104-104 | flattening a C-order reshape gives the flat array back |
| Layout.SaveNiiScramblesVoxels | py_RMAP/RMAP.py:104-104 | after convert_to_arr and save_Nii, every cell (a,b,c) holds the value of cell (c,b,a): the first and last axes are swapped, so a volume whose cells (1,0,0) and (0,0,1) differ does not come back |
| Layout.SaveNiiMatchingOrderRoundTrip | py_RMAP/RMAP.py:103-104 | with matching orders every 91 × 109 × 91 volume comes back exactly |

## Left out

- Reading and writing NIfTI files (`load_fingerprint`, `nib.save`, the affine, `name_save`) is file I/O. `load` is a parameter of `GetFingerprintsFromPathWithCond`, and `SaveNii` returns the data it would hand to the writer.
- The directory listing and `os.path.join` are I/O. The listing is a parameter, and `load` is applied to the bare name.
- Numba's `@jit` compilation has no effect on the values computed and is not modelled.
- Floating point: all sums are over exact reals. Rounding, overflow, and a tiny negative row term caused by cancellation are not modelled. Over the reals the row term is never negative, so the NaN-from-negative branch of `DivideBySqrt` is unreachable from the formula.
- Correlation.CorrCoef: numpy divides by the two standard deviations one after the other. The model divides once by the square root of the product of the variances; over exact reals the two agree.
- Correlation.GetRmapNp: requires every row to have the correlate's length. numpy would instead raise on a broadcasting mismatch (or broadcast a length-1 axis); that error path is not modelled.
- ReferenceKernel.CalculateRmap: requires the row length to equal the correlate's length when there is at least one voxel. np.corrcoef would raise ValueError otherwise; that error path is not modelled.
- ReferenceKernel.CalculateRmapNumba: has the same requirement on the correlate's length, for the same reason. The ValueError that np.corrcoef raises on a mismatch is not modelled.
- ReferenceKernel.CalculateRmapNumba: the contents of `np.empty` are left unconstrained, because Dafny's fresh arrays are. The model does not say they are the previous heap contents.
- Layout.ConvertToArr: volumes of different sizes are an error. Depending on the numpy version, the source builds a ragged object array or raises, and an empty list gives a 1-D array; neither case is modelled further.
- Layout.SaveNii: only the reshape is modelled. A 1-D map of the wrong size raises, as in numpy, but a multi-dimensional `fp` is not modelled.

## Findings

| source | as written | input that shows it | evidently intended | confidence | as-written member | corrected member |
|---|---|---|---|---|---|---|
| py_RMAP/RMAP.py:155 | `fp_arr` is rebound to `np.empty` of the same shape before the loop, so the loop correlates uninitialised memory instead of the fingerprints | fp_arr = [[1, 2, 3]], var_correlate = [1, 2, 3]: intended result [1.0]; if the scratch holds zeros the result is [NaN], and in general it depends on whatever the allocator returns | correlate the caller's rows, as get_RMAP_np does | high; not executed | ReferenceKernel.CalculateRmapNumba, ReferenceKernel.ScratchChangesResult | ReferenceKernel.CalculateRmap |
| py_RMAP/RMAP.py:104 | maps are reshaped in Fortran order, while `convert_to_arr` (line 82) flattens volumes in C order, so voxels land at the wrong coordinates | any 91 × 109 × 91 volume whose cells (1,0,0) and (0,0,1) differ: after flatten and save_Nii, (1,0,0) holds the old (0,0,1); in general every (a,b,c) holds the old (c,b,a) | reshape in the order used to flatten, so every voxel returns to its coordinates | high; not executed | Layout.SaveNii, Layout.SaveNiiScramblesVoxels | Layout.SaveNiiMatchingOrder, Layout.SaveNiiMatchingOrderRoundTrip |
