/**
 * Voxel layout: `convert_to_arr` flattens every 3-D volume in numpy's default C order
 * (last index fastest, py_RMAP/RMAP.py:81-82), and `save_Nii` reshapes a flat map back to
 * 91 × 109 × 91 in Fortran order (first index fastest, py_RMAP/RMAP.py:103-104).
 * Both index maps are bijections; composed, they are not the identity.
 */
module Layout {
  import opened Wrappers

  /** A 3-D array of shape (d0, d1, d2), indexed cells[a][b][c]. */
  datatype Volume = Volume(d0: nat, d1: nat, d2: nat, cells: seq<seq<seq<real>>>)
  {
    predicate Valid()
    {
      |cells| == d0
      && (forall a :: 0 <= a < d0 ==> |cells[a]| == d1)
      && (forall a, b :: 0 <= a < d0 && 0 <= b < d1 ==> |cells[a][b]| == d2)
    }

    function Size(): nat
    {
      d0 * d1 * d2
    }
  }

  /** The volume shape `save_Nii` reshapes to. */
  const Dim0: nat := 91
  const Dim1: nat := 109
  const Dim2: nat := 91

  datatype LayoutError =
    | RaggedVolumes    // np.array of flattened volumes of different sizes
    | ReshapeMismatch  // np.reshape to a shape with a different number of elements

  /** What save_Nii hands to the image writer: the 3-D volume, or the flat map unchanged. */
  datatype ImageData = Cube(volume: Volume) | Flat(values: seq<real>)

  // ---------------------------------------------------------------------------------
  // Index maps

  /** C order: element (a, b, c) of a d0 × d1 × d2 volume sits at a·d1·d2 + b·d2 + c. */
  function CIndex(d1: nat, d2: nat, a: nat, b: nat, c: nat): nat
  {
    a * d1 * d2 + b * d2 + c
  }

  /** Fortran order: element (a, b, c) of a d0 × d1 × d2 volume sits at a + d0·b + d0·d1·c. */
  function FIndex(d0: nat, d1: nat, a: nat, b: nat, c: nat): nat
  {
    a + d0 * b + d0 * d1 * c
  }

  /** The position in a C-ordered flat array of shape d1 × d2 planes that holds flat index k. */
  function CUnindex(d1: nat, d2: nat, k: nat): (nat, nat, nat)
    requires d1 > 0 && d2 > 0
  {
    (k / d2 / d1, (k / d2) % d1, k % d2)
  }

  function FUnindex(d0: nat, d1: nat, k: nat): (nat, nat, nat)
    requires d0 > 0 && d1 > 0
  {
    ((k % d0), (k / d0) % d1, k / d0 / d1)
  }

  /** x·Y + y enumerates [0, X·Y) for x in [0, X) and y in [0, Y). */
  lemma PairInRange(x: int, X: int, y: int, Y: int)
    requires 0 <= x < X && 0 <= y < Y
    ensures 0 <= x * Y + y < X * Y
  {
    assert x * Y + y < (x + 1) * Y;
    assert (x + 1) * Y <= X * Y;
  }

  /** Division and remainder by Y recover x and y from x·Y + y. */
  lemma PairSplit(x: int, y: int, Y: int)
    requires 0 <= y < Y
    ensures (x * Y + y) / Y == x && (x * Y + y) % Y == y
  {
    var k := x * Y + y;
    var q, r := k / Y, k % Y;
    assert (x - q) * Y == r - y;
    ZeroMultiple(x - q, Y);
  }

  /** The only multiple of Y strictly between -Y and Y is 0. */
  lemma ZeroMultiple(d: int, Y: int)
    requires Y > 0 && -Y < d * Y < Y
    ensures d == 0
  {
    MulMonotone(d, 1, Y);
    MulMonotone(-1, d, Y);
  }

  /** Multiplying by a positive Y keeps the order of the factors. */
  lemma MulMonotone(p: int, q: int, Y: int)
    requires Y > 0
    ensures p >= q ==> p * Y >= q * Y
  {
    if p >= q {
      assert p * Y - q * Y == (p - q) * Y;
    }
  }

  /** A flat index below X·Y has quotient below X. */
  lemma QuotientInRange(k: int, X: int, Y: int)
    requires Y > 0 && 0 <= k < X * Y
    ensures 0 <= k / Y < X && 0 <= k % Y < Y
  {
    assert k == (k / Y) * Y + k % Y;
    MulMonotone(k / Y, X, Y);
  }

  lemma CIndexNested(d1: nat, d2: nat, a: nat, b: nat, c: nat)
    ensures CIndex(d1, d2, a, b, c) == (a * d1 + b) * d2 + c
  {
    assert (a * d1 + b) * d2 == a * d1 * d2 + b * d2;
  }

  lemma FIndexNested(d0: nat, d1: nat, a: nat, b: nat, c: nat)
    ensures FIndex(d0, d1, a, b, c) == (c * d1 + b) * d0 + a
  {
    assert (c * d1 + b) * d0 == d0 * d1 * c + d0 * b;
  }

  /** C order maps every in-range (a, b, c) into [0, d0·d1·d2) and can be undone. */
  lemma CIndexBijective(d0: nat, d1: nat, d2: nat, a: nat, b: nat, c: nat)
    requires a < d0 && b < d1 && c < d2
    ensures CIndex(d1, d2, a, b, c) < d0 * d1 * d2
    ensures CUnindex(d1, d2, CIndex(d1, d2, a, b, c)) == (a, b, c)
  {
    CIndexNested(d1, d2, a, b, c);
    PairInRange(a, d0, b, d1);
    PairInRange(a * d1 + b, d0 * d1, c, d2);
    PairSplit(a * d1 + b, c, d2);
    PairSplit(a, b, d1);
  }

  /** Every flat index below d0·d1·d2 is the C index of exactly the position CUnindex gives. */
  lemma CUnindexBijective(d0: nat, d1: nat, d2: nat, k: nat)
    requires d1 > 0 && d2 > 0 && k < d0 * d1 * d2
    ensures CUnindex(d1, d2, k).0 < d0 && CUnindex(d1, d2, k).1 < d1 && CUnindex(d1, d2, k).2 < d2
    ensures CIndex(d1, d2, CUnindex(d1, d2, k).0, CUnindex(d1, d2, k).1, CUnindex(d1, d2, k).2) == k
  {
    var (a, b, c) := CUnindex(d1, d2, k);
    QuotientInRange(k, d0 * d1, d2);
    QuotientInRange(k / d2, d0, d1);
    CIndexNested(d1, d2, a, b, c);
    assert k / d2 == a * d1 + b;
  }

  /** Fortran order maps every in-range (a, b, c) into [0, d0·d1·d2) and can be undone. */
  lemma FIndexBijective(d0: nat, d1: nat, d2: nat, a: nat, b: nat, c: nat)
    requires a < d0 && b < d1 && c < d2
    ensures FIndex(d0, d1, a, b, c) < d0 * d1 * d2
    ensures FUnindex(d0, d1, FIndex(d0, d1, a, b, c)) == (a, b, c)
  {
    FIndexNested(d0, d1, a, b, c);
    PairInRange(c, d2, b, d1);
    PairInRange(c * d1 + b, d2 * d1, a, d0);
    assert d2 * d1 * d0 == d0 * d1 * d2;
    PairSplit(c * d1 + b, a, d0);
    PairSplit(c, b, d1);
  }

  /** Every flat index below d0·d1·d2 is the Fortran index of exactly the position FUnindex gives. */
  lemma FUnindexBijective(d0: nat, d1: nat, d2: nat, k: nat)
    requires d0 > 0 && d1 > 0 && k < d0 * d1 * d2
    ensures FUnindex(d0, d1, k).0 < d0 && FUnindex(d0, d1, k).1 < d1 && FUnindex(d0, d1, k).2 < d2
    ensures FIndex(d0, d1, FUnindex(d0, d1, k).0, FUnindex(d0, d1, k).1, FUnindex(d0, d1, k).2) == k
  {
    var (a, b, c) := FUnindex(d0, d1, k);
    assert d2 * d1 * d0 == d0 * d1 * d2;
    QuotientInRange(k, d2 * d1, d0);
    QuotientInRange(k / d0, d2, d1);
    FIndexNested(d0, d1, a, b, c);
    assert k / d0 == c * d1 + b;
  }

  // ---------------------------------------------------------------------------------
  // Flatten and reshape

  /** `f.flatten()`: the elements of the volume in C order. */
  function FlattenC(v: Volume): (f: seq<real>)
    requires v.Valid()
    ensures |f| == v.Size()
    ensures forall a, b, c :: 0 <= a < v.d0 && 0 <= b < v.d1 && 0 <= c < v.d2 ==>
              CIndex(v.d1, v.d2, a, b, c) < |f| && f[CIndex(v.d1, v.d2, a, b, c)] == v.cells[a][b][c]
  {
    var f := seq(v.Size(), k requires 0 <= k < v.Size() =>
      CUnindexBijective(v.d0, v.d1, v.d2, k);
      v.cells[CUnindex(v.d1, v.d2, k).0][CUnindex(v.d1, v.d2, k).1][CUnindex(v.d1, v.d2, k).2]);
    forall a, b, c | 0 <= a < v.d0 && 0 <= b < v.d1 && 0 <= c < v.d2
      ensures CIndex(v.d1, v.d2, a, b, c) < |f| && f[CIndex(v.d1, v.d2, a, b, c)] == v.cells[a][b][c]
    {
      CIndexBijective(v.d0, v.d1, v.d2, a, b, c);
    }
    f
  }

  /** Row (a, b) of the C-order reshape: the d2 consecutive values from CIndex(a, b, 0). */
  function LineC(f: seq<real>, d0: nat, d1: nat, d2: nat, a: nat, b: nat): (l: seq<real>)
    requires |f| == d0 * d1 * d2 && a < d0 && b < d1
    ensures |l| == d2
    ensures forall c :: 0 <= c < d2 ==> CIndex(d1, d2, a, b, c) < |f| && l[c] == f[CIndex(d1, d2, a, b, c)]
  {
    var l := seq(d2, c requires 0 <= c < d2 => CIndexBijective(d0, d1, d2, a, b, c); f[CIndex(d1, d2, a, b, c)]);
    forall c | 0 <= c < d2
      ensures CIndex(d1, d2, a, b, c) < |f|
    {
      CIndexBijective(d0, d1, d2, a, b, c);
    }
    l
  }

  /** `np.reshape(f, (d0, d1, d2), order="C")`. */
  function ReshapeC(f: seq<real>, d0: nat, d1: nat, d2: nat): (v: Volume)
    requires |f| == d0 * d1 * d2
    ensures v.Valid() && v.d0 == d0 && v.d1 == d1 && v.d2 == d2
    ensures forall a, b, c :: 0 <= a < d0 && 0 <= b < d1 && 0 <= c < d2 ==>
              CIndex(d1, d2, a, b, c) < |f| && v.cells[a][b][c] == f[CIndex(d1, d2, a, b, c)]
  {
    var cells := seq(d0, a requires 0 <= a < d0 => seq(d1, b requires 0 <= b < d1 => LineC(f, d0, d1, d2, a, b)));
    forall a, b, c | 0 <= a < d0 && 0 <= b < d1 && 0 <= c < d2
      ensures CIndex(d1, d2, a, b, c) < |f| && cells[a][b][c] == f[CIndex(d1, d2, a, b, c)]
    {
      assert cells[a][b] == LineC(f, d0, d1, d2, a, b);
    }
    Volume(d0, d1, d2, cells)
  }

  /** Row (a, b) of the Fortran-order reshape: the d2 values at stride d0·d1 from FIndex(a, b, 0). */
  function LineF(f: seq<real>, d0: nat, d1: nat, d2: nat, a: nat, b: nat): (l: seq<real>)
    requires |f| == d0 * d1 * d2 && a < d0 && b < d1
    ensures |l| == d2
    ensures forall c :: 0 <= c < d2 ==> FIndex(d0, d1, a, b, c) < |f| && l[c] == f[FIndex(d0, d1, a, b, c)]
  {
    var l := seq(d2, c requires 0 <= c < d2 => FIndexBijective(d0, d1, d2, a, b, c); f[FIndex(d0, d1, a, b, c)]);
    forall c | 0 <= c < d2
      ensures FIndex(d0, d1, a, b, c) < |f|
    {
      FIndexBijective(d0, d1, d2, a, b, c);
    }
    l
  }

  /** `np.reshape(f, (d0, d1, d2), order="F")`. */
  function ReshapeF(f: seq<real>, d0: nat, d1: nat, d2: nat): (v: Volume)
    requires |f| == d0 * d1 * d2
    ensures v.Valid() && v.d0 == d0 && v.d1 == d1 && v.d2 == d2
    ensures forall a, b, c :: 0 <= a < d0 && 0 <= b < d1 && 0 <= c < d2 ==>
              FIndex(d0, d1, a, b, c) < |f| && v.cells[a][b][c] == f[FIndex(d0, d1, a, b, c)]
  {
    var cells := seq(d0, a requires 0 <= a < d0 => seq(d1, b requires 0 <= b < d1 => LineF(f, d0, d1, d2, a, b)));
    forall a, b, c | 0 <= a < d0 && 0 <= b < d1 && 0 <= c < d2
      ensures FIndex(d0, d1, a, b, c) < |f| && cells[a][b][c] == f[FIndex(d0, d1, a, b, c)]
    {
      assert cells[a][b] == LineF(f, d0, d1, d2, a, b);
    }
    Volume(d0, d1, d2, cells)
  }

  /**
   * convert_to_arr: one row per volume, in list order, each the C-order flattening of its
   * volume. Flattenings of different lengths do not stack into a matrix.
   */
  function ConvertToArr(volumes: seq<Volume>): (r: Result<seq<seq<real>>, LayoutError>)
    requires forall i :: 0 <= i < |volumes| ==> volumes[i].Valid()
    ensures r.Ok? <==> forall i, j :: 0 <= i < |volumes| && 0 <= j < |volumes| ==> volumes[i].Size() == volumes[j].Size()
    ensures r.Ok? ==> |r.value| == |volumes|
    ensures r.Ok? ==> forall i :: 0 <= i < |volumes| ==> r.value[i] == FlattenC(volumes[i])
  {
    if exists i, j :: 0 <= i < |volumes| && 0 <= j < |volumes| && volumes[i].Size() != volumes[j].Size() then
      Err(RaggedVolumes)
    else
      Ok(seq(|volumes|, i requires 0 <= i < |volumes| => FlattenC(volumes[i])))
  }

  /**
   * The data save_Nii passes to the image writer: with reshape set, the flat map reshaped to
   * 91 × 109 × 91 in Fortran order, which fails unless it has exactly that many values.
   */
  function SaveNii(fp: seq<real>, reshape: bool): (r: Result<ImageData, LayoutError>)
    ensures r.Err? <==> reshape && |fp| != Dim0 * Dim1 * Dim2
    ensures r.Ok? && reshape ==> r.value == Cube(ReshapeF(fp, Dim0, Dim1, Dim2))
    ensures r.Ok? && !reshape ==> r.value == Flat(fp)
  {
    if !reshape then Ok(Flat(fp))
    else if |fp| != Dim0 * Dim1 * Dim2 then Err(ReshapeMismatch)
    else Ok(Cube(ReshapeF(fp, Dim0, Dim1, Dim2)))
  }

  /** save_Nii with the reshape order matching convert_to_arr's flatten order. */
  function SaveNiiMatchingOrder(fp: seq<real>, reshape: bool): (r: Result<ImageData, LayoutError>)
    ensures r.Err? <==> reshape && |fp| != Dim0 * Dim1 * Dim2
    ensures r.Ok? && !reshape ==> r.value == Flat(fp)
    ensures r.Ok? && reshape ==> r.value.Cube? && r.value.volume.Valid() && FlattenC(r.value.volume) == fp
  {
    if !reshape then Ok(Flat(fp))
    else if |fp| != Dim0 * Dim1 * Dim2 then Err(ReshapeMismatch)
    else
      FlattenCInvertsReshapeC(fp, Dim0, Dim1, Dim2);
      Ok(Cube(ReshapeC(fp, Dim0, Dim1, Dim2)))
  }

  // ---------------------------------------------------------------------------------
  // Round trips

  /** Reshaping a C-order flattening in C order gives the volume back. */
  lemma ReshapeCInvertsFlattenC(v: Volume)
    requires v.Valid()
    ensures ReshapeC(FlattenC(v), v.d0, v.d1, v.d2) == v
  {
    var w := ReshapeC(FlattenC(v), v.d0, v.d1, v.d2);
    forall a | 0 <= a < v.d0
      ensures w.cells[a] == v.cells[a]
    {
      forall b | 0 <= b < v.d1
        ensures w.cells[a][b] == v.cells[a][b]
      {
      }
    }
  }

  /** Flattening a C-order reshape in C order gives the flat array back. */
  lemma FlattenCInvertsReshapeC(f: seq<real>, d0: nat, d1: nat, d2: nat)
    requires |f| == d0 * d1 * d2
    ensures FlattenC(ReshapeC(f, d0, d1, d2)) == f
  {
    var g := FlattenC(ReshapeC(f, d0, d1, d2));
    forall k | 0 <= k < |f|
      ensures g[k] == f[k]
    {
      CUnindexBijective(d0, d1, d2, k);
    }
  }

  /**
   * convert_to_arr followed by save_Nii swaps the first and last axes: the value save_Nii
   * places at (a, b, c) is the one the volume held at (c, b, a). A volume whose cells
   * (1, 0, 0) and (0, 0, 1) differ therefore does not survive the round trip.
   */
  lemma SaveNiiScramblesVoxels(v: Volume)
    requires v.Valid() && v.d0 == Dim0 && v.d1 == Dim1 && v.d2 == Dim2
    ensures SaveNii(FlattenC(v), true).Ok?
    ensures forall a, b, c :: 0 <= a < Dim0 && 0 <= b < Dim1 && 0 <= c < Dim2 ==>
              SaveNii(FlattenC(v), true).value.volume.cells[a][b][c] == v.cells[c][b][a]
    ensures v.cells[1][0][0] != v.cells[0][0][1] ==> SaveNii(FlattenC(v), true) != Ok(Cube(v))
  {
    var w := SaveNii(FlattenC(v), true).value.volume;
    forall a, b, c | 0 <= a < Dim0 && 0 <= b < Dim1 && 0 <= c < Dim2
      ensures w.cells[a][b][c] == v.cells[c][b][a]
    {
      assert FIndex(Dim0, Dim1, a, b, c) == CIndex(Dim1, Dim2, c, b, a);
    }
  }

  /** With matching orders every volume of the canonical shape survives save_Nii exactly. */
  lemma SaveNiiMatchingOrderRoundTrip(v: Volume)
    requires v.Valid() && v.d0 == Dim0 && v.d1 == Dim1 && v.d2 == Dim2
    ensures SaveNiiMatchingOrder(FlattenC(v), true) == Ok(Cube(v))
  {
    ReshapeCInvertsFlattenC(v);
  }
}
