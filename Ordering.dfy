/**
 * The component-wise comparisons PyImath registers as `__lt__`, `__le__`,
 * `__gt__` and `__ge__` on M33f/M33d. Each scans the nine entries row by
 * row, gives up at the first entry that breaks the order, and the strict
 * forms finally ask that the matrices differ. The result is a partial
 * order, not a total one.
 */
module Matrix33Ordering {
  import opened Matrix33Core

  /** Every entry of `a` is at most the entry of `b` at the same place. */
  predicate LessOrEqual(a: Matrix33, b: Matrix33)
  {
    forall i, j | 0 <= i < 3 && 0 <= j < 3 :: a[i][j] <= b[i][j]
  }

  /** No entry of `a` is below the entry of `b` at the same place. */
  predicate GreaterOrEqual(a: Matrix33, b: Matrix33)
  {
    forall i, j | 0 <= i < 3 && 0 <= j < 3 :: !(a[i][j] < b[i][j])
  }

  predicate Less(a: Matrix33, b: Matrix33)
  {
    LessOrEqual(a, b) && a != b
  }

  predicate Greater(a: Matrix33, b: Matrix33)
  {
    GreaterOrEqual(a, b) && a != b
  }

  /** `mat1 < mat2`: false at the first entry with mat1[i][j] > mat2[i][j],
      otherwise whether the two matrices differ. */
  method LessThan33(mat1: Matrix33, mat2: Matrix33) returns (r: bool)
    ensures r <==> Less(mat1, mat2)
  {
    for i := 0 to 3
      invariant forall i', j | 0 <= i' < i && 0 <= j < 3 :: mat1[i'][j] <= mat2[i'][j]
    {
      for j := 0 to 3
        invariant forall i', j' | 0 <= i' < i && 0 <= j' < 3 :: mat1[i'][j'] <= mat2[i'][j']
        invariant forall j' | 0 <= j' < j :: mat1[i][j'] <= mat2[i][j']
      {
        if mat1[i][j] > mat2[i][j] {
          return false;
        }
      }
    }
    return mat1 != mat2;
  }

  /** `mat1 <= mat2`: false at the first entry with mat1[i][j] > mat2[i][j],
      otherwise true. */
  method LessThanEqual33(mat1: Matrix33, mat2: Matrix33) returns (r: bool)
    ensures r <==> LessOrEqual(mat1, mat2)
  {
    for i := 0 to 3
      invariant forall i', j | 0 <= i' < i && 0 <= j < 3 :: mat1[i'][j] <= mat2[i'][j]
    {
      for j := 0 to 3
        invariant forall i', j' | 0 <= i' < i && 0 <= j' < 3 :: mat1[i'][j'] <= mat2[i'][j']
        invariant forall j' | 0 <= j' < j :: mat1[i][j'] <= mat2[i][j']
      {
        if mat1[i][j] > mat2[i][j] {
          return false;
        }
      }
    }
    return true;
  }

  /** `mat1 > mat2`: false at the first entry with mat1[i][j] < mat2[i][j],
      otherwise whether the two matrices differ. */
  method GreaterThan33(mat1: Matrix33, mat2: Matrix33) returns (r: bool)
    ensures r <==> Greater(mat1, mat2)
  {
    for i := 0 to 3
      invariant forall i', j | 0 <= i' < i && 0 <= j < 3 :: !(mat1[i'][j] < mat2[i'][j])
    {
      for j := 0 to 3
        invariant forall i', j' | 0 <= i' < i && 0 <= j' < 3 :: !(mat1[i'][j'] < mat2[i'][j'])
        invariant forall j' | 0 <= j' < j :: !(mat1[i][j'] < mat2[i][j'])
      {
        if mat1[i][j] < mat2[i][j] {
          return false;
        }
      }
    }
    return mat1 != mat2;
  }

  /** `mat1 >= mat2`: false at the first entry with mat1[i][j] < mat2[i][j],
      otherwise true. */
  method GreaterThanEqual33(mat1: Matrix33, mat2: Matrix33) returns (r: bool)
    ensures r <==> GreaterOrEqual(mat1, mat2)
  {
    for i := 0 to 3
      invariant forall i', j | 0 <= i' < i && 0 <= j < 3 :: !(mat1[i'][j] < mat2[i'][j])
    {
      for j := 0 to 3
        invariant forall i', j' | 0 <= i' < i && 0 <= j' < 3 :: !(mat1[i'][j'] < mat2[i'][j'])
        invariant forall j' | 0 <= j' < j :: !(mat1[i][j'] < mat2[i][j'])
      {
        if mat1[i][j] < mat2[i][j] {
          return false;
        }
      }
    }
    return true;
  }

  // ---- laws of the order ----

  /** A single entry out of order is enough to refute `<=`. */
  lemma LessOrEqualWitness(a: Matrix33, b: Matrix33)
    ensures !LessOrEqual(a, b) <==> exists i, j | 0 <= i < 3 && 0 <= j < 3 :: a[i][j] > b[i][j]
  {
  }

  lemma LessOrEqualReflexive(a: Matrix33)
    ensures LessOrEqual(a, a)
  {
  }

  lemma LessOrEqualTransitive(a: Matrix33, b: Matrix33, c: Matrix33)
    requires LessOrEqual(a, b) && LessOrEqual(b, c)
    ensures LessOrEqual(a, c)
  {
  }

  lemma LessOrEqualAntisymmetric(a: Matrix33, b: Matrix33)
    requires LessOrEqual(a, b) && LessOrEqual(b, a)
    ensures a == b
  {
    EntrywiseEqual(a, b);
  }

  /** `<` is `<=` without equality: irreflexive. */
  lemma LessIrreflexive(a: Matrix33)
    ensures !Less(a, a)
  {
  }

  lemma LessAsymmetric(a: Matrix33, b: Matrix33)
    requires Less(a, b)
    ensures !Less(b, a) && !LessOrEqual(b, a)
  {
    if LessOrEqual(b, a) {
      LessOrEqualAntisymmetric(a, b);
    }
  }

  lemma LessTransitive(a: Matrix33, b: Matrix33, c: Matrix33)
    requires Less(a, b) && Less(b, c)
    ensures Less(a, c)
  {
    LessOrEqualTransitive(a, b, c);
    if a == c {
      LessOrEqualAntisymmetric(a, b);
    }
  }

  /** `>=` and `>` are `<=` and `<` with the operands swapped. */
  lemma GreaterIsConverse(a: Matrix33, b: Matrix33)
    ensures GreaterOrEqual(a, b) <==> LessOrEqual(b, a)
    ensures Greater(a, b) <==> Less(b, a)
  {
  }

  /** The order is not total: some pairs are incomparable both ways. */
  lemma NotTotal()
    ensures exists a: Matrix33, b: Matrix33 :: !LessOrEqual(a, b) && !LessOrEqual(b, a)
  {
    var a: Matrix33 := [[1.0, 0.0, 0.0], [0.0, 0.0, 0.0], [0.0, 0.0, 0.0]];
    var b: Matrix33 := [[0.0, 1.0, 0.0], [0.0, 0.0, 0.0], [0.0, 0.0, 0.0]];
    assert a[0][0] > b[0][0];
    assert !LessOrEqual(a, b);
    assert b[0][1] > a[0][1];
    assert !LessOrEqual(b, a);
  }
}
