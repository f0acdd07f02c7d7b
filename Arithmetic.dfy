/**
 * The wrappers of PyImathMatrix33.cpp that build a new matrix themselves
 * instead of delegating to Imath: scalar broadcast (`m + a`, `a + m`,
 * `m - a`, `a - m`), the copy from a matrix of the other precision, and the
 * constructor from three row tuples.
 */
module Matrix33Arithmetic {
  import opened Matrix33Core

  /** Entrywise m[i][j] + a. */
  function AddScalar(m: Matrix33, a: real): (r: Matrix33)
    ensures forall i, j | 0 <= i < 3 && 0 <= j < 3 :: r[i][j] - a == m[i][j]
  {
    Broadcast(m, x => x + a)
  }

  /** Entrywise m[i][j] - a. */
  function SubtractScalar(m: Matrix33, a: real): (r: Matrix33)
    ensures forall i, j | 0 <= i < 3 && 0 <= j < 3 :: r[i][j] + a == m[i][j]
  {
    Broadcast(m, x => x - a)
  }

  /** Entrywise a - m[i][j]. */
  function SubtractFromScalar(a: real, m: Matrix33): (r: Matrix33)
    ensures forall i, j | 0 <= i < 3 && 0 <= j < 3 :: r[i][j] + m[i][j] == a
  {
    Broadcast(m, x => a - x)
  }

  /** Entrywise negation, the value of `-m`. */
  function Negated(m: Matrix33): (r: Matrix33)
    ensures forall i, j | 0 <= i < 3 && 0 <= j < 3 :: r[i][j] + m[i][j] == 0.0
  {
    Broadcast(m, x => -x)
  }

  /** add33T, registered as both `__add__` and `__radd__` with a scalar:
      copies `mat` and adds `a` to each entry of the copy in a double loop. */
  method Add33T(mat: Matrix33, a: real) returns (m: Matrix33)
    ensures m == AddScalar(mat, a)
  {
    m := mat;
    for i := 0 to 3
      invariant forall i', j | 0 <= i' < i && 0 <= j < 3 :: m[i'][j] == mat[i'][j] + a
      invariant forall i', j | i <= i' < 3 && 0 <= j < 3 :: m[i'][j] == mat[i'][j]
    {
      for j := 0 to 3
        invariant forall i', j' | 0 <= i' < i && 0 <= j' < 3 :: m[i'][j'] == mat[i'][j'] + a
        invariant forall i', j' | i < i' < 3 && 0 <= j' < 3 :: m[i'][j'] == mat[i'][j']
        invariant forall j' | 0 <= j' < j :: m[i][j'] == mat[i][j'] + a
        invariant forall j' | j <= j' < 3 :: m[i][j'] == mat[i][j']
      {
        m := m[i := m[i][j := m[i][j] + a]];
      }
    }
    EntrywiseEqual(m, AddScalar(mat, a));
  }

  /** subtractTL33, registered as `__sub__` with a scalar on the right. */
  method SubtractTL33(mat: Matrix33, a: real) returns (m: Matrix33)
    ensures m == SubtractScalar(mat, a)
  {
    m := mat;
    for i := 0 to 3
      invariant forall i', j | 0 <= i' < i && 0 <= j < 3 :: m[i'][j] == mat[i'][j] - a
      invariant forall i', j | i <= i' < 3 && 0 <= j < 3 :: m[i'][j] == mat[i'][j]
    {
      for j := 0 to 3
        invariant forall i', j' | 0 <= i' < i && 0 <= j' < 3 :: m[i'][j'] == mat[i'][j'] - a
        invariant forall i', j' | i < i' < 3 && 0 <= j' < 3 :: m[i'][j'] == mat[i'][j']
        invariant forall j' | 0 <= j' < j :: m[i][j'] == mat[i][j'] - a
        invariant forall j' | j <= j' < 3 :: m[i][j'] == mat[i][j']
      {
        m := m[i := m[i][j := m[i][j] - a]];
      }
    }
    EntrywiseEqual(m, SubtractScalar(mat, a));
  }

  /** subtractTR33, registered as `__rsub__`: the value of `a - mat`. */
  method SubtractTR33(mat: Matrix33, a: real) returns (m: Matrix33)
    ensures m == SubtractFromScalar(a, mat)
  {
    m := mat;
    for i := 0 to 3
      invariant forall i', j | 0 <= i' < i && 0 <= j < 3 :: m[i'][j] == a - mat[i'][j]
      invariant forall i', j | i <= i' < 3 && 0 <= j < 3 :: m[i'][j] == mat[i'][j]
    {
      for j := 0 to 3
        invariant forall i', j' | 0 <= i' < i && 0 <= j' < 3 :: m[i'][j'] == a - mat[i'][j']
        invariant forall i', j' | i < i' < 3 && 0 <= j' < 3 :: m[i'][j'] == mat[i'][j']
        invariant forall j' | 0 <= j' < j :: m[i][j'] == a - mat[i][j']
        invariant forall j' | j <= j' < 3 :: m[i][j'] == mat[i][j']
      {
        m := m[i := m[i][j := a - m[i][j]]];
      }
    }
    EntrywiseEqual(m, SubtractFromScalar(a, mat));
  }

  /** Over exact arithmetic `a - m` is the negation of `m - a`. */
  lemma SubtractFromIsNegatedSubtract(m: Matrix33, a: real)
    ensures SubtractFromScalar(a, m) == Negated(SubtractScalar(m, a))
  {
    EntrywiseEqual(SubtractFromScalar(a, m), Negated(SubtractScalar(m, a)));
  }

  /** `(m + a) - a` gives back `m`, and so does `(m - a) + a`. */
  lemma AddSubtractRoundTrip(m: Matrix33, a: real)
    ensures SubtractScalar(AddScalar(m, a), a) == m
    ensures AddScalar(SubtractScalar(m, a), a) == m
  {
    EntrywiseEqual(SubtractScalar(AddScalar(m, a), a), m);
    EntrywiseEqual(AddScalar(SubtractScalar(m, a), a), m);
  }

  /** `a - (a - m)` gives back `m`. */
  lemma SubtractFromInvolutive(m: Matrix33, a: real)
    ensures SubtractFromScalar(a, SubtractFromScalar(a, m)) == m
  {
    EntrywiseEqual(SubtractFromScalar(a, SubtractFromScalar(a, m)), m);
  }

  /**
   * Matrix3_matrix_constructor<T, S>: a new matrix (default-constructed, so
   * the identity) whose entries are then overwritten one by one with the
   * source entries converted to the target precision by `convert`.
   */
  method Matrix3MatrixConstructor(mat: Matrix33, convert: real -> real) returns (m: Matrix33)
    ensures m == Broadcast(mat, convert)
  {
    m := Identity();
    for i := 0 to 3
      invariant forall i', j | 0 <= i' < i && 0 <= j < 3 :: m[i'][j] == convert(mat[i'][j])
    {
      for j := 0 to 3
        invariant forall i', j' | 0 <= i' < i && 0 <= j' < 3 :: m[i'][j'] == convert(mat[i'][j'])
        invariant forall j' | 0 <= j' < j :: m[i][j'] == convert(mat[i][j'])
      {
        m := m[i := m[i][j := convert(mat[i][j])]];
      }
    }
    EntrywiseEqual(m, Broadcast(mat, convert));
  }

  /** Copying to a wider precision and back, when the narrowing undoes the
      widening entry by entry, gives back the original matrix. */
  lemma ConvertRoundTrip(m: Matrix33, widen: real -> real, narrow: real -> real)
    requires forall x :: narrow(widen(x)) == x
    ensures Broadcast(Broadcast(m, widen), narrow) == m
  {
    BroadcastCompose(m, widen, narrow);
    EntrywiseEqual(Broadcast(m, x => narrow(widen(x))), m);
  }

  /** The message of the LogicExc raised by the tuple constructor. */
  const TupleConstructorMessage := "Matrix33 takes 3 tuples of length 3"

  /**
   * Matrix3_tuple_constructor: three Python tuples are the three rows; all
   * three must have length exactly 3, otherwise a LogicExc is raised.
   */
  function Matrix3TupleConstructor(t0: seq<real>, t1: seq<real>, t2: seq<real>): (r: Result<Matrix33>)
    ensures r.Ok? <==> |t0| == 3 && |t1| == 3 && |t2| == 3
    ensures r.Ok? ==> forall j | 0 <= j < 3 ::
      r.value[0][j] == t0[j] && r.value[1][j] == t1[j] && r.value[2][j] == t2[j]
    ensures r.Err? ==> r.error == LogicExc(TupleConstructorMessage)
  {
    if |t0| == 3 && |t1| == 3 && |t2| == 3 then
      var m: Matrix33 := [[t0[0], t0[1], t0[2]], [t1[0], t1[1], t1[2]], [t2[0], t2[1], t2[2]]];
      Ok(m)
    else
      Err(LogicExc(TupleConstructorMessage))
  }

  /** Constructing from a matrix's own rows gives back that matrix. */
  lemma {:induction false} TupleConstructorRoundTrip(m: Matrix33)
    ensures Matrix3TupleConstructor(m[0], m[1], m[2]) == Ok(m)
  {
    EntrywiseEqual(Matrix3TupleConstructor(m[0], m[1], m[2]).value, m);
  }
}
