/**
 * The value types shared by the model of the PyImath 3x3 matrix bindings:
 * the matrix itself, the 2-vector the wrappers pack results into, the
 * error values the wrappers raise, and the Imath library routines the
 * wrappers delegate to (passed in as opaque functions).
 *
 * Scalars are exact reals: the float/double instantiations of the source
 * differ only in rounding, which is not modelled, and in the type name.
 */
module Matrix33Core {

  /** A 3x3 matrix indexed m[row][col], row-major like Imath's `T x[3][3]`. */
  type Matrix33 = x: seq<seq<real>> | |x| == 3 && forall i | 0 <= i < 3 :: |x[i]| == 3
    witness [[1.0, 0.0, 0.0], [0.0, 1.0, 0.0], [0.0, 0.0, 1.0]]

  /** Imath's Vec2<T>. */
  datatype Vec2 = Vec2(x: real, y: real)

  /** The scalar instantiation, which only decides the Python type name. */
  datatype Precision = Float | Double

  /** The exceptions the wrappers raise: Iex's LogicExc with its message, or
      whatever the delegated Imath routine raised. */
  datatype Error = LogicExc(message: string) | LibraryExc

  datatype Result<T> = Ok(value: T) | Err(error: Error)

  /** The Python-visible type name of the instantiation. */
  function Matrix33Name(p: Precision): (name: string)
    ensures |name| == 4 && name[..3] == "M33"
    ensures name[3] == (if p == Float then 'f' else 'd')
  {
    match p
    case Float => "M33f"
    case Double => "M33d"
  }

  /** Entry (i, j) of the 3x3 identity. */
  function IdentityEntry(i: nat, j: nat): real
  {
    if i == j then 1.0 else 0.0
  }

  /** The default-constructed Matrix33: the identity. */
  function Identity(): (r: Matrix33)
    ensures forall i, j | 0 <= i < 3 && 0 <= j < 3 :: r[i][j] == IdentityEntry(i, j)
  {
    [[1.0, 0.0, 0.0], [0.0, 1.0, 0.0], [0.0, 0.0, 1.0]]
  }

  /** Two matrices are equal exactly when all nine entries are. */
  lemma {:induction false} EntrywiseEqual(a: Matrix33, b: Matrix33)
    requires forall i, j | 0 <= i < 3 && 0 <= j < 3 :: a[i][j] == b[i][j]
    ensures a == b
  {
    forall i | 0 <= i < 3
      ensures a[i] == b[i]
    {
      assert |a[i]| == |b[i]| == 3;
    }
  }

  /** The matrix whose every entry is `f` of the entry at the same place. */
  function Broadcast(m: Matrix33, f: real -> real): (r: Matrix33)
    ensures forall i, j | 0 <= i < 3 && 0 <= j < 3 :: r[i][j] == f(m[i][j])
  {
    seq(3, i requires 0 <= i < 3 => seq(3, j requires 0 <= j < 3 => f(m[i][j])))
  }

  /** Broadcasting the identity function copies the matrix. */
  lemma BroadcastIdentity(m: Matrix33)
    ensures Broadcast(m, x => x) == m
  {
    EntrywiseEqual(Broadcast(m, x => x), m);
  }

  /** Broadcasting twice is broadcasting the composition. */
  lemma BroadcastCompose(m: Matrix33, f: real -> real, g: real -> real)
    ensures Broadcast(Broadcast(m, f), g) == Broadcast(m, x => g(f(x)))
  {
    EntrywiseEqual(Broadcast(Broadcast(m, f), g), Broadcast(m, x => g(f(x))));
  }

  /**
   * The Imath routines the wrappers call, and the stream conversion of a
   * scalar to text. Their definitions live in the Imath headers, which are
   * not part of this model; the wrappers are modelled against any choice
   * of them.
   */
  datatype Library = Library(
    toText: real -> string,
    scale: (Matrix33, Vec2) -> Matrix33,
    setScale: (Matrix33, Vec2) -> Matrix33,
    shear: (Matrix33, Vec2) -> Matrix33,
    setShear: (Matrix33, Vec2) -> Matrix33,
    translate: (Matrix33, Vec2) -> Matrix33,
    setTranslation: (Matrix33, Vec2) -> Matrix33,
    multDirMatrix: (Matrix33, Vec2) -> Vec2,
    multVecMatrix: (Matrix33, Vec2) -> Vec2,
    extractEuler: Matrix33 -> real,
    extractScalingAndShear: (Matrix33, bool) -> Result<ScaleShear>,
    extractAndRemoveScalingAndShear: (Matrix33, bool) -> Result<(Matrix33, ScaleShear)>,
    extractSHRT: (Matrix33, bool) -> Result<Shrt>)

  /** What Imath's extractScalingAndShear reports: its success flag, the
      scale, and the single 2D shear factor. */
  datatype ScaleShear = ScaleShear(ok: bool, scl: Vec2, shr: real)

  /** What Imath's extractSHRT reports: its success flag, scale, the single
      shear factor, the single rotation angle and the translation. */
  datatype Shrt = Shrt(ok: bool, s: Vec2, h: real, r: real, t: Vec2)
}
