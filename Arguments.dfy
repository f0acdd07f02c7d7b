/**
 * The argument-shaping wrappers of PyImathMatrix33.cpp: the tuple and
 * scalar overloads of scale/setScale/shear/setShear/translate/
 * setTranslation, the wrappers that pack Imath's scalar 2D shear and
 * rotation into a Vec2, and the batch forms of multDirMatrix and
 * multVecMatrix over a fixed-length array of Vec2.
 */
module Matrix33Arguments {
  import opened Matrix33Core

  /** The six Imath transform builders that have a tuple overload. */
  datatype Transform2 = Scale | SetScale | Shear | SetShear | Translate | SetTranslation
  {
    /** Scale and shear also have a single-scalar overload; translation does not. */
    predicate HasScalarForm()
    {
      !(this == Translate || this == SetTranslation)
    }
  }

  /** The Imath routine each wrapper delegates to. */
  function Apply(lib: Library, k: Transform2): (Matrix33, Vec2) -> Matrix33
  {
    match k
    case Scale => lib.scale
    case SetScale => lib.setScale
    case Shear => lib.shear
    case SetShear => lib.setShear
    case Translate => lib.translate
    case SetTranslation => lib.setTranslation
  }

  /** The LogicExc message each tuple overload raises, as written: the
      setShear overload reuses shear's text and the setTranslation
      overload reuses translate's. */
  function TupleMessage(k: Transform2): string
  {
    match k
    case Scale => "m.scale needs tuple of length 2"
    case SetScale => "m.setScale needs tuple of length 2"
    case Shear => "m.shear needs tuple of length 2"
    case SetShear => "m.shear needs tuple of length 2"
    case Translate => "m.translate needs tuple of length 2"
    case SetTranslation => "m.translate needs tuple of length 2"
  }

  /** The Python tuple (x, y) a Vec2 is written as. */
  function TupleOf(v: Vec2): (t: seq<real>)
  {
    [v.x, v.y]
  }

  /**
   * scale33Tuple, setScale33Tuple, shear33Tuple, setShear33Tuple,
   * translate33Tuple and setTranslation33Tuple: a tuple of length exactly 2
   * becomes the Vec2 (t[0], t[1]) handed to the Imath routine; any other
   * length raises LogicExc with the overload's message.
   */
  function TupleSetter(lib: Library, k: Transform2, mat: Matrix33, t: seq<real>): (r: Result<Matrix33>)
    ensures r.Ok? <==> |t| == 2
    ensures r.Ok? ==> exists v: Vec2 :: TupleOf(v) == t && r.value == Apply(lib, k)(mat, v)
    ensures r.Err? ==> r.error == LogicExc(TupleMessage(k))
  {
    if |t| == 2 then
      var v := Vec2(t[0], t[1]);
      assert TupleOf(v) == t;
      Ok(Apply(lib, k)(mat, v))
    else
      Err(LogicExc(TupleMessage(k)))
  }

  /** The tuple overload agrees with calling the Imath routine on the Vec2
      whose tuple it is. For scale, setScale, shear, setShear and
      setTranslation that call is the Vec2 overload (scaleV33, setScaleV33,
      shearV33, setShearV33, setTranslation33); translate has no Vec2
      overload. */
  lemma TupleAgreesWithVec2(lib: Library, k: Transform2, mat: Matrix33, v: Vec2)
    ensures TupleSetter(lib, k, mat, TupleOf(v)) == Ok(Apply(lib, k)(mat, v))
  {
  }

  /** Every tuple the setters accept is the tuple of exactly one Vec2. */
  lemma TupleOfInjective(v: Vec2, w: Vec2)
    ensures TupleOf(v) == TupleOf(w) <==> v == w
  {
  }

  /** The Vec2 a scalar overload builds: (s, s) for scaleSc33 and
      setScaleSc33, (h, 0) for shearSc33 and setShearSc33. */
  function ScalarArgument(k: Transform2, s: real): (v: Vec2)
    requires k.HasScalarForm()
    ensures k == Scale || k == SetScale ==> v.x == s && v.y == s
    ensures k == Shear || k == SetShear ==> v.x == s && v.y == 0.0
  {
    if k == Scale || k == SetScale then Vec2(s, s) else Vec2(s, 0.0)
  }

  /** scaleSc33, setScaleSc33, shearSc33 and setShearSc33: a scalar overload
      never fails, and gives what the tuple overload gives for (s, s) when
      scaling and for (s, 0) when shearing. */
  function ScalarSetter(lib: Library, k: Transform2, mat: Matrix33, s: real): (r: Matrix33)
    requires k.HasScalarForm()
    ensures k == Scale || k == SetScale ==> Ok(r) == TupleSetter(lib, k, mat, [s, s])
    ensures k == Shear || k == SetShear ==> Ok(r) == TupleSetter(lib, k, mat, [s, 0.0])
  {
    var v := ScalarArgument(k, s);
    TupleAgreesWithVec2(lib, k, mat, v);
    Apply(lib, k)(mat, v)
  }

  // ---- packing a single 2D shear or rotation into a Vec2 ----

  /** `dst.setValue(value, T (0))`: the scalar in x, zero in y. */
  function PackScalar(value: real): (v: Vec2)
  {
    Vec2(value, 0.0)
  }

  /** Packing loses nothing (different scalars pack differently, and x
      reads the scalar back), and a Vec2 is a packed scalar exactly when its
      y component is 0. */
  lemma PackScalarInverse(a: real, b: real, v: Vec2)
    ensures PackScalar(a) == PackScalar(b) <==> a == b
    ensures PackScalar(v.x) == v <==> v.y == 0.0
  {
  }

  /** extractEuler: the single 2D rotation angle, packed as (angle, 0). */
  function ExtractEuler(lib: Library, mat: Matrix33): (r: Vec2)
    ensures r.x == lib.extractEuler(mat) && r.y == 0.0
  {
    PackScalar(lib.extractEuler(mat))
  }

  // The wrappers take Python's `exc` as an int and pass it to Imath's bool
  // parameter, so any nonzero value asks Imath to throw on failure.

  /** The scale and the packed shear the extraction wrappers hand back. */
  datatype ScaleAndShear = ScaleAndShear(scl: Vec2, shr: Vec2)

  /** extractScalingAndShear33: an exception from Imath passes through;
      otherwise the scale as Imath reports it and the shear packed as
      (shear, 0). Imath's success flag is dropped (the wrapper is void). */
  function ExtractScalingAndShear33(lib: Library, mat: Matrix33, exc: int): (r: Result<ScaleAndShear>)
    ensures r.Ok? <==> lib.extractScalingAndShear(mat, exc != 0).Ok?
    ensures r.Err? ==> r.error == lib.extractScalingAndShear(mat, exc != 0).error
    ensures r.Ok? ==> var out := lib.extractScalingAndShear(mat, exc != 0).value;
      r.value.scl == out.scl && r.value.shr.x == out.shr && r.value.shr.y == 0.0
  {
    match lib.extractScalingAndShear(mat, exc != 0)
    case Err(e) => Err(e)
    case Ok(out) => Ok(ScaleAndShear(out.scl, PackScalar(out.shr)))
  }

  /** extractAndRemoveScalingAndShear33: as above, and the matrix left with
      scale and shear removed as Imath leaves it. */
  function ExtractAndRemoveScalingAndShear33(lib: Library, mat: Matrix33, exc: int)
    : (r: Result<(Matrix33, ScaleAndShear)>)
    ensures r.Ok? <==> lib.extractAndRemoveScalingAndShear(mat, exc != 0).Ok?
    ensures r.Err? ==> r.error == lib.extractAndRemoveScalingAndShear(mat, exc != 0).error
    ensures r.Ok? ==> var (m, out) := lib.extractAndRemoveScalingAndShear(mat, exc != 0).value;
      r.value.0 == m && r.value.1.scl == out.scl && r.value.1.shr.x == out.shr && r.value.1.shr.y == 0.0
  {
    match lib.extractAndRemoveScalingAndShear(mat, exc != 0)
    case Err(e) => Err(e)
    case Ok((m, out)) => Ok((m, ScaleAndShear(out.scl, PackScalar(out.shr))))
  }

  /** The outputs of extractSHRT33: its int status, and s, h, r, t. */
  datatype ShrtOutputs = ShrtOutputs(status: int, s: Vec2, h: Vec2, r: Vec2, t: Vec2)

  /** extractSHRT33: an exception from Imath passes through; otherwise Imath's
      status as 1 or 0, scale and translation as reported, and the single
      shear and rotation angle each packed as (value, 0). */
  function ExtractSHRT33(lib: Library, mat: Matrix33, exc: int): (res: Result<ShrtOutputs>)
    ensures res.Ok? <==> lib.extractSHRT(mat, exc != 0).Ok?
    ensures res.Err? ==> res.error == lib.extractSHRT(mat, exc != 0).error
    ensures res.Ok? ==> var out := lib.extractSHRT(mat, exc != 0).value;
      && (res.value.status == 1 <==> out.ok) && (res.value.status == 0 <==> !out.ok)
      && res.value.s == out.s && res.value.t == out.t
      && res.value.h.x == out.h && res.value.h.y == 0.0
      && res.value.r.x == out.r && res.value.r.y == 0.0
  {
    match lib.extractSHRT(mat, exc != 0)
    case Err(e) => Err(e)
    case Ok(out) =>
      Ok(ShrtOutputs(if out.ok then 1 else 0, out.s, PackScalar(out.h), PackScalar(out.r), out.t))
  }

  /** Any nonzero `exc` behaves as the binding's default `exc = 1`. */
  lemma NonzeroExcIsDefault(lib: Library, mat: Matrix33, exc: int)
    ensures exc != 0 ==> ExtractScalingAndShear33(lib, mat, exc) == ExtractScalingAndShear33(lib, mat, 1)
    ensures exc != 0 ==> ExtractAndRemoveScalingAndShear33(lib, mat, exc) == ExtractAndRemoveScalingAndShear33(lib, mat, 1)
    ensures exc != 0 ==> ExtractSHRT33(lib, mat, exc) == ExtractSHRT33(lib, mat, 1)
  {
  }

  // ---- batch transforms ----

  /** The batch transform as a value: element i is `mult(mat, src[i])`. */
  function MultAll(mult: (Matrix33, Vec2) -> Vec2, mat: Matrix33, src: seq<Vec2>): (r: seq<Vec2>)
    ensures |r| == |src|
    ensures forall i | 0 <= i < |src| :: r[i] == mult(mat, src[i])
  {
    seq(|src|, i requires 0 <= i < |src| => mult(mat, src[i]))
  }

  /** Transforming a split batch is transforming each part: the batch keeps
      the input's order and treats each element on its own. */
  lemma MultAllAppend(mult: (Matrix33, Vec2) -> Vec2, mat: Matrix33, a: seq<Vec2>, b: seq<Vec2>)
    ensures MultAll(mult, mat, a + b) == MultAll(mult, mat, a) + MultAll(mult, mat, b)
  {
  }

  /** multDirMatrix33_array: a new array of src's length, element i written
      with the direction transform of src[i]. */
  method MultDirMatrix33Array(lib: Library, mat: Matrix33, src: array<Vec2>) returns (dst: array<Vec2>)
    ensures fresh(dst)
    ensures dst[..] == MultAll(lib.multDirMatrix, mat, src[..])
  {
    var len := src.Length;
    dst := new Vec2[len];
    for i := 0 to len
      invariant forall k | 0 <= k < i :: dst[k] == lib.multDirMatrix(mat, src[k])
    {
      dst[i] := lib.multDirMatrix(mat, src[i]);
    }
  }

  /** multVecMatrix33_array: a new array of src's length, element i written
      with the point transform of src[i]. */
  method MultVecMatrix33Array(lib: Library, mat: Matrix33, src: array<Vec2>) returns (dst: array<Vec2>)
    ensures fresh(dst)
    ensures dst[..] == MultAll(lib.multVecMatrix, mat, src[..])
  {
    var len := src.Length;
    dst := new Vec2[len];
    for i := 0 to len
      invariant forall k | 0 <= k < i :: dst[k] == lib.multVecMatrix(mat, src[k])
    {
      dst[i] := lib.multVecMatrix(mat, src[i]);
    }
  }
}
