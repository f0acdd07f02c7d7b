# PyImath Matrix33 bindings: a verified model of the wrapper logic

PyImath exposes Imath's 3x3 matrix (`M33f` for float, `M33d` for double) to
Python. Most of `PyImath/PyImathMatrix33.cpp` forwards straight to Imath,
but some wrappers contain their own logic. This project models that logic
and proves what it does:

- the component-wise comparisons `__lt__`, `__le__`, `__gt__` and `__ge__`
  (`lessThan33` and the other three). Each is a nested loop that exits early,
  and the strict forms end with an inequality test. Together they form a
  partial order (`Matrix33Ordering`);
- scalar broadcast `m + a`, `a + m`, `m - a` and `a - m`
  (`add33T`, `subtractTL33`, `subtractTR33`). Each copies the matrix and
  updates all nine entries of the copy in a double loop (`Matrix33Arithmetic`);
- the copy from a matrix of the other precision, and the constructor from
  three row tuples (`Matrix33Arithmetic`);
- `__str__`, which writes `M33f((a, b, c), (d, e, f), (g, h, i))` to a
  stream piece by piece (`Matrix33Text`);
- the tuple and scalar overloads of scale/setScale/shear/setShear/translate/
  setTranslation, the extraction wrappers that pack a 2D shear or rotation
  angle into a `Vec2` as `(value, 0)`, and the batch `multDirMatrix` and
  `multVecMatrix` over an array of `Vec2` (`Matrix33Arguments`).

Scalars are exact `real`s. The float and double instantiations differ only
in rounding, which is not modelled, and in the type name. A matrix is a
3x3 `seq<seq<real>>` value, because Imath's `Matrix33<T>` is a value type.
The wrappers' in-place loops over their local copy become reassignments of
a local value. Imath's own routines and the stream's conversion of one
number to text are not part of this model. They are the fields of a
`Library` record that the wrappers receive as a parameter, so every result
is proved for any behaviour of those routines.

Behaviour kept as written:
- `setShear33Tuple` raises "m.shear needs tuple of length 2" and
  `setTranslation33Tuple` raises "m.translate needs tuple of length 2", the
  same texts as `shear33Tuple` and `translate33Tuple`.
- `extractAndRemoveScalingAndShear33` and `extractScalingAndShear33` are
  `void` (PyImath/PyImathMatrix33.cpp:279, 331), so Imath's success flag is
  dropped. The commented-out docstring at PyImath/PyImathMatrix33.cpp:957
  says the extraction returns 1 or 0; the code does not, and the model
  follows the code. Only `extractSHRT33` passes the flag on, as 1 or 0.
- The extraction wrappers take `exc` as an `int` and pass it to Imath's
  `bool` parameter, so every nonzero value acts as the default `exc = 1`.

## Model

| member | source | states |
|---|---|---|
| Matrix33Core.Matrix33Name | PyImath/PyImathMatrix33.cpp:86-88 | the Python type name is "M33f" for float and "M33d" for double |
| Matrix33Core.Identity | PyImath/PyImathMatrix33.cpp:862 | the default-constructed matrix has 1 on the diagonal and 0 elsewhere |
| Matrix33Core.EntrywiseEqual | PyImath/PyImathMatrix33.cpp:752 | matrix equality is exact equality of all nine entries |
| Matrix33Core.Broadcast | PyImath/PyImathMatrix33.cpp:845-847 | entry (i, j) of the result is f applied to entry (i, j) of the input |
| Matrix33Core.BroadcastIdentity | PyImath/PyImathMatrix33.cpp:840-850 | copying entry by entry with no conversion gives back the same matrix |
| Matrix33Core.BroadcastCompose | PyImath/PyImathMatrix33.cpp:840-850 | converting entry by entry twice is the same as converting once with the composed conversion |
| Matrix33Ordering.LessThan33 | PyImath/PyImathMatrix33.cpp:740-753 | returns true iff every entry of mat1 is <= the matching entry of mat2 and the matrices differ; returns false at the first entry that is greater |
| Matrix33Ordering.LessThanEqual33 | PyImath/PyImathMatrix33.cpp:755-768 | returns true iff every entry of mat1 is <= the matching entry of mat2 |
| Matrix33Ordering.GreaterThan33 | PyImath/PyImathMatrix33.cpp:770-784 | returns true iff no entry of mat1 is < the matching entry of mat2 and the matrices differ |
| Matrix33Ordering.GreaterThanEqual33 | PyImath/PyImathMatrix33.cpp:786-799 | returns true iff no entry of mat1 is < the matching entry of mat2 |
| Matrix33Ordering.LessOrEqualWitness | PyImath/PyImathMatrix33.cpp:758-765 | `<=` fails exactly when some single entry of the left matrix is greater than the matching entry of the right |
| Matrix33Ordering.LessOrEqualReflexive | PyImath/PyImathMatrix33.cpp:755-768 | every matrix is <= itself |
| Matrix33Ordering.LessOrEqualTransitive | PyImath/PyImathMatrix33.cpp:755-768 | a <= b and b <= c imply a <= c |
| Matrix33Ordering.LessOrEqualAntisymmetric | PyImath/PyImathMatrix33.cpp:755-768 | a <= b and b <= a imply a == b, so `<=` is a partial order |
| Matrix33Ordering.LessIrreflexive | PyImath/PyImathMatrix33.cpp:740-753 | no matrix is < itself |
| Matrix33Ordering.LessAsymmetric | PyImath/PyImathMatrix33.cpp:740-768 | a < b rules out both b < a and b <= a |
| Matrix33Ordering.LessTransitive | PyImath/PyImathMatrix33.cpp:740-768 | a < b and b < c imply a < c |
| Matrix33Ordering.GreaterIsConverse | PyImath/PyImathMatrix33.cpp:740-799 | a >= b iff b <= a, and a > b iff b < a |
| Matrix33Ordering.NotTotal | PyImath/PyImathMatrix33.cpp:755-768 | some pairs of matrices are incomparable in both directions, so the order is not total |
| Matrix33Arithmetic.AddScalar | PyImath/PyImathMatrix33.cpp:697-708 | each entry of m + a, minus a, is the entry of m |
| Matrix33Arithmetic.SubtractScalar | PyImath/PyImathMatrix33.cpp:670-681 | each entry of m - a, plus a, is the entry of m |
| Matrix33Arithmetic.SubtractFromScalar | PyImath/PyImathMatrix33.cpp:683-694 | each entry of a - m, plus the entry of m, is a |
| Matrix33Arithmetic.Negated | PyImath/PyImathMatrix33.cpp:683-694 | each entry of the negation, plus the entry of m, is 0 |
| Matrix33Arithmetic.Add33T | PyImath/PyImathMatrix33.cpp:697-708 | the double loop over a copy of mat produces mat + a entrywise; mat itself is a value and stays unchanged |
| Matrix33Arithmetic.SubtractTL33 | PyImath/PyImathMatrix33.cpp:670-681 | the double loop over a copy of mat produces mat - a entrywise |
| Matrix33Arithmetic.SubtractTR33 | PyImath/PyImathMatrix33.cpp:683-694 | the double loop over a copy of mat produces a - mat entrywise |
| Matrix33Arithmetic.SubtractFromIsNegatedSubtract | PyImath/PyImathMatrix33.cpp:670-694 | with exact arithmetic, a - m is the entrywise negation of m - a |
| Matrix33Arithmetic.AddSubtractRoundTrip | PyImath/PyImathMatrix33.cpp:670-708 | (m + a) - a == m and (m - a) + a == m |
| Matrix33Arithmetic.SubtractFromInvolutive | PyImath/PyImathMatrix33.cpp:683-694 | a - (a - m) == m |
| Matrix33Arithmetic.Matrix3MatrixConstructor | PyImath/PyImathMatrix33.cpp:840-850 | starting from the identity, the loop overwrites all nine entries, so entry (i, j) of the result is the converted entry (i, j) of the source |
| Matrix33Arithmetic.ConvertRoundTrip | PyImath/PyImathMatrix33.cpp:840-850 | widening to the other precision and narrowing back gives the original matrix whenever narrowing undoes widening on each scalar |
| Matrix33Arithmetic.Matrix3TupleConstructor | PyImath/PyImathMatrix33.cpp:826-838 | succeeds iff all three tuples have length exactly 3, with tuple k as row k; otherwise raises LogicExc "Matrix33 takes 3 tuples of length 3" |
| Matrix33Arithmetic.TupleConstructorRoundTrip | PyImath/PyImathMatrix33.cpp:826-838 | building from a matrix's own three rows gives back that matrix |
| Matrix33Text.StreamComplete | PyImath/PyImathMatrix33.cpp:92-105 | the pieces the loops append add up to the name, "(", the three rows "(x0, x1, x2)" joined by ", ", then ")" |
| Matrix33Text.Matrix33Str | PyImath/PyImathMatrix33.cpp:89-107 | the stream's contents equal that closed form: entries in row-major order, ", " after every column but the last and every row but the last |
| Matrix33Text.IdentityText | PyImath/PyImathMatrix33.cpp:89-107 | the M33f identity prints as M33f((1, 0, 0), (0, 1, 0), (0, 0, 1)) when 1 and 0 are written as "1" and "0" |
| Matrix33Arguments.TupleSetter | PyImath/PyImathMatrix33.cpp:458-668 | each tuple overload succeeds iff the tuple has length exactly 2, and then applies its Imath routine to the Vec2 whose tuple it is; otherwise raises LogicExc with that overload's message |
| Matrix33Arguments.TupleAgreesWithVec2 | PyImath/PyImathMatrix33.cpp:450-634 | each tuple overload given (v.x, v.y) gives the same result as the Vec2 overload given v |
| Matrix33Arguments.TupleOfInjective | PyImath/PyImathMatrix33.cpp:464-467 | different Vec2 values have different tuples, so an accepted tuple determines one Vec2 |
| Matrix33Arguments.ScalarArgument | PyImath/PyImathMatrix33.cpp:441-609 | the scalar scale overloads build (s, s), and the scalar shear overloads build (h, 0) |
| Matrix33Arguments.ScalarSetter | PyImath/PyImathMatrix33.cpp:441-609 | scaleSc33 and setScaleSc33 give what the tuple overload gives for (s, s); shearSc33 and setShearSc33 give what it gives for (h, 0); none of them can fail |
| Matrix33Arguments.PackScalarInverse | PyImath/PyImathMatrix33.cpp:286 | different scalars pack to different Vec2s, and a Vec2 is a packed scalar (read back from x) exactly when its y is 0 |
| Matrix33Arguments.ExtractEuler | PyImath/PyImathMatrix33.cpp:289-297 | the rotation angle comes back as (angle, 0) |
| Matrix33Arguments.ExtractScalingAndShear33 | PyImath/PyImathMatrix33.cpp:330-339 | an Imath exception passes through unchanged; otherwise the scale is returned as Imath reports it and the shear as (shear, 0) |
| Matrix33Arguments.ExtractAndRemoveScalingAndShear33 | PyImath/PyImathMatrix33.cpp:278-287 | the same, plus the matrix that Imath has stripped of scale and shear |
| Matrix33Arguments.NonzeroExcIsDefault | PyImath/PyImathMatrix33.cpp:280-336 | every nonzero int `exc` gives the same outcome as `exc = 1` in all three extraction wrappers |
| Matrix33Arguments.ExtractSHRT33 | PyImath/PyImathMatrix33.cpp:299-312 | an Imath exception passes through; otherwise the status is 1 iff Imath succeeded and 0 otherwise, s and t are returned as reported, and shear and rotation come back as (h, 0) and (r, 0) |
| Matrix33Arguments.MultAll | PyImath/PyImathMatrix33.cpp:359-397 | the batch result has the input's length, and element i is the single-vector transform of element i |
| Matrix33Arguments.MultAllAppend | PyImath/PyImathMatrix33.cpp:359-397 | transforming a concatenation is concatenating the transforms, so order is kept and each element is treated on its own |
| Matrix33Arguments.MultDirMatrix33Array | PyImath/PyImathMatrix33.cpp:359-368 | the result is a new array whose contents are the direction transform of src, element by element |
| Matrix33Arguments.MultVecMatrix33Array | PyImath/PyImathMatrix33.cpp:388-397 | the result is a new array whose contents are the point transform of src, element by element |

## Left out

- Inversion (`invert`, `inverse`, `gjInvert`, `gjInverse`), determinant and minors, `outerProduct`, `jacobiSVD` and `symmetricEigensolve`: the wrappers only call Imath, and Imath's code is not part of this model.
- `extractScaling33`, `removeScaling33`, `removeScalingAndShear33`, `sansScaling33`, `sansScalingAndShear33`, `rotate33` and `setRotation33`: these forward to Imath without any logic of their own.
- Matrix-matrix `+`, `-` and `*`, the in-place `+=`, `-=`, `*=` and `/=`, scalar `*` and `/`, `negate` and the `setValue` conversions: Imath operators that the wrappers only convert and delegate to.
- The single-vector `multDirMatrix33`, `multVecMatrix33` and their `_return_value` forms: these are the library functions `multDirMatrix` and `multVecMatrix` themselves.
- `setTranslation33Obj` and `translate33`: they depend on PyImath's conversion of an arbitrary Python object to a V2, which is not part of this model.
- `Matrix33_repr`: its `%.9g`/`%.17g` formatting is float-to-decimal conversion done by boost::format.
- The debug print to `std::cout` inside `greaterThan33`: an I/O side effect that does not affect the result.
- Elements of a tuple that Python cannot convert to a number: tuples are modelled as sequences of reals, so the conversion of each element cannot fail.
- Floating-point rounding, NaN, and `MATH_EXC_ON` exception trapping: scalars are exact reals. Converting between float and double is the `convert` parameter.
- In-place update and chaining: the setter overloads change the Python matrix through a reference and return that same reference. The model returns the new matrix value instead, so aliasing is not captured.
- Out-parameters of the extraction wrappers: `extractAndRemoveScalingAndShear33`, `extractEuler`, `extractSHRT33` and `extractScalingAndShear33` write their results into Vec2 objects the caller passes in, and `extractAndRemoveScalingAndShear33` also strips `mat` in place. The model returns these as values. When Imath throws, whatever it had already written into `dstScl`, `s` or `t` stays in the caller's objects; the model's `Err` carries none of it.
- The Python default `exc = 1` (PyImath/PyImathMatrix33.cpp:949, 975, 998) is binding sugar: the model's functions always take `exc` explicitly.
- Heap allocation by the constructors and by FixedArray: constructors return a value. The batch maps allocate a fresh array, but FixedArray masks and index translation are not modelled.
- pybind11 registration, `MatrixRow`, `__len__`, `__getitem__`, `__setitem__`, and `setM33ArrayItem` with `canonical_index`: Python object plumbing over library code that is not part of this model.
- Uninitialised outputs in `extractSHRT33`, `extractScalingAndShear33` and `extractAndRemoveScalingAndShear33`: if Imath returns early without writing the shear or the rotation, the C++ packs uninitialised locals (`hTmp`, `rTmp`, `dstShrTmp`). The model packs whatever value the library reports. The last two drop Imath's flag, so with `exc = 0` a caller cannot tell that this happened.
