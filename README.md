# Complex<T> in Dafny

A model of the header-only C++ class `Complex<T>` in `complex.h`. The class is a
complex number stored as two fields, `re` and `im`. It has a constructor from
the two parts, the accessors `real()` and `imag()`, the magnitude squared
`magsq()`, a copy constructor, assignment, unary negation, the compound
operators `+=`, `-=`, `*=`, `/=`, the binary `+`, `-`, `*`, `/` (each applies
the compound operator to a copy of the left operand), and `==`.

The element type `T` is taken to be exact real arithmetic (`real`).

The model has two modules:

- `ComplexAlgebra` (`complex_algebra.dfy`) works on values. It has
  `Value(re, im)` and the functions `MagSq`, `Neg`, `Add`, `Sub`, `Mul` and
  `Div`, which say what each operator is meant to compute. Its lemmas state the
  laws those results obey:
  - the magnitude squared is non-negative, zero only at the origin, and
    multiplicative;
  - `+` and `-` undo each other, and double negation is the identity;
  - `*` commutes and has unit (1, 0);
  - division undoes multiplication and the other way round.

  `MulAsWritten` and `DivAsWritten` replay the field assignments of `*=` and
  `/=` in the order the header writes them. Lemmas characterise exactly when
  that order still gives the right result, both when the operand is another
  object and when it is the receiver itself (`z *= z`, `z /= z`). Other lemmas
  exhibit inputs where the order gives a wrong result.
- `ComplexClass` (`complex.dfy`) is the class itself. Its fields are updated in
  place by the compound operators, which return the receiver. The binary
  operators and unary minus return fresh objects. Every method states its
  result or the object's new fields through `Value()` and the functions of
  `ComplexAlgebra`. Module-level lemmas and client methods state the
  properties that relate several calls: `z += w; z -= w` restores `z`,
  `-(-z) == z`, `(z * w) / w == z`, `z * w == w * z`, `z * 1 == z`,
  `z + w` equals `+=` applied to a copy, and after `z = w` then `z == w`.

`*=` and `/=` in the header overwrite `re` before the imaginary part's formula
reads it (see Findings). The class's `MulAssign` and `DivAssign` read all four
parts first, which is the evidently intended behaviour. The binary `*` and `/`
are built on these corrected versions. `MulAssignAsWritten` and
`DivAssignAsWritten` keep the header's order, and `TimesAsWritten` and
`OverAsWritten` build the binary operators on them, so the difference can be
stated. With the header's order the binary `*` neither commutes nor has
(1, 0) as a left unit.

## Model

| member | source | states |
|---|---|---|
| ComplexClass.Complex.constructor | complex.h:16-19 | the new object's real and imaginary parts are the two arguments |
| ComplexClass.ConstructAndRead | complex.h:16-19 | `real()` and `imag()` of a freshly constructed number return exactly the parts it was built from |
| ComplexClass.Complex.Real | complex.h:50-52 | returns the real part of the number held |
| ComplexClass.Complex.Imag | complex.h:54-56 | returns the imaginary part of the number held |
| ComplexClass.Complex.MagSq | complex.h:22-24 | the result is re² + im², is never negative, and is zero exactly when both parts are zero |
| ComplexAlgebra.MagSqNotNegative | complex.h:22-24 | the magnitude squared of every number is at least zero |
| ComplexAlgebra.MagSqPositive | complex.h:22-24 | every number other than 0 has a strictly positive magnitude squared |
| ComplexAlgebra.MagSqZeroIff | complex.h:22-24 | the magnitude squared is zero if and only if the number is 0 |
| ComplexAlgebra.MagSqMul | complex.h:22-24 | the magnitude squared of a product is the product of the magnitudes squared |
| ComplexClass.Complex.Copy | complex.h:64-67 | the copy holds the same parts as the original and compares equal to it with `==` |
| ComplexClass.Complex.Assign | complex.h:70-74 | this object takes both parts of `other`, returns itself, and then compares equal to `other` |
| ComplexClass.AssignThenCompare | complex.h:70-74 | after `z = w`, `z == w` is true |
| ComplexClass.Complex.Negate | complex.h:77-79 | returns a new object holding (−re, −im) |
| ComplexAlgebra.NegInvolutive | complex.h:77-79 | negating twice gives back the original number |
| ComplexAlgebra.NegIsSubFromZero | complex.h:77-79 | negation is subtraction from 0 |
| ComplexClass.NegateTwice | complex.h:77-79 | `-(-z)` compares equal to `z` |
| ComplexClass.Complex.AddAssign | complex.h:82-86 | this object becomes the sum of its old value and `other`'s old value, and is returned; also when `other` is this object |
| ComplexClass.Complex.SubAssign | complex.h:88-92 | this object becomes its old value minus `other`'s old value, and is returned |
| ComplexAlgebra.SubUndoesAdd | complex.h:82-92 | subtracting w after adding w gives back the original number |
| ComplexAlgebra.AddUndoesSub | complex.h:82-92 | adding w after subtracting w gives back the original number |
| ComplexAlgebra.AddZeroIdentity | complex.h:82-86 | adding 0 on either side changes nothing |
| ComplexAlgebra.AddCommutes | complex.h:82-86 | addition does not depend on operand order |
| ComplexClass.AddThenSubtract | complex.h:82-92 | `z += w; z -= w` on two distinct objects restores z's value |
| ComplexClass.AddThenSubtractSelf | complex.h:82-92 | `z += z; z -= z` on one object leaves 0, whatever z was |
| ComplexClass.Complex.MulAssign | complex.h:94-98 | this object becomes the complex product of both operands' old values, also for `z *= z`, and is returned |
| ComplexClass.Complex.MulAssignAsWritten | complex.h:94-98 | with the header's assignment order, the new value is `MulAsWritten` of the old values, including the aliased case |
| ComplexAlgebra.MulAsWrittenAgrees | complex.h:95-96 | when `other` is a different object, the header's order gives the product if and only if the operand has no imaginary part or the product's real part equals the receiver's old real part |
| ComplexAlgebra.MulAsWrittenSelfAgrees | complex.h:95-96 | for `z *= z`, the header's order gives the square if and only if z has no imaginary part or the square's real part equals z's real part |
| ComplexAlgebra.MulAsWrittenCounterexample | complex.h:95-96 | (1+i)·(1+i) is 2i, but the header's order gives i, and gives 0 for `z *= z` |
| ComplexAlgebra.MulAsWrittenIsWrong | complex.h:95-96 | some pair of numbers is multiplied wrongly by the header's order |
| ComplexAlgebra.MulOneIdentity | complex.h:94-98 | multiplying by (1, 0) on either side changes nothing |
| ComplexAlgebra.MulCommutes | complex.h:94-98 | multiplication does not depend on operand order |
| ComplexAlgebra.MulZero | complex.h:94-98 | multiplying by 0 gives 0 |
| ComplexClass.Complex.DivAssign | complex.h:100-105 | for a nonzero divisor, this object becomes the complex quotient of the old values, and is returned |
| ComplexClass.Complex.DivAssignAsWritten | complex.h:100-105 | with the header's assignment order, the new value is `DivAsWritten` of the old values, including the aliased case |
| ComplexAlgebra.DivAsWrittenAgrees | complex.h:102-103 | when `other` is a different object, the header's order gives the quotient if and only if the divisor has no imaginary part or the quotient's real part equals the receiver's old real part |
| ComplexAlgebra.DivAsWrittenSelf | complex.h:101-103 | for `z /= z` with z nonzero, the header's order gives the right quotient, 1 |
| ComplexAlgebra.DivAsWrittenCounterexample | complex.h:102-103 | 2/(1+i) is 1−i, but the header's order gives 1−i/2 |
| ComplexAlgebra.DivAsWrittenIsWrong | complex.h:102-103 | some nonzero divisor and dividend are divided wrongly by the header's order |
| ComplexAlgebra.DivUndoesMul | complex.h:94-105 | (z·w)/w = z for every nonzero w |
| ComplexAlgebra.MulUndoesDiv | complex.h:94-105 | (z/w)·w = z for every nonzero w |
| ComplexAlgebra.DivSelf | complex.h:100-105 | w/w = 1 for every nonzero w |
| ComplexClass.Complex.Plus | complex.h:109-111 | returns a new object holding the sum; neither operand changes |
| ComplexClass.Complex.Minus | complex.h:113-115 | returns a new object holding the difference; neither operand changes |
| ComplexClass.Complex.Times | complex.h:117-119 | returns a new object holding the product of the two original values; neither operand changes |
| ComplexClass.Complex.Over | complex.h:121-123 | for a nonzero divisor, returns a new object holding the quotient; neither operand changes |
| ComplexClass.Complex.TimesAsWritten | complex.h:117-119 | with the header's `*=`, returns a new object holding `MulAsWritten` of the two values; the copy is never aliased with `other` |
| ComplexClass.Complex.OverAsWritten | complex.h:121-123 | with the header's `/=` and a nonzero divisor, returns a new object holding `DivAsWritten` of the two values |
| ComplexAlgebra.MulAsWrittenBreaksLaws | complex.h:117-119 | with the header's order, (1+i)·(2+3i) is −1−i but (2+3i)·(1+i) is −1+2i, and (1,0)·(2+3i) is 2+6i |
| ComplexClass.TimesAsWrittenDoesNotCommute | complex.h:117-119 | with the header's `*=`, `z * w` and `w * z` compare unequal for z = 1+i, w = 2+3i |
| ComplexClass.PlusIsAddAssignOnCopy | complex.h:109-111 | `z + w` compares equal to `+=` applied to a copy of z |
| ComplexClass.TimesCommutes | complex.h:117-119 | `z * w` and `w * z` compare equal, and both hold the product of the original values |
| ComplexClass.TimesOne | complex.h:117-119 | `z * Complex(1, 0)` compares equal to z |
| ComplexClass.TimesThenOver | complex.h:117-123 | `(z * w) / w` compares equal to z for every nonzero w |
| ComplexClass.Complex.Equals | complex.h:125-127 | true if and only if both parts are equal, that is, the two objects hold the same number |
| ComplexClass.EqualsReflexive | complex.h:125-127 | every object compares equal to itself |
| ComplexClass.EqualsSymmetric | complex.h:125-127 | `z == w` if and only if `w == z` |

## Left out

- `mag()` (complex.h:27-29) is not modelled. It calls itself instead of `magsq()`, so it never returns. It also lacks a semicolon, and it needs a square root, which exact reals do not have.
- `phase()` (complex.h:32-47) is not modelled. It is a chain of `atan` calls on floating point, and there is no arctangent over exact reals.
- Floating-point behaviour of `T` is not modelled: rounding, overflow, infinities, NaN (for which `==` is not reflexive) and signed zeros. The equational laws hold for exact reals only.
- ComplexClass.Complex.DivAssign: requires a nonzero divisor. In floating point the header divides by a zero `magsq()` and yields infinities or NaN, which the model has no value for.
- ComplexClass.Complex.Over: requires a nonzero divisor, for the same reason as DivAssign.
- ComplexClass.Complex.DivAssignAsWritten: requires a nonzero divisor, for the same reason as DivAssign.
- ComplexClass.Complex.OverAsWritten: requires a nonzero divisor, for the same reason as DivAssign.
- References to temporaries are not modelled. `magsq()`, unary `-` and the binary operators return `const` references to objects that no longer exist once the call returns. The model returns the value, or a fresh object, that the code evidently meant to return. It does not capture the dangling reference, which is undefined behaviour in C++.
- `const` qualifiers, the memory layout compatibility with FFTW's complex type, and the `_USE_MATH_DEFINES`/`math.h` preprocessor setup are not modelled. None of them changes the value an operation computes.

## Findings

| source | as written | input that shows it | evidently intended | confidence | as-written member | corrected member |
|---|---|---|---|---|---|---|
| complex.h:95-96 | `*=` stores the new real part, then computes the imaginary part from that already overwritten real part (and from the overwritten `other.re` when `other` is the receiver) | (1+i) *= (1+i) yields i, and `z *= z` with z = 1+i yields 0; the product is 2i | both parts computed from the old parts, giving (ac − bd) + (bc + ad)i | not executed | ComplexClass.Complex.MulAssignAsWritten, ComplexAlgebra.MulAsWrittenCounterexample, ComplexClass.Complex.TimesAsWritten, ComplexClass.TimesAsWrittenDoesNotCommute | ComplexClass.Complex.MulAssign, ComplexClass.Complex.Times, ComplexClass.TimesCommutes, ComplexClass.TimesOne |
| complex.h:102-103 | `/=` stores the new real part, then computes the imaginary part from that already overwritten real part | (2+0i) /= (1+i) yields 1 − 0.5i; the quotient is 1 − i | both parts computed from the old parts, giving ((ac + bd) + (bc − ad)i)/(c² + d²) | not executed | ComplexClass.Complex.DivAssignAsWritten, ComplexAlgebra.DivAsWrittenCounterexample, ComplexClass.Complex.OverAsWritten | ComplexClass.Complex.DivAssign, ComplexClass.Complex.Over, ComplexClass.TimesThenOver |
