/** The algebra behind Complex<T> with T instantiated to exact reals.
    A complex number re + im·i is the pair Value(re, im); the functions below
    are the results the compound operators of complex.h are meant to produce,
    and the lemmas state the algebraic laws the class relies on. The functions
    MulAsWritten and DivAsWritten replay the field assignments of `*=` and `/=`
    in the order the header writes them. */
module ComplexAlgebra {

  datatype Value = Value(re: real, im: real)

  const Zero := Value(0.0, 0.0)
  const One := Value(1.0, 0.0)

  /** The magnitude squared re² + im², the value of `magsq()`. */
  function MagSq(z: Value): real {
    z.re * z.re + z.im * z.im
  }

  // Sign facts about squares. Positivity of a sum of squares is proved for
  // the products themselves and then carried to MagSq through the named
  // predicate Positive.

  predicate Positive(r: real) {
    r > 0.0
  }

  lemma SquarePositive(x: real)
    requires x != 0.0
    ensures x * x > 0.0
  {
    if x > 0.0 {
      assert x * x > 0.0;
    } else {
      assert (-x) * (-x) > 0.0;
    }
  }

  lemma SquareNotNegative(x: real)
    ensures !(x * x < 0.0)
  {
    if x != 0.0 {
      SquarePositive(x);
    }
  }

  lemma SumOfSquaresPositive(x: real, y: real)
    requires x != 0.0 || y != 0.0
    ensures Positive(x * x + y * y)
  {
    if x != 0.0 {
      SquarePositive(x);
      SquareNotNegative(y);
    } else {
      SquarePositive(y);
      SquareNotNegative(x);
    }
  }

  /** The magnitude squared is never negative. */
  lemma MagSqNotNegative(z: Value)
    ensures MagSq(z) >= 0.0
  {
    SquareNotNegative(z.re);
    SquareNotNegative(z.im);
  }

  /** Any number other than zero has a positive magnitude squared. */
  lemma MagSqPositive(z: Value)
    requires z != Zero
    ensures MagSq(z) > 0.0
  {
    SumOfSquaresPositive(z.re, z.im);
    assert MagSq(z) == z.re * z.re + z.im * z.im;
    assert Positive(MagSq(z));
  }

  /** The magnitude squared is zero exactly at the origin. */
  lemma MagSqZeroIff(z: Value)
    ensures MagSq(z) == 0.0 <==> z == Zero
  {
    if z != Zero {
      MagSqPositive(z);
    }
  }

  function Neg(z: Value): Value {
    Value(-z.re, -z.im)
  }

  function Add(z: Value, w: Value): Value {
    Value(z.re + w.re, z.im + w.im)
  }

  function Sub(z: Value, w: Value): Value {
    Value(z.re - w.re, z.im - w.im)
  }

  /** The complex product (a + bi)(c + di) = (ac − bd) + (bc + ad)i. */
  function Mul(z: Value, w: Value): Value {
    Value(z.re * w.re - z.im * w.im, z.im * w.re + z.re * w.im)
  }

  /** The complex quotient by conjugate multiplication:
      (a + bi)/(c + di) = ((ac + bd) + (bc − ad)i) / (c² + d²). */
  function Div(z: Value, w: Value): Value
    requires MagSq(w) != 0.0
  {
    var m := MagSq(w);
    Value((z.re * w.re + z.im * w.im) / m, (z.im * w.re - z.re * w.im) / m)
  }

  /** `*=` with its two assignments in the header's order: the new real part is
      stored first and the imaginary part is then computed from it. When the
      operand is the receiver itself (`aliased`), reading `other.re` in the
      second assignment also sees the new real part. */
  function MulAsWritten(z: Value, w: Value, aliased: bool): Value {
    var re := z.re * w.re - z.im * w.im;
    var otherRe := if aliased then re else w.re;
    Value(re, z.im * otherRe + re * w.im)
  }

  /** `/=` with its assignments in the header's order: the divisor's magnitude
      squared is taken first, then the real part is stored and read back by
      the imaginary part's formula (and, when aliased, through `other.re`). */
  function DivAsWritten(z: Value, w: Value, aliased: bool): Value
    requires MagSq(w) != 0.0
  {
    var m := MagSq(w);
    var re := (z.re * w.re + z.im * w.im) / m;
    var otherRe := if aliased then re else w.re;
    Value(re, (z.im * otherRe - re * w.im) / m)
  }

  // ---------------------------------------------------------------------
  // Negation, addition and subtraction
  // ---------------------------------------------------------------------

  lemma NegInvolutive(z: Value)
    ensures Neg(Neg(z)) == z
  {
  }

  lemma NegIsSubFromZero(z: Value)
    ensures Neg(z) == Sub(Zero, z)
  {
  }

  lemma AddZeroIdentity(z: Value)
    ensures Add(z, Zero) == z && Add(Zero, z) == z
  {
  }

  lemma SubUndoesAdd(z: Value, w: Value)
    ensures Sub(Add(z, w), w) == z
  {
  }

  lemma AddUndoesSub(z: Value, w: Value)
    ensures Add(Sub(z, w), w) == z
  {
  }

  lemma AddCommutes(z: Value, w: Value)
    ensures Add(z, w) == Add(w, z)
  {
  }

  // ---------------------------------------------------------------------
  // Multiplication
  // ---------------------------------------------------------------------

  lemma MulOneIdentity(z: Value)
    ensures Mul(z, One) == z && Mul(One, z) == z
  {
  }

  lemma MulCommutes(z: Value, w: Value)
    ensures Mul(z, w) == Mul(w, z)
  {
  }

  lemma MulZero(z: Value)
    ensures Mul(z, Zero) == Zero
  {
  }

  /** The magnitude squared is multiplicative: |zw|² = |z|²·|w|². */
  lemma MagSqMul(z: Value, w: Value)
    ensures MagSq(Mul(z, w)) == MagSq(z) * MagSq(w)
  {
    var a, b, c, d := z.re, z.im, w.re, w.im;
    calc {
      MagSq(Mul(z, w));
      (a * c - b * d) * (a * c - b * d) + (b * c + a * d) * (b * c + a * d);
      a * a * (c * c) + b * b * (d * d) + b * b * (c * c) + a * a * (d * d);
      (a * a + b * b) * (c * c + d * d);
    }
  }

  // ---------------------------------------------------------------------
  // Division
  // ---------------------------------------------------------------------

  /** Dividing by w undoes multiplying by w. */
  lemma DivUndoesMul(z: Value, w: Value)
    requires MagSq(w) != 0.0
    ensures Div(Mul(z, w), w) == z
  {
    var a, b, c, d := z.re, z.im, w.re, w.im;
    var m := MagSq(w);
    var p := Mul(z, w);
    assert p.re * c + p.im * d == a * m;
    assert p.im * c - p.re * d == b * m;
  }

  /** Multiplying by w undoes dividing by w. */
  lemma MulUndoesDiv(z: Value, w: Value)
    requires MagSq(w) != 0.0
    ensures Mul(Div(z, w), w) == z
  {
    var a, b, c, d := z.re, z.im, w.re, w.im;
    var m := MagSq(w);
    var x, y := (a * c + b * d) / m, (b * c - a * d) / m;
    assert Div(z, w) == Value(x, y);
    assert x * c - y * d == ((a * c + b * d) * c - (b * c - a * d) * d) / m;
    assert (a * c + b * d) * c - (b * c - a * d) * d == a * m;
    assert y * c + x * d == ((b * c - a * d) * c + (a * c + b * d) * d) / m;
    assert (b * c - a * d) * c + (a * c + b * d) * d == b * m;
  }

  lemma DivSelf(w: Value)
    requires MagSq(w) != 0.0
    ensures Div(w, w) == One
  {
    MulOneIdentity(w);
    DivUndoesMul(One, w);
  }

  // ---------------------------------------------------------------------
  // The assignment order of `*=` and `/=` as written in complex.h
  // ---------------------------------------------------------------------

  /** When `other` is a different object, the literal `*=` gives the product
      exactly when overwriting the real part first does not matter: the operand
      has no imaginary part, or the product's real part happens to equal the
      receiver's. */
  lemma MulAsWrittenAgrees(z: Value, w: Value)
    ensures MulAsWritten(z, w, false) == Mul(z, w) <==> w.im == 0.0 || Mul(z, w).re == z.re
  {
    var re := Mul(z, w).re;
    assert MulAsWritten(z, w, false).im - Mul(z, w).im == (re - z.re) * w.im;
    if (re - z.re) * w.im == 0.0 {
      assert w.im == 0.0 || re - z.re == 0.0;
    }
  }

  /** When `other` is a different object, the literal `/=` gives the quotient
      exactly when the divisor has no imaginary part or the quotient's real part
      equals the receiver's. */
  lemma DivAsWrittenAgrees(z: Value, w: Value)
    requires MagSq(w) != 0.0
    ensures DivAsWritten(z, w, false) == Div(z, w) <==> w.im == 0.0 || Div(z, w).re == z.re
  {
    var m := MagSq(w);
    var re := Div(z, w).re;
    var wrong := DivAsWritten(z, w, false).im;
    var right := Div(z, w).im;
    assert wrong * m == z.im * w.re - re * w.im;
    assert right * m == z.im * w.re - z.re * w.im;
    assert (right - wrong) * m == (re - z.re) * w.im;
    if (re - z.re) * w.im == 0.0 {
      assert w.im == 0.0 || re - z.re == 0.0;
    }
  }

  /** For `z *= z` the condition is the same: the literal order squares z
      exactly when z has no imaginary part or the square's real part equals
      z's. */
  lemma MulAsWrittenSelfAgrees(z: Value)
    ensures MulAsWritten(z, z, true) == Mul(z, z) <==> z.im == 0.0 || Mul(z, z).re == z.re
  {
    var re := Mul(z, z).re;
    assert MulAsWritten(z, z, true).im - Mul(z, z).im == 2.0 * z.im * (re - z.re);
    if 2.0 * z.im * (re - z.re) == 0.0 {
      assert z.im == 0.0 || re - z.re == 0.0;
    }
  }

  /** For `z /= z` the literal order happens to be right: the real part becomes
      1, and the imaginary part's formula then cancels to 0. */
  lemma DivAsWrittenSelf(z: Value)
    requires MagSq(z) != 0.0
    ensures DivAsWritten(z, z, true) == Div(z, z) == One
  {
    var m := MagSq(z);
    assert (z.re * z.re + z.im * z.im) / m == 1.0;
    DivSelf(z);
  }

  /** (1 + i)·(1 + i) = 2i, but the literal `*=` yields i, and when the operand is
      the receiver itself (`z *= z`) it yields 0. */
  lemma MulAsWrittenCounterexample()
    ensures Mul(Value(1.0, 1.0), Value(1.0, 1.0)) == Value(0.0, 2.0)
    ensures MulAsWritten(Value(1.0, 1.0), Value(1.0, 1.0), false) == Value(0.0, 1.0)
    ensures MulAsWritten(Value(1.0, 1.0), Value(1.0, 1.0), true) == Zero
  {
  }

  /** 2 / (1 + i) = 1 − i, but the literal `/=` yields 1 − i/2. */
  lemma DivAsWrittenCounterexample()
    ensures MagSq(Value(1.0, 1.0)) == 2.0
    ensures Div(Value(2.0, 0.0), Value(1.0, 1.0)) == Value(1.0, -1.0)
    ensures DivAsWritten(Value(2.0, 0.0), Value(1.0, 1.0), false) == Value(1.0, -0.5)
  {
  }

  /** The literal `*=` also breaks the laws of the product, so the binary `*`
      built on it does too: (1 + i)·(2 + 3i) yields −1 − i but (2 + 3i)·(1 + i)
      yields −1 + 2i, and (1, 0)·(2 + 3i) yields 2 + 6i. */
  lemma MulAsWrittenBreaksLaws()
    ensures MulAsWritten(Value(1.0, 1.0), Value(2.0, 3.0), false) == Value(-1.0, -1.0)
    ensures MulAsWritten(Value(2.0, 3.0), Value(1.0, 1.0), false) == Value(-1.0, 2.0)
    ensures MulAsWritten(One, Value(2.0, 3.0), false) == Value(2.0, 6.0)
  {
  }

  lemma MulAsWrittenIsWrong()
    ensures exists z, w :: MulAsWritten(z, w, false) != Mul(z, w)
  {
    var z := Value(1.0, 1.0);
    MulAsWrittenCounterexample();
    assert MulAsWritten(z, z, false) != Mul(z, z);
  }

  lemma DivAsWrittenIsWrong()
    ensures exists z, w :: MagSq(w) != 0.0 && DivAsWritten(z, w, false) != Div(z, w)
  {
    var z, w := Value(2.0, 0.0), Value(1.0, 1.0);
    DivAsWrittenCounterexample();
    assert DivAsWritten(z, w, false) != Div(z, w);
  }
}
