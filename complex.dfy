/** The class Complex<T> of complex.h with T instantiated to exact reals.
    An object holds the two fields `re` and `im`; the compound operators
    update them in place and return the receiver, and the binary operators
    apply the compound operator to a fresh copy of the left operand. Each
    method states the new fields through Value(), the number the object
    holds, in terms of the functions of ComplexAlgebra. */
module ComplexClass {

  import A = ComplexAlgebra

  class Complex {
    var re: real
    var im: real

    /** The number this object currently holds. */
    function Value(): A.Value
      reads this
    {
      A.Value(re, im)
    }

    /** `Complex<T>(re, im)`: stores the two parts as given. */
    constructor (re: real, im: real)
      ensures this.re == re && this.im == im
    {
      this.re := re;
      this.im := im;
    }

    /** The copy constructor: the new object holds the same number as
        `other`, which is left alone. */
    constructor Copy(other: Complex)
      ensures re == other.re && im == other.im
      ensures Equals(other)
    {
      re := other.re;
      im := other.im;
    }

    /** `real()`. */
    function Real(): (r: real)
      reads this
      ensures r == Value().re
    {
      re
    }

    /** `imag()`. */
    function Imag(): (i: real)
      reads this
      ensures i == Value().im
    {
      im
    }

    /** `magsq()`: the magnitude squared of the number held, never negative
        and zero exactly when both parts are zero. */
    function MagSq(): (m: real)
      reads this
      ensures m == A.MagSq(Value())
      ensures m >= 0.0
      ensures m == 0.0 <==> re == 0.0 && im == 0.0
    {
      A.MagSqNotNegative(Value());
      A.MagSqZeroIff(Value());
      re * re + im * im
    }

    /** `operator =`: copies both parts of `other` into this object and
        returns this object. */
    method Assign(other: Complex) returns (self: Complex)
      modifies this
      ensures self == this
      ensures Value() == old(other.Value())
      ensures Equals(other)
    {
      re := other.re;
      im := other.im;
      self := this;
    }

    /** Unary `operator -`: a new object holding the negated number. */
    method Negate() returns (r: Complex)
      ensures fresh(r)
      ensures r.Value() == A.Neg(Value())
    {
      r := new Complex(-re, -im);
    }

    /** `operator +=`. The imaginary part is read after the real part has
        been updated, which is harmless here even when `other` is this
        object, because the real part is not read again. */
    method AddAssign(other: Complex) returns (self: Complex)
      modifies this
      ensures self == this
      ensures Value() == A.Add(old(Value()), old(other.Value()))
    {
      re := re + other.re;
      im := im + other.im;
      self := this;
    }

    /** `operator -=`. */
    method SubAssign(other: Complex) returns (self: Complex)
      modifies this
      ensures self == this
      ensures Value() == A.Sub(old(Value()), old(other.Value()))
    {
      re := re - other.re;
      im := im - other.im;
      self := this;
    }

    /** `operator *=` as it is meant to work: both parts of both operands
        are read before either field is written, so the result is the
        product even for `z *= z`. */
    method MulAssign(other: Complex) returns (self: Complex)
      modifies this
      ensures self == this
      ensures Value() == A.Mul(old(Value()), old(other.Value()))
    {
      var a, b, c, d := re, im, other.re, other.im;
      re := a * c - b * d;
      im := b * c + a * d;
      self := this;
    }

    /** `operator *=` with the header's two assignments in the header's
        order: the imaginary part is computed from the real part already
        overwritten (and, for `z *= z`, from `other.re` overwritten too). */
    method MulAssignAsWritten(other: Complex) returns (self: Complex)
      modifies this
      ensures self == this
      ensures Value() == A.MulAsWritten(old(Value()), old(other.Value()), other == this)
    {
      re := re * other.re - im * other.im;
      im := im * other.re + re * other.im;
      self := this;
    }

    /** `operator /=` as it is meant to work: the divisor's magnitude squared
        is taken first and both parts of both operands are read before either
        field is written. The divisor must not be zero. */
    method DivAssign(other: Complex) returns (self: Complex)
      requires other.MagSq() != 0.0
      modifies this
      ensures self == this
      ensures Value() == A.Div(old(Value()), old(other.Value()))
    {
      var m := other.MagSq();
      var a, b, c, d := re, im, other.re, other.im;
      ghost var q := A.Div(A.Value(a, b), A.Value(c, d));
      assert q == A.Value((a * c + b * d) / m, (b * c - a * d) / m);
      re := (a * c + b * d) / m;
      im := (b * c - a * d) / m;
      self := this;
    }

    /** `operator /=` with the header's assignments in the header's order:
        the imaginary part is computed from the real part already
        overwritten. */
    method DivAssignAsWritten(other: Complex) returns (self: Complex)
      requires other.MagSq() != 0.0
      modifies this
      ensures self == this
      ensures Value() == A.DivAsWritten(old(Value()), old(other.Value()), other == this)
    {
      var m := other.MagSq();
      re := (re * other.re + im * other.im) / m;
      im := (im * other.re - re * other.im) / m;
      self := this;
    }

    /** Binary `operator +`: `Complex(*this) += other`, a new object; neither
        operand changes. */
    method Plus(other: Complex) returns (r: Complex)
      ensures fresh(r)
      ensures r.Value() == A.Add(Value(), other.Value())
    {
      r := new Complex.Copy(this);
      var _ := r.AddAssign(other);
    }

    /** Binary `operator -`: `Complex(*this) -= other`. */
    method Minus(other: Complex) returns (r: Complex)
      ensures fresh(r)
      ensures r.Value() == A.Sub(Value(), other.Value())
    {
      r := new Complex.Copy(this);
      var _ := r.SubAssign(other);
    }

    /** Binary `operator *`: `Complex(*this) *= other`. */
    method Times(other: Complex) returns (r: Complex)
      ensures fresh(r)
      ensures r.Value() == A.Mul(Value(), other.Value())
    {
      r := new Complex.Copy(this);
      var _ := r.MulAssign(other);
    }

    /** Binary `operator /`: `Complex(*this) /= other`. */
    method Over(other: Complex) returns (r: Complex)
      requires other.MagSq() != 0.0
      ensures fresh(r)
      ensures r.Value() == A.Div(Value(), other.Value())
    {
      r := new Complex.Copy(this);
      var _ := r.DivAssign(other);
    }

    /** Binary `operator *` on top of `*=` as the header writes it. The copy is
        a fresh object, so `other` is never the receiver of that `*=`. */
    method TimesAsWritten(other: Complex) returns (r: Complex)
      ensures fresh(r)
      ensures r.Value() == A.MulAsWritten(Value(), other.Value(), false)
    {
      r := new Complex.Copy(this);
      var _ := r.MulAssignAsWritten(other);
    }

    /** Binary `operator /` on top of `/=` as the header writes it. */
    method OverAsWritten(other: Complex) returns (r: Complex)
      requires other.MagSq() != 0.0
      ensures fresh(r)
      ensures r.Value() == A.DivAsWritten(Value(), other.Value(), false)
    {
      r := new Complex.Copy(this);
      var _ := r.DivAssignAsWritten(other);
    }

    /** `operator ==`: both parts equal, that is, the same number. */
    function Equals(other: Complex): (b: bool)
      reads this, other
      ensures b <==> Value() == other.Value()
    {
      re == other.re && im == other.im
    }
  }

  // -------------------------------------------------------------------------
  // Laws of the class, stated over objects
  // -------------------------------------------------------------------------

  lemma EqualsReflexive(z: Complex)
    ensures z.Equals(z)
  {
  }

  lemma EqualsSymmetric(z: Complex, w: Complex)
    ensures z.Equals(w) <==> w.Equals(z)
  {
  }

  /** A constructed number reports back the parts it was given. */
  method ConstructAndRead(re: real, im: real) returns (r: real, i: real)
    ensures r == re && i == im
  {
    var z := new Complex(re, im);
    r := z.Real();
    i := z.Imag();
  }

  /** `z += w; z -= w` restores z when w is another object. */
  method AddThenSubtract(z: A.Value, w: A.Value) returns (r: A.Value)
    ensures r == z
  {
    var x := new Complex(z.re, z.im);
    var y := new Complex(w.re, w.im);
    var _ := x.AddAssign(y);
    var _ := x.SubAssign(y);
    r := x.Value();
  }

  /** With aliasing the same two statements do not restore: `z += z` doubles
      z and `z -= z` then leaves zero. */
  method AddThenSubtractSelf(z: A.Value) returns (r: A.Value)
    ensures r == A.Zero
  {
    var x := new Complex(z.re, z.im);
    var _ := x.AddAssign(x);
    var _ := x.SubAssign(x);
    r := x.Value();
  }

  /** `-(-z)` holds the same number as z. */
  method NegateTwice(z: Complex) returns (r: Complex)
    ensures r.Equals(z)
  {
    var n := z.Negate();
    r := n.Negate();
    A.NegInvolutive(z.Value());
  }

  /** `(z * w) / w` holds the same number as z whenever w is not zero. */
  method TimesThenOver(z: Complex, w: Complex) returns (r: Complex)
    requires w.MagSq() != 0.0
    ensures r.Equals(z)
  {
    var p := z.Times(w);
    r := p.Over(w);
    A.DivUndoesMul(z.Value(), w.Value());
  }

  /** The binary product is the product of the two original numbers whichever
      operand is on the left, and (1, 0) leaves a number unchanged. */
  method TimesCommutes(z: Complex, w: Complex) returns (zw: Complex, wz: Complex)
    ensures zw.Equals(wz)
    ensures zw.Value() == A.Mul(z.Value(), w.Value())
  {
    zw := z.Times(w);
    wz := w.Times(z);
    A.MulCommutes(z.Value(), w.Value());
  }

  method TimesOne(z: Complex) returns (r: Complex)
    ensures r.Equals(z)
  {
    var one := new Complex(1.0, 0.0);
    r := z.Times(one);
    A.MulOneIdentity(z.Value());
  }

  /** With the header's `*=`, the binary `*` does not commute:
      (1 + i)·(2 + 3i) and (2 + 3i)·(1 + i) compare unequal. */
  method TimesAsWrittenDoesNotCommute() returns (zw: Complex, wz: Complex)
    ensures !zw.Equals(wz)
  {
    var z := new Complex(1.0, 1.0);
    var w := new Complex(2.0, 3.0);
    zw := z.TimesAsWritten(w);
    wz := w.TimesAsWritten(z);
    A.MulAsWrittenBreaksLaws();
  }

  /** The binary operators equal the compound ones applied to a copy. */
  method PlusIsAddAssignOnCopy(z: Complex, w: Complex) returns (sum: Complex, copy: Complex)
    ensures sum.Equals(copy)
  {
    sum := z.Plus(w);
    copy := new Complex.Copy(z);
    var _ := copy.AddAssign(w);
  }

  /** After `z = w` the two objects compare equal with `==`. */
  method AssignThenCompare(z: Complex, w: Complex) returns (b: bool)
    modifies z
    ensures b
  {
    var _ := z.Assign(w);
    b := z.Equals(w);
  }
}
