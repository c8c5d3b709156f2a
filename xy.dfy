/**
 * XY<T> (xy.h): a coordinate pair.  The operators are written for XY<int>, the
 * instantiation the display code uses; C++ integer division truncates toward
 * zero, which TruncDiv writes out because Dafny's `/` is Euclidean.
 */
module XYs {

  datatype XY<T> = XY(x: T, y: T)

  function Abs(a: int): nat {
    if a < 0 then -a else a
  }

  /** C++ `a / d` on int: the quotient rounded toward zero. */
  function TruncDiv(a: int, d: int): (q: int)
    requires d != 0
    ensures Abs(a - q * d) < Abs(d)
    ensures a >= 0 ==> a - q * d >= 0
    ensures a < 0 ==> a - q * d <= 0
  {
    if d > 0 then
      if a >= 0 then a / d else -((-a) / d)
    else
      if a >= 0 then -(a / -d) else (-a) / -d
  }

  /** operator bool: false exactly for the zero vector. */
  function IsNonZero(a: XY<int>): (b: bool)
    ensures b <==> a != XY(0, 0)
  {
    a.x != 0 || a.y != 0
  }

  /** operator+ */
  function Add(a: XY<int>, b: XY<int>): XY<int> {
    XY(a.x + b.x, a.y + b.y)
  }

  /** binary operator- */
  function Sub(a: XY<int>, b: XY<int>): XY<int> {
    XY(a.x - b.x, a.y - b.y)
  }

  /** unary operator- */
  function Neg(a: XY<int>): XY<int> {
    XY(-a.x, -a.y)
  }

  /** operator*(m): both components scaled by m. */
  function Mul(a: XY<int>, m: int): XY<int> {
    XY(a.x * m, a.y * m)
  }

  /** operator/(d): both components divided by d, rounding toward zero. */
  function Div(a: XY<int>, d: int): XY<int>
    requires d != 0
  {
    XY(TruncDiv(a.x, d), TruncDiv(a.y, d))
  }

  /** Subtraction undoes addition, and subtracting is adding the negation. */
  lemma AddSubInverse(a: XY<int>, b: XY<int>)
    ensures Sub(Add(a, b), b) == a
    ensures Add(Sub(a, b), b) == a
    ensures Sub(a, b) == Add(a, Neg(b))
  {
  }

  /** Negation is an involution and a + (-a) is the zero vector, which is false. */
  lemma NegInverse(a: XY<int>)
    ensures Neg(Neg(a)) == a
    ensures !IsNonZero(Add(a, Neg(a)))
  {
  }

  lemma AbsMul(x: int, y: int)
    ensures Abs(x * y) == Abs(x) * Abs(y)
  {
    if x < 0 && y < 0 { assert x * y == (-x) * (-y); }
    else if x < 0 { assert x * y == -((-x) * y); }
    else if y < 0 { assert x * y == -(x * (-y)); }
  }

  lemma AtLeastOnce(n: nat, d: nat)
    requires n >= 1
    ensures n * d >= d
  {
    assert n * d == (n - 1) * d + d;
  }

  /** Truncating division is the unique quotient with a same-signed, smaller remainder. */
  lemma TruncDivUnique(a: int, d: int, q: int)
    requires d != 0
    requires Abs(a - q * d) < Abs(d)
    requires a >= 0 ==> a - q * d >= 0
    requires a < 0 ==> a - q * d <= 0
    ensures q == TruncDiv(a, d)
  {
    var p := TruncDiv(a, d);
    var r1 := a - q * d;
    var r2 := a - p * d;
    assert r1 - r2 == (p - q) * d;
    assert Abs(r1 - r2) < Abs(d);
    if p != q {
      AbsMul(p - q, d);
      AtLeastOnce(Abs(p - q), Abs(d));
    }
  }

  /** Dividing a scaled vector by the same non-zero factor gives it back. */
  lemma MulDivInverse(a: XY<int>, m: int)
    requires m != 0
    ensures Div(Mul(a, m), m) == a
  {
    TruncDivUnique(a.x * m, m, a.x);
    TruncDivUnique(a.y * m, m, a.y);
  }

  /**
   * The integer values xy_test.cpp checks, including {3, 5} / 2 == {1, 2}, and one
   * case the test does not have: {-3, -5} / 2 == {-1, -2}, where C++ truncation and
   * floor division differ.  The test's as<int>() check on a real pair is not modelled.
   */
  lemma Examples()
    ensures Add(XY(3, 5), XY(2, 1)) == XY(5, 6)
    ensures Sub(XY(3, 5), XY(2, 1)) == XY(1, 4)
    ensures Neg(XY(3, 5)) == XY(-3, -5)
    ensures Mul(XY(3, 5), 2) == XY(6, 10)
    ensures Div(XY(3, 5), 2) == XY(1, 2)
    ensures Div(XY(-3, -5), 2) == XY(-1, -2)
    ensures !IsNonZero(XY(0, 0)) && IsNonZero(XY(1, 0)) && IsNonZero(XY(0, 1))
  {
    TruncDivUnique(3, 2, 1);
    TruncDivUnique(5, 2, 2);
    TruncDivUnique(-3, 2, -1);
    TruncDivUnique(-5, 2, -2);
  }
}
