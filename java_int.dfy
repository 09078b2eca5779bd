/**
 * Java `int` helpers shared by the layout models: `Integer.MAX_VALUE`,
 * `Math.min`/`Math.max`/`Math.abs`, and the `/` operator, which in Java
 * truncates toward zero (Dafny's `/` is Euclidean).
 */
module JavaInt {

  /** `Integer.MAX_VALUE`, used by the layouts as "no row limit". */
  const IntMax: int := 0x7fff_ffff

  /** A Java reference that may be null. */
  datatype Option<T> = None | Some(value: T)

  function Min(a: int, b: int): (m: int)
    ensures m <= a && m <= b
    ensures m == a || m == b
  {
    if a <= b then a else b
  }

  function Max(a: int, b: int): (m: int)
    ensures a <= m && b <= m
    ensures m == a || m == b
  {
    if a >= b then a else b
  }

  function Abs(a: int): (m: int)
    ensures 0 <= m
    ensures m == a || m == -a
  {
    if a < 0 then -a else a
  }

  /**
   * Java's `a / b` for a positive divisor: the quotient rounded toward zero.
   * The two ensures clauses pin the quotient down uniquely: for a
   * non-negative numerator it is the floor, for a negative one the ceiling.
   */
  function JavaDiv(a: int, b: int): (q: int)
    requires b > 0
    ensures 0 <= a ==> q * b <= a < q * b + b
    ensures a < 0 ==> q * b - b < a <= q * b
  {
    if a >= 0 then FloorDiv(a, b); a / b
    else FloorDiv(-a, b); NegateProduct(-a / b, b); -((-a) / b)
  }

  /** Dafny's `/` on a non-negative numerator is the floor. */
  lemma FloorDiv(n: int, b: int)
    requires 0 <= n && b > 0
    ensures (n / b) * b <= n < (n / b) * b + b
  {
    assert n == (n / b) * b + n % b;
  }

  lemma NegateProduct(x: int, b: int)
    ensures (-x) * b == -(x * b)
  {
  }

  /** Multiplying by a non-negative factor keeps the order. */
  lemma MulLe(x: int, y: int, c: int)
    requires x <= y && 0 <= c
    ensures x * c <= y * c
  {
    assert y * c - x * c == (y - x) * c;
  }

  /** The quotient takes the numerator's sign. */
  lemma JavaDivSign(a: int, b: int)
    requires b > 0
    ensures 0 <= a ==> 0 <= JavaDiv(a, b)
    ensures a < 0 ==> JavaDiv(a, b) <= 0
  {
    var q := JavaDiv(a, b);
    if 0 <= a && q < 0 {
      MulLe(q, -1, b);
      assert false;
    }
    if a < 0 && 0 < q {
      MulLe(1, q, b);
      assert false;
    }
  }

  /** A multiple of the quotient by at most the divisor stays between zero and the numerator. */
  lemma JavaDivScaled(a: int, b: int, i: int)
    requires b > 0 && 0 <= i <= b
    ensures 0 <= a ==> 0 <= JavaDiv(a, b) * i <= a
    ensures a < 0 ==> a <= JavaDiv(a, b) * i <= 0
  {
    var q := JavaDiv(a, b);
    JavaDivSign(a, b);
    if 0 <= a {
      MulLe(0, q, i);
      MulLe(i, b, q);
      assert q * i == i * q && q * b == b * q;
    } else {
      MulLe(q, 0, i);
      MulLe(i, b, -q);
      assert (-q) * i == -(q * i) && (-q) * b == -(q * b);
    }
  }
}
