/** 64-bit signed integers as C++ uses them: a bounded range, and division
    and remainder that truncate toward zero (Dafny's own `/` and `%` are
    Euclidean, so they are written out here). */
module Int64 {

  const MIN: int := -0x8000_0000_0000_0000
  const MAX: int :=  0x7fff_ffff_ffff_ffff

  predicate InRange(x: int) { MIN <= x <= MAX }

  function Abs(x: int): nat { if x < 0 then -x else x }

  /** C++ `a / b` on integers: the quotient of the magnitudes, with a minus
      sign when the operands' signs differ. */
  function TruncDiv(a: int, b: int): int
    requires b != 0
  {
    var mag: int := Abs(a) / Abs(b);
    if (a >= 0) == (b > 0) then mag else -mag
  }

  /** C++ `a % b` on integers: what is left of the dividend after the
      truncated quotient is taken out. */
  function TruncMod(a: int, b: int): int
    requires b != 0
  {
    a - TruncDiv(a, b) * b
  }

  /** Division identity for C++ integer division: the remainder is smaller
      than the divisor and never has the opposite sign of the dividend, which
      singles out the quotient rounded toward zero. */
  lemma TruncDivMod(a: int, b: int)
    requires b != 0
    ensures a == TruncDiv(a, b) * b + TruncMod(a, b)
    ensures Abs(TruncMod(a, b)) < Abs(b)
    ensures TruncMod(a, b) != 0 ==> (TruncMod(a, b) < 0 <==> a < 0)
  {
    if a >= 0 && b > 0 {
      PositivePositive(a, b);
    } else if a < 0 && b > 0 {
      NegativePositive(a, b);
    } else if a >= 0 {
      PositiveNegative(a, b);
    } else {
      NegativeNegative(a, b);
    }
  }

  lemma PositivePositive(a: int, b: int)
    requires a >= 0 && b > 0
    ensures TruncMod(a, b) == a % b
  {
    assert TruncDiv(a, b) == a / b;
  }

  lemma NegativePositive(a: int, b: int)
    requires a < 0 && b > 0
    ensures TruncMod(a, b) == -((-a) % b)
  {
    var q := (-a) / b;
    assert TruncDiv(a, b) == -q;
    assert (-q) * b == -(q * b);
  }

  lemma PositiveNegative(a: int, b: int)
    requires a >= 0 && b < 0
    ensures TruncMod(a, b) == a % (-b)
  {
    var q := a / (-b);
    assert TruncDiv(a, b) == -q;
    assert (-q) * b == q * (-b);
  }

  lemma NegativeNegative(a: int, b: int)
    requires a < 0 && b < 0
    ensures TruncMod(a, b) == -((-a) % (-b))
  {
    var q := (-a) / (-b);
    assert TruncDiv(a, b) == q;
    assert q * b == -(q * (-b));
  }
}
