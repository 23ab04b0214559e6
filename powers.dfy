/** Integer powers of real numbers, as Python's `x ** n` computes them for an
    integral exponent `n`. Python raises ZeroDivisionError for `0 ** n` with
    `n < 0`, so that case is excluded here and handled by the callers. */
module Powers {

  /** `x * y` on two floats. Products that are arguments of further calls
      are written with it, which keeps them apart from the nonlinear
      arithmetic of the powers below. */
  function Mult(x: real, y: real): real {
    x * y
  }

  /** `r ** n` for a natural exponent. */
  function NatPow(r: real, n: nat): (p: real)
    ensures r != 0.0 ==> p != 0.0
  {
    if n == 0 then 1.0 else r * NatPow(r, n - 1)
  }

  /** `r ** n` for an integral exponent; a negative exponent inverts. */
  function Pow(r: real, n: int): (p: real)
    requires r != 0.0 || n >= 0
    ensures r != 0.0 ==> p != 0.0
  {
    if n >= 0 then NatPow(r, n) else 1.0 / NatPow(r, -n)
  }

  lemma {:induction false} NatPowOfOne(n: nat)
    ensures NatPow(1.0, n) == 1.0
  {
    if n > 0 {
      NatPowOfOne(n - 1);
    }
  }

  /** Raising the unscaled factor 1 to any power gives 1. */
  lemma PowOfOne(n: int)
    ensures Pow(1.0, n) == 1.0
  {
    NatPowOfOne(if n >= 0 then n else -n);
  }

  /** The first power is the number itself. */
  lemma PowFirst(r: real)
    ensures Pow(r, 1) == r
  {
    assert NatPow(r, 1) == r * NatPow(r, 0);
  }

  lemma PowOfMinusOne(r: real)
    requires r != 0.0
    ensures Pow(r, 1) == r
    ensures Pow(r, -1) == 1.0 / r
    ensures Pow(r, -1) * r == 1.0
  {
    assert NatPow(r, 1) == r * NatPow(r, 0);
  }

  lemma MulAssoc(a: real, b: real, c: real)
    ensures (a * b) * c == a * (b * c)
    ensures Mult(Mult(a, b), c) == Mult(a, Mult(b, c))
  {
  }
}
