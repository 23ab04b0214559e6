/** The laws the unit algebra obeys, stated on the Python expressions:
    products of units commute and associate up to `CompositeUnit.__eq__`,
    quotients cancel, powers scale exponents, prefixes multiply, and
    quantities add only in a shared unit. */
module Algebra {
  import opened Powers
  import opened Dicts
  import opened UnitTypes
  import opened Normalization
  import opened Composites
  import opened Operators
  import opened Dispatch

  // ---------------------------------------------------------------------
  // Helpers.

  /** Two canonical composites with the same factor and the same exponents
      compare equal with `==`. */
  lemma EqualByMeaning(c: CompositeUnit, d: CompositeUnit)
    requires Canonical(c) && Canonical(d)
    requires c.displayFactor == d.displayFactor
    requires forall x :: Exponent(c, x) == Exponent(d, x)
    ensures Equals(Cu(c), Cu(d)) == Ok(true)
  {
    SameIff(c, d);
  }

  /** The composite with no components and factor `f`. */
  function Bare(f: real): (c: CompositeUnit)
    ensures Canonical(c)
  {
    CompositeUnit([], [], f)
  }

  /** A canonical composite in which every exponent is 0 has no components. */
  lemma NoExponents(c: CompositeUnit)
    requires Canonical(c)
    requires forall x :: Exponent(c, x) == 0
    ensures c == Bare(c.displayFactor)
  {
    if c.componentUnits != [] {
      var z := Zip(c.componentUnits, c.componentPowers);
      assert Keys(z)[0] == c.componentUnits[0];
      MapExponent(c, c.componentUnits[0]);
      assert false;
    }
  }

  lemma InverseFactor(r: real)
    requires r != 0.0
    ensures Mult(Pow(r, -1), r) == 1.0
  {
    PowOfMinusOne(r);
  }

  lemma Rotate(a: real, b: real, c: real)
    ensures Mult(Mult(a, b), c) == Mult(Mult(b, c), a)
  {
    MulAssoc(a, b, c);
  }

  // ---------------------------------------------------------------------
  // ScalingFactor.

  /** `a * b` for two prefixes joins their names and symbols with "+" and
      multiplies their factors. */
  lemma FactorTimesFactor(a: ScalingFactor, b: ScalingFactor)
    ensures Mul(Sf(a), Sf(b)) == Ok(Sf(ScalingFactor(a.name + "+" + b.name, a.symbol + "+" + b.symbol, a.factor * b.factor)))
  {
    assert Mult(a.factor, b.factor) == a.factor * b.factor;
  }

  /** Prefix products associate exactly: names, symbols and factors. */
  lemma FactorProductAssociates(a: ScalingFactor, b: ScalingFactor, c: ScalingFactor)
    ensures Mul(Mul(Sf(a), Sf(b)).value, Sf(c)) == Mul(Sf(a), Mul(Sf(b), Sf(c)).value)
  {
    MulAssoc(a.factor, b.factor, c.factor);
    assert Mult(Mult(a.factor, b.factor), c.factor) == Mult(a.factor, Mult(b.factor, c.factor));
    assert (a.name + "+" + b.name) + "+" + c.name == a.name + "+" + (b.name + "+" + c.name);
    assert (a.symbol + "+" + b.symbol) + "+" + c.symbol == a.symbol + "+" + (b.symbol + "+" + c.symbol);
  }

  /** `a / b` for two prefixes divides the factors and, as written, joins
      the names with "+" just as the product does; a zero divisor raises. */
  lemma FactorOverFactor(a: ScalingFactor, b: ScalingFactor)
    ensures Div(Sf(a), Sf(b)) ==
      if b.factor == 0.0 then Err(ZeroDivisionError)
      else Ok(Sf(ScalingFactor(a.name + "+" + b.name, a.symbol + "+" + b.symbol, a.factor / b.factor)))
    ensures b.factor != 0.0 ==> Div(Sf(a), Sf(b)).value.sf.name == Mul(Sf(a), Sf(b)).value.sf.name
  {
  }

  /** The nondimensional unit scaled by `s`, raised to the first power, is
      the bare composite carrying `s`'s factor: `one` itself is dropped. */
  lemma ScaledOne(s: ScalingFactor)
    ensures UnitPower(ScaledBy(One, s), 1) == Ok(Bare(s.factor))
  {
    var u := ScaledBy(One, s);
    UnitPowerMeaning(u, 1);
    PowFirst(s.factor);
    NoExponents(UnitPower(u, 1).value);
  }

  /** A prefix times a number, either way round, is that many of the
      dimensionless composite carrying the prefix's factor. */
  lemma FactorTimesNumber(s: ScalingFactor, n: real)
    ensures Mul(Sf(s), Num(n)) == Ok(Q(Quantity(n, Bare(s.factor))))
    ensures Mul(Num(n), Sf(s)) == Ok(Q(Quantity(n, Bare(s.factor))))
  {
    ScaledOne(s);
  }

  /** A prefix over a number: the reciprocal of the number in the same
      dimensionless composite, or ZeroDivisionError. */
  lemma FactorOverNumber(s: ScalingFactor, n: real)
    ensures Div(Sf(s), Num(n)) == if n == 0.0 then Err(ZeroDivisionError) else Ok(Q(Quantity(1.0 / n, Bare(s.factor))))
  {
    ScaledOne(s);
  }

  /** A number over a prefix keeps the number and carries the reciprocal
      factor. */
  lemma NumberOverFactor(n: real, s: ScalingFactor)
    ensures Div(Num(n), Sf(s)) == if s.factor == 0.0 then Err(ZeroDivisionError) else Ok(Q(Quantity(n, Bare(1.0 / s.factor))))
  {
    if s.factor != 0.0 {
      ScaledOne(SfOver(Uni, s));
    }
  }

  // ---------------------------------------------------------------------
  // Unit and ScalingFactor.

  /** `u * s` and `s * u` give the same unit, which differs from `u` only in
      its scaling factor: `u`'s factor times `s`'s, named by joining the two
      names with "+". */
  lemma UnitTimesFactor(u: Unit, s: ScalingFactor)
    ensures Mul(U(u), Sf(s)) == Mul(Sf(s), U(u))
    ensures Mul(U(u), Sf(s)).Ok? && Mul(U(u), Sf(s)).value.U?
    ensures Unscaled(Mul(U(u), Sf(s)).value.u) == Unscaled(u)
    ensures Mul(U(u), Sf(s)).value.u.scalingFactor ==
      ScalingFactor(u.scalingFactor.name + "+" + s.name, u.scalingFactor.symbol + "+" + s.symbol, u.scalingFactor.factor * s.factor)
  {
    assert Mult(u.scalingFactor.factor, s.factor) == u.scalingFactor.factor * s.factor;
  }

  /** `u / s` is `u` scaled by the reciprocal prefix `uni / s`, whose name is
      "+" followed by `s`'s name; a zero factor raises. */
  lemma UnitOverFactor(u: Unit, s: ScalingFactor)
    ensures Div(U(u), Sf(s)).Ok? <==> s.factor != 0.0
    ensures Div(U(u), Sf(s)).Err? ==> Div(U(u), Sf(s)).error == ZeroDivisionError
    ensures Div(U(u), Sf(s)).Ok? ==> Div(U(u), Sf(s)).value.U?
    ensures Div(U(u), Sf(s)).Ok? ==> Unscaled(Div(U(u), Sf(s)).value.u) == Unscaled(u)
    ensures Div(U(u), Sf(s)).Ok? ==>
      (Div(U(u), Sf(s)).value.u.scalingFactor ==
       ScalingFactor(u.scalingFactor.name + "+" + "+" + s.name, u.scalingFactor.symbol + "+" + "+" + s.symbol,
                     u.scalingFactor.factor * (1.0 / s.factor)))
  {
    if s.factor != 0.0 {
      assert Mult(u.scalingFactor.factor, 1.0 / s.factor) == u.scalingFactor.factor * (1.0 / s.factor);
    }
  }

  /** `s / u` is a composite: `u`'s base to the power -1 carrying `s`'s
      factor over `u`'s. */
  lemma FactorOverUnit(s: ScalingFactor, u: Unit)
    requires u.scalingFactor.factor != 0.0
    ensures Div(Sf(s), U(u)).Ok? && Div(Sf(s), U(u)).value.Cu?
    ensures Canonical(Div(Sf(s), U(u)).value.cu)
    ensures Div(Sf(s), U(u)).value.cu.displayFactor == s.factor / u.scalingFactor.factor
    ensures forall x :: Exponent(Div(Sf(s), U(u)).value.cu, x) == Contribution(u, -1, x)
  {
    var f := u.scalingFactor.factor;
    UnitPowerMeaning(u, -1);
    PowOfMinusOne(f);
    var c := UnitPower(u, -1).value;
    TimesFactorMeaning(c, s.factor);
    assert Mult(1.0 / f, s.factor) == s.factor / f;
  }

  // ---------------------------------------------------------------------
  // Products of units.

  /** `u * v` is the composite of both bases to the first power, carrying
      the product of their factors. */
  lemma UnitTimesUnit(u: Unit, v: Unit) returns (c: CompositeUnit)
    ensures Mul(U(u), U(v)) == Ok(Cu(c)) && Canonical(c)
    ensures c.displayFactor == Mult(u.scalingFactor.factor, v.scalingFactor.factor)
    ensures forall x :: Exponent(c, x) == Contribution(u, 1, x) + Contribution(v, 1, x)
  {
    UnitPairMeaning(u, v, 1, 1);
    PowFirst(u.scalingFactor.factor);
    PowFirst(v.scalingFactor.factor);
    c := UnitPair(u, v, 1, 1).value;
  }

  /** `c * u` for a composite `c` and a unit `u`: `u`'s base gains one in
      the exponent and `u`'s factor multiplies in; the same comes out of
      `u * c`. */
  lemma CompositeTimesUnit(c: CompositeUnit, u: Unit) returns (d: CompositeUnit)
    requires Canonical(c)
    ensures Mul(Cu(c), U(u)) == Ok(Cu(d)) && Mul(U(u), Cu(c)) == Ok(Cu(d)) && Canonical(d)
    ensures d.displayFactor == Mult(c.displayFactor, u.scalingFactor.factor)
    ensures forall x :: Exponent(d, x) == Exponent(c, x) + Contribution(u, 1, x)
  {
    AppendMeaning(c, u, 1);
    PowFirst(u.scalingFactor.factor);
    d := Append(c, u, 1).value;
  }

  /** `u * v == v * u`. */
  lemma UnitProductCommutes(u: Unit, v: Unit)
    ensures Mul(U(u), U(v)).Ok? && Mul(U(v), U(u)).Ok?
    ensures Equals(Mul(U(u), U(v)).value, Mul(U(v), U(u)).value) == Ok(true)
  {
    var uv := UnitTimesUnit(u, v);
    var vu := UnitTimesUnit(v, u);
    assert Mult(u.scalingFactor.factor, v.scalingFactor.factor) == Mult(v.scalingFactor.factor, u.scalingFactor.factor);
    EqualByMeaning(uv, vu);
  }

  /** The two ways of bracketing `u * v * w` give composites with the same
      factor and the same exponents. */
  lemma UnitTriple(u: Unit, v: Unit, w: Unit) returns (l: CompositeUnit, r: CompositeUnit)
    ensures Mul(U(u), U(v)).Ok? && Mul(Mul(U(u), U(v)).value, U(w)) == Ok(Cu(l))
    ensures Mul(U(v), U(w)).Ok? && Mul(U(u), Mul(U(v), U(w)).value) == Ok(Cu(r))
    ensures Canonical(l) && Canonical(r) && l.displayFactor == r.displayFactor
    ensures forall x :: Exponent(l, x) == Exponent(r, x)
  {
    var uv := UnitTimesUnit(u, v);
    var vw := UnitTimesUnit(v, w);
    l := CompositeTimesUnit(uv, w);
    r := CompositeTimesUnit(vw, u);
    assert forall x :: Exponent(l, x) == Exponent(r, x);
    Rotate(u.scalingFactor.factor, v.scalingFactor.factor, w.scalingFactor.factor);
    assert l.displayFactor == r.displayFactor;
  }

  /** `(u * v) * w == u * (v * w)`. */
  lemma UnitProductAssociates(u: Unit, v: Unit, w: Unit)
    ensures Mul(U(u), U(v)).Ok? && Mul(Mul(U(u), U(v)).value, U(w)).Ok?
    ensures Mul(U(v), U(w)).Ok? && Mul(U(u), Mul(U(v), U(w)).value).Ok?
    ensures Equals(Mul(Mul(U(u), U(v)).value, U(w)).value, Mul(U(u), Mul(U(v), U(w)).value).value) == Ok(true)
  {
    var l, r := UnitTriple(u, v, w);
    EqualByMeaning(l, r);
  }

  /** Multiplying by `r` undoes multiplying by `r ** -1`. */
  lemma CancelFactor(a: real, r: real)
    requires r != 0.0
    ensures Mult(Mult(a, Pow(r, -1)), r) == a
  {
    PowOfMinusOne(r);
    MulAssoc(a, Pow(r, -1), r);
  }

  /** `u ** 1` is the composite of `u`'s base to the first power with `u`'s
      factor. */
  lemma UnitFirstPower(u: Unit) returns (p: CompositeUnit)
    ensures Power(U(u), 1) == Ok(Cu(p)) && Canonical(p)
    ensures p.displayFactor == u.scalingFactor.factor
    ensures forall x :: Exponent(p, x) == Contribution(u, 1, x)
  {
    UnitPowerMeaning(u, 1);
    PowFirst(u.scalingFactor.factor);
    p := UnitPower(u, 1).value;
  }

  /** A unit and a number make a quantity: `u * n` and `n * u` are `n` in
      `u ** 1`, `u / n` is `1 / n` in `u ** 1` (the number zero raises), and
      `n / u` is `n` in `u ** -1` (a zero factor in `u` raises). */
  lemma UnitAndNumber(u: Unit, n: real)
    ensures UnitPower(u, 1).Ok?
    ensures Mul(U(u), Num(n)) == Ok(Q(Quantity(n, UnitPower(u, 1).value)))
    ensures Mul(Num(n), U(u)) == Ok(Q(Quantity(n, UnitPower(u, 1).value)))
    ensures n != 0.0 ==> Div(U(u), Num(n)) == Ok(Q(Quantity(1.0 / n, UnitPower(u, 1).value)))
    ensures n == 0.0 ==> Div(U(u), Num(n)) == Err(ZeroDivisionError)
    ensures u.scalingFactor.factor != 0.0 ==>
              UnitPower(u, -1).Ok? && Div(Num(n), U(u)) == Ok(Q(Quantity(n, UnitPower(u, -1).value)))
    ensures u.scalingFactor.factor == 0.0 ==> Div(Num(n), U(u)) == Err(ZeroDivisionError)
  {
    UnitPowerMeaning(u, 1);
    UnitPowerMeaning(u, -1);
  }

  /** `u / v` for a unit `v` with a nonzero factor: `v`'s base enters with
      exponent -1 and `v`'s factor divides out. */
  lemma UnitOverUnit(u: Unit, v: Unit) returns (c: CompositeUnit)
    requires v.scalingFactor.factor != 0.0
    ensures Div(U(u), U(v)) == Ok(Cu(c)) && Canonical(c)
    ensures c.displayFactor == Mult(u.scalingFactor.factor, Pow(v.scalingFactor.factor, -1))
    ensures forall x :: Exponent(c, x) == Contribution(u, 1, x) - Contribution(v, 1, x)
  {
    UnitPairMeaning(u, v, 1, -1);
    PowFirst(u.scalingFactor.factor);
    c := UnitPair(u, v, 1, -1).value;
  }

  /** `(u / v) * v == u ** 1`: the exponents of `v` cancel and `v`'s factor
      divides out. The result is a composite, so comparing it with `u`
      itself raises AttributeError. */
  lemma UnitRatioCancels(u: Unit, v: Unit)
    requires v.scalingFactor.factor != 0.0
    ensures Div(U(u), U(v)).Ok? && Mul(Div(U(u), U(v)).value, U(v)).Ok? && Power(U(u), 1).Ok?
    ensures Equals(Mul(Div(U(u), U(v)).value, U(v)).value, Power(U(u), 1).value) == Ok(true)
    ensures Equals(Mul(Div(U(u), U(v)).value, U(v)).value, U(u)) == Err(AttributeError)
  {
    var c := UnitOverUnit(u, v);
    var l := CompositeTimesUnit(c, v);
    var p := UnitFirstPower(u);
    CancelFactor(u.scalingFactor.factor, v.scalingFactor.factor);
    EqualByMeaning(l, p);
  }

  // ---------------------------------------------------------------------
  // Composite units.

  /** `a * b` adds the exponents and multiplies the factors. */
  lemma CompositeTimesComposite(a: CompositeUnit, b: CompositeUnit) returns (c: CompositeUnit)
    requires Canonical(a) && Canonical(b)
    ensures Mul(Cu(a), Cu(b)) == Ok(Cu(c)) && Canonical(c)
    ensures c.displayFactor == Mult(a.displayFactor, b.displayFactor)
    ensures forall x :: Exponent(c, x) == Exponent(a, x) + Exponent(b, x)
  {
    ProductMeaning(a, b);
    c := Product(a, b).value;
  }

  /** `a * b == b * a`. */
  lemma CompositeProductCommutes(a: CompositeUnit, b: CompositeUnit)
    requires Canonical(a) && Canonical(b)
    ensures Mul(Cu(a), Cu(b)).Ok? && Mul(Cu(b), Cu(a)).Ok?
    ensures Equals(Mul(Cu(a), Cu(b)).value, Mul(Cu(b), Cu(a)).value) == Ok(true)
  {
    var ab := CompositeTimesComposite(a, b);
    var ba := CompositeTimesComposite(b, a);
    EqualByMeaning(ab, ba);
  }

  /** The two ways of bracketing `a * b * c` give composites with the same
      factor and the same exponents. */
  lemma CompositeTriple(a: CompositeUnit, b: CompositeUnit, c: CompositeUnit) returns (l: CompositeUnit, r: CompositeUnit)
    requires Canonical(a) && Canonical(b) && Canonical(c)
    ensures Mul(Cu(a), Cu(b)).Ok? && Mul(Mul(Cu(a), Cu(b)).value, Cu(c)) == Ok(Cu(l))
    ensures Mul(Cu(b), Cu(c)).Ok? && Mul(Cu(a), Mul(Cu(b), Cu(c)).value) == Ok(Cu(r))
    ensures Canonical(l) && Canonical(r) && l.displayFactor == r.displayFactor
    ensures forall x :: Exponent(l, x) == Exponent(r, x)
  {
    var ab := CompositeTimesComposite(a, b);
    var bc := CompositeTimesComposite(b, c);
    l := CompositeTimesComposite(ab, c);
    r := CompositeTimesComposite(a, bc);
    assert forall x :: Exponent(l, x) == Exponent(r, x);
    MulAssoc(a.displayFactor, b.displayFactor, c.displayFactor);
  }

  /** `(a * b) * c == a * (b * c)`. */
  lemma CompositeProductAssociates(a: CompositeUnit, b: CompositeUnit, c: CompositeUnit)
    requires Canonical(a) && Canonical(b) && Canonical(c)
    ensures Mul(Cu(a), Cu(b)).Ok? && Mul(Cu(b), Cu(c)).Ok?
    ensures Mul(Mul(Cu(a), Cu(b)).value, Cu(c)).Ok? && Mul(Cu(a), Mul(Cu(b), Cu(c)).value).Ok?
    ensures Equals(Mul(Mul(Cu(a), Cu(b)).value, Cu(c)).value, Mul(Cu(a), Mul(Cu(b), Cu(c)).value).value) == Ok(true)
  {
    var l, r := CompositeTriple(a, b, c);
    EqualByMeaning(l, r);
  }

  /** `a / b` for a divisor with a nonzero factor, as a composite. */
  lemma CompositeOverCompositeIs(a: CompositeUnit, b: CompositeUnit) returns (c: CompositeUnit)
    requires Canonical(a) && Canonical(b) && b.displayFactor != 0.0
    ensures Div(Cu(a), Cu(b)) == Ok(Cu(c)) && Canonical(c)
    ensures c.displayFactor == a.displayFactor / b.displayFactor
    ensures forall x :: Exponent(c, x) == Exponent(a, x) - Exponent(b, x)
  {
    QuotientMeaning(a, b);
    c := Quotient(a, b).value;
  }

  /** `a / b` subtracts the exponents and divides the factors; a zero
      factor in `b` raises. */
  lemma CompositeOverComposite(a: CompositeUnit, b: CompositeUnit)
    requires Canonical(a) && Canonical(b)
    ensures Div(Cu(a), Cu(b)).Ok? <==> b.displayFactor != 0.0
    ensures Div(Cu(a), Cu(b)).Err? ==> Div(Cu(a), Cu(b)).error == ZeroDivisionError
    ensures Div(Cu(a), Cu(b)).Ok? ==> Div(Cu(a), Cu(b)).value.Cu? && Canonical(Div(Cu(a), Cu(b)).value.cu)
    ensures Div(Cu(a), Cu(b)).Ok? ==> Div(Cu(a), Cu(b)).value.cu.displayFactor == a.displayFactor / b.displayFactor
    ensures Div(Cu(a), Cu(b)).Ok? ==> forall x :: Exponent(Div(Cu(a), Cu(b)).value.cu, x) == Exponent(a, x) - Exponent(b, x)
  {
    if b.displayFactor != 0.0 {
      var c := CompositeOverCompositeIs(a, b);
    } else {
      QuotientMeaning(a, b);
    }
  }

  /** `n / c` is `n` in the unit `c ** -1`. */
  lemma NumberOverComposite(n: real, c: CompositeUnit) returns (d: CompositeUnit)
    requires Canonical(c) && c.displayFactor != 0.0
    ensures Power(Cu(c), -1) == Ok(Cu(d)) && Canonical(d)
    ensures Div(Num(n), Cu(c)) == Ok(Q(Quantity(n, d)))
  {
    CuPowerMeaning(c, -1);
    d := CuPower(c, -1).value;
  }

  /** The quotient step of `(a / b) * b`, kept apart so that the solver
      meets it without the composites around it. */
  lemma QuotientTimes(x: real, y: real)
    requires y != 0.0
    ensures Mult(x / y, y) == x
  {
  }

  /** `(a / b) * b == a`. */
  lemma CompositeRatioCancels(a: CompositeUnit, b: CompositeUnit)
    requires Canonical(a) && Canonical(b) && b.displayFactor != 0.0
    ensures Div(Cu(a), Cu(b)).Ok? && Mul(Div(Cu(a), Cu(b)).value, Cu(b)).Ok?
    ensures Equals(Mul(Div(Cu(a), Cu(b)).value, Cu(b)).value, Cu(a)) == Ok(true)
  {
    var q := CompositeOverCompositeIs(a, b);
    var l := CompositeTimesComposite(q, b);
    QuotientTimes(a.displayFactor, b.displayFactor);
    EqualByMeaning(l, a);
  }

  /** `c / u` for a unit `u` with a nonzero factor: `u`'s base loses one in
      the exponent and `u`'s factor divides out. */
  lemma CompositeOverUnit(c: CompositeUnit, u: Unit) returns (d: CompositeUnit)
    requires Canonical(c) && u.scalingFactor.factor != 0.0
    ensures Div(Cu(c), U(u)) == Ok(Cu(d)) && Canonical(d)
    ensures d.displayFactor == Mult(c.displayFactor, Pow(u.scalingFactor.factor, -1))
    ensures forall x :: Exponent(d, x) == Exponent(c, x) - Contribution(u, 1, x)
  {
    AppendMeaning(c, u, -1);
    d := Append(c, u, -1).value;
  }

  /** `(c / u) * u == c` for a unit `u`. */
  lemma CompositeOverUnitCancels(c: CompositeUnit, u: Unit)
    requires Canonical(c) && u.scalingFactor.factor != 0.0
    ensures Div(Cu(c), U(u)).Ok? && Mul(Div(Cu(c), U(u)).value, U(u)).Ok?
    ensures Equals(Mul(Div(Cu(c), U(u)).value, U(u)).value, Cu(c)) == Ok(true)
  {
    var d := CompositeOverUnit(c, u);
    var l := CompositeTimesUnit(d, u);
    CancelFactor(c.displayFactor, u.scalingFactor.factor);
    EqualByMeaning(l, c);
  }

  /** `c ** n` multiplies every exponent by `n` and raises the factor to
      `n`; a zero factor under a negative power raises. */
  lemma CompositePower(c: CompositeUnit, n: int)
    requires Canonical(c)
    ensures Power(Cu(c), n).Ok? <==> !(c.displayFactor == 0.0 && n < 0)
    ensures Power(Cu(c), n).Err? ==> Power(Cu(c), n).error == ZeroDivisionError
    ensures Power(Cu(c), n).Ok? ==> Power(Cu(c), n).value.Cu? && Canonical(Power(Cu(c), n).value.cu)
    ensures Power(Cu(c), n).Ok? ==> Power(Cu(c), n).value.cu.displayFactor == Pow(c.displayFactor, n)
    ensures Power(Cu(c), n).Ok? ==> forall x :: Exponent(Power(Cu(c), n).value.cu, x) == n * Exponent(c, x)
  {
    CuPowerMeaning(c, n);
  }

  /** `c ** 1 == c`. */
  lemma CompositeFirstPower(c: CompositeUnit)
    requires Canonical(c)
    ensures Power(Cu(c), 1).Ok? && Equals(Power(Cu(c), 1).value, Cu(c)) == Ok(true)
  {
    CompositePower(c, 1);
    PowFirst(c.displayFactor);
    EqualByMeaning(Power(Cu(c), 1).value.cu, c);
  }

  /** `c ** -1 * c` has no exponents left and factor 1. */
  lemma InverseTimes(c: CompositeUnit) returns (l: CompositeUnit)
    requires Canonical(c) && c.displayFactor != 0.0
    ensures Power(Cu(c), -1).Ok? && Mul(Power(Cu(c), -1).value, Cu(c)) == Ok(Cu(l))
    ensures Canonical(l) && l.displayFactor == 1.0
    ensures forall x :: Exponent(l, x) == 0
  {
    CuPowerMeaning(c, -1);
    var d := CuPower(c, -1).value;
    l := CompositeTimesComposite(d, c);
    assert forall x :: Exponent(l, x) == 0;
    InverseFactor(c.displayFactor);
  }

  /** `c ** -1 * c` is the bare composite with factor 1. */
  lemma CompositeInverse(c: CompositeUnit)
    requires Canonical(c) && c.displayFactor != 0.0
    ensures Power(Cu(c), -1).Ok? && Mul(Power(Cu(c), -1).value, Cu(c)).Ok?
    ensures Mul(Power(Cu(c), -1).value, Cu(c)) == Ok(Cu(Bare(1.0)))
  {
    var l := InverseTimes(c);
    NoExponents(l);
  }

  /** Comparing a composite with anything else, either way round, raises
      AttributeError. */
  lemma CompositeEqualsOther(c: CompositeUnit, x: Operand)
    requires !x.Cu? && !x.Q?
    ensures Equals(Cu(c), x) == Err(AttributeError)
    ensures Equals(x, Cu(c)) == Err(AttributeError)
  {
  }

  // ---------------------------------------------------------------------
  // Quantity.

  /** `Quantity(value)` has the bare composite with factor 1 as its unit. */
  lemma QuantityWithoutUnit(value: real)
    ensures NewQuantity(value, NoUnit) == Ok(Quantity(value, Bare(1.0)))
  {
    UnitPowerMeaning(One, 1);
    PowFirst(1.0);
    NoExponents(UnitPower(One, 1).value);
  }

  /** `Quantity(value, unit)`: a unit becomes its single-component
      composite, a composite is kept, and anything else raises TypeError. */
  lemma QuantityConstruction(value: real, x: Operand)
    ensures x.U? ==> NewQuantity(value, Given(x)).Ok?
    ensures x.U? ==> NewQuantity(value, Given(x)).value.value == value
    ensures x.U? ==> Canonical(NewQuantity(value, Given(x)).value.unit)
    ensures x.U? ==> NewQuantity(value, Given(x)).value.unit.displayFactor == x.u.scalingFactor.factor
    ensures x.U? ==> forall b :: Exponent(NewQuantity(value, Given(x)).value.unit, b) == Contribution(x.u, 1, b)
    ensures x.Cu? ==> NewQuantity(value, Given(x)) == Ok(Quantity(value, x.cu))
    ensures !x.U? && !x.Cu? ==> NewQuantity(value, Given(x)) == Err(TypeError(NotAUnit))
  {
    if x.U? {
      UnitPowerMeaning(x.u, 1);
      PowFirst(x.u.scalingFactor.factor);
    }
  }

  /** `q == p` for quantities: equal values and equal units. */
  lemma QuantityEquality(q: Quantity, p: Quantity)
    requires Canonical(q.unit) && Canonical(p.unit)
    ensures Equals(Q(q), Q(p)).Ok?
    ensures Equals(Q(q), Q(p)).value <==>
      q.value == p.value && q.unit.displayFactor == p.unit.displayFactor &&
      forall b :: Exponent(q.unit, b) == Exponent(p.unit, b)
  {
    SameIff(q.unit, p.unit);
  }

  /** As written, comparing a quantity with a number, either way round,
      raises AttributeError. A quantity is never equal to a prefix, a unit
      or a composite, but a composite on the left raises AttributeError. */
  lemma QuantityEqualsOther(q: Quantity, x: Operand)
    ensures x.Num? ==> Equals(Q(q), x) == Err(AttributeError) && Equals(x, Q(q)) == Err(AttributeError)
    ensures (x.Sf? || x.U? || x.Cu?) ==> Equals(Q(q), x) == Ok(false)
    ensures (x.Sf? || x.U?) ==> Equals(x, Q(q)) == Ok(false)
    ensures x.Cu? ==> Equals(x, Q(q)) == Err(AttributeError)
  {
  }

  /** `q + p` adds the values and keeps `q`'s unit when the units compare
      equal, and raises TypeError otherwise. */
  lemma QuantitySum(q: Quantity, p: Quantity)
    requires Canonical(q.unit) && Canonical(p.unit)
    ensures Add(Q(q), Q(p)).Ok? <==>
      q.unit.displayFactor == p.unit.displayFactor && forall b :: Exponent(q.unit, b) == Exponent(p.unit, b)
    ensures Add(Q(q), Q(p)).Err? ==> Add(Q(q), Q(p)).error == TypeError(UnitMismatch)
    ensures Add(Q(q), Q(p)).Ok? ==> Add(Q(q), Q(p)).value == Q(Quantity(q.value + p.value, q.unit))
  {
    SameIff(q.unit, p.unit);
  }

  /** `q - p` subtracts the values under the same condition. */
  lemma QuantityDifference(q: Quantity, p: Quantity)
    requires Canonical(q.unit) && Canonical(p.unit)
    ensures Sub(Q(q), Q(p)).Ok? <==>
      q.unit.displayFactor == p.unit.displayFactor && forall b :: Exponent(q.unit, b) == Exponent(p.unit, b)
    ensures Sub(Q(q), Q(p)).Err? ==> Sub(Q(q), Q(p)).error == TypeError(UnitMismatch)
    ensures Sub(Q(q), Q(p)).Ok? ==> Sub(Q(q), Q(p)).value == Q(Quantity(q.value - p.value, q.unit))
  {
    SameIff(q.unit, p.unit);
  }

  /** Only two quantities, or two numbers, can be added or subtracted. */
  lemma SumNeedsQuantities(q: Quantity, x: Operand)
    requires !x.Q?
    ensures Add(Q(q), x) == Err(TypeError(UnsupportedOperands)) && Add(x, Q(q)) == Err(TypeError(UnsupportedOperands))
    ensures Sub(Q(q), x) == Err(TypeError(UnsupportedOperands)) && Sub(x, Q(q)) == Err(TypeError(UnsupportedOperands))
  {
  }

  /** `q + p == p + q`, and both raise or neither does. */
  lemma QuantitySumCommutes(q: Quantity, p: Quantity)
    ensures Add(Q(q), Q(p)).Ok? <==> Add(Q(p), Q(q)).Ok?
    ensures Add(Q(q), Q(p)).Ok? ==> Equals(Add(Q(q), Q(p)).value, Add(Q(p), Q(q)).value) == Ok(true)
  {
  }

  /** `(q + p) - p` gives back `q`. */
  lemma SumThenDifference(q: Quantity, p: Quantity)
    requires Add(Q(q), Q(p)).Ok?
    ensures Sub(Add(Q(q), Q(p)).value, Q(p)) == Ok(Q(q))
  {
  }

  /** `-(-q)` is `q`, and `q + (-q)` is zero in `q`'s unit. */
  lemma QuantityNegation(q: Quantity)
    ensures Neg(Q(q)).Ok? && Neg(Neg(Q(q)).value) == Ok(Q(q))
    ensures Add(Q(q), Neg(Q(q)).value) == Ok(Q(Quantity(0.0, q.unit)))
  {
  }

  /** Only numbers and quantities can be negated. */
  lemma NegationNeedsQuantity(x: Operand)
    ensures Neg(x).Ok? <==> x.Num? || x.Q?
    ensures Neg(x).Err? ==> Neg(x).error == TypeError(UnsupportedOperands)
  {
  }

  /** `q * p` multiplies both the values and the units. */
  lemma QuantityProduct(q: Quantity, p: Quantity)
    requires Canonical(q.unit) && Canonical(p.unit)
    ensures Mul(Q(q), Q(p)).Ok? && Mul(Q(q), Q(p)).value.Q?
    ensures Mul(Q(q), Q(p)).value.q.value == q.value * p.value
    ensures Mul(Cu(q.unit), Cu(p.unit)) == Ok(Cu(Mul(Q(q), Q(p)).value.q.unit))
  {
    ProductMeaning(q.unit, p.unit);
  }

  /** `q * n` and `n * q` scale only the value. */
  lemma QuantityTimesNumber(q: Quantity, n: real)
    ensures Mul(Q(q), Num(n)) == Ok(Q(Quantity(q.value * n, q.unit)))
    ensures Mul(Num(n), Q(q)) == Ok(Q(Quantity(q.value * n, q.unit)))
  {
    assert Mult(q.value, n) == q.value * n;
  }

  /** `q / p` divides both the values and the units; a zero value or a
      zero factor in `p` raises. */
  lemma QuantityQuotient(q: Quantity, p: Quantity)
    requires Canonical(q.unit) && Canonical(p.unit)
    ensures Div(Q(q), Q(p)).Ok? <==> p.value != 0.0 && p.unit.displayFactor != 0.0
    ensures Div(Q(q), Q(p)).Err? ==> Div(Q(q), Q(p)).error == ZeroDivisionError
    ensures Div(Q(q), Q(p)).Ok? ==> Div(Q(q), Q(p)).value.Q?
    ensures Div(Q(q), Q(p)).Ok? ==> Div(Q(q), Q(p)).value.q.value == q.value / p.value
    ensures Div(Q(q), Q(p)).Ok? ==> Div(Cu(q.unit), Cu(p.unit)) == Ok(Cu(Div(Q(q), Q(p)).value.q.unit))
  {
    QuotientMeaning(q.unit, p.unit);
  }

  /** `q / n` divides the value; as written `n / q` divides `n` by the
      value but keeps `q`'s unit instead of inverting it. */
  lemma QuantityAndNumberQuotients(q: Quantity, n: real)
    ensures Div(Q(q), Num(n)) == if n == 0.0 then Err(ZeroDivisionError) else Ok(Q(Quantity(q.value / n, q.unit)))
    ensures Div(Num(n), Q(q)) == if q.value == 0.0 then Err(ZeroDivisionError) else Ok(Q(Quantity(n / q.value, q.unit)))
  {
  }

  /** As written, `u / q` divides `u` by `q`'s unit but keeps `q`'s value
      instead of taking its reciprocal. */
  lemma UnitOverQuantity(u: Unit, q: Quantity)
    requires Canonical(q.unit) && q.unit.displayFactor != 0.0
    ensures Div(U(u), Q(q)).Ok? && Div(U(u), Q(q)).value.Q?
    ensures Div(U(u), Q(q)).value.q.value == q.value
    ensures Div(U(u), Cu(q.unit)) == Ok(Cu(Div(U(u), Q(q)).value.q.unit))
  {
    UnitOverMeaning(u, q.unit);
  }

  /** `q ** n` raises the value and the unit to `n`. */
  lemma QuantityPower(q: Quantity, n: int)
    requires Canonical(q.unit)
    ensures Power(Q(q), n).Ok? <==> !(q.value == 0.0 && n < 0) && !(q.unit.displayFactor == 0.0 && n < 0)
    ensures Power(Q(q), n).Err? ==> Power(Q(q), n).error == ZeroDivisionError
    ensures Power(Q(q), n).Ok? ==> Power(Q(q), n).value.Q?
    ensures Power(Q(q), n).Ok? ==> Power(Q(q), n).value.q.value == Pow(q.value, n)
    ensures Power(Q(q), n).Ok? ==> Power(Cu(q.unit), n) == Ok(Cu(Power(Q(q), n).value.q.unit))
  {
    CuPowerMeaning(q.unit, n);
  }
}
