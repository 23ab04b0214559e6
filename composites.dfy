/** The composite units the operators build (src/connvert/units.py:251-333,
    398-450). Each operator branch that yields a `CompositeUnit` calls the
    constructor on components taken from its operands; the functions here
    are those calls, and the lemmas say what each result is in terms of the
    operands: its exponent for every base unit and its aggregate factor.
    For canonical operands the constructor's input is easy to read, which is
    what `Reconstruct` and `CanonicalExponent` capture. */
module Composites {
  import opened Powers
  import opened Dicts
  import opened UnitTypes
  import opened Normalization

  /** `tuple([-e for e in powers])`. */
  function Negated(powers: seq<int>): seq<int> {
    seq(|powers|, i requires 0 <= i < |powers| => -powers[i])
  }

  /** `tuple([n * e for e in powers])`. */
  function Times(n: int, powers: seq<int>): seq<int> {
    seq(|powers|, i requires 0 <= i < |powers| => n * powers[i])
  }

  // ---------------------------------------------------------------------
  // The constructor calls of the operators.

  /** `a * b` for two composites (units.py:252-257). */
  function Product(a: CompositeUnit, b: CompositeUnit): Result<CompositeUnit> {
    Normalize(a.componentUnits + b.componentUnits, a.componentPowers + b.componentPowers,
              Mult(a.displayFactor, b.displayFactor))
  }

  /** `a / b` for two composites (units.py:278-284); `b.__rtruediv__(a)`
      builds the same call (units.py:303-309). */
  function Quotient(a: CompositeUnit, b: CompositeUnit): Result<CompositeUnit> {
    if b.displayFactor == 0.0 then Err(ZeroDivisionError)
    else Normalize(a.componentUnits + b.componentUnits, a.componentPowers + Negated(b.componentPowers),
                   a.displayFactor / b.displayFactor)
  }

  /** `a * u` with `p == 1` (units.py:258-263) and `a / u` with `p == -1`
      (units.py:285-290): the unit is appended as one more component. */
  function Append(a: CompositeUnit, u: Unit, p: int): Result<CompositeUnit> {
    Normalize(a.componentUnits + [u], a.componentPowers + [p], a.displayFactor)
  }

  /** `a * s` for a scaling factor whose factor is `f` (units.py:264-269). */
  function TimesFactor(a: CompositeUnit, f: real): Result<CompositeUnit> {
    Normalize(a.componentUnits, a.componentPowers, Mult(a.displayFactor, f))
  }

  /** `a / s` for a scaling factor whose factor is `f` (units.py:291-296). */
  function OverFactor(a: CompositeUnit, f: real): Result<CompositeUnit> {
    if f == 0.0 then Err(ZeroDivisionError)
    else Normalize(a.componentUnits, a.componentPowers, a.displayFactor / f)
  }

  /** `u / a`, which reaches `a.__rtruediv__(u)` (units.py:310-315). */
  function UnitOver(u: Unit, a: CompositeUnit): Result<CompositeUnit> {
    if a.displayFactor == 0.0 then Err(ZeroDivisionError)
    else Normalize(a.componentUnits + [u], Negated(a.componentPowers) + [1], 1.0 / a.displayFactor)
  }

  /** `s / a` for a scaling factor whose factor is `f`, as
      `a.__rtruediv__(s)` builds it (units.py:316-321). */
  function FactorOver(f: real, a: CompositeUnit): Result<CompositeUnit> {
    if a.displayFactor == 0.0 then Err(ZeroDivisionError)
    else Normalize(a.componentUnits, Negated(a.componentPowers), f / a.displayFactor)
  }

  /** `a ** n` (units.py:326-332); `0 ** n` with `n < 0` raises. */
  function CuPower(a: CompositeUnit, n: int): Result<CompositeUnit> {
    if a.displayFactor == 0.0 && n < 0 then Err(ZeroDivisionError)
    else Normalize(a.componentUnits, Times(n, a.componentPowers), Pow(a.displayFactor, n))
  }

  /** `u ** n` (units.py:446-450), also the single-component composite
      `Quantity(value, u)` wraps a unit in (units.py:149-150, with `n == 1`). */
  function UnitPower(u: Unit, n: int): Result<CompositeUnit> {
    Normalize([u], [n], 1.0)
  }

  /** `CompositeUnit((u, v), (p, q))`: `u * v` with powers 1, 1
      (units.py:400-404), `u / v` with 1, -1 (units.py:429-433) and
      `u.__rtruediv__(v)` with -1, 1 (units.py:439-443). */
  function UnitPair(u: Unit, v: Unit, p: int, q: int): Result<CompositeUnit> {
    Normalize([u, v], [p, q], 1.0)
  }

  // ---------------------------------------------------------------------
  // Reading the constructor's input.

  /** The components of a composite, `zip(component_units, component_powers)`. */
  function Components(c: CompositeUnit): seq<Component> {
    Zip(c.componentUnits, c.componentPowers)
  }

  /** The exponent the single component `u ** p` gives the base unit `x`. */
  function Contribution(u: Unit, p: int, x: Unit): int {
    if x == Unscaled(u) && x != One then p else 0
  }

  ghost predicate AllUnscaled(cs: seq<Component>) {
    forall i :: 0 <= i < |cs| ==> cs[i].0.scalingFactor == Uni
  }

  function ScaleAll(cs: seq<Component>, n: int): seq<Component> {
    seq(|cs|, i requires 0 <= i < |cs| => (cs[i].0, n * cs[i].1))
  }

  lemma ZipAppend(u1: seq<Unit>, p1: seq<int>, u2: seq<Unit>, p2: seq<int>)
    requires |u1| == |p1|
    ensures Zip(u1 + u2, p1 + p2) == Zip(u1, p1) + Zip(u2, p2)
  {
    var l := Zip(u1 + u2, p1 + p2);
    var r := Zip(u1, p1) + Zip(u2, p2);
    assert |l| == |r|;
    forall i | 0 <= i < |l| ensures l[i] == r[i] {
      if i >= |u1| {
        assert r[i] == Zip(u2, p2)[i - |u1|];
      }
    }
  }

  lemma ZipTimes(us: seq<Unit>, ps: seq<int>, n: int)
    ensures Zip(us, Times(n, ps)) == ScaleAll(Zip(us, ps), n)
  {
  }

  lemma NegatedIsTimes(ps: seq<int>)
    ensures Negated(ps) == Times(-1, ps)
  {
  }

  /** The components of a canonical composite, with any powers, are unscaled. */
  lemma ComponentsUnscaled(a: CompositeUnit, n: int)
    requires Canonical(a)
    ensures AllUnscaled(Components(a)) && AllUnscaled(ScaleAll(Components(a), n))
  {
  }

  lemma AllUnscaledAppend(cs1: seq<Component>, cs2: seq<Component>)
    requires AllUnscaled(cs1) && AllUnscaled(cs2)
    ensures AllUnscaled(cs1 + cs2)
  {
    forall i | 0 <= i < |cs1 + cs2| ensures (cs1 + cs2)[i].0.scalingFactor == Uni {
      if i >= |cs1| {
        assert (cs1 + cs2)[i] == cs2[i - |cs1|];
      }
    }
  }

  lemma {:induction false} TotalPowerAppend(cs1: seq<Component>, cs2: seq<Component>, b: Unit)
    ensures TotalPower(cs1 + cs2, b) == TotalPower(cs1, b) + TotalPower(cs2, b)
    decreases |cs2|
  {
    if cs2 == [] {
      assert cs1 + cs2 == cs1;
    } else {
      var n := |cs2| - 1;
      assert (cs1 + cs2)[..|cs1 + cs2| - 1] == cs1 + cs2[..n];
      TotalPowerAppend(cs1, cs2[..n], b);
    }
  }

  lemma {:induction false} TotalPowerScaled(cs: seq<Component>, n: int, b: Unit)
    ensures TotalPower(ScaleAll(cs, n), b) == n * TotalPower(cs, b)
    decreases |cs|
  {
    if cs != [] {
      var k := |cs| - 1;
      assert ScaleAll(cs, n)[..k] == ScaleAll(cs[..k], n);
      TotalPowerScaled(cs[..k], n, b);
      var t := TotalPower(cs[..k], b);
      var x := if Unscaled(cs[k].0) == b then cs[k].1 else 0;
      assert n * (t + x) == n * t + n * x;
    }
  }

  /** Exponents add up over concatenated components. */
  lemma ExpAppend(cs1: seq<Component>, cs2: seq<Component>, b: Unit)
    ensures Exp(cs1 + cs2, b) == Exp(cs1, b) + Exp(cs2, b)
  {
    TotalPowerAppend(cs1, cs2, b);
  }

  /** Scaling every power scales every exponent. */
  lemma ExpScaled(cs: seq<Component>, n: int, b: Unit)
    ensures Exp(ScaleAll(cs, n), b) == n * Exp(cs, b)
  {
    TotalPowerScaled(cs, n, b);
  }

  lemma ExpSingle(u: Unit, p: int, b: Unit)
    ensures Exp([(u, p)], b) == Contribution(u, p, b)
  {
    assert [(u, p)][..0] == [];
    assert TotalPower([(u, p)], b) == TotalPower([], b) + (if Unscaled(u) == b then p else 0);
  }

  /** Unscaled components contribute the factor 1 and never raise. */
  lemma {:induction false} RunningFactorUnscaled(cs: seq<Component>, f: real)
    requires AllUnscaled(cs)
    ensures Defined(cs) && RunningFactor(cs, f) == f
    decreases |cs|
  {
    if cs != [] {
      var k := |cs| - 1;
      assert AllUnscaled(cs[..k]);
      RunningFactorUnscaled(cs[..k], f);
      PowOfOne(cs[k].1);
    }
  }

  lemma RunningFactorSnoc(cs: seq<Component>, c: Component, f: real)
    requires Defined(cs) && !Raises(c)
    ensures Defined(cs + [c])
    ensures RunningFactor(cs + [c], f) == RunningFactor(cs, f) * Pow(c.0.scalingFactor.factor, c.1)
  {
    assert (cs + [c])[..|cs|] == cs;
  }

  lemma UnscaledFixed(u: Unit)
    requires u.scalingFactor == Uni
    ensures Unscaled(u) == u
  {
  }

  /** Components with distinct unscaled units fold into themselves. */
  lemma {:induction false} FoldCanonical(cs: seq<Component>)
    requires forall i, j :: 0 <= i < j < |cs| ==> cs[i].0 != cs[j].0
    requires AllUnscaled(cs)
    ensures FoldDict(cs) == Ok(cs)
    decreases |cs|
  {
    if cs != [] {
      var k := |cs| - 1;
      var pre := cs[..k];
      assert AllUnscaled(pre);
      FoldCanonical(pre);
      var last := cs[k];
      UnscaledFixed(last.0);
      assert last.0 !in Keys(pre) by {
        forall i | 0 <= i < |pre| ensures Keys(pre)[i] != last.0 {
          assert pre[i] == cs[i];
        }
      }
      GetMissing(pre, last.0, 0);
      PutNew(pre, last.0, last.1);
      assert pre + [(last.0, 0 + last.1)] == cs;
    }
  }

  /** A dict with no zero power and no `one` passes the filter untouched. */
  lemma {:induction false} KeepAll(d: Dict<Unit, int>)
    requires forall i :: 0 <= i < |d| ==> d[i].1 != 0 && d[i].0 != One
    ensures Keep(d) == d
  {
    if d != [] {
      KeepAll(d[1..]);
      assert [d[0]] + d[1..] == d;
    }
  }

  /** Constructing a composite from the components of a canonical one gives
      it back, whatever factor is passed: normalisation is idempotent. */
  lemma Reconstruct(c: CompositeUnit, f: real)
    requires Canonical(c)
    ensures Normalize(c.componentUnits, c.componentPowers, f) == Ok(c.(displayFactor := f))
  {
    var cs := Components(c);
    assert AllUnscaled(cs);
    FoldCanonical(cs);
    KeepAll(cs);
    RunningFactorUnscaled(cs, f);
    FoldDefined(cs);
    assert Keys(cs) == c.componentUnits;
    assert Values(cs) == c.componentPowers;
  }

  /** The exponent of a canonical composite is what its own components sum to. */
  lemma CanonicalExponent(c: CompositeUnit, b: Unit)
    requires Canonical(c)
    ensures Exponent(c, b) == Exp(Components(c), b)
  {
    Reconstruct(c, c.displayFactor);
    CanonicalizeExponent(Components(c), c.displayFactor, b);
    assert c.(displayFactor := c.displayFactor) == c;
  }

  /** In a canonical composite, a unit is a key of the dict exactly when its
      exponent is not 0. */
  lemma MapExponent(c: CompositeUnit, b: Unit)
    requires Canonical(c)
    ensures b in UnitMap(c) <==> Exponent(c, b) != 0
  {
    var cs := Components(c);
    if b in UnitMap(c) {
      assert b in Keys(cs);
      var i :| 0 <= i < |cs| && Keys(cs)[i] == b;
      DistinctKeysPairwise(cs);
      AsMapGet(cs, b, 0);
      GetAt(cs, i, 0);
    }
  }

  /** Two canonical composites with the same exponents have the same dict. */
  lemma SameUnitMap(c: CompositeUnit, d: CompositeUnit)
    requires Canonical(c) && Canonical(d)
    requires forall b :: Exponent(c, b) == Exponent(d, b)
    ensures UnitMap(c) == UnitMap(d)
  {
    var m1, m2 := UnitMap(c), UnitMap(d);
    forall b ensures (b in m1 <==> b in m2) && (b in m1 ==> m1[b] == m2[b]) {
      MapExponent(c, b);
      MapExponent(d, b);
      assert Exponent(c, b) == Exponent(d, b);
    }
  }

  /** `CompositeUnit.__eq__` on canonical composites: equal factors and the
      same exponent for every base unit. */
  lemma SameIff(c: CompositeUnit, d: CompositeUnit)
    requires Canonical(c) && Canonical(d)
    ensures Same(c, d) <==> c.displayFactor == d.displayFactor && forall b :: Exponent(c, b) == Exponent(d, b)
  {
    if c.displayFactor == d.displayFactor && forall b :: Exponent(c, b) == Exponent(d, b) {
      SameUnitMap(c, d);
    }
  }

  /** Unscaled components: the constructor never fails, keeps the factor,
      and sums the powers. */
  lemma NormalizeUnscaled(units: seq<Unit>, powers: seq<int>, f: real)
    requires AllUnscaled(Zip(units, powers))
    ensures Normalize(units, powers, f).Ok?
    ensures Canonical(Normalize(units, powers, f).value)
    ensures Normalize(units, powers, f).value.displayFactor == f
    ensures forall x :: Exponent(Normalize(units, powers, f).value, x) == Exp(Zip(units, powers), x)
  {
    RunningFactorUnscaled(Zip(units, powers), f);
    NormalizeMeaning(units, powers, f);
  }

  // ---------------------------------------------------------------------
  // What each constructor call yields.

  /** `a * b`: exponents add, factors multiply. */
  lemma ProductMeaning(a: CompositeUnit, b: CompositeUnit)
    requires Canonical(a) && Canonical(b)
    ensures Product(a, b).Ok? && Canonical(Product(a, b).value)
    ensures Product(a, b).value.displayFactor == Mult(a.displayFactor, b.displayFactor)
    ensures forall x :: Exponent(Product(a, b).value, x) == Exponent(a, x) + Exponent(b, x)
  {
    var us, ps := a.componentUnits + b.componentUnits, a.componentPowers + b.componentPowers;
    ZipAppend(a.componentUnits, a.componentPowers, b.componentUnits, b.componentPowers);
    AllUnscaledAppend(Components(a), Components(b));
    NormalizeUnscaled(us, ps, Mult(a.displayFactor, b.displayFactor));
    forall x ensures Exp(Zip(us, ps), x) == Exponent(a, x) + Exponent(b, x) {
      ProductExp(a, b, x);
    }
  }

  lemma ProductExp(a: CompositeUnit, b: CompositeUnit, x: Unit)
    requires Canonical(a) && Canonical(b)
    ensures Exp(Zip(a.componentUnits + b.componentUnits, a.componentPowers + b.componentPowers), x)
            == Exponent(a, x) + Exponent(b, x)
  {
    ZipAppend(a.componentUnits, a.componentPowers, b.componentUnits, b.componentPowers);
    ExpAppend(Components(a), Components(b), x);
    CanonicalExponent(a, x);
    CanonicalExponent(b, x);
  }

  /** `a / b`: fails exactly on a zero factor of `b`; otherwise exponents
      subtract and factors divide. */
  lemma QuotientMeaning(a: CompositeUnit, b: CompositeUnit)
    requires Canonical(a) && Canonical(b)
    ensures Quotient(a, b).Ok? <==> b.displayFactor != 0.0
    ensures Quotient(a, b).Err? ==> Quotient(a, b).error == ZeroDivisionError
    ensures Quotient(a, b).Ok? ==> Canonical(Quotient(a, b).value)
    ensures Quotient(a, b).Ok? ==> Quotient(a, b).value.displayFactor == a.displayFactor / b.displayFactor
    ensures Quotient(a, b).Ok? ==> forall x :: Exponent(Quotient(a, b).value, x) == Exponent(a, x) - Exponent(b, x)
  {
    if b.displayFactor != 0.0 {
      var nb := ScaleAll(Components(b), -1);
      NegatedIsTimes(b.componentPowers);
      ZipTimes(b.componentUnits, b.componentPowers, -1);
      ZipAppend(a.componentUnits, a.componentPowers, b.componentUnits, Negated(b.componentPowers));
      AllUnscaledAppend(Components(a), nb);
      NormalizeUnscaled(a.componentUnits + b.componentUnits, a.componentPowers + Negated(b.componentPowers),
                        a.displayFactor / b.displayFactor);
      forall x ensures Exponent(Quotient(a, b).value, x) == Exponent(a, x) - Exponent(b, x) {
        ExpAppend(Components(a), nb, x);
        ExpScaled(Components(b), -1, x);
        CanonicalExponent(a, x);
        CanonicalExponent(b, x);
      }
    }
  }

  /** `a * u` and `a / u`: fails exactly when `u` has factor 0 and `p < 0`;
      otherwise `u`'s unscaled form gains `p` and the factor picks up
      `u`'s factor to the power `p`. */
  lemma AppendMeaning(a: CompositeUnit, u: Unit, p: int)
    requires Canonical(a)
    ensures Append(a, u, p).Ok? <==> !Raises((u, p))
    ensures Append(a, u, p).Err? ==> Append(a, u, p).error == ZeroDivisionError
    ensures Append(a, u, p).Ok? ==> Canonical(Append(a, u, p).value)
    ensures Append(a, u, p).Ok? ==>
      Append(a, u, p).value.displayFactor == Mult(a.displayFactor, Pow(u.scalingFactor.factor, p))
    ensures Append(a, u, p).Ok? ==>
      forall x :: Exponent(Append(a, u, p).value, x) == Exponent(a, x) + Contribution(u, p, x)
  {
    var us, ps := a.componentUnits + [u], a.componentPowers + [p];
    AppendComponents(a, u, p);
    NormalizeMeaning(us, ps, a.displayFactor);
    if !Raises((u, p)) {
      forall x ensures Exp(Zip(us, ps), x) == Exponent(a, x) + Contribution(u, p, x) {
        AppendExp(a, u, p, x);
      }
    }
  }

  /** The components `a * u ** p` loops over: `a`'s own, then `(u, p)`. */
  lemma AppendComponents(a: CompositeUnit, u: Unit, p: int)
    requires Canonical(a)
    ensures Zip(a.componentUnits + [u], a.componentPowers + [p]) == Components(a) + [(u, p)]
    ensures Defined(Components(a) + [(u, p)]) <==> !Raises((u, p))
    ensures !Raises((u, p)) ==>
      RunningFactor(Components(a) + [(u, p)], a.displayFactor) == Mult(a.displayFactor, Pow(u.scalingFactor.factor, p))
  {
    ZipAppend(a.componentUnits, a.componentPowers, [u], [p]);
    assert Zip([u], [p]) == [(u, p)];
    AppendFactor(a, u, p);
  }

  lemma AppendFactor(a: CompositeUnit, u: Unit, p: int)
    requires Canonical(a)
    ensures Defined(Components(a) + [(u, p)]) <==> !Raises((u, p))
    ensures !Raises((u, p)) ==>
      RunningFactor(Components(a) + [(u, p)], a.displayFactor) == Mult(a.displayFactor, Pow(u.scalingFactor.factor, p))
  {
    var ca := Components(a);
    ComponentsUnscaled(a, 1);
    RunningFactorUnscaled(ca, a.displayFactor);
    assert (ca + [(u, p)])[|ca|] == (u, p);
    if !Raises((u, p)) {
      RunningFactorSnoc(ca, (u, p), a.displayFactor);
    }
  }

  lemma AppendExp(a: CompositeUnit, u: Unit, p: int, x: Unit)
    requires Canonical(a)
    ensures Exp(Zip(a.componentUnits + [u], a.componentPowers + [p]), x) == Exponent(a, x) + Contribution(u, p, x)
  {
    AppendComponents(a, u, p);
    ExpAppend(Components(a), [(u, p)], x);
    ExpSingle(u, p, x);
    CanonicalExponent(a, x);
  }

  /** `a * s`: only the factor changes. */
  lemma TimesFactorMeaning(a: CompositeUnit, f: real)
    requires Canonical(a)
    ensures TimesFactor(a, f) == Ok(a.(displayFactor := Mult(a.displayFactor, f)))
  {
    Reconstruct(a, Mult(a.displayFactor, f));
  }

  /** `a / s`: only the factor changes, and a zero factor raises. */
  lemma OverFactorMeaning(a: CompositeUnit, f: real)
    requires Canonical(a)
    ensures OverFactor(a, f) == if f == 0.0 then Err(ZeroDivisionError) else Ok(a.(displayFactor := a.displayFactor / f))
  {
    if f != 0.0 {
      Reconstruct(a, a.displayFactor / f);
    }
  }

  /** `a ** n`: every exponent is multiplied by `n` and the factor raised
      to `n`; only `0 ** n` with `n < 0` fails. */
  lemma CuPowerMeaning(a: CompositeUnit, n: int)
    requires Canonical(a)
    ensures CuPower(a, n).Ok? <==> !(a.displayFactor == 0.0 && n < 0)
    ensures CuPower(a, n).Err? ==> CuPower(a, n).error == ZeroDivisionError
    ensures CuPower(a, n).Ok? ==> Canonical(CuPower(a, n).value)
    ensures CuPower(a, n).Ok? ==> CuPower(a, n).value.displayFactor == Pow(a.displayFactor, n)
    ensures CuPower(a, n).Ok? ==> forall x :: Exponent(CuPower(a, n).value, x) == n * Exponent(a, x)
  {
    if !(a.displayFactor == 0.0 && n < 0) {
      ZipTimes(a.componentUnits, a.componentPowers, n);
      NormalizeUnscaled(a.componentUnits, Times(n, a.componentPowers), Pow(a.displayFactor, n));
      forall x ensures Exponent(CuPower(a, n).value, x) == n * Exponent(a, x) {
        ExpScaled(Components(a), n, x);
        CanonicalExponent(a, x);
      }
    }
  }

  /** `u ** n`: the unscaled form of `u` gets exponent `n` and the factor
      is `u`'s factor to the power `n`. */
  lemma UnitPowerMeaning(u: Unit, n: int)
    ensures UnitPower(u, n).Ok? <==> !Raises((u, n))
    ensures UnitPower(u, n).Err? ==> UnitPower(u, n).error == ZeroDivisionError
    ensures UnitPower(u, n).Ok? ==> Canonical(UnitPower(u, n).value)
    ensures UnitPower(u, n).Ok? ==> UnitPower(u, n).value.displayFactor == Pow(u.scalingFactor.factor, n)
    ensures UnitPower(u, n).Ok? ==> forall x :: Exponent(UnitPower(u, n).value, x) == Contribution(u, n, x)
  {
    assert Zip([u], [n]) == [(u, n)];
    NormalizeMeaning([u], [n], 1.0);
    if !Raises((u, n)) {
      RunningFactorSnoc([], (u, n), 1.0);
      assert [] + [(u, n)] == [(u, n)];
      forall x ensures Exponent(UnitPower(u, n).value, x) == Contribution(u, n, x) {
        ExpSingle(u, n, x);
      }
    }
  }

  /** `CompositeUnit((u, v), (p, q))`: the two contributions add up and the
      factor is the product of both units' factors raised to their powers. */
  lemma UnitPairMeaning(u: Unit, v: Unit, p: int, q: int)
    ensures UnitPair(u, v, p, q).Ok? <==> !Raises((u, p)) && !Raises((v, q))
    ensures UnitPair(u, v, p, q).Err? ==> UnitPair(u, v, p, q).error == ZeroDivisionError
    ensures UnitPair(u, v, p, q).Ok? ==> Canonical(UnitPair(u, v, p, q).value)
    ensures UnitPair(u, v, p, q).Ok? ==>
      UnitPair(u, v, p, q).value.displayFactor == Pow(u.scalingFactor.factor, p) * Pow(v.scalingFactor.factor, q)
    ensures UnitPair(u, v, p, q).Ok? ==>
      forall x :: Exponent(UnitPair(u, v, p, q).value, x) == Contribution(u, p, x) + Contribution(v, q, x)
  {
    var cs := [(u, p), (v, q)];
    assert Zip([u, v], [p, q]) == cs;
    assert cs == [(u, p)] + [(v, q)];
    NormalizeMeaning([u, v], [p, q], 1.0);
    if !Raises((u, p)) && !Raises((v, q)) {
      RunningFactorSnoc([], (u, p), 1.0);
      assert [] + [(u, p)] == [(u, p)];
      RunningFactorSnoc([(u, p)], (v, q), 1.0);
      forall x ensures Exponent(UnitPair(u, v, p, q).value, x) == Contribution(u, p, x) + Contribution(v, q, x) {
        ExpAppend([(u, p)], [(v, q)], x);
        ExpSingle(u, p, x);
        ExpSingle(v, q, x);
      }
    }
  }

  /** `u / a`: fails exactly on a zero factor of `a`; the exponents of `a`
      are negated and `u` is added with power 1. */
  lemma UnitOverMeaning(u: Unit, a: CompositeUnit)
    requires Canonical(a)
    ensures UnitOver(u, a).Ok? <==> a.displayFactor != 0.0
    ensures UnitOver(u, a).Err? ==> UnitOver(u, a).error == ZeroDivisionError
    ensures UnitOver(u, a).Ok? ==> Canonical(UnitOver(u, a).value)
    ensures UnitOver(u, a).Ok? ==> UnitOver(u, a).value.displayFactor == u.scalingFactor.factor / a.displayFactor
    ensures UnitOver(u, a).Ok? ==>
      forall x :: Exponent(UnitOver(u, a).value, x) == Contribution(u, 1, x) - Exponent(a, x)
  {
    if a.displayFactor != 0.0 {
      var us, ps := a.componentUnits + [u], Negated(a.componentPowers) + [1];
      UnitOverComponents(u, a);
      NormalizeMeaning(us, ps, 1.0 / a.displayFactor);
      forall x ensures Exp(Zip(us, ps), x) == Contribution(u, 1, x) - Exponent(a, x) {
        UnitOverExp(u, a, x);
      }
    }
  }

  /** The components `u / a` loops over: `a`'s negated, then `(u, 1)`. */
  lemma UnitOverComponents(u: Unit, a: CompositeUnit)
    requires Canonical(a) && a.displayFactor != 0.0
    ensures Zip(a.componentUnits + [u], Negated(a.componentPowers) + [1]) == ScaleAll(Components(a), -1) + [(u, 1)]
    ensures Defined(ScaleAll(Components(a), -1) + [(u, 1)])
    ensures RunningFactor(ScaleAll(Components(a), -1) + [(u, 1)], 1.0 / a.displayFactor)
            == u.scalingFactor.factor / a.displayFactor
  {
    NegatedIsTimes(a.componentPowers);
    ZipTimes(a.componentUnits, a.componentPowers, -1);
    ZipAppend(a.componentUnits, Negated(a.componentPowers), [u], [1]);
    assert Zip([u], [1]) == [(u, 1)];
    UnitOverFactor(u, a);
  }

  lemma UnitOverFactor(u: Unit, a: CompositeUnit)
    requires Canonical(a) && a.displayFactor != 0.0
    ensures Defined(ScaleAll(Components(a), -1) + [(u, 1)])
    ensures RunningFactor(ScaleAll(Components(a), -1) + [(u, 1)], 1.0 / a.displayFactor)
            == u.scalingFactor.factor / a.displayFactor
  {
    var na := ScaleAll(Components(a), -1);
    var g := 1.0 / a.displayFactor;
    ComponentsUnscaled(a, -1);
    RunningFactorUnscaled(na, g);
    RunningFactorSnoc(na, (u, 1), g);
    PowFirst(u.scalingFactor.factor);
    assert RunningFactor(na + [(u, 1)], g) == g * u.scalingFactor.factor;
    assert g * u.scalingFactor.factor == u.scalingFactor.factor / a.displayFactor;
  }

  lemma UnitOverExp(u: Unit, a: CompositeUnit, x: Unit)
    requires Canonical(a)
    ensures Exp(Zip(a.componentUnits + [u], Negated(a.componentPowers) + [1]), x) == Contribution(u, 1, x) - Exponent(a, x)
  {
    var na := ScaleAll(Components(a), -1);
    NegatedIsTimes(a.componentPowers);
    ZipTimes(a.componentUnits, a.componentPowers, -1);
    ZipAppend(a.componentUnits, Negated(a.componentPowers), [u], [1]);
    assert Zip([u], [1]) == [(u, 1)];
    ExpAppend(na, [(u, 1)], x);
    ExpScaled(Components(a), -1, x);
    ExpSingle(u, 1, x);
    CanonicalExponent(a, x);
  }

  /** `s / a`: fails exactly on a zero factor of `a`; the exponents of `a`
      are negated and the factor is `f` over `a`'s. */
  lemma FactorOverMeaning(f: real, a: CompositeUnit)
    requires Canonical(a)
    ensures FactorOver(f, a).Ok? <==> a.displayFactor != 0.0
    ensures FactorOver(f, a).Err? ==> FactorOver(f, a).error == ZeroDivisionError
    ensures FactorOver(f, a).Ok? ==> Canonical(FactorOver(f, a).value)
    ensures FactorOver(f, a).Ok? ==> FactorOver(f, a).value.displayFactor == f / a.displayFactor
    ensures FactorOver(f, a).Ok? ==> forall x :: Exponent(FactorOver(f, a).value, x) == -Exponent(a, x)
  {
    if a.displayFactor != 0.0 {
      NegatedIsTimes(a.componentPowers);
      ZipTimes(a.componentUnits, a.componentPowers, -1);
      NormalizeUnscaled(a.componentUnits, Negated(a.componentPowers), f / a.displayFactor);
      forall x ensures Exponent(FactorOver(f, a).value, x) == -Exponent(a, x) {
        ExpScaled(Components(a), -1, x);
        CanonicalExponent(a, x);
      }
    }
  }
}
