/** The named prefixes and units of units.py:99-134 and 476-524, each the
    result of the expression the module evaluates at import. An expression
    that raises would leave its name undefined, so derived units are
    `Result` values. */
module Palette {
  import opened Powers
  import opened UnitTypes
  import opened Normalization
  import opened Composites
  import opened Operators
  import opened Dispatch
  import opened Algebra

  // ---------------------------------------------------------------------
  // Prefixes (units.py:99-134).

  const Quetta := ScalingFactor("quetta", "Q", Pow(10.0, 30))
  const Ronna := ScalingFactor("ronna", "R", Pow(10.0, 27))
  const Yotta := ScalingFactor("yotta", "Y", Pow(10.0, 24))
  const Zetta := ScalingFactor("zetta", "Z", Pow(10.0, 21))
  const Exa := ScalingFactor("exa", "E", Pow(10.0, 18))
  const Peta := ScalingFactor("peta", "P", Pow(10.0, 15))
  const Tera := ScalingFactor("tera", "T", Pow(10.0, 12))
  const Giga := ScalingFactor("giga", "G", Pow(10.0, 9))
  const Mega := ScalingFactor("mega", "M", Pow(10.0, 6))
  const Kilo := ScalingFactor("kilo", "k", Pow(10.0, 3))
  const Hecto := ScalingFactor("hecto", "h", Pow(10.0, 2))
  const Deca := ScalingFactor("deca", "da", Pow(10.0, 1))
  // `uni` is UnitTypes.Uni.
  const Deci := ScalingFactor("deci", "d", Pow(10.0, -1))
  const Centi := ScalingFactor("centi", "c", Pow(10.0, -2))
  const Milli := ScalingFactor("milli", "m", Pow(10.0, -3))
  const Micro := ScalingFactor("micro", "\U{03BC}", Pow(10.0, -6))
  const Nano := ScalingFactor("nano", "n", Pow(10.0, -9))
  const Pico := ScalingFactor("pico", "p", Pow(10.0, -12))
  const Femto := ScalingFactor("femto", "f", Pow(10.0, -15))
  const Atto := ScalingFactor("atto", "a", Pow(10.0, -18))
  const Zepto := ScalingFactor("zepto", "z", Pow(10.0, -21))
  const Yocto := ScalingFactor("yocto", "y", Pow(10.0, -24))
  const Ronto := ScalingFactor("ronto", "r", Pow(10.0, -27))
  const Quecto := ScalingFactor("quecto", "q", Pow(10.0, -30))

  const Yobi := ScalingFactor("yobi", "Yi", Pow(2.0, 80))
  const Zebi := ScalingFactor("zebi", "Zi", Pow(2.0, 70))
  const Exbi := ScalingFactor("exbi", "Ei", Pow(2.0, 60))
  const Pebi := ScalingFactor("pebi", "Pi", Pow(2.0, 50))
  const Tebi := ScalingFactor("tebi", "Ti", Pow(2.0, 40))
  const Gibi := ScalingFactor("gibi", "Gi", Pow(2.0, 30))
  const Mebi := ScalingFactor("mebi", "Mi", Pow(2.0, 20))
  const Kibi := ScalingFactor("kibi", "ki", Pow(2.0, 10))

  // ---------------------------------------------------------------------
  // Base units (units.py:476-500); `one` is UnitTypes.One.

  const Second := Unit(Time, "second", "s", None, Uni)
  const Meter := Unit(Length, "meter", "m", None, Uni)
  const Gram := Unit(Mass, "gram", "g", None, Uni)
  const Ampere := Unit(Current, "ampere", "A", None, Uni)
  const Kelvin := Unit(Temperature, "kelvin", "K", None, Uni)
  const Mole := Unit(AmountOfSubstance, "mole", "mol", None, Uni)
  const Candela := Unit(LuminousIntensity, "candela", "cd", None, Uni)
  const Radian := Unit(Angle, "radian", "rad", None, Uni)

  // ---------------------------------------------------------------------
  // Derived units (units.py:502-524).

  /** `a * b` on two evaluated subexpressions: the left one's exception
      wins, as Python evaluates left to right. */
  function MulR(a: Result<Operand>, b: Result<Operand>): Result<Operand> {
    match a
    case Err(e) => Err(e)
    case Ok(x) =>
      match b
      case Err(e) => Err(e)
      case Ok(y) => Mul(x, y)
  }

  /** `a / b` on two evaluated subexpressions. */
  function DivR(a: Result<Operand>, b: Result<Operand>): Result<Operand> {
    match a
    case Err(e) => Err(e)
    case Ok(x) =>
      match b
      case Err(e) => Err(e)
      case Ok(y) => Div(x, y)
  }

  /** `a ** n` on an evaluated subexpression. */
  function PowerR(a: Result<Operand>, n: int): Result<Operand> {
    match a
    case Err(e) => Err(e)
    case Ok(x) => Power(x, n)
  }

  const Kilogram := Mul(Sf(Kilo), U(Gram))
  const Steradian := Power(U(Radian), 2)
  const Newton := DivR(MulR(Kilogram, Ok(U(Meter))), Power(U(Second), 2))
  const Joule := DivR(MulR(Kilogram, Power(U(Meter), 2)), Power(U(Second), 2))
  const Watt := DivR(Joule, Ok(U(Second)))
  const Coulomb := Mul(U(Ampere), U(Second))
  const Volt := DivR(Joule, Coulomb)
  const Farad := DivR(Coulomb, Volt)
  const Ohm := DivR(Volt, Ok(U(Ampere)))
  const Siemens := DivR(Ok(Num(1.0)), Ohm)
  const Weber := DivR(Joule, Ok(U(Ampere)))
  const Tesla := DivR(MulR(Volt, Ok(U(Second))), Power(U(Meter), 2))
  const Henry := DivR(MulR(Volt, Ok(U(Second))), Ok(U(Ampere)))
  const Lumen := MulR(Coulomb, Steradian)
  const Lux := DivR(Lumen, Power(U(Meter), 2))
  /** `one.but(referent="decays")` */
  const Decays := But(One, NoOverrides.(referent := Some(Some("decays"))))
  const Becquerel := Div(U(Decays), U(Second))
  const Minute := Mul(Num(60.0), U(Second))
  const Hour := MulR(Ok(Num(60.0)), Minute)

  // ---------------------------------------------------------------------
  // Facts about the palette.

  lemma KiloFactor()
    ensures Kilo.factor == 1000.0
  {
    assert Pow(10.0, 3) == 10.0 * Pow(10.0, 2);
  }

  /** `kilogram` is a unit named like `gram` whose scaling factor is the new
      prefix "+kilo" with factor 1000, not `kilo` itself; it is not `gram`,
      but the two share their base. */
  lemma KilogramIsScaledGram()
    ensures Kilogram == Ok(U(Gram.(scalingFactor := ScalingFactor("+kilo", "+k", 1000.0))))
    ensures Kilogram.value != U(Gram) && Kilogram.value.u.scalingFactor != Kilo
    ensures Unscaled(Kilogram.value.u) == Gram
  {
    UnitTimesFactor(Gram, Kilo);
    KiloFactor();
    assert Gram.scalingFactor.name + "+" + Kilo.name == "+kilo";
    assert Gram.scalingFactor.symbol + "+" + Kilo.symbol == "+k";
  }

  /** The composite `kilogram * meter` carries factor 1000 and the
      exponents of gram and meter. */
  lemma KilogramMeter() returns (c: CompositeUnit)
    ensures MulR(Kilogram, Ok(U(Meter))) == Ok(Cu(c)) && Canonical(c)
    ensures c.displayFactor == 1000.0
    ensures forall x :: Exponent(c, x) == Contribution(Gram, 1, x) + Contribution(Meter, 1, x)
  {
    KilogramIsScaledGram();
    var kg := Kilogram.value.u;
    c := UnitTimesUnit(kg, Meter);
  }

  /** An unscaled base unit squared has exponent 2 and factor 1. */
  lemma BaseSquared(u: Unit) returns (c: CompositeUnit)
    requires u.scalingFactor == Uni
    ensures Power(U(u), 2) == Ok(Cu(c)) && Canonical(c)
    ensures c.displayFactor == 1.0
    ensures forall x :: Exponent(c, x) == Contribution(u, 2, x)
  {
    UnitPowerMeaning(u, 2);
    PowOfOne(2);
    c := UnitPower(u, 2).value;
  }

  /** `newton` is gram times meter over second squared, with factor 1000:
      the kilogram's prefix has moved into the composite's factor. */
  lemma NewtonMeaning() returns (c: CompositeUnit)
    ensures Newton == Ok(Cu(c)) && Canonical(c)
    ensures c.displayFactor == 1000.0
    ensures forall x :: Exponent(c, x) ==
                        Contribution(Gram, 1, x) + Contribution(Meter, 1, x) - Contribution(Second, 2, x)
  {
    var km := KilogramMeter();
    var s2 := BaseSquared(Second);
    c := CompositeOverCompositeIs(km, s2);
  }

  /** `meter * kilogram`, the other order of the first product. */
  lemma MeterKilogram() returns (c: CompositeUnit)
    ensures MulR(Ok(U(Meter)), Kilogram) == Ok(Cu(c)) && Canonical(c)
    ensures c.displayFactor == 1000.0
    ensures forall x :: Exponent(c, x) == Contribution(Gram, 1, x) + Contribution(Meter, 1, x)
  {
    KilogramIsScaledGram();
    var kg := Kilogram.value.u;
    c := UnitTimesUnit(Meter, kg);
  }

  /** Dividing composites that compare equal by the same divisor gives
      composites that compare equal. */
  lemma EqualQuotients(a: CompositeUnit, b: CompositeUnit, d: CompositeUnit)
    requires Canonical(a) && Canonical(b) && Canonical(d) && d.displayFactor != 0.0
    requires a.displayFactor == b.displayFactor && forall x :: Exponent(a, x) == Exponent(b, x)
    ensures Div(Cu(a), Cu(d)).Ok? && Div(Cu(b), Cu(d)).Ok?
    ensures Equals(Div(Cu(a), Cu(d)).value, Div(Cu(b), Cu(d)).value) == Ok(true)
  {
    var p := CompositeOverCompositeIs(a, d);
    var q := CompositeOverCompositeIs(b, d);
    EqualByMeaning(p, q);
  }

  /** `newton` does not depend on the order of construction: building it as
      `meter * kilogram / second ** 2` gives a composite that compares
      equal to it. */
  lemma NewtonInAnyOrder()
    ensures Newton.Ok? && DivR(MulR(Ok(U(Meter)), Kilogram), Power(U(Second), 2)).Ok?
    ensures Equals(Newton.value, DivR(MulR(Ok(U(Meter)), Kilogram), Power(U(Second), 2)).value) == Ok(true)
  {
    var km := KilogramMeter();
    var mk := MeterKilogram();
    var s2 := BaseSquared(Second);
    EqualQuotients(km, mk, s2);
  }

  /** As written, `(meter / second) * second` equals `meter ** 1`, and
      comparing it with `meter` itself raises AttributeError. */
  lemma MeterPerSecondTimesSecond()
    ensures Div(U(Meter), U(Second)).Ok? && Mul(Div(U(Meter), U(Second)).value, U(Second)).Ok?
    ensures Equals(Mul(Div(U(Meter), U(Second)).value, U(Second)).value, Power(U(Meter), 1).value) == Ok(true)
    ensures Equals(Mul(Div(U(Meter), U(Second)).value, U(Second)).value, U(Meter)) == Err(AttributeError)
  {
    UnitRatioCancels(Meter, Second);
  }

  /** `steradian` is radian squared with factor 1. */
  lemma SteradianMeaning() returns (c: CompositeUnit)
    ensures Steradian == Ok(Cu(c)) && Canonical(c)
    ensures c.displayFactor == 1.0
    ensures forall x :: Exponent(c, x) == Contribution(Radian, 2, x)
  {
    c := BaseSquared(Radian);
  }

  /** `minute` and `hour` are quantities of seconds, not units. */
  lemma MinuteAndHour()
    ensures Minute.Ok? && Minute.value.Q? && Minute.value.q.value == 60.0
    ensures Hour.Ok? && Hour.value.Q? && Hour.value.q.value == 3600.0
    ensures Hour.value.q.unit == Minute.value.q.unit
    ensures Power(U(Second), 1) == Ok(Cu(Minute.value.q.unit))
  {
    UnitPowerMeaning(Second, 1);
  }

  /** A composite over an unscaled base unit keeps its factor and loses one
      in that unit's exponent. */
  lemma OverBase(a: CompositeUnit, u: Unit) returns (c: CompositeUnit)
    requires Canonical(a) && u.scalingFactor == Uni
    ensures Div(Cu(a), U(u)) == Ok(Cu(c)) && Canonical(c) && c.displayFactor == a.displayFactor
    ensures forall x :: Exponent(c, x) == Exponent(a, x) - Contribution(u, 1, x)
  {
    AppendMeaning(a, u, -1);
    PowOfOne(-1);
    c := Append(a, u, -1).value;
  }

  /** A composite times an unscaled base unit keeps its factor and gains one
      in that unit's exponent. */
  lemma TimesBase(a: CompositeUnit, u: Unit) returns (c: CompositeUnit)
    requires Canonical(a) && u.scalingFactor == Uni
    ensures Mul(Cu(a), U(u)) == Ok(Cu(c)) && Canonical(c) && c.displayFactor == a.displayFactor
    ensures forall x :: Exponent(c, x) == Exponent(a, x) + Contribution(u, 1, x)
  {
    AppendMeaning(a, u, 1);
    PowOfOne(1);
    c := Append(a, u, 1).value;
  }

  /** `joule` is gram times meter squared over second squared, with
      factor 1000. */
  lemma JouleDefined() returns (c: CompositeUnit)
    ensures Joule == Ok(Cu(c)) && Canonical(c) && c.displayFactor == 1000.0
    ensures forall x :: Exponent(c, x) ==
                        Contribution(Gram, 1, x) + Contribution(Meter, 2, x) - Contribution(Second, 2, x)
  {
    KilogramIsScaledGram();
    var m2 := BaseSquared(Meter);
    var kgm2 := Algebra.CompositeTimesUnit(m2, Kilogram.value.u);
    var s2 := BaseSquared(Second);
    c := CompositeOverCompositeIs(kgm2, s2);
  }

  /** `coulomb` is ampere times second, with factor 1. */
  lemma CoulombDefined() returns (c: CompositeUnit)
    ensures Coulomb == Ok(Cu(c)) && Canonical(c) && c.displayFactor == 1.0
    ensures forall x :: Exponent(c, x) == Contribution(Ampere, 1, x) + Contribution(Second, 1, x)
  {
    c := UnitTimesUnit(Ampere, Second);
  }

  /** `volt` is joule over coulomb: gram meter squared over second cubed
      and ampere, with factor 1000. */
  lemma VoltDefined() returns (c: CompositeUnit)
    ensures Volt == Ok(Cu(c)) && Canonical(c) && c.displayFactor == 1000.0
    ensures forall x :: Exponent(c, x) ==
                        Contribution(Gram, 1, x) + Contribution(Meter, 2, x)
                        - Contribution(Second, 3, x) - Contribution(Ampere, 1, x)
  {
    var j := JouleDefined();
    var q := CoulombDefined();
    c := CompositeOverCompositeIs(j, q);
  }

  /** `ohm` is volt over ampere, with factor 1000. */
  lemma OhmDefined() returns (c: CompositeUnit)
    ensures Ohm == Ok(Cu(c)) && Canonical(c) && c.displayFactor == 1000.0
    ensures forall x :: Exponent(c, x) ==
                        Contribution(Gram, 1, x) + Contribution(Meter, 2, x)
                        - Contribution(Second, 3, x) - Contribution(Ampere, 2, x)
  {
    var v := VoltDefined();
    c := OverBase(v, Ampere);
  }

  /** `watt` is joule over second, with factor 1000. */
  lemma WattDefined() returns (c: CompositeUnit)
    ensures Watt == Ok(Cu(c)) && Canonical(c) && c.displayFactor == 1000.0
    ensures forall x :: Exponent(c, x) ==
                        Contribution(Gram, 1, x) + Contribution(Meter, 2, x) - Contribution(Second, 3, x)
  {
    var j := JouleDefined();
    c := OverBase(j, Second);
  }

  /** `farad` is coulomb over volt: ampere squared and second to the fourth
      over gram and meter squared, with factor 1/1000. */
  lemma FaradDefined() returns (c: CompositeUnit)
    ensures Farad == Ok(Cu(c)) && Canonical(c) && c.displayFactor == 1.0 / 1000.0
    ensures forall x :: Exponent(c, x) ==
                        Contribution(Ampere, 2, x) + Contribution(Second, 4, x)
                        - Contribution(Gram, 1, x) - Contribution(Meter, 2, x)
  {
    var q := CoulombDefined();
    var v := VoltDefined();
    c := CompositeOverCompositeIs(q, v);
    ChargeOverPotential(c, q, v, Ampere, Second, Gram, Meter);
  }

  /** The exponent arithmetic of `coulomb / volt`, with the base units left
      abstract so that the solver need not tell them apart. */
  lemma ChargeOverPotential(c: CompositeUnit, q: CompositeUnit, v: CompositeUnit, a: Unit, s: Unit, g: Unit, m: Unit)
    requires forall x :: Exponent(c, x) == Exponent(q, x) - Exponent(v, x)
    requires forall x :: Exponent(q, x) == Contribution(a, 1, x) + Contribution(s, 1, x)
    requires forall x :: Exponent(v, x) ==
                         Contribution(g, 1, x) + Contribution(m, 2, x) - Contribution(s, 3, x) - Contribution(a, 1, x)
    ensures forall x :: Exponent(c, x) ==
                        Contribution(a, 2, x) + Contribution(s, 4, x) - Contribution(g, 1, x) - Contribution(m, 2, x)
  {
  }

  /** `weber` is joule over ampere, with factor 1000. */
  lemma WeberDefined() returns (c: CompositeUnit)
    ensures Weber == Ok(Cu(c)) && Canonical(c) && c.displayFactor == 1000.0
    ensures forall x :: Exponent(c, x) ==
                        Contribution(Gram, 1, x) + Contribution(Meter, 2, x)
                        - Contribution(Second, 2, x) - Contribution(Ampere, 1, x)
  {
    var j := JouleDefined();
    c := OverBase(j, Ampere);
  }

  /** `volt * second`, on the way to tesla and henry. */
  lemma VoltSecond() returns (c: CompositeUnit)
    ensures MulR(Volt, Ok(U(Second))) == Ok(Cu(c)) && Canonical(c) && c.displayFactor == 1000.0
    ensures forall x :: Exponent(c, x) ==
                        Contribution(Gram, 1, x) + Contribution(Meter, 2, x)
                        - Contribution(Second, 2, x) - Contribution(Ampere, 1, x)
  {
    var v := VoltDefined();
    c := TimesBase(v, Second);
  }

  /** `tesla` is volt second over meter squared: gram over second squared
      and ampere, with factor 1000. */
  lemma TeslaDefined() returns (c: CompositeUnit)
    ensures Tesla == Ok(Cu(c)) && Canonical(c) && c.displayFactor == 1000.0
    ensures forall x :: Exponent(c, x) ==
                        Contribution(Gram, 1, x) - Contribution(Second, 2, x) - Contribution(Ampere, 1, x)
  {
    var vs := VoltSecond();
    var m2 := BaseSquared(Meter);
    c := CompositeOverCompositeIs(vs, m2);
  }

  /** `henry` is volt second over ampere, with factor 1000. */
  lemma HenryDefined() returns (c: CompositeUnit)
    ensures Henry == Ok(Cu(c)) && Canonical(c) && c.displayFactor == 1000.0
    ensures forall x :: Exponent(c, x) ==
                        Contribution(Gram, 1, x) + Contribution(Meter, 2, x)
                        - Contribution(Second, 2, x) - Contribution(Ampere, 2, x)
  {
    var vs := VoltSecond();
    c := OverBase(vs, Ampere);
  }

  /** `lumen` is coulomb times steradian as written: ampere, second and
      radian squared, with factor 1 (candela does not occur in it). */
  lemma LumenDefined() returns (c: CompositeUnit)
    ensures Lumen == Ok(Cu(c)) && Canonical(c) && c.displayFactor == 1.0
    ensures forall x :: Exponent(c, x) ==
                        Contribution(Ampere, 1, x) + Contribution(Second, 1, x) + Contribution(Radian, 2, x)
  {
    var q := CoulombDefined();
    var sr := SteradianMeaning();
    c := CompositeTimesComposite(q, sr);
  }

  /** `lux` is lumen over meter squared, with factor 1. */
  lemma LuxDefined() returns (c: CompositeUnit)
    ensures Lux == Ok(Cu(c)) && Canonical(c) && c.displayFactor == 1.0
    ensures forall x :: Exponent(c, x) ==
                        Contribution(Ampere, 1, x) + Contribution(Second, 1, x)
                        + Contribution(Radian, 2, x) - Contribution(Meter, 2, x)
  {
    var lm := LumenDefined();
    var m2 := BaseSquared(Meter);
    c := CompositeOverCompositeIs(lm, m2);
  }

  /** `siemens = 1 / ohm` is not a unit but a quantity with value 1 whose
      unit is `ohm ** -1`. */
  lemma SiemensIsAQuantity()
    ensures Siemens.Ok? && Siemens.value.Q? && Siemens.value.q.value == 1.0
    ensures Ohm.Ok? && Power(Ohm.value, -1) == Ok(Cu(Siemens.value.q.unit))
  {
    var o := OhmDefined();
    var d := NumberOverComposite(1.0, o);
  }

  /** The referent keeps `becquerel`'s numerator apart from `one`, which
      the constructor would drop. */
  lemma BecquerelMeaning()
    ensures Decays != One && Unscaled(Decays) == Decays
    ensures Becquerel.Ok? && Becquerel.value.Cu? && Canonical(Becquerel.value.cu)
    ensures Exponent(Becquerel.value.cu, Decays) == 1 && Exponent(Becquerel.value.cu, Second) == -1
  {
    var c := UnitOverUnit(Decays, Second);
  }
}
