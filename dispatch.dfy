/** What the protocol makes of the operator methods: the inner operator
    calls written out in their bodies, and the type of the result of `a * b`
    and `a / b` for every pair of operand types. */
module Dispatch {
  import opened Powers
  import opened UnitTypes
  import opened Normalization
  import opened Composites
  import opened Operators

  // ---------------------------------------------------------------------
  // The inner operator calls.

  /** `self * one` in `ScalingFactor.__mul__` and `__truediv__` is the
      nondimensional unit scaled by the factor. */
  lemma FactorTimesOne(s: ScalingFactor)
    ensures Mul(Sf(s), U(One)) == Ok(U(ScaledBy(One, s)))
  {
  }

  /** `self * (other ** -1)` in `ScalingFactor.__truediv__` for a unit or
    a composite. */
  lemma FactorTimesInverse(s: ScalingFactor, x: Operand)
    requires x.U? || x.Cu?
    ensures Power(x, -1).Ok? && Power(x, -1).value.Cu? ==>
    Mul(Sf(s), Power(x, -1).value) == AsComposite(TimesFactor(Power(x, -1).value.cu, s.factor))
    ensures Power(x, -1).Ok? ==> SfDiv(s, x) == Answer(Mul(Sf(s), Power(x, -1).value))
    ensures Power(x, -1).Err? ==> SfDiv(s, x) == Raised(Power(x, -1).error)
  {
  }

  /** `one / self`, `uni / self` and `other * (uni / self)` in
    `ScalingFactor.__rtruediv__`. */
  lemma ReciprocalFactor(s: ScalingFactor, u: Unit, c: CompositeUnit)
    ensures Div(Sf(Uni), Sf(s)) == if s.factor == 0.0 then Err(ZeroDivisionError) else Ok(Sf(SfOver(Uni, s)))
    ensures Div(U(One), Sf(s)) == if s.factor == 0.0 then Err(ZeroDivisionError) else Ok(U(ScaledBy(One, SfOver(Uni, s))))
    ensures s.factor != 0.0 ==> Mul(U(u), Sf(SfOver(Uni, s))) == Ok(U(ScaledBy(u, SfOver(Uni, s))))
    ensures s.factor != 0.0 ==> Mul(Cu(c), Sf(SfOver(Uni, s))) == AsComposite(TimesFactor(c, SfOver(Uni, s).factor))
  {
  }

  /** `other * self` in `Unit.__mul__` for a composite `other`. */
  lemma CompositeTimesUnit(u: Unit, c: CompositeUnit)
    ensures Mul(Cu(c), U(u)) == AsComposite(Append(c, u, 1))
  {
  }

  /** `Unit.__rmul__` answers whatever `self * other` evaluates to. */
  lemma UnitReflectedProduct(u: Unit, x: Operand)
    ensures UnitRMul(u, x) == Answer(Mul(U(u), x))
  {
  }

  /** `Quantity(value, r)` for the result `r` of an operator call. */
  function QuantityOf(value: real, r: Result<Operand>): Result<Operand> {
    match r
    case Ok(x) => AsQuantity(NewQuantity(value, Given(x)))
    case Err(e) => Err(e)
  }

  /** `Quantity(self.value, self.unit * other)` at the end of
      `Quantity.__mul__`. */
  lemma QuantityProductDelegates(q: Quantity, x: Operand)
    requires x.Sf? || x.U? || x.Cu?
    ensures QMul(q, x) == Answer(QuantityOf(q.value, Mul(Cu(q.unit), x)))
  {
    match x
    case Sf(_) =>
    case U(_) =>
    case Cu(_) =>
  }

  /** `Quantity(self.value, self.unit / other)` at the end of
      `Quantity.__truediv__`. */
  lemma QuantityQuotientDelegates(q: Quantity, x: Operand)
    requires x.Sf? || x.U? || x.Cu?
    ensures QDiv(q, x) == Answer(QuantityOf(q.value, Div(Cu(q.unit), x)))
  {
    match x
    case Sf(_) =>
    case U(_) =>
    case Cu(_) =>
  }

  /** `Quantity(self.value, other / self.unit)` at the end of
      `Quantity.__rtruediv__`. */
  lemma QuantityReverseDelegates(q: Quantity, x: Operand)
    requires x.Sf? || x.U? || x.Cu?
    ensures QRDiv(q, x) == Answer(QuantityOf(q.value, Div(x, Cu(q.unit))))
  {
    match x
    case Sf(s) => FactorOverQuantityUnit(q, s);
    case U(u) => UnitOverQuantityUnit(q, u);
    case Cu(d) => CompositeOverQuantityUnit(q, d);
  }

  lemma FactorOverQuantityUnit(q: Quantity, s: ScalingFactor)
    ensures QRDiv(q, Sf(s)) == Answer(QuantityOf(q.value, Div(Sf(s), Cu(q.unit))))
  {
  }

  lemma UnitOverQuantityUnit(q: Quantity, u: Unit)
    ensures QRDiv(q, U(u)) == Answer(QuantityOf(q.value, Div(U(u), Cu(q.unit))))
  {
  }

  lemma CompositeOverQuantityUnit(q: Quantity, d: CompositeUnit)
    ensures QRDiv(q, Cu(d)) == Answer(QuantityOf(q.value, Div(Cu(d), Cu(q.unit))))
  {
  }

  /** `self.unit * other.unit` and `self.unit / other.unit` for two
      quantities. */
  lemma QuantityUnits(q: Quantity, p: Quantity)
    ensures Mul(Cu(q.unit), Cu(p.unit)) == AsComposite(Product(q.unit, p.unit))
    ensures Div(Cu(q.unit), Cu(p.unit)) == AsComposite(Quotient(q.unit, p.unit))
    ensures Div(Cu(p.unit), Cu(q.unit)) == AsComposite(Quotient(p.unit, q.unit))
  {
  }

  // ---------------------------------------------------------------------
  // The type of a product or a quotient (tests/test_units.py:21-49).

  /** Every composite inside the operand came out of the constructor. */
  ghost predicate Admissible(x: Operand) {
    match x
    case Cu(c) => Canonical(c)
    case Q(q) => Canonical(q.unit)
    case _ => true
  }

  /** Nothing in the divisor `b` is a zero that `a / b` would divide by.
    The value of a quantity divisor is divided by only when the dividend is
    a number or a quantity; a prefix, a unit or a composite over a quantity
    keeps the quantity's value. Its unit is divided by unless the dividend
    is a number, which keeps that unit as it is. */
  predicate NonzeroDivisor(a: Operand, b: Operand) {
    match b
    case Num(n) => n != 0.0
    case Sf(s) => s.factor != 0.0
    case U(u) => u.scalingFactor.factor != 0.0
    case Cu(c) => c.displayFactor != 0.0
    case Q(q) => (!a.Num? ==> q.unit.displayFactor != 0.0) && ((a.Num? || a.Q?) ==> q.value != 0.0)
  }

  /** The table of result types for `a * b`, with its mirror image. */
  function ProductKind(a: Kind, b: Kind): Kind {
    match (a, b)
    case (NumberKind, NumberKind) => NumberKind
    case (NumberKind, _) => QuantityKind
    case (_, NumberKind) => QuantityKind
    case (QuantityKind, _) => QuantityKind
    case (_, QuantityKind) => QuantityKind
    case (ScalingFactorKind, ScalingFactorKind) => ScalingFactorKind
    case (ScalingFactorKind, UnitKind) => UnitKind
    case (UnitKind, ScalingFactorKind) => UnitKind
    case _ => CompositeUnitKind
  }

  /** The table for `a / b`: the same but for a scaling factor over a unit. */
  function QuotientKind(a: Kind, b: Kind): Kind {
    if a == ScalingFactorKind && b == UnitKind then CompositeUnitKind else ProductKind(a, b)
  }

  /** The result value of an operation is of kind `k` and admissible. */
  ghost predicate YieldsKind(r: Result<Operand>, k: Kind) {
    r.Ok? && KindOf(r.value) == k && Admissible(r.value)
  }

  /** A unit raised to a non-negative power or one with a nonzero factor. */
  lemma UnitPowerCanonical(u: Unit, n: int)
    requires n >= 0 || u.scalingFactor.factor != 0.0
    ensures UnitPower(u, n).Ok? && Canonical(UnitPower(u, n).value)
  {
    UnitPowerMeaning(u, n);
  }

  /** Scaling the display factor keeps the canonical form. */
  lemma TimesFactorCanonical(c: CompositeUnit, f: real)
    requires Canonical(c)
    ensures TimesFactor(c, f).Ok? && Canonical(TimesFactor(c, f).value)
  {
    TimesFactorMeaning(c, f);
  }

  /** Multiplying any two admissible operands succeeds, and the result has
      the type the table lists. */
  lemma MulKinds(a: Operand, b: Operand)
    requires Admissible(a) && Admissible(b)
    ensures YieldsKind(Mul(a, b), ProductKind(KindOf(a), KindOf(b)))
  {
    match a
    case Num(x) => MulKindsFromNumber(x, b);
    case Sf(s) => MulKindsFromFactor(s, b);
    case U(u) => MulKindsFromUnit(u, b);
    case Cu(c) => MulKindsFromComposite(c, b);
    case Q(q) => MulKindsFromQuantity(q, b);
  }

  lemma MulKindsFromNumber(x: real, b: Operand)
    requires Admissible(b)
    ensures YieldsKind(Mul(Num(x), b), ProductKind(NumberKind, KindOf(b)))
  {
    match b
    case Sf(s) => UnitPowerCanonical(ScaledBy(One, s), 1);
    case U(u) => UnitPowerCanonical(u, 1);
    case _ =>
  }

  lemma MulKindsFromFactor(s: ScalingFactor, b: Operand)
    requires Admissible(b)
    ensures YieldsKind(Mul(Sf(s), b), ProductKind(ScalingFactorKind, KindOf(b)))
  {
    match b
    case Num(_) => UnitPowerCanonical(ScaledBy(One, s), 1);
    case Cu(c) => TimesFactorCanonical(c, s.factor);
    case Q(q) => TimesFactorCanonical(q.unit, s.factor);
    case _ =>
  }

  lemma MulKindsFromUnit(u: Unit, b: Operand)
    requires Admissible(b)
    ensures YieldsKind(Mul(U(u), b), ProductKind(UnitKind, KindOf(b)))
  {
    match b
    case Num(n) => UnitTimesNumberKind(u, n);
    case U(v) => UnitTimesUnitKind(u, v);
    case Cu(c) => UnitTimesCompositeKind(u, c);
    case Q(q) => UnitTimesQuantityKind(u, q);
    case _ =>
  }

  lemma UnitTimesNumberKind(u: Unit, n: real)
    ensures YieldsKind(Mul(U(u), Num(n)), ProductKind(UnitKind, NumberKind))
  {
    UnitPowerCanonical(u, 1);
  }

  lemma UnitTimesUnitKind(u: Unit, v: Unit)
    ensures YieldsKind(Mul(U(u), U(v)), ProductKind(UnitKind, UnitKind))
  {
    UnitPairMeaning(u, v, 1, 1);
  }

  lemma UnitTimesCompositeKind(u: Unit, c: CompositeUnit)
    requires Canonical(c)
    ensures YieldsKind(Mul(U(u), Cu(c)), ProductKind(UnitKind, CompositeUnitKind))
  {
    AppendMeaning(c, u, 1);
  }

  lemma UnitTimesQuantityKind(u: Unit, q: Quantity)
    requires Canonical(q.unit)
    ensures YieldsKind(Mul(U(u), Q(q)), ProductKind(UnitKind, QuantityKind))
  {
    AppendMeaning(q.unit, u, 1);
  }

  lemma MulKindsFromComposite(c: CompositeUnit, b: Operand)
    requires Canonical(c) && Admissible(b)
    ensures YieldsKind(Mul(Cu(c), b), ProductKind(CompositeUnitKind, KindOf(b)))
  {
    match b
    case Sf(s) => CompositeTimesFactorKind(c, s);
    case U(u) => CompositeTimesUnitKind(c, u);
    case Cu(d) => CompositeTimesCompositeKind(c, d);
    case Q(q) => CompositeTimesQuantityKind(c, q);
    case _ =>
  }

  lemma CompositeTimesFactorKind(c: CompositeUnit, s: ScalingFactor)
    requires Canonical(c)
    ensures YieldsKind(Mul(Cu(c), Sf(s)), ProductKind(CompositeUnitKind, ScalingFactorKind))
  {
    TimesFactorCanonical(c, s.factor);
  }

  lemma CompositeTimesUnitKind(c: CompositeUnit, u: Unit)
    requires Canonical(c)
    ensures YieldsKind(Mul(Cu(c), U(u)), ProductKind(CompositeUnitKind, UnitKind))
  {
    AppendMeaning(c, u, 1);
  }

  lemma CompositeTimesCompositeKind(c: CompositeUnit, d: CompositeUnit)
    requires Canonical(c) && Canonical(d)
    ensures YieldsKind(Mul(Cu(c), Cu(d)), ProductKind(CompositeUnitKind, CompositeUnitKind))
  {
    ProductMeaning(c, d);
  }

  lemma CompositeTimesQuantityKind(c: CompositeUnit, q: Quantity)
    requires Canonical(c) && Canonical(q.unit)
    ensures YieldsKind(Mul(Cu(c), Q(q)), ProductKind(CompositeUnitKind, QuantityKind))
  {
    ProductMeaning(q.unit, c);
  }

  lemma MulKindsFromQuantity(q: Quantity, b: Operand)
    requires Canonical(q.unit) && Admissible(b)
    ensures YieldsKind(Mul(Q(q), b), ProductKind(QuantityKind, KindOf(b)))
  {
    match b
    case Sf(s) => QuantityTimesFactorKind(q, s);
    case U(u) => QuantityTimesUnitKind(q, u);
    case Cu(d) => QuantityTimesCompositeKind(q, d);
    case Q(p) => QuantityTimesQuantityKind(q, p);
    case _ =>
  }

  lemma QuantityTimesFactorKind(q: Quantity, s: ScalingFactor)
    requires Canonical(q.unit)
    ensures YieldsKind(Mul(Q(q), Sf(s)), ProductKind(QuantityKind, ScalingFactorKind))
  {
    TimesFactorCanonical(q.unit, s.factor);
  }

  lemma QuantityTimesUnitKind(q: Quantity, u: Unit)
    requires Canonical(q.unit)
    ensures YieldsKind(Mul(Q(q), U(u)), ProductKind(QuantityKind, UnitKind))
  {
    AppendMeaning(q.unit, u, 1);
  }

  lemma QuantityTimesCompositeKind(q: Quantity, d: CompositeUnit)
    requires Canonical(q.unit) && Canonical(d)
    ensures YieldsKind(Mul(Q(q), Cu(d)), ProductKind(QuantityKind, CompositeUnitKind))
  {
    ProductMeaning(q.unit, d);
  }

  lemma QuantityTimesQuantityKind(q: Quantity, p: Quantity)
    requires Canonical(q.unit) && Canonical(p.unit)
    ensures YieldsKind(Mul(Q(q), Q(p)), ProductKind(QuantityKind, QuantityKind))
  {
    ProductMeaning(q.unit, p.unit);
  }

  /** Dividing admissible operands succeeds, with the type the table
    lists, exactly when the divisor holds no zero that the division divides
    by; otherwise it raises ZeroDivisionError. */
  lemma DivKinds(a: Operand, b: Operand)
    requires Admissible(a) && Admissible(b)
    ensures NonzeroDivisor(a, b) ==> YieldsKind(Div(a, b), QuotientKind(KindOf(a), KindOf(b)))
    ensures !NonzeroDivisor(a, b) ==> Div(a, b) == Err(ZeroDivisionError)
  {
    if NonzeroDivisor(a, b) {
      match a
      case Num(x) => DivKindsFromNumber(x, b);
      case Sf(s) => DivKindsFromFactor(s, b);
      case U(u) => DivKindsFromUnit(u, b);
      case Cu(c) => DivKindsFromComposite(c, b);
      case Q(q) => DivKindsFromQuantity(q, b);
    } else {
      match a
      case Num(x) => DivFailsFromNumber(x, b);
      case Sf(s) => DivFailsFromFactor(s, b);
      case U(u) => DivFailsFromUnit(u, b);
      case Cu(c) => DivFailsFromComposite(c, b);
      case Q(q) => DivFailsFromQuantity(q, b);
    }
  }

  lemma DivKindsFromNumber(x: real, b: Operand)
    requires Admissible(b) && NonzeroDivisor(Num(x), b)
    ensures YieldsKind(Div(Num(x), b), QuotientKind(NumberKind, KindOf(b)))
  {
    match b
    case Sf(s) => UnitPowerCanonical(ScaledBy(One, SfOver(Uni, s)), 1);
    case U(u) => UnitPowerCanonical(u, -1);
    case Cu(c) => CuPowerMeaning(c, -1);
    case _ =>
  }

  lemma DivKindsFromFactor(s: ScalingFactor, b: Operand)
    requires Admissible(b) && NonzeroDivisor(Sf(s), b)
    ensures YieldsKind(Div(Sf(s), b), QuotientKind(ScalingFactorKind, KindOf(b)))
  {
    match b
    case Num(n) => FactorOverNumberKind(s, n);
    case U(u) => FactorOverUnitKind(s, u);
    case Cu(c) => FactorOverCompositeKind(s, c);
    case Q(q) => FactorOverQuantityKind(s, q);
    case _ =>
  }

  lemma FactorOverNumberKind(s: ScalingFactor, n: real)
    requires n != 0.0
    ensures YieldsKind(Div(Sf(s), Num(n)), QuotientKind(ScalingFactorKind, NumberKind))
  {
    UnitPowerCanonical(ScaledBy(One, s), 1);
  }

  lemma FactorOverUnitKind(s: ScalingFactor, u: Unit)
    requires u.scalingFactor.factor != 0.0
    ensures YieldsKind(Div(Sf(s), U(u)), QuotientKind(ScalingFactorKind, UnitKind))
  {
    UnitPowerCanonical(u, -1);
    TimesFactorCanonical(UnitPower(u, -1).value, s.factor);
  }

  lemma FactorOverCompositeKind(s: ScalingFactor, c: CompositeUnit)
    requires Canonical(c) && c.displayFactor != 0.0
    ensures YieldsKind(Div(Sf(s), Cu(c)), QuotientKind(ScalingFactorKind, CompositeUnitKind))
  {
    CuPowerMeaning(c, -1);
    TimesFactorCanonical(CuPower(c, -1).value, s.factor);
  }

  lemma FactorOverQuantityKind(s: ScalingFactor, q: Quantity)
    requires Canonical(q.unit) && q.unit.displayFactor != 0.0
    ensures YieldsKind(Div(Sf(s), Q(q)), QuotientKind(ScalingFactorKind, QuantityKind))
  {
    FactorOverQuantityUnit(q, s);
    FactorOverCompositeKind(s, q.unit);
  }

  lemma DivKindsFromUnit(u: Unit, b: Operand)
    requires Admissible(b) && NonzeroDivisor(U(u), b)
    ensures YieldsKind(Div(U(u), b), QuotientKind(UnitKind, KindOf(b)))
  {
    match b
    case Num(n) => UnitOverNumberKind(u, n);
    case U(v) => UnitOverUnitKind(u, v);
    case Cu(c) => UnitOverCompositeKind(u, c);
    case Q(q) => UnitOverQuantityKind(u, q);
    case _ =>
  }

  lemma UnitOverNumberKind(u: Unit, n: real)
    requires n != 0.0
    ensures YieldsKind(Div(U(u), Num(n)), QuotientKind(UnitKind, NumberKind))
  {
    UnitPowerCanonical(u, 1);
  }

  lemma UnitOverUnitKind(u: Unit, v: Unit)
    requires v.scalingFactor.factor != 0.0
    ensures YieldsKind(Div(U(u), U(v)), QuotientKind(UnitKind, UnitKind))
  {
    UnitPairMeaning(u, v, 1, -1);
  }

  lemma UnitOverCompositeKind(u: Unit, c: CompositeUnit)
    requires Canonical(c) && c.displayFactor != 0.0
    ensures YieldsKind(Div(U(u), Cu(c)), QuotientKind(UnitKind, CompositeUnitKind))
  {
    UnitOverMeaning(u, c);
  }

  lemma UnitOverQuantityKind(u: Unit, q: Quantity)
    requires Canonical(q.unit) && q.unit.displayFactor != 0.0
    ensures YieldsKind(Div(U(u), Q(q)), QuotientKind(UnitKind, QuantityKind))
  {
    UnitOverMeaning(u, q.unit);
  }

  lemma DivKindsFromComposite(c: CompositeUnit, b: Operand)
    requires Canonical(c) && Admissible(b) && NonzeroDivisor(Cu(c), b)
    ensures YieldsKind(Div(Cu(c), b), QuotientKind(CompositeUnitKind, KindOf(b)))
  {
    match b
    case Sf(s) => CompositeOverFactorKind(c, s);
    case U(u) => CompositeOverUnitKind(c, u);
    case Cu(d) => CompositeOverCompositeKind(c, d);
    case Q(q) => CompositeOverQuantityKind(c, q);
    case _ =>
  }

  lemma CompositeOverFactorKind(c: CompositeUnit, s: ScalingFactor)
    requires Canonical(c) && s.factor != 0.0
    ensures YieldsKind(Div(Cu(c), Sf(s)), QuotientKind(CompositeUnitKind, ScalingFactorKind))
  {
    OverFactorMeaning(c, s.factor);
  }

  lemma CompositeOverUnitKind(c: CompositeUnit, u: Unit)
    requires Canonical(c) && u.scalingFactor.factor != 0.0
    ensures YieldsKind(Div(Cu(c), U(u)), QuotientKind(CompositeUnitKind, UnitKind))
  {
    AppendMeaning(c, u, -1);
  }

  lemma CompositeOverCompositeKind(c: CompositeUnit, d: CompositeUnit)
    requires Canonical(c) && Canonical(d) && d.displayFactor != 0.0
    ensures YieldsKind(Div(Cu(c), Cu(d)), QuotientKind(CompositeUnitKind, CompositeUnitKind))
  {
    QuotientMeaning(c, d);
  }

  lemma CompositeOverQuantityKind(c: CompositeUnit, q: Quantity)
    requires Canonical(c) && Canonical(q.unit) && q.unit.displayFactor != 0.0
    ensures YieldsKind(Div(Cu(c), Q(q)), QuotientKind(CompositeUnitKind, QuantityKind))
  {
    QuotientMeaning(c, q.unit);
  }

  lemma DivKindsFromQuantity(q: Quantity, b: Operand)
    requires Canonical(q.unit) && Admissible(b) && NonzeroDivisor(Q(q), b)
    ensures YieldsKind(Div(Q(q), b), QuotientKind(QuantityKind, KindOf(b)))
  {
    match b
    case Sf(s) => QuantityOverFactorKind(q, s);
    case U(u) => QuantityOverUnitKind(q, u);
    case Cu(d) => QuantityOverCompositeKind(q, d);
    case Q(p) => QuantityOverQuantityKind(q, p);
    case _ =>
  }

  lemma QuantityOverFactorKind(q: Quantity, s: ScalingFactor)
    requires Canonical(q.unit) && s.factor != 0.0
    ensures YieldsKind(Div(Q(q), Sf(s)), QuotientKind(QuantityKind, ScalingFactorKind))
  {
    OverFactorMeaning(q.unit, s.factor);
  }

  lemma QuantityOverUnitKind(q: Quantity, u: Unit)
    requires Canonical(q.unit) && u.scalingFactor.factor != 0.0
    ensures YieldsKind(Div(Q(q), U(u)), QuotientKind(QuantityKind, UnitKind))
  {
    AppendMeaning(q.unit, u, -1);
  }

  lemma QuantityOverCompositeKind(q: Quantity, d: CompositeUnit)
    requires Canonical(q.unit) && Canonical(d) && d.displayFactor != 0.0
    ensures YieldsKind(Div(Q(q), Cu(d)), QuotientKind(QuantityKind, CompositeUnitKind))
  {
    QuotientMeaning(q.unit, d);
  }

  lemma QuantityOverQuantityKind(q: Quantity, p: Quantity)
    requires Canonical(q.unit) && Canonical(p.unit) && p.value != 0.0 && p.unit.displayFactor != 0.0
    ensures YieldsKind(Div(Q(q), Q(p)), QuotientKind(QuantityKind, QuantityKind))
  {
    QuotientMeaning(q.unit, p.unit);
  }

  lemma DivFailsFromNumber(x: real, b: Operand)
    requires Admissible(b) && !NonzeroDivisor(Num(x), b)
    ensures Div(Num(x), b) == Err(ZeroDivisionError)
  {
    match b
    case U(u) => UnitPowerMeaning(u, -1);
    case Cu(c) => CuPowerMeaning(c, -1);
    case _ =>
  }

  lemma DivFailsFromFactor(s: ScalingFactor, b: Operand)
    requires Admissible(b) && !NonzeroDivisor(Sf(s), b)
    ensures Div(Sf(s), b) == Err(ZeroDivisionError)
  {
    match b
    case U(u) => UnitPowerMeaning(u, -1);
    case Cu(c) => CuPowerMeaning(c, -1);
    case Q(q) =>
      FactorOverQuantityUnit(q, s);
      CuPowerMeaning(q.unit, -1);
    case _ =>
  }

  lemma DivFailsFromUnit(u: Unit, b: Operand)
    requires Admissible(b) && !NonzeroDivisor(U(u), b)
    ensures Div(U(u), b) == Err(ZeroDivisionError)
  {
    match b
    case U(v) => UnitPairMeaning(u, v, 1, -1);
    case Cu(c) => UnitOverMeaning(u, c);
    case Q(q) =>
      UnitOverQuantityUnit(q, u);
      UnitOverMeaning(u, q.unit);
    case _ =>
  }

  lemma DivFailsFromComposite(c: CompositeUnit, b: Operand)
    requires Canonical(c) && Admissible(b) && !NonzeroDivisor(Cu(c), b)
    ensures Div(Cu(c), b) == Err(ZeroDivisionError)
  {
    match b
    case Sf(s) => OverFactorMeaning(c, s.factor);
    case U(u) => AppendMeaning(c, u, -1);
    case Cu(d) => QuotientMeaning(c, d);
    case Q(q) =>
      CompositeOverQuantityUnit(q, c);
      QuotientMeaning(c, q.unit);
    case _ =>
  }

  lemma DivFailsFromQuantity(q: Quantity, b: Operand)
    requires Canonical(q.unit) && Admissible(b) && !NonzeroDivisor(Q(q), b)
    ensures Div(Q(q), b) == Err(ZeroDivisionError)
  {
    match b
    case Sf(s) => OverFactorMeaning(q.unit, s.factor);
    case U(u) => AppendMeaning(q.unit, u, -1);
    case Cu(d) => QuotientMeaning(q.unit, d);
    case Q(p) => QuotientMeaning(q.unit, p.unit);
    case _ =>
  }

  /** Dividing anything by the number zero raises ZeroDivisionError. */
  lemma DivByZero(a: Operand)
    ensures Div(a, Num(0.0)) == Err(ZeroDivisionError)
  {
  }
}
