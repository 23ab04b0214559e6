/** The arithmetic operators of src/connvert/units.py and the rule Python
    follows to combine them.

    Each operator method (`__mul__`, `__rtruediv__`, ...) is a function that
    answers a value, `NotImplemented`, or a raised exception. Where a method
    calls a further operator on its way (`self * one`, `other ** -1`,
    `self.unit * other`), its body here is the branch that inner call
    reaches, and the lemmas at the end of this module check each of those
    against the full protocol. `Mul`, `Div`, `Add`, `Sub`, `Power` and `Neg`
    are the Python expressions `a * b`, `a / b`, `a + b`, `a - b`, `a ** n`
    and `-a`. */
module Operators {
  import opened Powers
  import opened UnitTypes
  import opened Normalization
  import opened Composites

  // ---------------------------------------------------------------------
  // Results.

  function Answer(r: Result<Operand>): Outcome {
    match r
    case Ok(v) => Returned(v)
    case Err(e) => Raised(e)
  }

  function AsComposite(r: Result<CompositeUnit>): Result<Operand> {
    match r
    case Ok(c) => Ok(Cu(c))
    case Err(e) => Err(e)
  }

  function AsQuantity(r: Result<Quantity>): Result<Operand> {
    match r
    case Ok(q) => Ok(Q(q))
    case Err(e) => Err(e)
  }

  // ---------------------------------------------------------------------
  // Quantity construction (units.py:138-158).

  /** The `unit` argument of `Quantity(value, unit=None)`. */
  datatype UnitArgument = NoUnit | Given(x: Operand)

  /** `Quantity(value, c)` for a composite the caller has just computed. */
  function WithComposite(value: real, unit: Result<CompositeUnit>): Result<Quantity> {
    match unit
    case Ok(c) => Ok(Quantity(value, c))
    case Err(e) => Err(e)
  }

  /** `Quantity(value, unit)`: no unit means the composite of the
      nondimensional unit, a unit is wrapped as its only component, a
      composite is kept, and anything else raises TypeError. */
  function NewQuantity(value: real, unit: UnitArgument): Result<Quantity> {
    match unit
    case NoUnit => WithComposite(value, UnitPower(One, 1))
    case Given(U(u)) => WithComposite(value, UnitPower(u, 1))
    case Given(Cu(c)) => Ok(Quantity(value, c))
    case Given(_) => Err(TypeError(NotAUnit))
  }

  // ---------------------------------------------------------------------
  // ScalingFactor (units.py:58-96).

  /** The scaling factor `a * b` builds: names and symbols joined with "+",
      factors multiplied (units.py:60-64). */
  function SfTimes(a: ScalingFactor, b: ScalingFactor): ScalingFactor {
    Joined(a, b, "+", Mult(a.factor, b.factor))
  }

  /** The scaling factor `a / b` builds: joined with "+" as well, factors
      divided (units.py:74-78). */
  function SfOver(a: ScalingFactor, b: ScalingFactor): ScalingFactor
    requires b.factor != 0.0
  {
    Joined(a, b, "+", a.factor / b.factor)
  }

  /** `u * s` (units.py:390-397): the unit with its scaling factor
      multiplied by `s`. */
  function ScaledBy(u: Unit, s: ScalingFactor): Unit {
    u.(scalingFactor := SfTimes(u.scalingFactor, s))
  }

  /** `ScalingFactor.__mul__`, also its `__rmul__` (units.py:58-70). A
      number gives `Quantity(other, self * one)`. */
  function SfMul(s: ScalingFactor, other: Operand): Outcome {
    match other
    case Sf(t) => Returned(Sf(SfTimes(s, t)))
    case Num(n) => Answer(AsQuantity(WithComposite(n, UnitPower(ScaledBy(One, s), 1))))
    case _ => NotImplemented
  }

  /** `ScalingFactor.__truediv__` (units.py:72-83). A unit or composite
      `other` gives `self * (other ** -1)`, which the composite's
      `__rmul__` answers. */
  function SfDiv(s: ScalingFactor, other: Operand): Outcome {
    match other
    case Sf(t) => if t.factor == 0.0 then Raised(ZeroDivisionError) else Returned(Sf(SfOver(s, t)))
    case Num(n) =>
      if n == 0.0 then Raised(ZeroDivisionError)
      else Answer(AsQuantity(WithComposite(1.0 / n, UnitPower(ScaledBy(One, s), 1))))
    case U(u) =>
      (match UnitPower(u, -1)
       case Err(e) => Raised(e)
       case Ok(c) => Answer(AsComposite(TimesFactor(c, s.factor))))
    case Cu(c) =>
      (match CuPower(c, -1)
       case Err(e) => Raised(e)
       case Ok(d) => Answer(AsComposite(TimesFactor(d, s.factor))))
    case Q(_) => NotImplemented
  }

  /** `ScalingFactor.__rtruediv__`, `other / self` (units.py:85-96). A
      number gives `Quantity(other, one / self)` and a unit or composite
      gives `other * (uni / self)`; both divide `uni` by `self` first. */
  function SfRDiv(s: ScalingFactor, other: Operand): Outcome {
    match other
    case Sf(t) =>
      if s.factor == 0.0 then Raised(ZeroDivisionError)
      else Returned(Sf(Joined(s, t, "/", t.factor / s.factor)))
    case Num(n) =>
      if s.factor == 0.0 then Raised(ZeroDivisionError)
      else Answer(AsQuantity(WithComposite(n, UnitPower(ScaledBy(One, SfOver(Uni, s)), 1))))
    case U(u) =>
      if s.factor == 0.0 then Raised(ZeroDivisionError)
      else Returned(U(ScaledBy(u, SfOver(Uni, s))))
    case Cu(c) =>
      if s.factor == 0.0 then Raised(ZeroDivisionError)
      else Answer(AsComposite(TimesFactor(c, SfOver(Uni, s).factor)))
    case Q(_) => NotImplemented
  }

  // ---------------------------------------------------------------------
  // Unit (units.py:389-450).

  /** `Unit.__mul__` (units.py:389-407). A composite gives `other * self`. */
  function UnitMul(u: Unit, other: Operand): Outcome {
    match other
    case Sf(s) => Returned(U(ScaledBy(u, s)))
    case Cu(c) => Answer(AsComposite(Append(c, u, 1)))
    case U(v) => Answer(AsComposite(UnitPair(u, v, 1, 1)))
    case Num(n) => Answer(AsQuantity(WithComposite(n, UnitPower(u, 1))))
    case Q(_) => NotImplemented
  }

  /** `Unit.__rmul__` (units.py:409-410) is `self * other`: the protocol
      again with the unit on the left, so `other`'s own `__rmul__` is asked
      when `Unit.__mul__` declines. */
  function UnitRMul(u: Unit, other: Operand): Outcome {
    var reflected := match other
      case Sf(s) => SfMul(s, U(u))
      case Cu(c) => CuMul(c, U(u))
      case Q(q) => QMul(q, U(u))
      case _ => NotImplemented;
    Answer(Settle(UnitMul(u, other), KindOf(other) == UnitKind, reflected))
  }

  /** `Unit.__truediv__` (units.py:426-434). */
  function UnitDiv(u: Unit, other: Operand): Outcome {
    match other
    case Num(n) =>
      if n == 0.0 then Raised(ZeroDivisionError)
      else Answer(AsQuantity(WithComposite(1.0 / n, UnitPower(u, 1))))
    case U(v) => Answer(AsComposite(UnitPair(u, v, 1, -1)))
    case _ => NotImplemented
  }

  /** `Unit.__rtruediv__`, `other / self` (units.py:436-444). A number
      gives `Quantity(other, self ** -1)`. */
  function UnitRDiv(u: Unit, other: Operand): Outcome {
    match other
    case Num(n) => Answer(AsQuantity(WithComposite(n, UnitPower(u, -1))))
    case U(v) => Answer(AsComposite(UnitPair(u, v, -1, 1)))
    case _ => NotImplemented
  }

  // ---------------------------------------------------------------------
  // CompositeUnit (units.py:251-351).

  /** `CompositeUnit.__mul__`, also its `__rmul__` (units.py:251-275). */
  function CuMul(c: CompositeUnit, other: Operand): Outcome {
    match other
    case Cu(d) => Answer(AsComposite(Product(c, d)))
    case U(u) => Answer(AsComposite(Append(c, u, 1)))
    case Sf(s) => Answer(AsComposite(TimesFactor(c, s.factor)))
    case Num(n) => Returned(Q(Quantity(n, c)))
    case Q(_) => NotImplemented
  }

  /** `CompositeUnit.__truediv__` (units.py:277-299). */
  function CuDiv(c: CompositeUnit, other: Operand): Outcome {
    match other
    case Cu(d) => Answer(AsComposite(Quotient(c, d)))
    case U(u) => Answer(AsComposite(Append(c, u, -1)))
    case Sf(s) => Answer(AsComposite(OverFactor(c, s.factor)))
    case Num(n) => if n == 0.0 then Raised(ZeroDivisionError) else Returned(Q(Quantity(1.0 / n, c)))
    case Q(_) => NotImplemented
  }

  /** `CompositeUnit.__rtruediv__`, `other / self` (units.py:301-324). A
      number gives `Quantity(other, self ** -1)`. */
  function CuRDiv(c: CompositeUnit, other: Operand): Outcome {
    match other
    case Cu(d) => Answer(AsComposite(Quotient(d, c)))
    case U(u) => Answer(AsComposite(UnitOver(u, c)))
    case Sf(s) => Answer(AsComposite(FactorOver(s.factor, c)))
    case Num(n) => Answer(AsQuantity(WithComposite(n, CuPower(c, -1))))
    case Q(_) => NotImplemented
  }

  /** `CompositeUnit.__eq__` (units.py:348-351). It reads
      `other.component_units` without checking the type first, so anything
      but a composite raises AttributeError. */
  function CuEq(c: CompositeUnit, other: Operand): Result<bool> {
    match other
    case Cu(d) => Ok(Same(c, d))
    case _ => Err(AttributeError)
  }

  // ---------------------------------------------------------------------
  // Quantity (units.py:166-222).

  /** `Quantity.__eq__` (units.py:166-171). Against a number it reads
      `other.value`, which a number lacks. */
  function QEq(q: Quantity, other: Operand): Result<bool> {
    match other
    case Q(p) => if q.value != p.value then Ok(false) else Ok(Same(q.unit, p.unit))
    case Num(_) => Err(AttributeError)
    case _ => Ok(false)
  }

  /** `Quantity.__pow__` (units.py:173-176); the value is raised first. */
  function QPow(q: Quantity, n: int): Result<Quantity> {
    if q.value == 0.0 && n < 0 then Err(ZeroDivisionError)
    else WithComposite(Pow(q.value, n), CuPower(q.unit, n))
  }

  /** `Quantity.__neg__` (units.py:178-179). */
  function QNeg(q: Quantity): Quantity {
    Quantity(-q.value, q.unit)
  }

  /** `Quantity.__add__` (units.py:192-198). */
  function QAdd(q: Quantity, other: Operand): Outcome {
    match other
    case Q(p) =>
      if !Same(q.unit, p.unit) then Raised(TypeError(UnitMismatch))
      else Returned(Q(Quantity(q.value + p.value, q.unit)))
    case _ => NotImplemented
  }

  /** `Quantity.__sub__` (units.py:184-190). */
  function QSub(q: Quantity, other: Operand): Outcome {
    match other
    case Q(p) =>
      if !Same(q.unit, p.unit) then Raised(TypeError(UnitMismatch))
      else Returned(Q(Quantity(q.value - p.value, q.unit)))
    case _ => NotImplemented
  }

  /** `Quantity.__mul__`, also its `__rmul__` (units.py:200-208). Any other
      operand gives `Quantity(self.value, self.unit * other)`, which the
      composite's `__mul__` answers. */
  function QMul(q: Quantity, other: Operand): Outcome {
    match other
    case Q(p) => Answer(AsQuantity(WithComposite(Mult(q.value, p.value), Product(q.unit, p.unit))))
    case Num(n) => Returned(Q(Quantity(Mult(q.value, n), q.unit)))
    case Sf(s) => Answer(AsQuantity(WithComposite(q.value, TimesFactor(q.unit, s.factor))))
    case U(u) => Answer(AsQuantity(WithComposite(q.value, Append(q.unit, u, 1))))
    case Cu(d) => Answer(AsQuantity(WithComposite(q.value, Product(q.unit, d))))
  }

  /** `Quantity.__truediv__` (units.py:210-215); the values are divided
      before the units. */
  function QDiv(q: Quantity, other: Operand): Outcome {
    match other
    case Q(p) =>
      if p.value == 0.0 then Raised(ZeroDivisionError)
      else Answer(AsQuantity(WithComposite(q.value / p.value, Quotient(q.unit, p.unit))))
    case Num(n) => if n == 0.0 then Raised(ZeroDivisionError) else Returned(Q(Quantity(q.value / n, q.unit)))
    case Sf(s) => Answer(AsQuantity(WithComposite(q.value, OverFactor(q.unit, s.factor))))
    case U(u) => Answer(AsQuantity(WithComposite(q.value, Append(q.unit, u, -1))))
    case Cu(d) => Answer(AsQuantity(WithComposite(q.value, Quotient(q.unit, d))))
  }

  /** `Quantity.__rtruediv__`, `other / self` (units.py:217-222). As
      written, a number divides the value but keeps the unit, and a unit
      type divides the unit but keeps the value. `s / self.unit` reaches
      `s * (self.unit ** -1)`, and `u / self.unit` the composite's
      `__rtruediv__`. */
  function QRDiv(q: Quantity, other: Operand): Outcome {
    match other
    case Q(p) =>
      if q.value == 0.0 then Raised(ZeroDivisionError)
      else Answer(AsQuantity(WithComposite(p.value / q.value, Quotient(p.unit, q.unit))))
    case Num(n) => if q.value == 0.0 then Raised(ZeroDivisionError) else Returned(Q(Quantity(n / q.value, q.unit)))
    case Sf(s) =>
      (match CuPower(q.unit, -1)
       case Err(e) => Raised(e)
       case Ok(d) => Answer(AsQuantity(WithComposite(q.value, TimesFactor(d, s.factor)))))
    case U(u) => Answer(AsQuantity(WithComposite(q.value, UnitOver(u, q.unit))))
    case Cu(d) => Answer(AsQuantity(WithComposite(q.value, Quotient(d, q.unit))))
  }

  // ---------------------------------------------------------------------
  // Numbers.

  datatype BinaryOperator = Plus | Minus | Times | Over

  /** Arithmetic on two numbers; true division by zero raises. */
  function Arithmetic(op: BinaryOperator, x: real, y: real): Outcome {
    match op
    case Plus => Returned(Num(x + y))
    case Minus => Returned(Num(x - y))
    case Times => Returned(Num(Mult(x, y)))
    case Over => if y == 0.0 then Raised(ZeroDivisionError) else Returned(Num(x / y))
  }

  // ---------------------------------------------------------------------
  // The protocol.

  /** `a.__op__(b)`; a class without the method declines. */
  function Forward(op: BinaryOperator, a: Operand, b: Operand): Outcome {
    match a
    case Num(x) => if b.Num? then Arithmetic(op, x, b.x) else NotImplemented
    case Sf(s) => if op == Times then SfMul(s, b) else if op == Over then SfDiv(s, b) else NotImplemented
    case U(u) => if op == Times then UnitMul(u, b) else if op == Over then UnitDiv(u, b) else NotImplemented
    case Cu(c) => if op == Times then CuMul(c, b) else if op == Over then CuDiv(c, b) else NotImplemented
    case Q(q) =>
      match op
      case Plus => QAdd(q, b)
      case Minus => QSub(q, b)
      case Times => QMul(q, b)
      case Over => QDiv(q, b)
  }

  /** `b.__rop__(a)`, the reflected method of the right operand. Quantity
      has no `__radd__` or `__rsub__`; no class of the core has either. */
  function Reflected(op: BinaryOperator, b: Operand, a: Operand): Outcome {
    match b
    case Num(y) => if a.Num? then Arithmetic(op, a.x, y) else NotImplemented
    case Sf(s) => if op == Times then SfMul(s, a) else if op == Over then SfRDiv(s, a) else NotImplemented
    case U(u) => if op == Times then UnitRMul(u, a) else if op == Over then UnitRDiv(u, a) else NotImplemented
    case Cu(c) => if op == Times then CuMul(c, a) else if op == Over then CuRDiv(c, a) else NotImplemented
    case Q(q) => if op == Times then QMul(q, a) else if op == Over then QRDiv(q, a) else NotImplemented
  }

  /** How Python settles `a op b`: the forward answer if there is one; when
      it declines and the operands differ in type, the reflected answer;
      TypeError when both decline. Exceptions propagate. */
  function Settle(forward: Outcome, sameType: bool, reflected: Outcome): Result<Operand> {
    match forward
    case Returned(v) => Ok(v)
    case Raised(e) => Err(e)
    case NotImplemented =>
      if sameType then Err(TypeError(UnsupportedOperands))
      else
        match reflected
        case Returned(v) => Ok(v)
        case Raised(e) => Err(e)
        case NotImplemented => Err(TypeError(UnsupportedOperands))
  }

  function Binary(op: BinaryOperator, a: Operand, b: Operand): Result<Operand> {
    Settle(Forward(op, a, b), KindOf(a) == KindOf(b), Reflected(op, b, a))
  }

  /** `a * b` */
  function Mul(a: Operand, b: Operand): Result<Operand> {
    Binary(Times, a, b)
  }

  /** `a / b` */
  function Div(a: Operand, b: Operand): Result<Operand> {
    Binary(Over, a, b)
  }

  /** `a + b` */
  function Add(a: Operand, b: Operand): Result<Operand> {
    Binary(Plus, a, b)
  }

  /** `a - b` */
  function Sub(a: Operand, b: Operand): Result<Operand> {
    Binary(Minus, a, b)
  }

  /** `a ** n` for an integral exponent. A scaling factor has no
      `__pow__`, and `int.__rpow__` declines it. */
  function Power(a: Operand, n: int): Result<Operand> {
    match a
    case Num(x) => if x == 0.0 && n < 0 then Err(ZeroDivisionError) else Ok(Num(Pow(x, n)))
    case Sf(_) => Err(TypeError(UnsupportedOperands))
    case U(u) => AsComposite(UnitPower(u, n))
    case Cu(c) => AsComposite(CuPower(c, n))
    case Q(q) => AsQuantity(QPow(q, n))
  }

  /** `-a`: only numbers and quantities define it. */
  function Neg(a: Operand): Result<Operand> {
    match a
    case Num(x) => Ok(Num(-x))
    case Q(q) => Ok(Q(QNeg(q)))
    case _ => Err(TypeError(UnsupportedOperands))
  }

  /** `a == b`. Composites and quantities define `__eq__`; when the left
      operand does not, the right one's is asked, and otherwise identity
      decides, which for the interned scaling factors and units is equality
      of their fields. */
  function Equals(a: Operand, b: Operand): Result<bool> {
    match a
    case Q(q) => QEq(q, b)
    case Cu(c) => CuEq(c, b)
    case _ =>
      match b
      case Q(p) => QEq(p, a)
      case Cu(d) => CuEq(d, a)
      case _ => Ok(a == b)
  }
}
