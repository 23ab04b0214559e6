# connvert units and multiton, in Dafny

This project models two parts of the `connvert` package.

**The dimensional-unit algebra** of `src/connvert/units.py`:

- A `ScalingFactor` is a named prefix such as `kilo`.
- A `Unit` is an atomic unit: physical dimension, name, symbol, referent and scaling factor.
- A `CompositeUnit` is a monomial over unscaled units with one aggregate `display_factor`.
- A `Quantity` is a value paired with a composite unit.

Every operator builds its composite through the `CompositeUnit` constructor.
The constructor folds each component's scaling factor into the aggregate factor.
It re-keys each component to its unscaled unit and sums duplicate exponents.
It then drops zero exponents and the unit `one`.
The operators (`*`, `/`, `**`, `+`, `-`, unary `-`, `==`) form a case table over numbers, prefixes, units, composites and quantities.
Python settles each expression by trying the forward method, then the reflected one, then raising `TypeError`.

**The interning metaclass** `MultitonMeta` of `src/connvert/_base.py`:

- `MultitonMeta.__call__` binds the constructor arguments to the signature of `__init__` and applies the defaults.
- It drops `self` and merges `**kwargs` flat into the other arguments.
- It sorts the items and pairs them with the class to form the registry index.
- It returns the instance stored under that index, building and storing one only on first use.

The test `tests/test__base.py:7-33` is modelled as a method that makes the thirteen calls of the test on a registry.

Modules:

| file | module | contents |
|---|---|---|
| `powers.dfy` | `Powers` | `x ** n` on reals for integral `n` |
| `dicts.dfy` | `Dicts` | Python's insertion-ordered `dict` as a sequence of pairs: `get`, assignment, `pop`, `\|=` and their map readings |
| `unit_types.dfy` | `UnitTypes` | the value types, the exceptions, `Unit.but` |
| `normalization.dfy` | `Normalization` | the `CompositeUnit` constructor as a loop, and its reference definitions |
| `composites.dfy` | `Composites` | the constructor calls each operator makes, and what each yields |
| `operators.dfy` | `Operators` | every operator method, and Python's binary-operator protocol |
| `dispatch.dfy` | `Dispatch` | how the methods delegate to one another, and the table of result types |
| `algebra.dfy` | `Algebra` | the algebraic laws, stated on whole Python expressions |
| `palette.dfy` | `Palette` | the prefixes, base units and derived units |
| `multiton.dfy` | `Multiton` | argument standardization, the registry index, and the registry class |
| `multitonicity.dfy` | `Multitonicity` | the test class `A` and the test's calls |

Floats are modelled as `real` and numbers of both Python types as one `Num` operand.
Instances of `ScalingFactor` and `Unit` are interned by the metaclass, so two of them are the same object exactly when their constructor arguments agree.
The model therefore represents them as datatype values, and Python's identity comparison becomes structural equality.

`Quantity(v, s)` with a `ScalingFactor` `s` raises `TypeError` (`src/connvert/units.py:149-158`); only a `Unit` is wrapped in a composite.

## Model

| member | source | states |
|---|---|---|
| Powers.NatPow | src/connvert/units.py:235 | a natural power of a nonzero factor is nonzero |
| Powers.Pow | src/connvert/units.py:235 | an integral power of a nonzero factor is nonzero; a negative power needs a nonzero base |
| Powers.PowOfOne | src/connvert/units.py:235 | raising the unscaled factor 1 to any power gives 1 |
| Powers.PowOfMinusOne | src/connvert/units.py:326-332 | `r ** -1` is the reciprocal of `r` and cancels it |
| Dicts.Keys | src/connvert/units.py:239 | `tuple(d.keys())` lists the keys in insertion order |
| Dicts.Values | src/connvert/units.py:240 | `tuple(d.values())` lists the values in insertion order |
| Dicts.GetPut | src/connvert/units.py:236-237 | after `d[k] = v`, `get` reads `v` at `k` and the old entries elsewhere |
| Dicts.PutNew | src/connvert/units.py:237 | assigning to an absent key appends the item at the end |
| Dicts.PutKeepsKeysDistinct | src/connvert/units.py:237 | assignment never creates a second item for a key |
| Dicts.AsMapPut | src/connvert/units.py:237 | on a duplicate-free dict, assignment is map update |
| Dicts.Remove | src/connvert/_base.py:28 | `pop(k)` leaves exactly the other keys |
| Dicts.AsMapRemove | src/connvert/_base.py:28 | as a map, `pop(k)` is map subtraction of `k` |
| Dicts.GetRemove | src/connvert/_base.py:28 | `pop(k)` leaves every other entry readable as before |
| Dicts.AsMapUpdate | src/connvert/_base.py:29 | `d \|= e` keeps the keys distinct and is the map union in which `e` wins |
| UnitTypes.But | src/connvert/units.py:412-424 | `u.but(...)` replaces exactly the fields given and keeps all others |
| UnitTypes.ButNothing | src/connvert/units.py:412-424 | `u.but()` is `u` |
| UnitTypes.ButIdempotent | src/connvert/units.py:412-424 | overriding the same fields twice is overriding them once |
| UnitTypes.Unscaled | src/connvert/units.py:236 | `u.but(scaling_factor=uni)` has scaling factor `uni` and `u`'s dimension, name, symbol and referent |
| Normalization.Zip | src/connvert/units.py:234 | `zip` stops at the shorter sequence and pairs elements by position |
| Normalization.Keep | src/connvert/units.py:238 | the filter keeps only nonzero exponents of units other than `one`, and adds no key |
| Normalization.Canonicalize | src/connvert/units.py:226-241 | the constructor over the zipped components; proved in Normalization.CanonicalizeFails, CanonicalizeCanonical, CanonicalizeFactor and CanonicalizeExponent |
| Normalization.FoldDict | src/connvert/units.py:234-237 | `_unit_dict` after the loop, or its ZeroDivisionError; proved in Normalization.FoldDefined, FoldKeys and FoldSums |
| Normalization.Construct | src/connvert/units.py:226-241 | the constructor's result is the normalized composite of its zipped arguments |
| Normalization.Accumulate | src/connvert/units.py:232-240 | the loop over the components computes the dict and factor that the reference fold defines |
| Normalization.VisitNext | src/connvert/units.py:234-237 | one iteration keeps the loop invariant: dict and factor are those of the components visited |
| Normalization.VisitedAll | src/connvert/units.py:238-240 | after the last iteration, the filtered dict and the factor form the constructor's result |
| Normalization.FoldDefined | src/connvert/units.py:234-237 | the loop stops, with ZeroDivisionError only, exactly when a component has factor 0 and a negative power |
| Normalization.FoldKeys | src/connvert/units.py:236-237 | the dict the loop builds has distinct keys, all unscaled |
| Normalization.FoldSums | src/connvert/units.py:236-237 | under each unscaled unit the dict holds the summed power of the components with that base |
| Normalization.RunningFactorProduct | src/connvert/units.py:232-235 | the running factor is `_factor` times the product of every component's `factor ** power` |
| Normalization.KeepReads | src/connvert/units.py:238 | filtering keeps keys distinct and reads 0 for `one` and the old exponent elsewhere |
| Normalization.CanonicalizeFails | src/connvert/units.py:232-240 | the constructor fails exactly when some component raises, and then with ZeroDivisionError |
| Normalization.CanonicalizeCanonical | src/connvert/units.py:233-240 | every constructed composite has distinct, unscaled units other than `one`, each with a nonzero exponent |
| Normalization.CanonicalizeFactor | src/connvert/units.py:232-235 | the aggregate factor is `_factor` times every component's factor raised to its power |
| Normalization.CanonicalizeExponent | src/connvert/units.py:236-238 | each base unit's exponent is the sum of its components' powers (0 for `one`) |
| Normalization.NormalizeMeaning | src/connvert/units.py:226-241 | the full characterization of the constructor: failure condition, canonical form, factor and exponents |
| Composites.Product | src/connvert/units.py:252-257 | the constructor call of composite times composite; proved in Composites.ProductMeaning |
| Composites.Quotient | src/connvert/units.py:278-284 | the constructor call of composite over composite; proved in Composites.QuotientMeaning |
| Composites.Append | src/connvert/units.py:258-263 | the constructor call of composite times or over a unit; proved in Composites.AppendMeaning |
| Composites.TimesFactor | src/connvert/units.py:264-269 | the constructor call of composite times prefix; proved in Composites.TimesFactorMeaning |
| Composites.OverFactor | src/connvert/units.py:291-296 | the constructor call of composite over prefix; proved in Composites.OverFactorMeaning |
| Composites.UnitOver | src/connvert/units.py:310-315 | the constructor call of unit over composite; proved in Composites.UnitOverMeaning |
| Composites.FactorOver | src/connvert/units.py:316-321 | the constructor call of prefix over composite; proved in Composites.FactorOverMeaning |
| Composites.CuPower | src/connvert/units.py:326-332 | the constructor call of `c ** n`; proved in Composites.CuPowerMeaning |
| Composites.UnitPower | src/connvert/units.py:446-450 | the constructor call of `u ** n`; proved in Composites.UnitPowerMeaning |
| Composites.UnitPair | src/connvert/units.py:400-404 | the constructor call of a composite of two units; proved in Composites.UnitPairMeaning |
| Composites.Reconstruct | src/connvert/units.py:226-241 | rebuilding a canonical composite from its own components gives it back, with the given factor |
| Composites.CanonicalExponent | src/connvert/units.py:349 | a canonical composite's exponents are what its components sum to |
| Composites.MapExponent | src/connvert/units.py:349 | a unit is a key of a canonical composite's dict exactly when its exponent is nonzero |
| Composites.SameUnitMap | src/connvert/units.py:349 | canonical composites with the same exponents have the same unit-to-exponent dict |
| Composites.SameIff | src/connvert/units.py:348-351 | canonical composites compare equal exactly when their factors and all exponents agree, whatever the component order |
| Composites.NormalizeUnscaled | src/connvert/units.py:226-241 | unscaled components never raise, keep the factor, and give the summed exponents |
| Composites.ProductMeaning | src/connvert/units.py:252-257 | composite times composite adds the exponents and multiplies the factors |
| Composites.QuotientMeaning | src/connvert/units.py:278-284 | composite over composite subtracts the exponents and divides the factors, failing exactly on a zero divisor factor |
| Composites.AppendMeaning | src/connvert/units.py:258-263 | composite times or over a unit adds its base with power ±1 and that unit's factor to that power |
| Composites.TimesFactorMeaning | src/connvert/units.py:264-269 | composite times prefix changes only the factor |
| Composites.OverFactorMeaning | src/connvert/units.py:291-296 | composite over prefix changes only the factor, and a zero prefix raises |
| Composites.CuPowerMeaning | src/connvert/units.py:326-332 | `c ** n` multiplies every exponent by `n` and raises the factor to `n` |
| Composites.UnitPowerMeaning | src/connvert/units.py:446-450 | `u ** n` gives `u`'s base exponent `n` and factor `u.factor ** n` |
| Composites.UnitPairMeaning | src/connvert/units.py:400-404 | the composite of two units adds their contributions and multiplies their factors |
| Composites.UnitOverMeaning | src/connvert/units.py:310-315 | unit over composite negates the composite's exponents, adds the unit's base, and divides the factors |
| Composites.FactorOverMeaning | src/connvert/units.py:316-321 | prefix over composite negates the exponents and divides the prefix factor by the composite's |
| Operators.NewQuantity | src/connvert/units.py:138-158 | `Quantity(value, unit)`: no unit gives `one ** 1`, a unit its single-component composite, a composite itself, anything else TypeError; proved in Algebra.QuantityWithoutUnit and Algebra.QuantityConstruction |
| Operators.SfMul | src/connvert/units.py:58-70 | `ScalingFactor.__mul__` and `__rmul__` for each operand type; proved in Algebra.FactorTimesFactor, Algebra.FactorTimesNumber, Algebra.UnitTimesFactor and Dispatch.FactorTimesOne |
| Operators.SfDiv | src/connvert/units.py:72-83 | `ScalingFactor.__truediv__` for each operand type; proved in Algebra.FactorOverFactor, Algebra.FactorOverNumber, Algebra.FactorOverUnit and Dispatch.FactorTimesInverse |
| Operators.SfRDiv | src/connvert/units.py:85-96 | `ScalingFactor.__rtruediv__` through `uni / self`; proved in Algebra.NumberOverFactor, Algebra.UnitOverFactor and Dispatch.ReciprocalFactor |
| Operators.UnitMul | src/connvert/units.py:389-407 | `Unit.__mul__` for each operand type; proved in Algebra.UnitTimesFactor, Algebra.UnitTimesUnit, Algebra.UnitAndNumber and Dispatch.CompositeTimesUnit |
| Operators.UnitRMul | src/connvert/units.py:409-410 | `Unit.__rmul__` re-enters `self * other`; proved in Dispatch.UnitReflectedProduct |
| Operators.UnitDiv | src/connvert/units.py:426-434 | `Unit.__truediv__` by a number or a unit, declining anything else; proved in Algebra.UnitOverUnit and Algebra.UnitAndNumber |
| Operators.UnitRDiv | src/connvert/units.py:436-444 | `Unit.__rtruediv__`, a number over the unit giving a quantity in `self ** -1`; proved in Algebra.UnitAndNumber |
| Operators.CuMul | src/connvert/units.py:251-275 | `CompositeUnit.__mul__` and `__rmul__` for each operand type; proved in Algebra.CompositeTimesComposite, Algebra.CompositeTimesUnit and Composites.TimesFactorMeaning |
| Operators.CuDiv | src/connvert/units.py:277-299 | `CompositeUnit.__truediv__` for each operand type; proved in Algebra.CompositeOverComposite, Algebra.CompositeOverUnit and Composites.OverFactorMeaning |
| Operators.CuRDiv | src/connvert/units.py:301-324 | `CompositeUnit.__rtruediv__` for each operand type; proved in Algebra.NumberOverComposite, Composites.UnitOverMeaning and Composites.FactorOverMeaning |
| Operators.CuEq | src/connvert/units.py:348-351 | `CompositeUnit.__eq__`, raising AttributeError for a non-composite; proved in Composites.SameIff and Algebra.CompositeEqualsOther |
| Operators.QEq | src/connvert/units.py:166-171 | `Quantity.__eq__`; proved in Algebra.QuantityEquality and Algebra.QuantityEqualsOther |
| Operators.QPow | src/connvert/units.py:173-176 | `Quantity.__pow__`; proved in Algebra.QuantityPower |
| Operators.QNeg | src/connvert/units.py:178-179 | `Quantity.__neg__`; proved in Algebra.QuantityNegation |
| Operators.QAdd | src/connvert/units.py:192-198 | `Quantity.__add__`; proved in Algebra.QuantitySum and Algebra.SumNeedsQuantities |
| Operators.QSub | src/connvert/units.py:184-190 | `Quantity.__sub__`; proved in Algebra.QuantityDifference and Algebra.SumNeedsQuantities |
| Operators.QMul | src/connvert/units.py:200-208 | `Quantity.__mul__` and `__rmul__`; proved in Algebra.QuantityProduct, Algebra.QuantityTimesNumber and Dispatch.QuantityProductDelegates |
| Operators.QDiv | src/connvert/units.py:210-215 | `Quantity.__truediv__`; proved in Algebra.QuantityQuotient, Algebra.QuantityAndNumberQuotients and Dispatch.QuantityQuotientDelegates |
| Operators.QRDiv | src/connvert/units.py:217-222 | `Quantity.__rtruediv__`; proved in Algebra.QuantityAndNumberQuotients, Algebra.UnitOverQuantity and Dispatch.QuantityReverseDelegates |
| Operators.Settle | tests/test_units.py:56-58 | Python's rule for `a op b`: the forward answer, else the reflected one when the types differ, else TypeError; the result types it yields are proved in Dispatch.MulKinds and Dispatch.DivKinds |
| Operators.Mul | tests/test_units.py:56-58 | `a * b` for any two operands; proved in Dispatch.MulKinds and the product lemmas of Algebra |
| Operators.Div | tests/test_units.py:66-71 | `a / b` for any two operands; proved in Dispatch.DivKinds, Dispatch.DivByZero and the quotient lemmas of Algebra |
| Operators.Add | src/connvert/units.py:192-198 | `a + b`; proved in Algebra.QuantitySum, Algebra.QuantitySumCommutes and Algebra.SumNeedsQuantities |
| Operators.Sub | src/connvert/units.py:184-190 | `a - b`; proved in Algebra.QuantityDifference and Algebra.SumThenDifference |
| Operators.Power | src/connvert/units.py:326-333 | `a ** n` for each operand type; proved in Algebra.CompositePower, Composites.UnitPowerMeaning and Algebra.QuantityPower |
| Operators.Neg | src/connvert/units.py:178-179 | `-a`; proved in Algebra.QuantityNegation and Algebra.NegationNeedsQuantity |
| Operators.Equals | src/connvert/units.py:348-351 | `a == b` with the reflected `__eq__` and identity; proved in Algebra.CompositeEqualsOther, Algebra.QuantityEqualsOther and Composites.SameIff |
| Dispatch.FactorTimesOne | src/connvert/units.py:66-67 | `self * one` is the unit `one` scaled by the prefix |
| Dispatch.FactorTimesInverse | src/connvert/units.py:78-81 | prefix over unit or composite answers exactly what `self * other ** -1` evaluates to, the inverse scaled by the prefix, or the error of the inverse |
| Dispatch.ReciprocalFactor | src/connvert/units.py:85-96 | `uni / s`, `one / s` and `x * (uni / s)` are the reciprocal prefix and its uses |
| Dispatch.CompositeTimesUnit | src/connvert/units.py:398-399 | unit times composite delegates to the composite's product |
| Dispatch.UnitReflectedProduct | src/connvert/units.py:409-410 | `Unit.__rmul__` answers what `self * other` evaluates to |
| Dispatch.QuantityProductDelegates | src/connvert/units.py:200-208 | quantity times a unit type keeps the value and multiplies the unit |
| Dispatch.QuantityQuotientDelegates | src/connvert/units.py:210-215 | quantity over a unit type keeps the value and divides the unit |
| Dispatch.QuantityReverseDelegates | src/connvert/units.py:217-222 | a unit type over a quantity keeps the value and divides by the unit |
| Dispatch.QuantityUnits | src/connvert/units.py:200-215 | the units of two quantities combine through the composite constructor |
| Dispatch.UnitPowerCanonical | src/connvert/units.py:446-450 | a unit to a non-negative power, or with a nonzero factor, gives a canonical composite |
| Dispatch.MulKinds | tests/test_units.py:21-44 | `a * b` succeeds for any two operands, and its result has the type the test table gives, with the mirrored pairs |
| Dispatch.DivKinds | tests/test_units.py:46-48 | for admissible operands, `a / b` succeeds with the table's type (a prefix over a unit giving a composite) exactly when the divisor holds no zero the division divides by: no zero factor (except a quantity's unit under a number) and, for a number or quantity `a`, no zero value; otherwise it raises ZeroDivisionError |
| Dispatch.DivByZero | src/connvert/units.py:210-222 | dividing anything by the number 0 raises ZeroDivisionError |
| Algebra.EqualByMeaning | src/connvert/units.py:348-351 | canonical composites with equal factors and exponents compare equal |
| Algebra.NoExponents | src/connvert/units.py:238 | a canonical composite with every exponent 0 has no components |
| Algebra.FactorTimesFactor | src/connvert/units.py:58-64 | prefix times prefix joins names and symbols with "+" and multiplies the factors |
| Algebra.FactorProductAssociates | src/connvert/units.py:58-64 | prefix products associate exactly, names, symbols and factors |
| Algebra.FactorOverFactor | src/connvert/units.py:72-77 | prefix over prefix divides the factors and joins names with "+", as the product does |
| Algebra.ScaledOne | src/connvert/units.py:66-67 | `one` scaled by a prefix is the bare composite with that factor |
| Algebra.FactorTimesNumber | src/connvert/units.py:58-70 | prefix times number, either way round, is that many of the bare composite with the prefix factor |
| Algebra.FactorOverNumber | src/connvert/units.py:72-83 | prefix over number is the reciprocal number of the prefix, or ZeroDivisionError |
| Algebra.NumberOverFactor | src/connvert/units.py:85-96 | number over prefix keeps the number with the reciprocal factor, or ZeroDivisionError |
| Algebra.UnitTimesFactor | src/connvert/units.py:390-397 | unit times prefix, either way round, is the unit with only its scaling factor changed, to the joined product |
| Algebra.UnitOverFactor | src/connvert/units.py:85-96 | unit over prefix is the unit scaled by the reciprocal prefix `uni / s`, or ZeroDivisionError |
| Algebra.FactorOverUnit | src/connvert/units.py:78-81 | prefix over unit is a composite with the unit's base to -1 and the divided factor |
| Algebra.UnitTimesUnit | src/connvert/units.py:400-404 | unit times unit is the composite of both bases to the first power with the product factor |
| Algebra.CompositeTimesUnit | src/connvert/units.py:258-263 | composite times unit, either way round, adds one to the unit's base exponent |
| Algebra.UnitProductCommutes | src/connvert/units.py:400-404 | `u * v == v * u` |
| Algebra.UnitTriple | src/connvert/units.py:258-263 | both bracketings of `u * v * w` give the same factor and exponents |
| Algebra.UnitProductAssociates | src/connvert/units.py:258-263 | `(u * v) * w == u * (v * w)` |
| Algebra.UnitFirstPower | src/connvert/units.py:446-450 | `u ** 1` is `u`'s base to the first power with `u`'s factor |
| Algebra.UnitAndNumber | src/connvert/units.py:405-438 | `u * n` and `n * u` are `n` in `u ** 1`; `u / n` is `1 / n` in `u ** 1`, or ZeroDivisionError for 0; `n / u` is `n` in `u ** -1`, or ZeroDivisionError for a zero factor |
| Algebra.UnitOverUnit | src/connvert/units.py:429-433 | unit over unit adds the numerator's base and subtracts the divisor's |
| Algebra.UnitRatioCancels | src/connvert/units.py:429-433 | `(u / v) * v == u ** 1`, while comparing it with the unit `u` itself raises AttributeError |
| Algebra.CompositeTimesComposite | src/connvert/units.py:252-257 | composite product adds exponents and multiplies factors |
| Algebra.CompositeProductCommutes | src/connvert/units.py:252-257 | `a * b == b * a` for composites |
| Algebra.CompositeTriple | src/connvert/units.py:252-257 | both bracketings of `a * b * c` give the same factor and exponents |
| Algebra.CompositeProductAssociates | src/connvert/units.py:252-257 | `(a * b) * c == a * (b * c)` for composites |
| Algebra.CompositeOverCompositeIs | src/connvert/units.py:278-284 | composite quotient subtracts exponents and divides factors |
| Algebra.CompositeOverComposite | src/connvert/units.py:278-284 | composite quotient fails exactly on a zero divisor factor, with ZeroDivisionError |
| Algebra.NumberOverComposite | src/connvert/units.py:322-323 | `n / c` is `n` in the unit `c ** -1` |
| Algebra.CompositeRatioCancels | src/connvert/units.py:252-284 | `(a / b) * b == a` |
| Algebra.CompositeOverUnit | src/connvert/units.py:285-290 | composite over unit subtracts one from the unit's base exponent |
| Algebra.CompositeOverUnitCancels | src/connvert/units.py:258-290 | `(c / u) * u == c` |
| Algebra.CompositePower | src/connvert/units.py:326-332 | `c ** n` multiplies every exponent by `n` and raises the factor, failing only for a zero factor and `n < 0` |
| Algebra.CompositeFirstPower | src/connvert/units.py:326-332 | `c ** 1 == c` |
| Algebra.InverseTimes | src/connvert/units.py:326-332 | `c ** -1 * c` has factor 1 and no exponent left |
| Algebra.CompositeInverse | src/connvert/units.py:326-332 | `c ** -1 * c` is the bare composite with factor 1 |
| Algebra.CompositeEqualsOther | src/connvert/units.py:348-351 | comparing a composite with a number, prefix or unit, either way round, raises AttributeError |
| Algebra.QuantityWithoutUnit | src/connvert/units.py:144-148 | `Quantity(v)` has the bare composite with factor 1, since `one` is dropped |
| Algebra.QuantityConstruction | src/connvert/units.py:149-158 | a unit becomes its single-component composite, a composite is kept, anything else raises TypeError |
| Algebra.QuantityEquality | src/connvert/units.py:166-171 | quantities compare equal exactly when values, factors and exponents agree |
| Algebra.QuantityEqualsOther | src/connvert/units.py:166-171 | comparing a quantity with a number raises AttributeError; with a prefix, unit or composite it is false, or raises from the composite side |
| Algebra.QuantitySum | src/connvert/units.py:192-198 | `q + p` adds values and keeps the unit exactly when the units agree, and raises TypeError otherwise |
| Algebra.QuantityDifference | src/connvert/units.py:184-190 | `q - p` subtracts values under the same condition |
| Algebra.SumNeedsQuantities | src/connvert/units.py:184-198 | adding or subtracting a quantity and a non-quantity raises TypeError |
| Algebra.QuantitySumCommutes | src/connvert/units.py:192-198 | `q + p == p + q`, and both fail or neither does |
| Algebra.SumThenDifference | src/connvert/units.py:184-198 | `(q + p) - p` gives back `q` |
| Algebra.QuantityNegation | src/connvert/units.py:178-179 | `-(-q)` is `q`, and `q + (-q)` is zero in `q`'s unit |
| Algebra.NegationNeedsQuantity | src/connvert/units.py:178-179 | only numbers and quantities can be negated |
| Algebra.QuantityProduct | src/connvert/units.py:200-205 | `q * p` multiplies both the values and the units |
| Algebra.QuantityTimesNumber | src/connvert/units.py:200-208 | `q * n` and `n * q` scale only the value |
| Algebra.QuantityQuotient | src/connvert/units.py:210-215 | `q / p` divides values and units, failing exactly on a zero value or zero unit factor |
| Algebra.QuantityAndNumberQuotients | src/connvert/units.py:210-222 | `q / n` divides the value; `n / q` divides `n` by the value but keeps `q`'s unit uninverted |
| Algebra.UnitOverQuantity | src/connvert/units.py:217-222 | `u / q` divides `u` by `q`'s unit but keeps `q`'s value |
| Algebra.QuantityPower | src/connvert/units.py:173-176 | `q ** n` raises the value and the unit to `n` |
| Palette.KiloFactor | src/connvert/units.py:109 | the prefix `kilo` has factor 1000 |
| Palette.KilogramIsScaledGram | src/connvert/units.py:502 | `kilogram` is `gram` with the new prefix "+kilo" of factor 1000: neither `gram` nor scaled by `kilo` itself |
| Palette.KilogramMeter | src/connvert/units.py:509 | `kilogram * meter` has gram and meter to the first power and factor 1000 |
| Palette.BaseSquared | src/connvert/units.py:504 | an unscaled base unit squared has exponent 2 and factor 1 |
| Palette.NewtonMeaning | src/connvert/units.py:509 | `newton` is gram times meter over second squared, with factor 1000 |
| Palette.MeterKilogram | src/connvert/units.py:509 | `meter * kilogram` has the same exponents and factor as the other order |
| Palette.EqualQuotients | src/connvert/units.py:278-284 | dividing equal composites by the same divisor gives equal composites |
| Palette.NewtonInAnyOrder | src/connvert/units.py:509 | `newton` built with meter first compares equal to `newton` |
| Palette.MeterPerSecondTimesSecond | src/connvert/units.py:429-433 | `(meter / second) * second` equals `meter ** 1`, but comparing it with `meter` raises AttributeError |
| Palette.SteradianMeaning | src/connvert/units.py:504 | `steradian` is radian squared with factor 1 |
| Palette.MinuteAndHour | src/connvert/units.py:523-524 | `minute` and `hour` are quantities of 60 and 3600 seconds, not units |
| Palette.JouleDefined | src/connvert/units.py:510 | `joule` is gram times meter squared over second squared, with factor 1000, and 0 for every other base unit |
| Palette.CoulombDefined | src/connvert/units.py:512 | `coulomb` is ampere times second, with factor 1, and 0 for every other base unit |
| Palette.VoltDefined | src/connvert/units.py:513 | `volt` is gram meter squared over second cubed and ampere, with factor 1000, and 0 for every other base unit |
| Palette.OhmDefined | src/connvert/units.py:515 | `ohm` is gram meter squared over second cubed and ampere squared, with factor 1000, and 0 for every other base unit |
| Palette.WattDefined | src/connvert/units.py:511 | `watt` is gram meter squared over second cubed, with factor 1000, and 0 for every other base unit |
| Palette.FaradDefined | src/connvert/units.py:514 | `farad` is ampere squared and second to the fourth over gram and meter squared, with factor 1/1000, and 0 for every other base unit |
| Palette.WeberDefined | src/connvert/units.py:517 | `weber` is gram meter squared over second squared and ampere, with factor 1000, and 0 for every other base unit |
| Palette.TeslaDefined | src/connvert/units.py:518 | `tesla` is gram over second squared and ampere, with factor 1000, and 0 for every other base unit |
| Palette.HenryDefined | src/connvert/units.py:519 | `henry` is gram meter squared over second squared and ampere squared, with factor 1000, and 0 for every other base unit |
| Palette.LumenDefined | src/connvert/units.py:520 | `lumen` as written is coulomb times steradian: ampere, second and radian squared, no candela, with factor 1, and 0 for every other base unit |
| Palette.LuxDefined | src/connvert/units.py:521 | `lux` is lumen over meter squared: ampere, second and radian squared over meter squared, with factor 1, and 0 for every other base unit |
| Palette.SiemensIsAQuantity | src/connvert/units.py:516 | `siemens = 1 / ohm` is a quantity of value 1 in the unit `ohm ** -1`, not a unit |
| Palette.BecquerelMeaning | src/connvert/units.py:522 | the referent keeps `becquerel`'s numerator apart from `one`, so it is not dropped |
| Multiton.BindPositional | src/connvert/_base.py:25 | the positional pass of `sig.bind`; its outcome for `A` is proved in Multitonicity.PositionalPass and Multitonicity.PositionalPassToB |
| Multiton.BindKeywords | src/connvert/_base.py:25 | the keyword pass of `sig.bind`; its outcome for `A` is proved in Multitonicity.KeywordPassAtB and Multitonicity.KeywordPassFromC |
| Multiton.ApplyDefaults | src/connvert/_base.py:26 | `bound.apply_defaults()`; proved in Multiton.ApplyDefaultsAt, ApplyDefaultsMap, ApplyDefaultsDistinct and ApplyDefaultsOther |
| Multiton.Flatten | src/connvert/_base.py:28-29 | the two pops and the merge of `kwargs`; proved in Multiton.FlattenMeaning and Multiton.FlattenOfMap |
| Multiton.Standardize | src/connvert/_base.py:24-29 | `standardized_args`; proved in Multiton.DefaultsThenFlatten and Multitonicity.SampleStandardized |
| Multiton.KeyOf | src/connvert/_base.py:30 | the index of the standardized arguments; proved in Multiton.KeyOfMeaning, KeyIndependentOfOrder and KeyDeterminesArguments |
| Multiton.IndexOf | src/connvert/_base.py:24-30 | the index of a call; proved in Multiton.SameArgumentsSameIndex, IndexExists and DifferentArgumentsDifferentIndex |
| Multiton.Insert | src/connvert/_base.py:30 | inserting into the sorted items adds exactly that item |
| Multiton.Sorted | src/connvert/_base.py:30 | `sorted` returns a permutation of the items |
| Multiton.BelowIrreflexive | src/connvert/_base.py:30 | Python's string order is irreflexive |
| Multiton.BelowTransitive | src/connvert/_base.py:30 | Python's string order is transitive |
| Multiton.BelowTotal | src/connvert/_base.py:30 | any two different strings are ordered one way |
| Multiton.InsertAscending | src/connvert/_base.py:30 | inserting an item with a new name keeps the items ascending |
| Multiton.SortedAscending | src/connvert/_base.py:30 | the items of a dict come out of `sorted` in ascending name order |
| Multiton.AscendingUnique | src/connvert/_base.py:30 | two ascending sequences with the same items are equal |
| Multiton.SortedIndependentOfOrder | src/connvert/_base.py:30 | dicts with the same name-to-value mapping sort to the same items, whatever the keyword order |
| Multiton.KeyOfMeaning | src/connvert/_base.py:30 | the index holds the class and the items in ascending order, and fails exactly on an unhashable value |
| Multiton.KeyIndependentOfOrder | src/connvert/_base.py:30 | arguments with the same mapping give the same index |
| Multiton.KeyDeterminesArguments | src/connvert/_base.py:30 | equal indices come from equal mappings |
| Multiton.KeysOfDistinctClasses | src/connvert/_base.py:30 | different classes never share an index |
| Multiton.ApplyDefaultsDistinct | src/connvert/_base.py:26 | `apply_defaults` never creates a second item for a name |
| Multiton.ApplyDefaultsOther | src/connvert/_base.py:26 | `apply_defaults` leaves any name that is not a parameter as it was |
| Multiton.ApplyDefaultsAt | src/connvert/_base.py:26 | each parameter gets its bound value, else its default, else `()` or `{}` for `*args` or `**kwargs` |
| Multiton.ApplyDefaultsMap | src/connvert/_base.py:26 | as a map, `apply_defaults` assigns each parameter its resolved value |
| Multiton.FlattenMeaning | src/connvert/_base.py:28-29 | without `self` the pops raise KeyError; a non-dict `kwargs` raises TypeError; otherwise the result is the arguments without `self` and `kwargs`, joined by the `kwargs` entries |
| Multiton.DefaultsThenFlatten | src/connvert/_base.py:26-29 | defaults and then flattening give the resolved mapping without `self` and `kwargs`, joined by the `kwargs` entries |
| Multiton.FlattenOfMap | src/connvert/_base.py:28-29 | the same, read on the map of the arguments |
| Multiton.SameArgumentsSameIndex | src/connvert/_base.py:24-30 | two calls that standardize to the same mapping get the same index, however their arguments were written |
| Multiton.IndexExists | src/connvert/_base.py:24-30 | a call whose standardized values are hashable has an index |
| Multiton.DifferentArgumentsDifferentIndex | src/connvert/_base.py:24-30 | two calls that standardize to different mappings get different indices |
| Multiton.Registry.constructor | src/connvert/_base.py:21 | the registry starts empty |
| Multiton.Registry.Call | src/connvert/_base.py:23-36 | an index error propagates and the registry is unchanged; an existing instance is returned as is; a new index gets a fresh instance, stored under it; old entries are never replaced |
| Multitonicity.PositionalPass | src/connvert/_base.py:25 | `A(x, y, *rest, ...)` binds `self`, `a`, `b` and `args` positionally |
| Multitonicity.PositionalPassToB | src/connvert/_base.py:25 | `A(x, b=y, ...)` stops the positional pass at `b` |
| Multitonicity.KeywordPassAtB | src/connvert/_base.py:25 | the keyword pass takes `b` from the keywords and goes on to `c` |
| Multitonicity.KeywordPassFromC | src/connvert/_base.py:25 | the keyword pass binds `c`, `d` when given, and gathers other keywords into `kwargs` |
| Multitonicity.SampleResolved | src/connvert/_base.py:26 | `apply_defaults` gives `A`'s parameters their bound values or `()`, `"d"`, `{}` |
| Multitonicity.SampleStandardized | src/connvert/_base.py:26-29 | the standardized mapping of `A` is its named parameters joined flat by the extra keywords |
| Multitonicity.BindsPositionally | tests/test__base.py:13 | `A(x, y, *rest, c=z, **more)` standardizes to the expected mapping |
| Multitonicity.BindsByKeyword | tests/test__base.py:14 | `A(x, b=y, c=z, **more)` standardizes to the same mapping as the positional call |
| Multitonicity.ExpectedHashable | src/connvert/_base.py:30 | hashable arguments give a mapping of hashable values |
| Multitonicity.CallStandardizes | src/connvert/_base.py:24-30 | each call of the test standardizes to its expected mapping and has an index |
| Multitonicity.SameCallsSameIndex | tests/test__base.py:13-15 | calls that standardize alike share an index, whether `b` is positional or a keyword |
| Multitonicity.DifferentCallsDifferentIndex | tests/test__base.py:32-33 | calls that standardize differently get different indices |
| Multitonicity.CallKeyed | src/connvert/_base.py:31-36 | one call stores its instance under its index and keeps every earlier entry |
| Multitonicity.CallEach | src/connvert/_base.py:31-36 | calls made in order return the same instance exactly when their indices are equal |
| Multitonicity.StoredExtend | src/connvert/_base.py:31-36 | one more call keeps earlier instances stored and stores the new one |
| Multitonicity.SameKeySameInstance | src/connvert/_base.py:31-36 | instances stored under their own indices are shared exactly by equal indices |
| Multitonicity.KeysOf | src/connvert/_base.py:30 | every well-formed call of `A` has an index |
| Multitonicity.KeysMatchMappings | src/connvert/_base.py:24-30 | the calls' indices coincide exactly when their standardized mappings do |
| Multitonicity.TestCallsWellFormed | tests/test__base.py:13-30 | all thirteen calls of the test have hashable arguments and extra keywords only |
| Multitonicity.CodesDiffer | tests/test__base.py:32-33 | calls differing in `d`, in `*args` or in `e` standardize differently |
| Multitonicity.KeysByValues | tests/test__base.py:13-33 | calls passing the same values share an index, and calls that differ in `d`, `*args` or `e` do not |
| Multitonicity.SnowflakeCodes | tests/test__base.py:32 | the eight snowflakes differ pairwise in `d`, `*args` or `e` |
| Multitonicity.TestPairs | tests/test__base.py:13-28 | `a_0`/`a_1`, `a_2`/`a_3`/`a_4`, `a_7`/`a_8` and `a_9`/`a_10` pass the same values |
| Multitonicity.CallAll | src/connvert/_base.py:23-36 | calls of `A` in order: same values give the same instance, different `d`, `*args` or `e` give different ones |
| Multitonicity.CodedApart | tests/test__base.py:32-33 | calls whose codes all differ got pairwise distinct instances |
| Multitonicity.Multitonicity | tests/test__base.py:7-33 | the test's equalities hold, and the eight snowflakes are pairwise distinct instances |

## Left out

- Signature binding is modelled only for what `__init__` signatures need: positional-only, positional-or-keyword, `*args`, keyword-only and `**kwargs` parameters. Every binding error becomes `TypeError(BadArguments)`, without Python's message.
- `|=` with an iterable of pairs is left out; `kwargs` is always a dict when it comes from a `**kwargs` parameter.
- Python's numeric tower is one `real`. `1 == 1.0` and the int-versus-float rows of the result-type table (`int / int` gives `float`) are not told apart.
- Floats have no IEEE rounding. Factor products are exact, so associativity of factors holds in the model where rounding could break it.
- `turn`, `hertz`, `liter`, `barn` and `dalton` go through `PI` or float literals. They are not part of this model.
- Exponents are integers. The source accepts any number, but every use in the package is integral.
- `Quantity.__pos__` calls a `clone` method that does not exist, so it always raises. It is not part of this model.
- `__repr__` and `__str__` only format values for display. They are not part of this model.
- Hashing (`__hash__` on `Quantity`, `CompositeUnit` and `Unit`) is not modelled. `CompositeUnit.__hash__` depends on the component order while `__eq__` does not.
- `Referent` objects and the `PhysicalDimension` enum are plain values; a referent is its name.
- The `__init__` bodies of `ScalingFactor`, `Unit` and the test class `A` only store fields or do nothing. Construction is a fresh `Instance` holding the class.
- The instance stored for a new index is a fresh object of the class; what `super().__call__` runs inside `__init__` is not modelled.
- Interning of `ScalingFactor` and `Unit` is represented by structural equality of datatype values rather than by the registry class.
- Multitonicity.Multitonicity: the test's literals `1, 2, 3, 4, 0, -1` are generalized to any hashable values, with `d` given a value other than its default `"d"`. The classes the test creates are one `ClassRef`.
- Quantity equality with a number, `Quantity.__rtruediv__` with a number, and `ScalingFactor.__truediv__` joining names with "+" are modelled as written, not corrected.
