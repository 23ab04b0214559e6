/** The values of the unit algebra in src/connvert/units.py.

    `ScalingFactor` and `Unit` are interned by their constructor arguments in
    the source (see the Multiton module), so two of them are the same object
    exactly when their fields agree; Dafny's structural equality on these
    datatypes stands for that identity. */
module UnitTypes {

  datatype Option<T> = None | Some(value: T)

  datatype PhysicalDimension =
    | Nondimensional
    | Length
    | Mass
    | Time
    | Current
    | Temperature
    | AmountOfSubstance
    | LuminousIntensity
    | Angle

  /** A named prefix such as kilo = 1e3. */
  datatype ScalingFactor = ScalingFactor(name: string, symbol: string, factor: real)

  /** An atomic unit. The referent tells apart units of the same dimension
      that must not compare equal. */
  datatype Unit = Unit(
    dimension: PhysicalDimension,
    name: string,
    symbol: string,
    referent: Option<string>,
    scalingFactor: ScalingFactor)

  /** A product of unscaled units raised to powers, with one aggregate
      factor. The two sequences are the two tuples the source stores; every
      value built through `Normalize` is in the form `Canonical` describes. */
  datatype CompositeUnit = CompositeUnit(
    componentUnits: seq<Unit>,
    componentPowers: seq<int>,
    displayFactor: real)

  datatype Quantity = Quantity(value: real, unit: CompositeUnit)

  /** The operands the arithmetic operators of the source accept: a Python
      number, a scaling factor, a unit, a composite unit or a quantity. */
  datatype Operand =
    | Num(x: real)
    | Sf(sf: ScalingFactor)
    | U(u: Unit)
    | Cu(cu: CompositeUnit)
    | Q(q: Quantity)

  datatype Kind = NumberKind | ScalingFactorKind | UnitKind | CompositeUnitKind | QuantityKind

  function KindOf(x: Operand): Kind {
    match x
    case Num(_) => NumberKind
    case Sf(_) => ScalingFactorKind
    case U(_) => UnitKind
    case Cu(_) => CompositeUnitKind
    case Q(_) => QuantityKind
  }

  /** Why a TypeError was raised. */
  datatype TypeErrorReason =
    | UnsupportedOperands   // both operand methods answered NotImplemented
    | UnitMismatch          // Quantity.__add__ / __sub__ on different units
    | NotAUnit              // Quantity(value, unit) with an unsuitable unit argument
    | BadArguments          // constructor arguments that do not bind to the signature
    | NotAMapping           // a `kwargs` argument that is not a dict
    | Unhashable            // a registry key holding a dict

  /** The Python exceptions the core raises. KeyError comes from the
      registry, when a constructor has no `self` parameter. */
  datatype Error = TypeError(reason: TypeErrorReason) | ZeroDivisionError | AttributeError | KeyError

  datatype Result<T> = Ok(value: T) | Err(error: Error)

  /** What one operator method (`__mul__`, `__rtruediv__`, ...) produces:
      a value, the NotImplemented marker, or a raised exception. */
  datatype Outcome = Returned(value: Operand) | NotImplemented | Raised(error: Error)

  /** The unscaled factor `uni`. */
  const Uni := ScalingFactor("", "", 1.0)

  /** The nondimensional unit `one`. */
  const One := Unit(Nondimensional, "", "", None, Uni)

  /** The keyword arguments `Unit.but` may override; `None` keeps the field. */
  datatype Overrides = Overrides(
    dimension: Option<PhysicalDimension>,
    name: Option<string>,
    symbol: Option<string>,
    referent: Option<Option<string>>,
    scalingFactor: Option<ScalingFactor>)

  const NoOverrides := Overrides(None, None, None, None, None)

  function OrElse<T>(o: Option<T>, t: T): T {
    match o
    case Some(v) => v
    case None => t
  }

  /** `u.but(**overrides)`: the unit with the given fields replaced. */
  function But(u: Unit, o: Overrides): (r: Unit)
    ensures o.dimension.None? ==> r.dimension == u.dimension
    ensures o.name.None? ==> r.name == u.name
    ensures o.symbol.None? ==> r.symbol == u.symbol
    ensures o.referent.None? ==> r.referent == u.referent
    ensures o.scalingFactor.None? ==> r.scalingFactor == u.scalingFactor
    ensures o.dimension.Some? ==> r.dimension == o.dimension.value
    ensures o.name.Some? ==> r.name == o.name.value
    ensures o.symbol.Some? ==> r.symbol == o.symbol.value
    ensures o.referent.Some? ==> r.referent == o.referent.value
    ensures o.scalingFactor.Some? ==> r.scalingFactor == o.scalingFactor.value
  {
    Unit(
      OrElse(o.dimension, u.dimension),
      OrElse(o.name, u.name),
      OrElse(o.symbol, u.symbol),
      OrElse(o.referent, u.referent),
      OrElse(o.scalingFactor, u.scalingFactor))
  }

  /** `u.but()` is `u` itself. */
  lemma ButNothing(u: Unit)
    ensures But(u, NoOverrides) == u
  {
  }

  /** Overriding the same fields twice is overriding them once. */
  lemma ButIdempotent(u: Unit, o: Overrides)
    ensures But(But(u, o), o) == But(u, o)
  {
  }

  /** `u.but(scaling_factor=uni)`, the key a unit gets inside a composite. */
  function Unscaled(u: Unit): (r: Unit)
    ensures r.scalingFactor == Uni
    ensures r.dimension == u.dimension && r.name == u.name && r.symbol == u.symbol
    ensures r.referent == u.referent
  {
    But(u, NoOverrides.(scalingFactor := Some(Uni)))
  }

  /** `"sep".join((a.name, b.name))` and likewise for the symbols, with the given factor. */
  function Joined(a: ScalingFactor, b: ScalingFactor, sep: string, factor: real): ScalingFactor
  {
    ScalingFactor(a.name + sep + b.name, a.symbol + sep + b.symbol, factor)
  }
}
