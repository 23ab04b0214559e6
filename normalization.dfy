/** `CompositeUnit.__init__` (src/connvert/units.py:226-241): the loop that
    puts every composite unit into canonical form.

    `Normalize` is the specification. It is split the way the loop's two
    pieces of state are: `FoldDict` is what happens to `_unit_dict`,
    `RunningFactor` what happens to `display_factor`, and the loop stops with
    ZeroDivisionError at the first component that raises a zero factor to a
    negative power. `Construct` is the loop itself, proved equal to
    `Normalize`, and the lemmas say what the result means: which exponents it
    keeps, what the aggregate factor is, and when it fails. */
module Normalization {
  import opened Powers
  import opened Dicts
  import opened UnitTypes

  type Component = (Unit, int)

  /** `zip(units, powers)`, which stops at the shorter sequence. */
  function Zip(units: seq<Unit>, powers: seq<int>): (r: seq<Component>)
    ensures |r| == if |units| <= |powers| then |units| else |powers|
    ensures forall i :: 0 <= i < |r| ==> r[i] == (units[i], powers[i])
  {
    if |units| == 0 || |powers| == 0 then [] else [(units[0], powers[0])] + Zip(units[1..], powers[1..])
  }

  /** `u.scaling_factor.factor ** p` raises ZeroDivisionError: a zero factor
      under a negative power. */
  predicate Raises(c: Component) {
    c.0.scalingFactor.factor == 0.0 && c.1 < 0
  }

  /** No component raises. */
  ghost predicate Defined(cs: seq<Component>) {
    forall i :: 0 <= i < |cs| ==> !Raises(cs[i])
  }

  /** One iteration's update of `_unit_dict` (units.py:236-237): the power is
      added to the entry of the unit with its scaling factor replaced by `uni`. */
  function Tally(d: Dict<Unit, int>, c: Component): Dict<Unit, int> {
    Put(d, Unscaled(c.0), Get(d, Unscaled(c.0), 0) + c.1)
  }

  /** `_unit_dict` after the loop has visited all of `cs`, or the error that
      stops it. */
  function FoldDict(cs: seq<Component>): Result<Dict<Unit, int>>
    decreases |cs|
  {
    if cs == [] then Ok([])
    else
      match FoldDict(cs[..|cs| - 1])
      case Err(e) => Err(e)
      case Ok(d) => if Raises(cs[|cs| - 1]) then Err(ZeroDivisionError) else Ok(Tally(d, cs[|cs| - 1]))
  }

  /** `display_factor` after the loop has visited all of `cs` (units.py:235):
      `_factor` multiplied, in order, by each component's factor raised to
      its power. */
  function RunningFactor(cs: seq<Component>, factor: real): real
    requires Defined(cs)
    decreases |cs|
  {
    if cs == [] then factor
    else
      assert Defined(cs[..|cs| - 1]) by { DefinedSnoc(cs); }
      RunningFactor(cs[..|cs| - 1], factor) * Pow(cs[|cs| - 1].0.scalingFactor.factor, cs[|cs| - 1].1)
  }

  /** The comprehension at units.py:238: drop zero exponents and the unit `one`. */
  function Keep(d: Dict<Unit, int>): (r: Dict<Unit, int>)
    ensures forall i :: 0 <= i < |r| ==> r[i].1 != 0 && r[i].0 != One
    ensures forall x :: x in Keys(r) ==> x in Keys(d)
  {
    if d == [] then []
    else if d[0].1 != 0 && d[0].0 != One then [d[0]] + Keep(d[1..])
    else Keep(d[1..])
  }

  /** The constructor run over the zipped components `cs`. */
  function Canonicalize(cs: seq<Component>, factor: real): Result<CompositeUnit> {
    match FoldDict(cs)
    case Err(e) => Err(e)
    case Ok(d) =>
      FoldDefined(cs);
      var kept := Keep(d);
      Ok(CompositeUnit(Keys(kept), Values(kept), RunningFactor(cs, factor)))
  }

  /** `CompositeUnit(component_units=units, component_powers=powers, _factor=factor)`. */
  function Normalize(units: seq<Unit>, powers: seq<int>, factor: real): Result<CompositeUnit> {
    Canonicalize(Zip(units, powers), factor)
  }

  /** The constructor, as the source writes it: the loop runs over the
      zipped components. */
  method Construct(units: seq<Unit>, powers: seq<int>, factor: real) returns (r: Result<CompositeUnit>)
    ensures r == Normalize(units, powers, factor)
  {
    r := Accumulate(Zip(units, powers), factor);
  }

  /** The loop at units.py:234-237 and the tuples built after it. */
  method Accumulate(components: seq<Component>, factor: real) returns (r: Result<CompositeUnit>)
    ensures r == Canonicalize(components, factor)
  {
    var displayFactor := factor;
    var unitDict: Dict<Unit, int> := [];
    var i := 0;
    while i < |components|
      invariant 0 <= i <= |components|
      invariant Visited(components, factor, i, unitDict, displayFactor)
    {
      var u := components[i].0;
      var p := components[i].1;
      if u.scalingFactor.factor == 0.0 && p < 0 {
        FoldFailsAt(components, factor, i);
        return Err(ZeroDivisionError);
      }
      ghost var (d, g) := (unitDict, displayFactor);
      displayFactor := displayFactor * Pow(u.scalingFactor.factor, p);
      var baseU := Unscaled(u);
      unitDict := Put(unitDict, baseU, Get(unitDict, baseU, 0) + p);
      VisitNext(components, factor, i, d, g, unitDict, displayFactor);
      i := i + 1;
    }
    VisitedAll(components, factor, unitDict, displayFactor);
    var kept := Keep(unitDict);
    r := Ok(CompositeUnit(Keys(kept), Values(kept), displayFactor));
  }

  /** The loop invariant: after `i` iterations the dict and the factor are
      those of the first `i` components. */
  ghost predicate Visited(cs: seq<Component>, factor: real, i: int, d: Dict<Unit, int>, g: real)
    requires 0 <= i <= |cs|
  {
    FoldDict(cs[..i]) == Ok(d) && Defined(cs[..i]) && g == RunningFactor(cs[..i], factor)
  }

  /** One more iteration keeps the invariant. */
  lemma VisitNext(cs: seq<Component>, factor: real, i: int, d: Dict<Unit, int>, g: real, d': Dict<Unit, int>, g': real)
    requires 0 <= i < |cs| && Visited(cs, factor, i, d, g) && !Raises(cs[i])
    requires d' == Put(d, Unscaled(cs[i].0), Get(d, Unscaled(cs[i].0), 0) + cs[i].1)
    requires g' == g * Pow(cs[i].0.scalingFactor.factor, cs[i].1)
    ensures Visited(cs, factor, i + 1, d', g')
  {
    assert FoldDict(cs[..i + 1]) == Ok(d') by {
      FoldDictPrefix(cs, i);
    }
    assert Defined(cs[..i + 1]) && g' == RunningFactor(cs[..i + 1], factor) by {
      RunningFactorPrefix(cs, factor, i);
    }
  }

  /** After the last iteration the loop's state is the constructor's result. */
  lemma VisitedAll(cs: seq<Component>, factor: real, d: Dict<Unit, int>, g: real)
    requires Visited(cs, factor, |cs|, d, g)
    ensures Canonicalize(cs, factor) == Ok(CompositeUnit(Keys(Keep(d)), Values(Keep(d)), g))
  {
    assert cs[..|cs|] == cs;
  }

  // ---------------------------------------------------------------------
  // Reference definitions: what the loop is meant to compute.

  /** The sum of the powers of the components whose unscaled form is `b`. */
  function TotalPower(cs: seq<Component>, b: Unit): int
    decreases |cs|
  {
    if cs == [] then 0
    else TotalPower(cs[..|cs| - 1], b) + (if Unscaled(cs[|cs| - 1].0) == b then cs[|cs| - 1].1 else 0)
  }

  /** The exponent a canonical composite built from `cs` must carry for `b`:
      the summed power, except that `one` never carries one. */
  function Exp(cs: seq<Component>, b: Unit): int {
    if b == One then 0 else TotalPower(cs, b)
  }

  /** The product of every component's `scaling_factor.factor ** power`. */
  function FactorProduct(cs: seq<Component>): real
    requires Defined(cs)
    decreases |cs|
  {
    if cs == [] then 1.0
    else
      assert Defined(cs[..|cs| - 1]) by { DefinedSnoc(cs); }
      FactorProduct(cs[..|cs| - 1]) * Pow(cs[|cs| - 1].0.scalingFactor.factor, cs[|cs| - 1].1)
  }

  /** The form every constructed composite unit has: one entry per distinct
      unscaled unit, no zero exponent, no `one`. */
  ghost predicate Canonical(c: CompositeUnit) {
    && |c.componentUnits| == |c.componentPowers|
    && (forall i, j :: 0 <= i < j < |c.componentUnits| ==> c.componentUnits[i] != c.componentUnits[j])
    && (forall i :: 0 <= i < |c.componentUnits| ==>
          c.componentUnits[i].scalingFactor == Uni && c.componentUnits[i] != One && c.componentPowers[i] != 0)
  }

  /** `dict(zip(self.component_units, self.component_powers))`, as
      `CompositeUnit.__eq__` builds it (units.py:349). */
  function UnitMap(c: CompositeUnit): map<Unit, int> {
    AsMap(Zip(c.componentUnits, c.componentPowers))
  }

  /** The exponent of `b` in `c` (0 when absent). */
  function Exponent(c: CompositeUnit, b: Unit): int {
    var m := UnitMap(c);
    if b in m then m[b] else 0
  }

  /** `CompositeUnit.__eq__` (units.py:348-351): equal factors and equal
      unit-to-exponent dicts, whatever the order of the components. */
  predicate Same(c: CompositeUnit, d: CompositeUnit) {
    c.displayFactor == d.displayFactor && UnitMap(c) == UnitMap(d)
  }

  // ---------------------------------------------------------------------
  // The loop and the reference definitions agree.

  lemma DefinedSnoc(cs: seq<Component>)
    requires cs != []
    ensures Defined(cs) <==> Defined(cs[..|cs| - 1]) && !Raises(cs[|cs| - 1])
  {
    assert forall i :: 0 <= i < |cs| - 1 ==> cs[..|cs| - 1][i] == cs[i];
  }

  /** The dict after `i + 1` iterations, from the dict after `i`. */
  lemma FoldDictPrefix(cs: seq<Component>, i: int)
    requires 0 <= i < |cs| && FoldDict(cs[..i]).Ok?
    ensures FoldDict(cs[..i + 1]) ==
      if Raises(cs[i]) then Err(ZeroDivisionError) else Ok(Tally(FoldDict(cs[..i]).value, cs[i]))
  {
    assert cs[..i + 1][..i] == cs[..i];
  }

  /** The factor after `i + 1` iterations, from the factor after `i`. */
  lemma RunningFactorPrefix(cs: seq<Component>, factor: real, i: int)
    requires 0 <= i < |cs| && Defined(cs[..i]) && !Raises(cs[i])
    ensures Defined(cs[..i + 1])
    ensures RunningFactor(cs[..i + 1], factor) ==
      RunningFactor(cs[..i], factor) * Pow(cs[i].0.scalingFactor.factor, cs[i].1)
  {
    assert cs[..i + 1][..i] == cs[..i];
    DefinedSnoc(cs[..i + 1]);
  }

  /** The loop stops with ZeroDivisionError exactly when some component
      raises. */
  lemma {:induction false} FoldDefined(cs: seq<Component>)
    ensures FoldDict(cs).Ok? <==> Defined(cs)
    ensures FoldDict(cs).Err? ==> FoldDict(cs).error == ZeroDivisionError
    decreases |cs|
  {
    if cs != [] {
      FoldDefined(cs[..|cs| - 1]);
      DefinedSnoc(cs);
    }
  }

  /** Once a component raises, the constructor fails. */
  lemma FoldFailsAt(cs: seq<Component>, factor: real, i: int)
    requires 0 <= i < |cs| && Raises(cs[i])
    ensures Canonicalize(cs, factor) == Err(ZeroDivisionError)
  {
    FoldDefined(cs);
  }

  /** Every key of the dict is an unscaled unit. */
  ghost predicate UnscaledKeys(d: Dict<Unit, int>) {
    d == [] || (d[0].0.scalingFactor == Uni && UnscaledKeys(d[1..]))
  }

  lemma {:induction false} UnscaledKeysAt(d: Dict<Unit, int>, i: int)
    requires UnscaledKeys(d) && 0 <= i < |d|
    ensures d[i].0.scalingFactor == Uni
    decreases i
  {
    if i > 0 {
      UnscaledKeysAt(d[1..], i - 1);
    }
  }

  lemma {:induction false} PutUnscaled(d: Dict<Unit, int>, k: Unit, v: int)
    requires UnscaledKeys(d) && k.scalingFactor == Uni
    ensures UnscaledKeys(Put(d, k, v))
  {
    if d != [] && d[0].0 != k {
      PutUnscaled(d[1..], k, v);
      assert Put(d, k, v)[1..] == Put(d[1..], k, v);
    } else if d != [] {
      assert Put(d, k, v)[1..] == d[1..];
    }
  }

  /** The dict the loop builds has one key per base unit, each unscaled. */
  lemma {:induction false} FoldKeys(cs: seq<Component>)
    requires FoldDict(cs).Ok?
    ensures DistinctKeys(FoldDict(cs).value)
    ensures UnscaledKeys(FoldDict(cs).value)
    decreases |cs|
  {
    if cs != [] {
      var pre := cs[..|cs| - 1];
      FoldKeys(pre);
      var d := FoldDict(pre).value;
      var baseU := Unscaled(cs[|cs| - 1].0);
      PutKeepsKeysDistinct(d, baseU, Get(d, baseU, 0) + cs[|cs| - 1].1);
      PutUnscaled(d, baseU, Get(d, baseU, 0) + cs[|cs| - 1].1);
    }
  }

  /** Under every key the dict holds the summed power of the components that
      share that unscaled unit. */
  lemma {:induction false} FoldSums(cs: seq<Component>, b: Unit)
    requires FoldDict(cs).Ok?
    ensures Get(FoldDict(cs).value, b, 0) == TotalPower(cs, b)
    decreases |cs|
  {
    if cs != [] {
      var pre := cs[..|cs| - 1];
      FoldSums(pre, b);
      var d := FoldDict(pre).value;
      var baseU := Unscaled(cs[|cs| - 1].0);
      GetPut(d, baseU, Get(d, baseU, 0) + cs[|cs| - 1].1, b, 0);
    }
  }

  /** Multiplying in order gives `_factor` times the factor product. */
  lemma {:induction false} RunningFactorProduct(cs: seq<Component>, factor: real)
    requires Defined(cs)
    ensures RunningFactor(cs, factor) == factor * FactorProduct(cs)
    decreases |cs|
  {
    if cs != [] {
      var pre := cs[..|cs| - 1];
      DefinedSnoc(cs);
      RunningFactorProduct(pre, factor);
      MulAssoc(factor, FactorProduct(pre), Pow(cs[|cs| - 1].0.scalingFactor.factor, cs[|cs| - 1].1));
    }
  }

  /** Filtering keeps the stored dict duplicate-free and reads like the
      unfiltered one except at `one`, where it reads 0. */
  lemma {:induction false} KeepReads(d: Dict<Unit, int>, b: Unit)
    requires DistinctKeys(d)
    ensures DistinctKeys(Keep(d))
    ensures Get(Keep(d), b, 0) == if b == One then 0 else Get(d, b, 0)
  {
    if d != [] {
      assert DistinctKeys(d[1..]);
      KeepReads(d[1..], b);
      assert d[0].0 !in Keys(d[1..]);
      if d[0].0 == b && b != One && d[0].1 == 0 {
        GetMissing(Keep(d[1..]), b, 0);
      }
    }
  }

  lemma {:induction false} KeepUnscaled(d: Dict<Unit, int>)
    requires UnscaledKeys(d)
    ensures UnscaledKeys(Keep(d))
  {
    if d != [] {
      KeepUnscaled(d[1..]);
    }
  }

  lemma {:induction false} ZipOfKeysValues(d: Dict<Unit, int>)
    ensures Zip(Keys(d), Values(d)) == d
  {
  }

  /** The constructor raises ZeroDivisionError exactly when some component
      raises a zero factor to a negative power. */
  lemma CanonicalizeFails(cs: seq<Component>, factor: real)
    ensures Canonicalize(cs, factor).Ok? <==> Defined(cs)
    ensures Canonicalize(cs, factor).Err? ==> Canonicalize(cs, factor).error == ZeroDivisionError
  {
    FoldDefined(cs);
  }

  /** Every constructed composite unit is in canonical form. */
  lemma CanonicalizeCanonical(cs: seq<Component>, factor: real)
    requires Canonicalize(cs, factor).Ok?
    ensures Canonical(Canonicalize(cs, factor).value)
  {
    FoldKeys(cs);
    var d := FoldDict(cs).value;
    var kept := Keep(d);
    KeepReads(d, One);
    DistinctKeysPairwise(kept);
    KeepUnscaled(d);
    forall i | 0 <= i < |kept| ensures kept[i].0.scalingFactor == Uni {
      UnscaledKeysAt(kept, i);
    }
  }

  /** The aggregate factor is `_factor` times every component's factor raised
      to its power. */
  lemma CanonicalizeFactor(cs: seq<Component>, factor: real)
    requires Canonicalize(cs, factor).Ok?
    ensures Defined(cs)
    ensures Canonicalize(cs, factor).value.displayFactor == factor * FactorProduct(cs)
  {
    FoldDefined(cs);
    RunningFactorProduct(cs, factor);
  }

  /** The exponent of each base unit is the sum of the powers of the
      components that share that unscaled unit, and 0 for `one`. */
  lemma CanonicalizeExponent(cs: seq<Component>, factor: real, b: Unit)
    requires Canonicalize(cs, factor).Ok?
    ensures Exponent(Canonicalize(cs, factor).value, b) == Exp(cs, b)
  {
    FoldKeys(cs);
    FoldSums(cs, b);
    var d := FoldDict(cs).value;
    var kept := Keep(d);
    KeepReads(d, b);
    ZipOfKeysValues(kept);
    if b in AsMap(kept) {
      AsMapGet(kept, b, 0);
    } else {
      GetMissing(kept, b, 0);
    }
  }

  /** The characterisation of the constructor: it raises ZeroDivisionError
      exactly when some component raises 0 to a negative power; otherwise the
      result is canonical, its factor is the running product of
      `RunningFactor` (which `RunningFactorProduct` relates to the factor
      product), and its exponent for each base unit is the
      sum of the powers of the components that share that unscaled unit (0 for
      `one`). */
  lemma NormalizeMeaning(units: seq<Unit>, powers: seq<int>, factor: real)
    ensures Normalize(units, powers, factor).Ok? <==> Defined(Zip(units, powers))
    ensures Normalize(units, powers, factor).Err? ==> Normalize(units, powers, factor).error == ZeroDivisionError
    ensures Normalize(units, powers, factor).Ok? ==> Canonical(Normalize(units, powers, factor).value)
    ensures Normalize(units, powers, factor).Ok? ==>
      Normalize(units, powers, factor).value.displayFactor == RunningFactor(Zip(units, powers), factor)
    ensures Normalize(units, powers, factor).Ok? ==>
      forall b :: Exponent(Normalize(units, powers, factor).value, b) == Exp(Zip(units, powers), b)
  {
    var cs := Zip(units, powers);
    CanonicalizeFails(cs, factor);
    if Canonicalize(cs, factor).Ok? {
      CanonicalizeCanonical(cs, factor);
      forall b ensures Exponent(Canonicalize(cs, factor).value, b) == Exp(cs, b) {
        CanonicalizeExponent(cs, factor, b);
      }
    }
  }
}
