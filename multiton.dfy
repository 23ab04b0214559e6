/** The interning metaclass `MultitonMeta` of _base.py:4-36. A constructor
    call is turned into a key (the class together with the bound
    arguments, defaults applied, extra keywords merged flat and the pairs
    sorted by name), and the one instance stored under that key is
    returned, created and stored only on first use. */
module Multiton {
  import opened Dicts
  import opened UnitTypes

  // ---------------------------------------------------------------------
  // Values, signatures and keys.

  /** The Python values a constructor argument can carry. */
  datatype Value =
    | NoneValue
    | Int(i: int)
    | Str(s: string)
    | Tuple(items: seq<Value>)
    | Mapping(entries: Dict<string, Value>)

  datatype ParamKind = PositionalOnly | PositionalOrKeyword | VarPositional | KeywordOnly | VarKeyword

  /** One parameter of `__init__`, with its default value if it has one. */
  datatype Param = Param(name: string, kind: ParamKind, default: Option<Value>)

  /** A class that uses the metaclass: its identity and the parameters of
      its `__init__`, `self` included. */
  datatype ClassRef = ClassRef(id: nat, init: seq<Param>)

  /** `bound.arguments`: parameter names to values. */
  type Arguments = Dict<string, Value>

  type Item = (string, Value)

  /** `cls, tuple(sorted(standardized_args.items()))` */
  datatype Key = Key(cls: ClassRef, items: seq<Item>)

  /** Whether `hash` accepts the value: dicts are unhashable, and so is a
      tuple holding one. */
  predicate Hashable(v: Value) {
    match v
    case Tuple(items) => forall i :: 0 <= i < |items| ==> Hashable(items[i])
    case Mapping(_) => false
    case _ => true
  }

  // ---------------------------------------------------------------------
  // `sig.bind(None, *args, **kwargs)` and `bound.apply_defaults()`.

  /** The positional pass of `Signature.bind`, from parameter and argument
      `i` on: each positional argument takes the next parameter, and an
      `*args` parameter takes all that are left. Returns the arguments
      bound so far and the index of the parameter the keyword pass starts
      from. */
  function BindPositional(ps: seq<Param>, args: seq<Value>, kwargs: Arguments, i: nat, bound: Arguments)
    : Result<(Arguments, nat)>
    decreases |ps| - i
  {
    if i >= |ps| then
      if i >= |args| then Ok((bound, i)) else Err(TypeError(BadArguments))
    else
      var p := ps[i];
      if i >= |args| then
        if p.kind == VarPositional then Ok((bound, i + 1))
        else if p.name in Keys(kwargs) then
          if p.kind == PositionalOnly then Err(TypeError(BadArguments)) else Ok((bound, i))
        else if p.kind == VarKeyword || p.default.Some? then Ok((bound, i))
        else Err(TypeError(BadArguments))
      else if p.kind == KeywordOnly || p.kind == VarKeyword then Err(TypeError(BadArguments))
      else if p.kind == VarPositional then Ok((Put(bound, p.name, Tuple(args[i..])), i + 1))
      else if p.name in Keys(kwargs) && p.kind != PositionalOnly then Err(TypeError(BadArguments))
      else BindPositional(ps, args, kwargs, i + 1, Put(bound, p.name, args[i]))
  }

  /** The keyword pass, from parameter `i` on: each named parameter takes
      its keyword argument or must have a default; keywords nobody takes go
      to the `**kwargs` parameter as one dict, or are refused. */
  function BindKeywords(ps: seq<Param>, i: nat, kwargs: Arguments, bound: Arguments, varKeyword: Option<string>)
    : Result<Arguments>
    decreases |ps| - i
  {
    if i >= |ps| then
      if kwargs == [] then Ok(bound)
      else if varKeyword.Some? then Ok(Put(bound, varKeyword.value, Mapping(kwargs)))
      else Err(TypeError(BadArguments))
    else
      var p := ps[i];
      if p.kind == VarKeyword then BindKeywords(ps, i + 1, kwargs, bound, Some(p.name))
      else if p.kind == VarPositional then BindKeywords(ps, i + 1, kwargs, bound, varKeyword)
      else if p.name !in Keys(kwargs) then
        if p.default.None? then Err(TypeError(BadArguments))
        else BindKeywords(ps, i + 1, kwargs, bound, varKeyword)
      else if p.kind == PositionalOnly then Err(TypeError(BadArguments))
      else BindKeywords(ps, i + 1, Remove(kwargs, p.name), Put(bound, p.name, Get(kwargs, p.name, NoneValue)), varKeyword)
  }

  /** The value `apply_defaults` gives a parameter: the bound one, else the
      default, else `()` for `*args` and `{}` for `**kwargs`. */
  function Resolved(p: Param, bound: Arguments): Option<Value> {
    if p.name in Keys(bound) then Some(Get(bound, p.name, NoneValue))
    else if p.default.Some? then p.default
    else if p.kind == VarPositional then Some(Tuple([]))
    else if p.kind == VarKeyword then Some(Mapping([]))
    else None
  }

  /** `bound.apply_defaults()`: the arguments rebuilt in signature order. */
  function ApplyDefaults(ps: seq<Param>, bound: Arguments, acc: Arguments): Arguments
    decreases |ps|
  {
    if ps == [] then acc
    else
      var r := Resolved(ps[0], bound);
      ApplyDefaults(ps[1..], bound, if r.Some? then Put(acc, ps[0].name, r.value) else acc)
  }

  /** `sig.bind(*args, **kwargs)`: the positional pass, then the keyword
      pass over the parameters it left. */
  function Bind(ps: seq<Param>, args: seq<Value>, kwargs: Arguments): Result<Arguments> {
    match BindPositional(ps, args, kwargs, 0, [])
    case Err(e) => Err(e)
    case Ok((bound, i)) => BindKeywords(ps, i, kwargs, bound, None)
  }

  /** `standardized_args.pop("self")` followed by
      `standardized_args |= standardized_args.pop("kwargs", {})`. */
  function Flatten(arguments: Arguments): Result<Arguments> {
    if "self" !in Keys(arguments) then Err(KeyError)
    else
      var rest := Remove(arguments, "self");
      var extra := Get(rest, "kwargs", Mapping([]));
      if !extra.Mapping? then Err(TypeError(NotAMapping))
      else Ok(Update(Remove(rest, "kwargs"), extra.entries))
  }

  /** `standardized_args` of _base.py:24-29: the arguments bound with
      `self` set to None, defaults applied, then flattened. */
  function Standardize(ps: seq<Param>, args: seq<Value>, kwargs: Arguments): Result<Arguments> {
    match Bind(ps, [NoneValue] + args, kwargs)
    case Err(e) => Err(e)
    case Ok(bound) => Flatten(ApplyDefaults(ps, bound, []))
  }

  // ---------------------------------------------------------------------
  // `sorted(...)` on the items.

  /** Python's order on strings: code point by code point, a proper prefix
      first. */
  predicate Below(a: string, b: string)
    decreases |a|
  {
    if a == [] then b != []
    else if b == [] then false
    else if a[0] != b[0] then a[0] < b[0]
    else Below(a[1..], b[1..])
  }

  /** `sorted` on items with distinct names: the tuples are told apart by
      their names alone, so the values are never compared. */
  function Insert(x: Item, s: seq<Item>): (r: seq<Item>)
    ensures multiset(r) == multiset(s) + multiset{x}
  {
    if s == [] then [x]
    else if Below(x.0, s[0].0) then [x] + s
    else
      assert s == [s[0]] + s[1..];
      [s[0]] + Insert(x, s[1..])
  }

  function Sorted(s: seq<Item>): (r: seq<Item>)
    ensures multiset(r) == multiset(s)
  {
    if s == [] then []
    else
      assert s == [s[0]] + s[1..];
      Insert(s[0], Sorted(s[1..]))
  }

  ghost predicate Ascending(s: seq<Item>) {
    forall i, j :: 0 <= i < j < |s| ==> Below(s[i].0, s[j].0)
  }

  /** The registry key of the standardized arguments. */
  function KeyOf(cls: ClassRef, s: Arguments): Result<Key> {
    var items := Sorted(s);
    if forall x :: x in items ==> Hashable(x.1) then Ok(Key(cls, items))
    else Err(TypeError(Unhashable))
  }

  /** `index` of _base.py:30 for the call `cls(*args, **kwargs)`. */
  function IndexOf(cls: ClassRef, args: seq<Value>, kwargs: Arguments): Result<Key> {
    match Standardize(cls.init, args, kwargs)
    case Err(e) => Err(e)
    case Ok(s) => KeyOf(cls, s)
  }

  // ---------------------------------------------------------------------
  // Python's string order is a strict total order.

  lemma {:induction false} BelowIrreflexive(a: string)
    ensures !Below(a, a)
    decreases |a|
  {
    if a != [] {
      BelowIrreflexive(a[1..]);
    }
  }

  lemma {:induction false} BelowTransitive(a: string, b: string, c: string)
    requires Below(a, b) && Below(b, c)
    ensures Below(a, c)
    decreases |a|
  {
    if a != [] && a[0] == b[0] && b[0] == c[0] {
      BelowTransitive(a[1..], b[1..], c[1..]);
    }
  }

  lemma {:induction false} BelowTotal(a: string, b: string)
    requires a != b
    ensures Below(a, b) || Below(b, a)
    decreases |a|
  {
    if a != [] && b != [] && a[0] == b[0] {
      assert a == [a[0]] + a[1..] && b == [b[0]] + b[1..];
      BelowTotal(a[1..], b[1..]);
    }
  }

  lemma BelowAsymmetric(a: string, b: string)
    requires Below(a, b)
    ensures !Below(b, a)
  {
    if Below(b, a) {
      BelowTransitive(a, b, a);
      BelowIrreflexive(a);
    }
  }

  // ---------------------------------------------------------------------
  // Sorting.

  /** Inserting an item whose name is new into an ascending sequence keeps
      it ascending. */
  lemma {:induction false} InsertAscending(x: Item, s: seq<Item>)
    requires Ascending(s)
    requires forall i :: 0 <= i < |s| ==> s[i].0 != x.0
    ensures Ascending(Insert(x, s))
    decreases |s|
  {
    if s != [] {
      if Below(x.0, s[0].0) {
        forall j | 0 < j < |s| ensures Below(x.0, s[j].0) {
          BelowTransitive(x.0, s[0].0, s[j].0);
        }
      } else {
        BelowTotal(x.0, s[0].0);
        InsertAscending(x, s[1..]);
        var t := Insert(x, s[1..]);
        forall j | 0 <= j < |t| ensures Below(s[0].0, t[j].0) {
          assert t[j] in multiset(t);
          assert t[j] == x || t[j] in multiset(s[1..]);
          if t[j] != x {
            var k :| 0 <= k < |s| - 1 && s[1..][k] == t[j];
            assert s[k + 1] == t[j];
          }
        }
      }
    }
  }

  /** The items of a dict come out of `sorted` in ascending name order. */
  lemma {:induction false} SortedAscending(d: Arguments)
    requires DistinctKeys(d)
    ensures Ascending(Sorted(d))
    decreases |d|
  {
    if d != [] {
      SortedAscending(d[1..]);
      var t := Sorted(d[1..]);
      forall i | 0 <= i < |t| ensures t[i].0 != d[0].0 {
        assert t[i] in multiset(t);
        var k :| 0 <= k < |d| - 1 && d[1..][k] == t[i];
        assert Keys(d[1..])[k] == t[i].0;
      }
      InsertAscending(d[0], t);
    }
  }

  lemma FirstItem(s: seq<Item>)
    ensures s == [] || s[0] in s
  {
  }

  /** Two ascending sequences with the same items are the same sequence. */
  lemma {:induction false} AscendingUnique(a: seq<Item>, b: seq<Item>)
    requires Ascending(a) && Ascending(b)
    requires forall x :: x in a <==> x in b
    ensures a == b
    decreases |a|
  {
    if a == [] {
      FirstItem(b);
    } else {
      assert a[0] in b;
      assert b != [];
      assert b[0] in a;
      if a[0] != b[0] {
        var i :| 0 <= i < |a| && a[i] == b[0];
        var j :| 0 <= j < |b| && b[j] == a[0];
        BelowAsymmetric(a[0].0, a[i].0);
        assert false;
      }
      forall x ensures x in a[1..] <==> x in b[1..] {
        if x in a[1..] {
          var i :| 1 <= i < |a| && a[i] == x;
          BelowIrreflexive(a[0].0);
          assert x in b && x != b[0];
        }
        if x in b[1..] {
          var j :| 1 <= j < |b| && b[j] == x;
          BelowIrreflexive(b[0].0);
          assert x in a && x != a[0];
        }
      }
      AscendingUnique(a[1..], b[1..]);
      assert a == [a[0]] + a[1..] && b == [b[0]] + b[1..];
    }
  }

  /** Keyword order never matters: two dicts with the same name-to-value
      mapping sort to the same items. */
  lemma SortedIndependentOfOrder(d1: Arguments, d2: Arguments)
    requires DistinctKeys(d1) && DistinctKeys(d2) && AsMap(d1) == AsMap(d2)
    ensures Sorted(d1) == Sorted(d2)
  {
    SortedAscending(d1);
    SortedAscending(d2);
    SortedSameItems(d1);
    SortedSameItems(d2);
    forall x ensures x in Sorted(d1) <==> x in Sorted(d2) {
      MemberAsMap(d1, x);
      MemberAsMap(d2, x);
    }
    AscendingUnique(Sorted(d1), Sorted(d2));
  }

  /** The key of the standardized arguments: the class and the items, each
      exactly once, in ascending name order; it is refused exactly when a
      value is unhashable. */
  lemma KeyOfMeaning(cls: ClassRef, s: Arguments)
    requires DistinctKeys(s)
    ensures KeyOf(cls, s).Ok? <==> forall x :: x in s ==> Hashable(x.1)
    ensures KeyOf(cls, s).Err? ==> KeyOf(cls, s).error == TypeError(Unhashable)
    ensures KeyOf(cls, s).Ok? ==>
              && KeyOf(cls, s).value.cls == cls
              && Ascending(KeyOf(cls, s).value.items)
              && multiset(KeyOf(cls, s).value.items) == multiset(s)
  {
    SortedAscending(s);
    SortedSameItems(s);
  }

  lemma SortedSameItems(s: seq<Item>)
    ensures forall x :: x in s <==> x in Sorted(s)
  {
    forall x ensures x in s <==> x in Sorted(s) {
      assert x in s <==> x in multiset(s);
      assert x in Sorted(s) <==> x in multiset(Sorted(s));
    }
  }

  /** Keys built from the same mapping are equal, whatever the order of
      the arguments. */
  lemma KeyIndependentOfOrder(cls: ClassRef, s1: Arguments, s2: Arguments)
    requires DistinctKeys(s1) && DistinctKeys(s2) && AsMap(s1) == AsMap(s2)
    ensures KeyOf(cls, s1) == KeyOf(cls, s2)
  {
    SortedIndependentOfOrder(s1, s2);
  }

  /** Conversely, equal keys come from equal mappings. */
  lemma KeyDeterminesArguments(cls: ClassRef, s1: Arguments, s2: Arguments)
    requires DistinctKeys(s1) && DistinctKeys(s2)
    requires KeyOf(cls, s1).Ok? && KeyOf(cls, s1) == KeyOf(cls, s2)
    ensures AsMap(s1) == AsMap(s2)
  {
    SortedSameItems(s1);
    SortedSameItems(s2);
    forall k | k in AsMap(s1)
      ensures k in AsMap(s2) && AsMap(s2)[k] == AsMap(s1)[k]
    {
      MemberAsMap(s1, (k, AsMap(s1)[k]));
      MemberAsMap(s2, (k, AsMap(s1)[k]));
    }
    forall k | k in AsMap(s2)
      ensures k in AsMap(s1)
    {
      MemberAsMap(s2, (k, AsMap(s2)[k]));
      MemberAsMap(s1, (k, AsMap(s2)[k]));
    }
  }

  /** Different classes never share a key. */
  lemma KeysOfDistinctClasses(c1: ClassRef, c2: ClassRef, s1: Arguments, s2: Arguments)
    requires c1 != c2 && KeyOf(c1, s1).Ok? && KeyOf(c2, s2).Ok?
    ensures KeyOf(c1, s1) != KeyOf(c2, s2)
  {
  }

  // ---------------------------------------------------------------------
  // Defaults and flattening.

  /** Python refuses a signature that names a parameter twice. */
  ghost predicate DistinctNames(ps: seq<Param>) {
    forall i, j :: 0 <= i < j < |ps| ==> ps[i].name != ps[j].name
  }

  lemma {:induction false} ApplyDefaultsDistinct(ps: seq<Param>, bound: Arguments, acc: Arguments)
    requires DistinctKeys(acc)
    ensures DistinctKeys(ApplyDefaults(ps, bound, acc))
    decreases |ps|
  {
    if ps != [] {
      var r := Resolved(ps[0], bound);
      if r.Some? {
        PutKeepsKeysDistinct(acc, ps[0].name, r.value);
      }
      ApplyDefaultsDistinct(ps[1..], bound, if r.Some? then Put(acc, ps[0].name, r.value) else acc);
    }
  }

  /** `apply_defaults` leaves a name that is no parameter as it was. */
  lemma {:induction false} ApplyDefaultsOther(ps: seq<Param>, bound: Arguments, acc: Arguments, x: string)
    requires forall j :: 0 <= j < |ps| ==> ps[j].name != x
    ensures x in Keys(ApplyDefaults(ps, bound, acc)) <==> x in Keys(acc)
    ensures Get(ApplyDefaults(ps, bound, acc), x, NoneValue) == Get(acc, x, NoneValue)
    decreases |ps|
  {
    if ps != [] {
      var r := Resolved(ps[0], bound);
      var next := if r.Some? then Put(acc, ps[0].name, r.value) else acc;
      if r.Some? {
        PutKeys(acc, ps[0].name, r.value);
        GetPut(acc, ps[0].name, r.value, x, NoneValue);
      }
      ApplyDefaultsOther(ps[1..], bound, next, x);
    }
  }

  /** `apply_defaults` gives every parameter its bound value, else its
      default, else `()` for `*args` and `{}` for `**kwargs`; a parameter
      with none of these stays absent. */
  lemma {:induction false} ApplyDefaultsAt(ps: seq<Param>, bound: Arguments, acc: Arguments, i: int)
    requires DistinctNames(ps) && 0 <= i < |ps|
    ensures ps[i].name in Keys(ApplyDefaults(ps, bound, acc)) <==>
              ps[i].name in Keys(acc) || Resolved(ps[i], bound).Some?
    ensures Resolved(ps[i], bound).Some? ==>
              Get(ApplyDefaults(ps, bound, acc), ps[i].name, NoneValue) == Resolved(ps[i], bound).value
    decreases |ps|
  {
    var r := Resolved(ps[0], bound);
    var next := if r.Some? then Put(acc, ps[0].name, r.value) else acc;
    var x := ps[i].name;
    if r.Some? {
      PutKeys(acc, ps[0].name, r.value);
      GetPut(acc, ps[0].name, r.value, x, NoneValue);
    }
    if i == 0 {
      ApplyDefaultsOther(ps[1..], bound, next, x);
    } else {
      assert ps[1..][i - 1] == ps[i];
      ApplyDefaultsAt(ps[1..], bound, next, i - 1);
    }
  }

  /** After `pop("self")` and `|= pop("kwargs", {})` the arguments are
      those bound, less `self` and `kwargs`, updated with the entries of
      the `kwargs` dict: extra keywords sit flat beside the named ones. A
      missing `self` raises KeyError and a `kwargs` that is no dict raises
      TypeError. */
  lemma FlattenMeaning(a: Arguments)
    requires DistinctKeys(a)
    ensures "self" !in Keys(a) ==> Flatten(a) == Err(KeyError)
    ensures "self" in Keys(a) && !Get(a, "kwargs", Mapping([])).Mapping? ==> Flatten(a) == Err(TypeError(NotAMapping))
    ensures "self" in Keys(a) && Get(a, "kwargs", Mapping([])).Mapping? ==>
              && Flatten(a).Ok? && DistinctKeys(Flatten(a).value)
              && AsMap(Flatten(a).value) == (AsMap(a) - {"self", "kwargs"}) + AsMap(Get(a, "kwargs", Mapping([])).entries)
  {
    if "self" in Keys(a) {
      GetRemove(a, "self", "kwargs", Mapping([]));
      if Get(a, "kwargs", Mapping([])).Mapping? {
        FlattenMap(a);
      }
    }
  }

  lemma FlattenMap(a: Arguments)
    requires DistinctKeys(a) && "self" in Keys(a) && Get(a, "kwargs", Mapping([])).Mapping?
    ensures Flatten(a).Ok? && DistinctKeys(Flatten(a).value)
    ensures AsMap(Flatten(a).value) == (AsMap(a) - {"self", "kwargs"}) + AsMap(Get(a, "kwargs", Mapping([])).entries)
  {
    var rest := Remove(a, "self");
    var named := Remove(rest, "kwargs");
    var extra := Get(a, "kwargs", Mapping([])).entries;
    GetRemove(a, "self", "kwargs", Mapping([]));
    assert Flatten(a) == Ok(Update(named, extra));
    RemoveKeepsKeysDistinct(a, "self");
    RemoveKeepsKeysDistinct(rest, "kwargs");
    AsMapRemove(a, "self");
    AsMapRemove(rest, "kwargs");
    AsMapUpdate(named, extra);
    RemoveBoth(AsMap(a), "self", "kwargs");
  }

  lemma RemoveBoth(m: map<string, Value>, x: string, y: string)
    ensures m - {x} - {y} == m - {x, y}
  {
  }

  /** The values `apply_defaults` gives the parameters from `i` on,
      assigned in turn into the map `m`. */
  ghost function ResolvedInto(ps: seq<Param>, i: nat, bound: Arguments, m: map<string, Value>): map<string, Value>
    decreases |ps| - i
  {
    if i >= |ps| then m
    else
      var r := Resolved(ps[i], bound);
      ResolvedInto(ps, i + 1, bound, if r.Some? then m[ps[i].name := r.value] else m)
  }

  /** As a map, `apply_defaults` assigns each parameter's resolved value
      in signature order. */
  lemma {:induction false} ApplyDefaultsMap(ps: seq<Param>, i: nat, bound: Arguments, acc: Arguments)
    requires i <= |ps| && DistinctKeys(acc)
    ensures AsMap(ApplyDefaults(ps[i..], bound, acc)) == ResolvedInto(ps, i, bound, AsMap(acc))
    decreases |ps| - i
  {
    if i < |ps| {
      assert ps[i..][0] == ps[i] && ps[i..][1..] == ps[i + 1..];
      var r := Resolved(ps[i], bound);
      if r.Some? {
        PutKeepsKeysDistinct(acc, ps[i].name, r.value);
        AsMapPut(acc, ps[i].name, r.value);
        ApplyDefaultsMap(ps, i + 1, bound, Put(acc, ps[i].name, r.value));
      } else {
        ApplyDefaultsMap(ps, i + 1, bound, acc);
      }
    }
  }

  /** Applying the defaults to bound arguments that hold `self`, then
      flattening, leaves the resolved parameters other than `self` and
      `kwargs`, with the entries of the `kwargs` dict merged in flat. */
  lemma DefaultsThenFlatten(ps: seq<Param>, bound: Arguments)
    requires "self" in ResolvedInto(ps, 0, bound, map[])
    requires "kwargs" in ResolvedInto(ps, 0, bound, map[]) ==> ResolvedInto(ps, 0, bound, map[])["kwargs"].Mapping?
    ensures Flatten(ApplyDefaults(ps, bound, [])).Ok?
    ensures DistinctKeys(Flatten(ApplyDefaults(ps, bound, [])).value)
    ensures var m := ResolvedInto(ps, 0, bound, map[]);
            AsMap(Flatten(ApplyDefaults(ps, bound, [])).value)
            == (m - {"self", "kwargs"}) + (if "kwargs" in m then AsMap(m["kwargs"].entries) else map[])
  {
    var a := ApplyDefaults(ps, bound, []);
    ApplyDefaultsDistinct(ps, bound, []);
    assert ps[0..] == ps;
    ApplyDefaultsMap(ps, 0, bound, []);
    FlattenOfMap(a);
  }

  /** `FlattenMeaning` read on the map of the arguments. */
  lemma FlattenOfMap(a: Arguments)
    requires DistinctKeys(a) && "self" in AsMap(a)
    requires "kwargs" in AsMap(a) ==> AsMap(a)["kwargs"].Mapping?
    ensures Flatten(a).Ok? && DistinctKeys(Flatten(a).value)
    ensures var m := AsMap(a);
            AsMap(Flatten(a).value)
            == (m - {"self", "kwargs"}) + (if "kwargs" in m then AsMap(m["kwargs"].entries) else map[])
  {
    if "kwargs" in Keys(a) {
      AsMapGet(a, "kwargs", Mapping([]));
    } else {
      GetMissing(a, "kwargs", Mapping([]));
    }
    FlattenMap(a);
  }


  // ---------------------------------------------------------------------
  // Calls compared by their standardized arguments.

  /** The call `cls(*args, **kwargs)` standardizes to the mapping `m`. */
  ghost predicate StandardizesTo(cls: ClassRef, args: seq<Value>, kwargs: Arguments, m: map<string, Value>) {
    var s := Standardize(cls.init, args, kwargs);
    s.Ok? && DistinctKeys(s.value) && AsMap(s.value) == m
  }

  /** Two calls that standardize to the same mapping have the same index,
      however their arguments were written. */
  lemma SameArgumentsSameIndex(cls: ClassRef, args1: seq<Value>, kwargs1: Arguments,
                               args2: seq<Value>, kwargs2: Arguments, m: map<string, Value>)
    requires StandardizesTo(cls, args1, kwargs1, m) && StandardizesTo(cls, args2, kwargs2, m)
    ensures IndexOf(cls, args1, kwargs1) == IndexOf(cls, args2, kwargs2)
  {
    KeyIndependentOfOrder(cls, Standardize(cls.init, args1, kwargs1).value, Standardize(cls.init, args2, kwargs2).value);
  }

  /** A call whose standardized values are all hashable has an index. */
  lemma IndexExists(cls: ClassRef, args: seq<Value>, kwargs: Arguments, m: map<string, Value>)
    requires StandardizesTo(cls, args, kwargs, m)
    requires forall k :: k in m ==> Hashable(m[k])
    ensures IndexOf(cls, args, kwargs).Ok?
  {
    var s := Standardize(cls.init, args, kwargs).value;
    forall x | x in s
      ensures Hashable(x.1)
    {
      MemberAsMap(s, x);
    }
    KeyOfMeaning(cls, s);
  }

  /** Two calls that standardize to different mappings have different
      indexes. */
  lemma DifferentArgumentsDifferentIndex(cls: ClassRef, args1: seq<Value>, kwargs1: Arguments, m1: map<string, Value>,
                                         args2: seq<Value>, kwargs2: Arguments, m2: map<string, Value>)
    requires StandardizesTo(cls, args1, kwargs1, m1) && StandardizesTo(cls, args2, kwargs2, m2)
    requires IndexOf(cls, args1, kwargs1).Ok? && m1 != m2
    ensures IndexOf(cls, args1, kwargs1) != IndexOf(cls, args2, kwargs2)
  {
    var s1 := Standardize(cls.init, args1, kwargs1).value;
    var s2 := Standardize(cls.init, args2, kwargs2).value;
    if IndexOf(cls, args1, kwargs1) == IndexOf(cls, args2, kwargs2) {
      KeyDeterminesArguments(cls, s1, s2);
    }
  }

  // ---------------------------------------------------------------------
  // The registry.

  /** An object built by `type.__call__`; `key` is the index it was stored
      under. */
  class Instance {
    const cls: ClassRef
    ghost const key: Key

    constructor (k: Key)
      ensures cls == k.cls && key == k
    {
      cls := k.cls;
      key := k;
    }
  }

  /** `MultitonMeta._instances`, one dict shared by every class that uses
      the metaclass. */
  class Registry {
    var instances: map<Key, Instance>

    /** Every instance sits under its own key, so distinct keys hold
        distinct instances, and it is an instance of the key's class. */
    ghost predicate Valid()
      reads this
    {
      forall k :: k in instances ==> instances[k].key == k && instances[k].cls == k.cls
    }

    constructor ()
      ensures Valid() && instances == map[]
    {
      instances := map[];
    }

    /** `MultitonMeta.__call__(cls, *args, **kwargs)` (_base.py:23-36). */
    method Call(cls: ClassRef, args: seq<Value>, kwargs: Arguments) returns (r: Result<Instance>)
      requires Valid()
      modifies this
      ensures Valid()
      ensures forall k :: k in old(instances) ==> k in instances && instances[k] == old(instances)[k]
      ensures IndexOf(cls, args, kwargs).Err? ==>
                r == Err(IndexOf(cls, args, kwargs).error) && instances == old(instances)
      ensures IndexOf(cls, args, kwargs).Ok? ==>
                var k := IndexOf(cls, args, kwargs).value;
                && r.Ok? && k in instances && r.value == instances[k] && r.value.cls == cls
                && (k in old(instances) ==> instances == old(instances))
                && (k !in old(instances) ==> fresh(r.value) && instances == old(instances)[k := r.value])
    {
      var index := IndexOf(cls, args, kwargs);
      if index.Err? {
        return Err(index.error);
      }
      var k := index.value;
      if k !in instances {
        var o := new Instance(k);
        instances := instances[k := o];
      }
      r := Ok(instances[k]);
    }
  }
}
