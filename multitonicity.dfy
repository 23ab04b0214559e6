/** The class of tests/test__base.py:7-33, used with the metaclass:
    `A(a, /, b, *args, c, d="d", **kwargs)`. Calls of it are taken through
    binding, defaults and flattening to their standardized mapping, for
    any argument values, and the registry is shown to hand out the
    instances the test expects. */
module Multitonicity {
  import opened Dicts
  import opened UnitTypes
  import opened Multiton

  /** `def __init__(self, a, /, b, *args, c, d="d", **kwargs)` */
  function SampleInit(): seq<Param> {
    [ Param("self", PositionalOnly, None),
      Param("a", PositionalOnly, None),
      Param("b", PositionalOrKeyword, None),
      Param("args", VarPositional, None),
      Param("c", KeywordOnly, None),
      Param("d", KeywordOnly, Some(Str("d"))),
      Param("kwargs", VarKeyword, None) ]
  }

  function Sample(): ClassRef {
    ClassRef(0, SampleInit())
  }

  /** Keyword arguments other than `b` and `c`: `d`, and names that no
      parameter has. */
  ghost predicate Extra(more: Arguments) {
    && DistinctKeys(more)
    && forall k :: k in Keys(more) ==> k != "self" && k != "a" && k != "b" && k != "args" && k != "c" && k != "kwargs"
  }

  /** The standardized mapping of a call that gives `a`, `b`, the `*args`
      `rest` and `c`, with the keywords `more` beside them: `d` falls back
      to its default, and the other keywords sit flat beside the
      parameters. */
  ghost function Expected(x: Value, y: Value, rest: seq<Value>, z: Value, more: Arguments): map<string, Value> {
    map["a" := x, "b" := y, "args" := Tuple(rest), "c" := z, "d" := Get(more, "d", Str("d"))]
    + AsMap(Remove(more, "d"))
  }

  /** The arguments bound once `b` has its value: `self`, `a`, `b`, and
      `args` when there are extra positional arguments. */
  function ThroughB(x: Value, y: Value, rest: seq<Value>): Arguments {
    var b := Put(Put(Put([], "self", NoneValue), "a", x), "b", y);
    if rest == [] then b else Put(b, "args", Tuple(rest))
  }

  /** The arguments bound at the end of the keyword pass: `c`, `d` when
      the keywords give it, and `kwargs` holding the keywords no parameter
      takes, when there are any. */
  function AfterKeywords(bound: Arguments, z: Value, more: Arguments): Arguments {
    var b1 := Put(bound, "c", z);
    var b2 := if "d" in Keys(more) then Put(b1, "d", Get(more, "d", NoneValue)) else b1;
    var left := Remove(more, "d");
    if left == [] then b2 else Put(b2, "kwargs", Mapping(left))
  }

  // ---------------------------------------------------------------------
  // Binding.

  /** `A(x, y, *rest, **kwargs)`: the positional pass binds `self`, `a`
      and `b`, and `args` takes what is left. */
  lemma PositionalPass(x: Value, y: Value, rest: seq<Value>, kwargs: Arguments)
    requires "b" !in Keys(kwargs)
    ensures BindPositional(SampleInit(), [NoneValue, x, y] + rest, kwargs, 0, []) == Ok((ThroughB(x, y, rest), 4))
  {
    var ps, args := SampleInit(), [NoneValue, x, y] + rest;
    var b3 := Put(Put(Put([], "self", NoneValue), "a", x), "b", y);
    assert args[0] == NoneValue && args[1] == x && args[2] == y;
    if rest == [] {
      assert BindPositional(ps, args, kwargs, 3, b3) == Ok((b3, 4));
    } else {
      assert args[3..] == rest;
      assert BindPositional(ps, args, kwargs, 3, b3) == Ok((ThroughB(x, y, rest), 4));
    }
    assert BindPositional(ps, args, kwargs, 1, Put([], "self", NoneValue)) == BindPositional(ps, args, kwargs, 3, b3);
  }

  /** `A(x, b=y, ...)`: the positional pass stops at `b`, which the
      keywords name. */
  lemma PositionalPassToB(x: Value, kwargs: Arguments)
    requires "b" in Keys(kwargs)
    ensures BindPositional(SampleInit(), [NoneValue, x], kwargs, 0, []) == Ok((Put(Put([], "self", NoneValue), "a", x), 2))
  {
    var ps, args := SampleInit(), [NoneValue, x];
    assert BindPositional(ps, args, kwargs, 1, Put([], "self", NoneValue)) == BindPositional(ps, args, kwargs, 2, Put(Put([], "self", NoneValue), "a", x));
  }

  /** The keyword pass takes `b` from the keywords and goes on to `c`. */
  lemma KeywordPassAtB(x: Value, y: Value, z: Value, more: Arguments)
    requires Extra(more)
    ensures BindKeywords(SampleInit(), 2, [("b", y), ("c", z)] + more, Put(Put([], "self", NoneValue), "a", x), None)
            == BindKeywords(SampleInit(), 4, [("c", z)] + more, ThroughB(x, y, []), None)
  {
    var kwargs := [("b", y), ("c", z)] + more;
    assert kwargs[0] == ("b", y) && kwargs[1..] == [("c", z)] + more;
    assert "b" !in Keys(more);
    assert Remove(kwargs, "b") == [("c", z)] + more by {
      RemoveMissing([("c", z)] + more, "b");
    }
  }

  /** The keyword pass from `c` on: `c` and, when given, `d` take their
      keywords, and what is left goes to `kwargs` as one dict. */
  lemma KeywordPassFromC(bound: Arguments, z: Value, more: Arguments)
    requires Extra(more)
    ensures BindKeywords(SampleInit(), 4, [("c", z)] + more, bound, None) == Ok(AfterKeywords(bound, z, more))
  {
    var ps, kwargs := SampleInit(), [("c", z)] + more;
    assert kwargs[0] == ("c", z) && kwargs[1..] == more;
    assert "c" !in Keys(more);
    RemoveMissing(more, "c");
    assert Remove(kwargs, "c") == more;
    var b1 := Put(bound, "c", z);
    assert BindKeywords(ps, 4, kwargs, bound, None) == BindKeywords(ps, 5, more, b1, None);
    var left := Remove(more, "d");
    var b2 := if "d" in Keys(more) then Put(b1, "d", Get(more, "d", NoneValue)) else b1;
    if "d" !in Keys(more) {
      RemoveMissing(more, "d");
    }
    assert BindKeywords(ps, 5, more, b1, None) == BindKeywords(ps, 6, left, b2, None);
    assert BindKeywords(ps, 6, left, b2, None) == BindKeywords(ps, 7, left, b2, Some("kwargs"));
  }

  // ---------------------------------------------------------------------
  // Defaults and flattening.

  /** What `apply_defaults` gives the parameters of `A` once `self`, `a`,
      `b` and `c` are bound. */
  lemma SampleResolved(b: Arguments)
    requires "self" in Keys(b) && "a" in Keys(b) && "b" in Keys(b) && "c" in Keys(b)
    ensures ResolvedInto(SampleInit(), 0, b, map[])
            == map["self" := Get(b, "self", NoneValue), "a" := Get(b, "a", NoneValue),
                   "b" := Get(b, "b", NoneValue), "args" := Get(b, "args", Tuple([])),
                   "c" := Get(b, "c", NoneValue), "d" := Get(b, "d", Str("d")),
                   "kwargs" := Get(b, "kwargs", Mapping([]))]
  {
    var ps := SampleInit();
    assert Resolved(ps[3], b) == Some(Get(b, "args", Tuple([]))) by {
      if "args" in Keys(b) { GetPresent(b, "args", NoneValue, Tuple([])); } else { GetMissing(b, "args", Tuple([])); }
    }
    assert Resolved(ps[5], b) == Some(Get(b, "d", Str("d"))) by {
      if "d" in Keys(b) { GetPresent(b, "d", NoneValue, Str("d")); } else { GetMissing(b, "d", Str("d")); }
    }
    assert Resolved(ps[6], b) == Some(Get(b, "kwargs", Mapping([]))) by {
      if "kwargs" in Keys(b) { GetPresent(b, "kwargs", NoneValue, Mapping([])); } else { GetMissing(b, "kwargs", Mapping([])); }
    }
    var m1 := map["self" := Get(b, "self", NoneValue)];
    var m2 := m1["a" := Get(b, "a", NoneValue)];
    var m3 := m2["b" := Get(b, "b", NoneValue)];
    var m4 := m3["args" := Get(b, "args", Tuple([]))];
    var m5 := m4["c" := Get(b, "c", NoneValue)];
    var m6 := m5["d" := Get(b, "d", Str("d"))];
    var m7 := m6["kwargs" := Get(b, "kwargs", Mapping([]))];
    assert ResolvedInto(ps, 6, b, m6) == m7;
    assert ResolvedInto(ps, 4, b, m4) == m7;
    assert ResolvedInto(ps, 2, b, m2) == m7;
    assert ResolvedInto(ps, 0, b, map[]) == m7;
  }

  /** The standardized mapping of a call of `A` whose bound arguments hold
      `self`, `a`, `b` and `c`: the named parameters with their defaults,
      and the extra keywords beside them. */
  lemma SampleStandardized(b: Arguments)
    requires "self" in Keys(b) && "a" in Keys(b) && "b" in Keys(b) && "c" in Keys(b)
    requires Get(b, "kwargs", Mapping([])).Mapping?
    ensures Flatten(ApplyDefaults(SampleInit(), b, [])).Ok?
    ensures DistinctKeys(Flatten(ApplyDefaults(SampleInit(), b, [])).value)
    ensures AsMap(Flatten(ApplyDefaults(SampleInit(), b, [])).value)
            == map["a" := Get(b, "a", NoneValue), "b" := Get(b, "b", NoneValue),
                   "args" := Get(b, "args", Tuple([])), "c" := Get(b, "c", NoneValue),
                   "d" := Get(b, "d", Str("d"))]
               + AsMap(Get(b, "kwargs", Mapping([])).entries)
  {
    SampleResolved(b);
    DefaultsThenFlatten(SampleInit(), b);
    NamedOnly(Get(b, "self", NoneValue), Get(b, "a", NoneValue), Get(b, "b", NoneValue), Get(b, "args", Tuple([])),
              Get(b, "c", NoneValue), Get(b, "d", Str("d")), Get(b, "kwargs", Mapping([])));
  }

  lemma NamedOnly(s: Value, a: Value, b: Value, args: Value, c: Value, d: Value, kwargs: Value)
    ensures map["self" := s, "a" := a, "b" := b, "args" := args, "c" := c, "d" := d, "kwargs" := kwargs]
              - {"self", "kwargs"}
            == map["a" := a, "b" := b, "args" := args, "c" := c, "d" := d]
  {
  }

  // ---------------------------------------------------------------------
  // Whole calls.

  /** What the positional pass leaves bound, read with `get`. */
  lemma ThroughBReads(x: Value, y: Value, rest: seq<Value>, k: string, default: Value)
    ensures k in Keys(ThroughB(x, y, rest)) <==> k == "self" || k == "a" || k == "b" || (k == "args" && rest != [])
    ensures Get(ThroughB(x, y, rest), k, default)
            == if k == "args" && rest != [] then Tuple(rest)
               else if k == "b" then y
               else if k == "a" then x
               else if k == "self" then NoneValue
               else default
  {
    var b1 := Put([], "self", NoneValue);
    var b2 := Put(b1, "a", x);
    var b3 := Put(b2, "b", y);
    PutKeys([], "self", NoneValue);
    PutKeys(b1, "a", x);
    PutKeys(b2, "b", y);
    GetPut([], "self", NoneValue, k, default);
    GetPut(b1, "a", x, k, default);
    GetPut(b2, "b", y, k, default);
    if rest != [] {
      PutKeys(b3, "args", Tuple(rest));
      GetPut(b3, "args", Tuple(rest), k, default);
    }
  }

  /** What the keyword pass adds to the bound arguments, read with `get`. */
  lemma AfterKeywordsReads(bound: Arguments, z: Value, more: Arguments, k: string, default: Value)
    ensures k in Keys(AfterKeywords(bound, z, more))
            <==> k == "c" || (k == "d" && "d" in Keys(more)) || (k == "kwargs" && Remove(more, "d") != []) || k in Keys(bound)
    ensures Get(AfterKeywords(bound, z, more), k, default)
            == if k == "kwargs" && Remove(more, "d") != [] then Mapping(Remove(more, "d"))
               else if k == "d" && "d" in Keys(more) then Get(more, "d", NoneValue)
               else if k == "c" then z
               else Get(bound, k, default)
  {
    var b1 := Put(bound, "c", z);
    PutKeys(bound, "c", z);
    GetPut(bound, "c", z, k, default);
    var b2 := if "d" in Keys(more) then Put(b1, "d", Get(more, "d", NoneValue)) else b1;
    if "d" in Keys(more) {
      PutKeys(b1, "d", Get(more, "d", NoneValue));
      GetPut(b1, "d", Get(more, "d", NoneValue), k, default);
    }
    var left := Remove(more, "d");
    if left != [] {
      PutKeys(b2, "kwargs", Mapping(left));
      GetPut(b2, "kwargs", Mapping(left), k, default);
    }
  }

  /** The parameters every call of the test binds. */
  lemma BoundNamed(x: Value, y: Value, rest: seq<Value>, z: Value, more: Arguments)
    ensures var b := AfterKeywords(ThroughB(x, y, rest), z, more);
            && "self" in Keys(b) && "a" in Keys(b) && "b" in Keys(b) && "c" in Keys(b)
            && Get(b, "a", NoneValue) == x && Get(b, "b", NoneValue) == y && Get(b, "c", NoneValue) == z
  {
    var through := ThroughB(x, y, rest);
    ThroughBReads(x, y, rest, "self", NoneValue);
    AfterKeywordsReads(through, z, more, "self", NoneValue);
    ThroughBReads(x, y, rest, "a", NoneValue);
    AfterKeywordsReads(through, z, more, "a", NoneValue);
    ThroughBReads(x, y, rest, "b", NoneValue);
    AfterKeywordsReads(through, z, more, "b", NoneValue);
    AfterKeywordsReads(through, z, more, "c", NoneValue);
  }

  /** The parameters a call of the test may leave to their defaults. */
  lemma BoundOptional(x: Value, y: Value, rest: seq<Value>, z: Value, more: Arguments)
    ensures var b := AfterKeywords(ThroughB(x, y, rest), z, more);
            && Get(b, "args", Tuple([])) == Tuple(rest)
            && Get(b, "d", Str("d")) == Get(more, "d", Str("d"))
            && Get(b, "kwargs", Mapping([])) == Mapping(Remove(more, "d"))
  {
    var through := ThroughB(x, y, rest);
    ThroughBReads(x, y, rest, "args", Tuple([]));
    AfterKeywordsReads(through, z, more, "args", Tuple([]));
    ThroughBReads(x, y, rest, "d", Str("d"));
    AfterKeywordsReads(through, z, more, "d", Str("d"));
    ThroughBReads(x, y, rest, "kwargs", Mapping([]));
    AfterKeywordsReads(through, z, more, "kwargs", Mapping([]));
    if "d" in Keys(more) {
      GetPresent(more, "d", NoneValue, Str("d"));
    } else {
      GetMissing(more, "d", Str("d"));
    }
  }

  /** Once binding is done, defaults and flattening give the expected
      mapping. */
  lemma AfterBinding(x: Value, y: Value, rest: seq<Value>, z: Value, more: Arguments)
    requires Extra(more)
    ensures var s := Flatten(ApplyDefaults(SampleInit(), AfterKeywords(ThroughB(x, y, rest), z, more), []));
            s.Ok? && DistinctKeys(s.value) && AsMap(s.value) == Expected(x, y, rest, z, more)
  {
    BoundNamed(x, y, rest, z, more);
    BoundOptional(x, y, rest, z, more);
    SampleStandardized(AfterKeywords(ThroughB(x, y, rest), z, more));
  }

  /** `A(x, y, *rest, c=z, **more)` standardizes to the expected mapping. */
  lemma BindsPositionally(x: Value, y: Value, rest: seq<Value>, z: Value, more: Arguments)
    requires Extra(more)
    ensures StandardizesTo(Sample(), [x, y] + rest, [("c", z)] + more, Expected(x, y, rest, z, more))
  {
    var ps, kwargs := SampleInit(), [("c", z)] + more;
    assert [NoneValue] + ([x, y] + rest) == [NoneValue, x, y] + rest;
    assert "b" !in Keys(more);
    PositionalPass(x, y, rest, kwargs);
    KeywordPassFromC(ThroughB(x, y, rest), z, more);
    AfterBinding(x, y, rest, z, more);
  }

  /** `A(x, b=y, c=z, **more)` standardizes to the same mapping as
      `A(x, y, c=z, **more)`. */
  lemma BindsByKeyword(x: Value, y: Value, z: Value, more: Arguments)
    requires Extra(more)
    ensures StandardizesTo(Sample(), [x], [("b", y), ("c", z)] + more, Expected(x, y, [], z, more))
  {
    var ps, kwargs := SampleInit(), [("b", y), ("c", z)] + more;
    assert [NoneValue] + [x] == [NoneValue, x];
    PositionalPassToB(x, kwargs);
    KeywordPassAtB(x, y, z, more);
    KeywordPassFromC(ThroughB(x, y, []), z, more);
    AfterBinding(x, y, [], z, more);
  }

  // ---------------------------------------------------------------------
  // What tells the standardized mappings apart.

  /** The entries of the expected mapping that the test's calls differ
      in: `args`, `d`, and a keyword no parameter has. */
  lemma ExpectedReads(x: Value, y: Value, rest: seq<Value>, z: Value, more: Arguments, k: string)
    requires Extra(more)
    requires k != "a" && k != "b" && k != "args" && k != "c" && k != "d"
    ensures var m := Expected(x, y, rest, z, more);
            && "args" in m && m["args"] == Tuple(rest)
            && "d" in m && m["d"] == Get(more, "d", Str("d"))
            && (k in m <==> k in Keys(more))
  {
  }

  /** The expected mapping holds only hashable values when the arguments
      are hashable. */
  lemma ExpectedHashable(x: Value, y: Value, rest: seq<Value>, z: Value, more: Arguments)
    requires Extra(more)
    requires Hashable(x) && Hashable(y) && Hashable(z) && Hashable(Tuple(rest)) && Hashable(Get(more, "d", Str("d")))
    requires forall e :: e in more ==> Hashable(e.1)
    ensures var m := Expected(x, y, rest, z, more);
            forall k :: k in m ==> Hashable(m[k])
  {
    var named := map["a" := x, "b" := y, "args" := Tuple(rest), "c" := z, "d" := Get(more, "d", Str("d"))];
    var left := AsMap(Remove(more, "d"));
    assert forall k :: k in named ==> Hashable(named[k]);
    AsMapRemove(more, "d");
    forall k | k in left
      ensures Hashable(left[k])
    {
      MemberAsMap(more, (k, AsMap(more)[k]));
    }
    UnionHashable(named, left);
  }

  lemma UnionHashable(m: map<string, Value>, n: map<string, Value>)
    requires forall k :: k in m ==> Hashable(m[k])
    requires forall k :: k in n ==> Hashable(n[k])
    ensures forall k :: k in m + n ==> Hashable((m + n)[k])
  {
  }

  // ---------------------------------------------------------------------
  // The calls of the test.

  /** A call of `A`: `A(x, y, *rest, c=z, **more)`, or
      `A(x, b=y, c=z, **more)` when `byKeyword`. */
  datatype Call = Call(x: Value, y: Value, byKeyword: bool, rest: seq<Value>, z: Value, more: Arguments)

  function Args(t: Call): seq<Value> {
    if t.byKeyword then [t.x] else [t.x, t.y] + t.rest
  }

  function Kwargs(t: Call): Arguments {
    (if t.byKeyword then [("b", t.y), ("c", t.z)] else [("c", t.z)]) + t.more
  }

  /** The calls `a_0` to `a_12` of the test, in order, with `x`, `y`, `z`,
      `w`, `v` and `r` standing for its `1`, `2`, `3`, `4`, `0` and `-1`. */
  function TestCalls(x: Value, y: Value, z: Value, w: Value, v: Value, r: Value): seq<Call> {
    var d, e, de := [("d", w)], [("e", v)], [("d", w), ("e", v)];
    [ Call(x, y, false, [], z, d), Call(x, y, true, [], z, d),
      Call(x, y, false, [], z, []), Call(x, y, true, [], z, []), Call(x, y, true, [], z, []),
      Call(x, y, false, [r], z, d), Call(x, y, false, [r], z, []),
      Call(x, y, false, [], z, de), Call(x, y, true, [], z, de),
      Call(x, y, false, [], z, e), Call(x, y, true, [], z, e),
      Call(x, y, false, [r], z, de), Call(x, y, false, [r], z, e) ]
  }

  /** The calls the test expects to give pairwise distinct instances. */
  function Snowflakes(): seq<nat> {
    [0, 2, 5, 6, 7, 9, 11, 12]
  }

  ghost predicate WellFormed(t: Call) {
    && Extra(t.more)
    && (t.byKeyword ==> t.rest == [])
    && Hashable(t.x) && Hashable(t.y) && Hashable(t.z)
    && Hashable(Tuple(t.rest)) && Hashable(Get(t.more, "d", Str("d")))
    && forall e :: e in t.more ==> Hashable(e.1)
  }

  function CallIndex(t: Call): Result<Key> {
    IndexOf(Sample(), Args(t), Kwargs(t))
  }

  /** A call of `A` standardizes to its expected mapping and has an index. */
  lemma CallStandardizes(t: Call)
    requires WellFormed(t)
    ensures StandardizesTo(Sample(), Args(t), Kwargs(t), Expected(t.x, t.y, t.rest, t.z, t.more))
    ensures CallIndex(t).Ok?
  {
    if t.byKeyword {
      assert Args(t) == [t.x];
      assert Kwargs(t) == [("b", t.y), ("c", t.z)] + t.more;
      BindsByKeyword(t.x, t.y, t.z, t.more);
    } else {
      BindsPositionally(t.x, t.y, t.rest, t.z, t.more);
    }
    ExpectedHashable(t.x, t.y, t.rest, t.z, t.more);
    IndexExists(Sample(), Args(t), Kwargs(t), Expected(t.x, t.y, t.rest, t.z, t.more));
  }

  /** The mapping a call of `A` standardizes to. */
  ghost function Standardized(t: Call): map<string, Value> {
    Expected(t.x, t.y, t.rest, t.z, t.more)
  }

  /** Two calls that standardize alike share an index, whether `b` is
      given by position or by keyword. */
  lemma SameCallsSameIndex(t1: Call, t2: Call)
    requires WellFormed(t1) && WellFormed(t2)
    requires Standardized(t1) == Standardized(t2)
    ensures CallIndex(t1) == CallIndex(t2)
  {
    CallStandardizes(t1);
    CallStandardizes(t2);
    SameArgumentsSameIndex(Sample(), Args(t1), Kwargs(t1), Args(t2), Kwargs(t2), Standardized(t1));
  }

  /** Two calls that standardize differently have different indices. */
  lemma DifferentCallsDifferentIndex(t1: Call, t2: Call)
    requires WellFormed(t1) && WellFormed(t2)
    requires Standardized(t1) != Standardized(t2)
    ensures CallIndex(t1) != CallIndex(t2)
  {
    CallStandardizes(t1);
    CallStandardizes(t2);
    DifferentArgumentsDifferentIndex(Sample(), Args(t1), Kwargs(t1), Standardized(t1),
                                     Args(t2), Kwargs(t2), Standardized(t2));
  }

  // ---------------------------------------------------------------------
  // Calls made one after another on the registry.

  /** One call `cls(*args, **kwargs)` through the metaclass, whose index
      is `k`. */
  method CallKeyed(registry: Registry, cls: ClassRef, args: seq<Value>, kwargs: Arguments, ghost k: Key)
    returns (inst: Instance)
    requires registry.Valid() && IndexOf(cls, args, kwargs) == Ok(k)
    modifies registry
    ensures registry.Valid()
    ensures forall k' :: k' in old(registry.instances) ==> k' in registry.instances && registry.instances[k'] == old(registry.instances)[k']
    ensures k in registry.instances && registry.instances[k] == inst && inst.key == k && inst.cls == cls
  {
    var r := registry.Call(cls, args, kwargs);
    inst := r.value;
  }

  /** Calls `cls(*args, **kwargs)` made in order through the metaclass,
      whose indices are `keys`: two of them return the same instance
      exactly when their indices coincide. */
  method CallEach(registry: Registry, cls: ClassRef, calls: seq<(seq<Value>, Arguments)>, ghost keys: seq<Key>)
    returns (a: seq<Instance>)
    requires registry.Valid() && |keys| == |calls|
    requires forall i {:trigger IndexOf(cls, calls[i].0, calls[i].1)} :: 0 <= i < |calls| ==> IndexOf(cls, calls[i].0, calls[i].1) == Ok(keys[i])
    modifies registry
    ensures registry.Valid() && |a| == |calls|
    ensures forall i :: 0 <= i < |calls| ==> a[i].cls == cls
    ensures forall i, j :: 0 <= i < |calls| && 0 <= j < |calls| ==> (a[i] == a[j] <==> keys[i] == keys[j])
  {
    a := [];
    var n := 0;
    while n < |calls|
      invariant registry.Valid() && n <= |calls| && |a| == n
      invariant Stored(keys, a, registry.instances, cls)
    {
      assert IndexOf(cls, calls[n].0, calls[n].1) == Ok(keys[n]);
      ghost var before := registry.instances;
      var inst := CallKeyed(registry, cls, calls[n].0, calls[n].1, keys[n]);
      StoredExtend(keys, a, inst, before, registry.instances, cls);
      a := a + [inst];
      n := n + 1;
    }
    SameKeySameInstance(keys, a, registry.instances, cls);
  }

  /** The instances `a` are those the registry holds under the first
      `|a|` of `keys`, and are of class `cls`. */
  ghost predicate Stored(keys: seq<Key>, a: seq<Instance>, instances: map<Key, Instance>, cls: ClassRef) {
    && |a| <= |keys|
    && forall i :: 0 <= i < |a| ==>
         keys[i] in instances && instances[keys[i]] == a[i] && a[i].key == keys[i] && a[i].cls == cls
  }

  /** One more call keeps the instances so far stored and stores the new
      one. */
  lemma StoredExtend(keys: seq<Key>, a: seq<Instance>, inst: Instance, before: map<Key, Instance>,
                     after: map<Key, Instance>, cls: ClassRef)
    requires Stored(keys, a, before, cls) && |a| < |keys|
    requires forall k :: k in before ==> k in after && after[k] == before[k]
    requires keys[|a|] in after && after[keys[|a|]] == inst && inst.key == keys[|a|] && inst.cls == cls
    ensures Stored(keys, a + [inst], after, cls)
  {
  }

  /** Instances stored under their own keys are shared exactly by equal
      keys. */
  lemma SameKeySameInstance(keys: seq<Key>, a: seq<Instance>, instances: map<Key, Instance>, cls: ClassRef)
    requires |keys| == |a| && Stored(keys, a, instances, cls)
    ensures forall i, j :: 0 <= i < |a| && 0 <= j < |a| ==> (a[i] == a[j] <==> keys[i] == keys[j])
  {
    forall i, j | 0 <= i < |a| && 0 <= j < |a|
      ensures a[i] == a[j] <==> keys[i] == keys[j]
    {
      if keys[i] == keys[j] {
        assert a[i] == instances[keys[i]];
      }
    }
  }

  /** The index of a call of `A`. */
  lemma CallKey(t: Call) returns (k: Key)
    requires WellFormed(t)
    ensures CallIndex(t) == Ok(k)
  {
    CallStandardizes(t);
    k := CallIndex(t).value;
  }

  /** The index of each of the first `n` of `calls`. */
  lemma {:induction false} KeysOf(calls: seq<Call>, n: nat) returns (keys: seq<Key>)
    requires n <= |calls|
    requires forall i {:trigger WellFormed(calls[i])} :: 0 <= i < |calls| ==> WellFormed(calls[i])
    ensures |keys| == n
    ensures forall i :: 0 <= i < n ==> CallIndex(calls[i]) == Ok(keys[i])
    decreases n
  {
    if n == 0 {
      keys := [];
    } else {
      var prev := KeysOf(calls, n - 1);
      var k := CallKey(calls[n - 1]);
      keys := prev + [k];
      forall i | 0 <= i < n
        ensures CallIndex(calls[i]) == Ok(keys[i])
      {
        if i < n - 1 {
          assert keys[i] == prev[i];
        }
      }
    }
  }

  /** The calls' indices coincide exactly when the calls standardize
      alike. */
  lemma KeysMatchMappings(calls: seq<Call>, keys: seq<Key>)
    requires |keys| == |calls|
    requires forall i {:trigger WellFormed(calls[i])} :: 0 <= i < |calls| ==> WellFormed(calls[i])
    requires forall i :: 0 <= i < |calls| ==> CallIndex(calls[i]) == Ok(keys[i])
    ensures forall i, j :: 0 <= i < |calls| && 0 <= j < |calls| ==>
              (keys[i] == keys[j] <==> Standardized(calls[i]) == Standardized(calls[j]))
  {
    forall i, j | 0 <= i < |calls| && 0 <= j < |calls|
      ensures keys[i] == keys[j] <==> Standardized(calls[i]) == Standardized(calls[j])
    {
      if Standardized(calls[i]) == Standardized(calls[j]) {
        SameCallsSameIndex(calls[i], calls[j]);
      } else {
        DifferentCallsDifferentIndex(calls[i], calls[j]);
      }
    }
  }

  // ---------------------------------------------------------------------
  // The test.

  /** The test's values: hashable, and `d` given a value other than its
      default. */
  ghost predicate TestValues(x: Value, y: Value, z: Value, w: Value, v: Value, r: Value) {
    Hashable(x) && Hashable(y) && Hashable(z) && Hashable(w) && Hashable(v) && Hashable(r) && w != Str("d")
  }

  /** The keyword tails of the test's calls. */
  lemma Tails(w: Value, v: Value)
    ensures Keys([("d", w)]) == ["d"] && Keys([("e", v)]) == ["e"] && Keys([("d", w), ("e", v)]) == ["d", "e"]
    ensures Get([("d", w)], "d", Str("d")) == w && Get([("d", w), ("e", v)], "d", Str("d")) == w
    ensures Get([("e", v)], "d", Str("d")) == Str("d") && Get([], "d", Str("d")) == Str("d")
    ensures Extra([]) && Extra([("d", w)]) && Extra([("e", v)]) && Extra([("d", w), ("e", v)])
  {
    assert Keys([("d", w), ("e", v)]) == ["d", "e"];
    assert Get([("e", v)], "d", Str("d")) == Get([], "d", Str("d"));
  }

  /** The shape every call of the test has. */
  ghost predicate OfTest(t: Call, x: Value, y: Value, z: Value, w: Value, v: Value, r: Value) {
    && t.x == x && t.y == y && t.z == z
    && (t.rest == [] || t.rest == [r])
    && (t.more == [] || t.more == [("d", w)] || t.more == [("e", v)] || t.more == [("d", w), ("e", v)])
    && (t.byKeyword ==> t.rest == [])
  }

  lemma OfTestWellFormed(t: Call, x: Value, y: Value, z: Value, w: Value, v: Value, r: Value)
    requires TestValues(x, y, z, w, v, r) && OfTest(t, x, y, z, w, v, r)
    ensures WellFormed(t)
  {
    Tails(w, v);
  }

  lemma TestCallsWellFormed(x: Value, y: Value, z: Value, w: Value, v: Value, r: Value)
    requires TestValues(x, y, z, w, v, r)
    ensures var c := TestCalls(x, y, z, w, v, r);
            |c| == 13 && forall i {:trigger WellFormed(c[i])} :: 0 <= i < |c| ==> WellFormed(c[i])
  {
    var c := TestCalls(x, y, z, w, v, r);
    forall i | 0 <= i < |c| ensures WellFormed(c[i]) {
      OfTestWellFormed(c[i], x, y, z, w, v, r);
    }
  }

  /** Which of the three ways the snowflakes differ a call shows, as three
      bits: `d` ends up other than `w`, extra positional arguments are
      given, `e` is given. */
  function CallCode(t: Call, w: Value): nat {
    (if Get(t.more, "d", Str("d")) == w then 0 else 1)
    + (if t.rest == [] then 0 else 2)
    + (if "e" in Keys(t.more) then 4 else 0)
  }

  /** Two calls that differ at most in how `b` is passed. */
  predicate SameValues(t1: Call, t2: Call) {
    t1.x == t2.x && t1.y == t2.y && t1.rest == t2.rest && t1.z == t2.z && t1.more == t2.more
  }

  /** Calls with different codes standardize differently. */
  lemma CodesDiffer(t1: Call, t2: Call, w: Value)
    requires Extra(t1.more) && Extra(t2.more)
    requires CallCode(t1, w) != CallCode(t2, w)
    ensures Standardized(t1) != Standardized(t2)
  {
    ExpectedReads(t1.x, t1.y, t1.rest, t1.z, t1.more, "e");
    ExpectedReads(t2.x, t2.y, t2.rest, t2.z, t2.more, "e");
    assert Tuple(t1.rest) == Tuple(t2.rest) ==> t1.rest == t2.rest;
  }

  /** Two calls with the same values have the same index. */
  lemma SameValuesSameKey(t1: Call, t2: Call, k1: Key, k2: Key)
    requires WellFormed(t1) && WellFormed(t2) && SameValues(t1, t2)
    requires CallIndex(t1) == Ok(k1) && CallIndex(t2) == Ok(k2)
    ensures k1 == k2
  {
    SameCallsSameIndex(t1, t2);
  }

  /** Two calls with different codes have different indices. */
  lemma CodesDifferentKeys(t1: Call, t2: Call, k1: Key, k2: Key, w: Value)
    requires WellFormed(t1) && WellFormed(t2) && CallCode(t1, w) != CallCode(t2, w)
    requires CallIndex(t1) == Ok(k1) && CallIndex(t2) == Ok(k2)
    ensures k1 != k2
  {
    CodesDiffer(t1, t2, w);
    DifferentCallsDifferentIndex(t1, t2);
  }

  /** `SameValuesSameKey` and `CodesDifferentKeys` for every pair of a
      sequence of calls. */
  lemma KeysByValues(calls: seq<Call>, keys: seq<Key>, w: Value)
    requires |keys| == |calls|
    requires forall i {:trigger WellFormed(calls[i])} :: 0 <= i < |calls| ==> WellFormed(calls[i])
    requires forall i :: 0 <= i < |calls| ==> CallIndex(calls[i]) == Ok(keys[i])
    ensures forall i, j :: 0 <= i < |calls| && 0 <= j < |calls| && SameValues(calls[i], calls[j]) ==> keys[i] == keys[j]
    ensures forall i, j :: 0 <= i < |calls| && 0 <= j < |calls| && CallCode(calls[i], w) != CallCode(calls[j], w) ==> keys[i] != keys[j]
  {
    forall i, j | 0 <= i < |calls| && 0 <= j < |calls|
      ensures SameValues(calls[i], calls[j]) ==> keys[i] == keys[j]
      ensures CallCode(calls[i], w) != CallCode(calls[j], w) ==> keys[i] != keys[j]
    {
      if SameValues(calls[i], calls[j]) {
        SameValuesSameKey(calls[i], calls[j], keys[i], keys[j]);
      }
      if CallCode(calls[i], w) != CallCode(calls[j], w) {
        CodesDifferentKeys(calls[i], calls[j], keys[i], keys[j], w);
      }
    }
  }

  /** The codes of the snowflakes that leave `e` out. */
  lemma CodesWithoutE(x: Value, y: Value, z: Value, w: Value, v: Value, r: Value)
    requires w != Str("d")
    ensures var c := TestCalls(x, y, z, w, v, r);
            CallCode(c[0], w) == 0 && CallCode(c[2], w) == 1 && CallCode(c[5], w) == 2 && CallCode(c[6], w) == 3
  {
    Tails(w, v);
  }

  /** The codes of the snowflakes that give `e`. */
  lemma CodesWithE(x: Value, y: Value, z: Value, w: Value, v: Value, r: Value)
    requires w != Str("d")
    ensures var c := TestCalls(x, y, z, w, v, r);
            CallCode(c[7], w) == 4 && CallCode(c[9], w) == 5 && CallCode(c[11], w) == 6 && CallCode(c[12], w) == 7
  {
    Tails(w, v);
  }

  /** The codes of the snowflakes: `0` to `7` in order, so no two agree. */
  lemma SnowflakeCodes(x: Value, y: Value, z: Value, w: Value, v: Value, r: Value)
    requires w != Str("d")
    ensures var c := TestCalls(x, y, z, w, v, r);
            forall k :: 0 <= k < |Snowflakes()| ==> Snowflakes()[k] < |c| && CallCode(c[Snowflakes()[k]], w) == k
  {
    CodesWithoutE(x, y, z, w, v, r);
    CodesWithE(x, y, z, w, v, r);
  }

  /** The calls of the test that pass the same values, `b` once by
      position and once by keyword. */
  lemma TestPairs(x: Value, y: Value, z: Value, w: Value, v: Value, r: Value)
    ensures var c := TestCalls(x, y, z, w, v, r);
            && SameValues(c[0], c[1]) && SameValues(c[2], c[3]) && SameValues(c[2], c[4])
            && SameValues(c[7], c[8]) && SameValues(c[9], c[10])
  {
  }

  /** The `(args, kwargs)` each call passes to the metaclass. */
  function Requests(c: seq<Call>): (r: seq<(seq<Value>, Arguments)>)
    ensures |r| == |c|
    ensures forall i :: 0 <= i < |c| ==> r[i] == (Args(c[i]), Kwargs(c[i]))
  {
    seq(|c|, i requires 0 <= i < |c| => (Args(c[i]), Kwargs(c[i])))
  }

  /** Calls of `A` made in order through the metaclass: calls with the
      same values share an instance, calls with different codes do not. */
  method CallAll(registry: Registry, calls: seq<Call>, ghost w: Value) returns (a: seq<Instance>)
    requires registry.Valid()
    requires forall i {:trigger WellFormed(calls[i])} :: 0 <= i < |calls| ==> WellFormed(calls[i])
    modifies registry
    ensures registry.Valid()
    ensures |a| == |calls| && forall i :: 0 <= i < |a| ==> a[i].cls == Sample()
    ensures forall i, j :: 0 <= i < |a| && 0 <= j < |a| && SameValues(calls[i], calls[j]) ==> a[i] == a[j]
    ensures forall i, j :: 0 <= i < |a| && 0 <= j < |a| && CallCode(calls[i], w) != CallCode(calls[j], w) ==> a[i] != a[j]
  {
    ghost var keys := KeysOf(calls, |calls|);
    KeysByValues(calls, keys, w);
    a := CallEach(registry, Sample(), Requests(calls), keys);
  }

  /** Calls at the positions `at` whose codes are their own positions in
      `at` gave pairwise distinct instances. */
  lemma CodedApart(c: seq<Call>, a: seq<Instance>, at: seq<nat>, w: Value)
    requires |a| == |c|
    requires forall i, j :: 0 <= i < |a| && 0 <= j < |a| && CallCode(c[i], w) != CallCode(c[j], w) ==> a[i] != a[j]
    requires forall k :: 0 <= k < |at| ==> at[k] < |c| && CallCode(c[at[k]], w) == k
    ensures forall i, j :: 0 <= i < j < |at| ==> a[at[i]] != a[at[j]]
  {
  }

  /** The test: the thirteen calls `a_0` to `a_12` of `A`, made in order
      through the metaclass, share instances exactly where the test says.
      `a_1` is `a_0` with `b` by keyword; `a_3` and `a_4` are `a_2` that
      way; likewise `a_8` and `a_7`, `a_10` and `a_9`. The eight snowflakes
      `a_0`, `a_2`, `a_5`, `a_6`, `a_7`, `a_9`, `a_11`, `a_12` are pairwise
      distinct. */
  method Multitonicity(registry: Registry, x: Value, y: Value, z: Value, w: Value, v: Value, r: Value)
    returns (a: seq<Instance>)
    requires registry.Valid() && TestValues(x, y, z, w, v, r)
    modifies registry
    ensures registry.Valid()
    ensures |a| == 13 && forall i :: 0 <= i < 13 ==> a[i].cls == Sample()
    ensures a[0] == a[1] && a[2] == a[3] && a[3] == a[4] && a[7] == a[8] && a[9] == a[10]
    ensures forall i, j :: 0 <= i < j < |Snowflakes()| ==> a[Snowflakes()[i]] != a[Snowflakes()[j]]
  {
    var c := TestCalls(x, y, z, w, v, r);
    TestCallsWellFormed(x, y, z, w, v, r);
    a := CallAll(registry, c, w);
    TestPairs(x, y, z, w, v, r);
    SnowflakeCodes(x, y, z, w, v, r);
    CodedApart(c, a, Snowflakes(), w);
  }
}
