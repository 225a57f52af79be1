/**
 * What the specification classes are built from and share: the parsed
 * annotation data, the substitution that `deref` applies to it, where a
 * specification came from, the errors building one can raise, and the
 * `{name, ...params}` shape of a rule.
 */
module SpecData {
  import opened Base
  import opened ExcoBlocks

  /** A value of the parsed annotation: what YAML loading yields. */
  datatype Data =
    | Null
    | Str(s: string)
    | Int(i: int)
    | Bool(b: bool)
    | List(items: seq<Data>)
    | Dict(entries: map<string, Data>)

  /** `d.get(k, default)`. */
  function GetOr(d: map<string, Data>, k: string, default: Data): (v: Data)
    ensures k in d ==> v == d[k]
    ensures k !in d ==> v == default
  {
    if k in d then d[k] else default
  }

  /** `SpecSource`: the block a specification was read from, or `UnknownSource`. */
  datatype SpecSource = UnknownSource | BlockSource(block: ExcoBlock)

  /** `source if source is not None else UnknownSource()`. */
  function OrUnknown(source: Option<SpecSource>): SpecSource
  {
    if source.Some? then source.value else UnknownSource
  }

  /**
   * Why building a specification fails: a missing required key (`KeyError`),
   * keys outside the allowed set (`ExcoBlockContainsExtraKey`), a value that
   * is subscripted by a key or asked for its `items()` but is no mapping (a
   * `TypeError` or an `AttributeError`), a value that is iterated but is not
   * iterable, a list or mapping used as a dictionary key (each a `TypeError`),
   * or an unknown item direction (`ValueError`). The sub-specifications given
   * as parameters report their failures with the same kinds.
   */
  datatype SpecError =
    | MissingKey(key: string)
    | ExtraKeys(keys: set<string>)
    | NotAMapping(what: string)
    | NotIterable(what: string)
    | Unhashable(what: string)
    | BadDirection(value: Data)

  /** Python can use the value as a dictionary key: lists and mappings are unhashable. */
  predicate Hashable(d: Data)
  {
    !d.List? && !d.Dict?
  }

  /**
   * The elements `for v in raw` visits. A list gives its items; an empty
   * mapping or string gives none; a non-empty mapping or string gives keys or
   * characters, which are strings, so subscripting the first one by a key
   * fails; `None`, numbers and booleans are not iterable.
   */
  function Items(raw: Data, what: string): (r: Result<seq<Data>, SpecError>)
    ensures raw.List? ==> r == Ok(raw.items)
    ensures raw == Dict(map[]) || raw == Str("") ==> r == Ok([])
    ensures r.Ok? <==> raw.List? || raw == Dict(map[]) || raw == Str("")
  {
    match raw
    case List(xs) => Ok(xs)
    case Dict(m) => if m == map[] then Ok([]) else Err(NotAMapping(what))
    case Str(s) => if s == "" then Ok([]) else Err(NotAMapping(what))
    case _ => Err(NotIterable(what))
  }

  // ---------------------------------------------------------------------------
  // Dereferencing

  /**
   * `Dereferator`: rewrites the strings of a specification against a concrete
   * anchor. Its text substitution is given; everything else keeps its shape.
   */
  datatype Dereferator = Dereferator(text: string -> string)
  {
    /** `deref_text`: a string is substituted, any other value is left as it is. */
    function DerefText(d: Data): Data
    {
      if d.Str? then Str(text(d.s)) else d
    }

    /** `deref`: every string inside `d` is substituted; lists and mappings keep their shape. */
    function Deref(d: Data): Data
    {
      match d
      case Str(s) => Str(text(s))
      case List(items) => List(seq(|items|, i requires 0 <= i < |items| => Deref(items[i])))
      case Dict(entries) => Dict(map k | k in entries :: Deref(entries[k]))
      case _ => d
    }
  }

  /** `a` and `b` have the same shape: the same kind of node, the same list lengths, the same mapping keys, down to the leaves. */
  predicate SameShape(a: Data, b: Data)
  {
    match a
    case Null => b.Null?
    case Str(_) => b.Str?
    case Int(i) => b == Int(i)
    case Bool(x) => b == Bool(x)
    case List(xs) => b.List? && |xs| == |b.items| && forall i :: 0 <= i < |xs| ==> SameShape(xs[i], b.items[i])
    case Dict(m) => b.Dict? && m.Keys == b.entries.Keys && forall k :: k in m ==> SameShape(m[k], b.entries[k])
  }

  /** `deref` rewrites strings only: the result has the shape of its input. */
  lemma {:induction false} DerefKeepsShape(dr: Dereferator, d: Data)
    ensures SameShape(d, dr.Deref(d))
  {
    match d
    case List(xs) =>
      forall i | 0 <= i < |xs| ensures SameShape(xs[i], dr.Deref(d).items[i]) {
        DerefKeepsShape(dr, xs[i]);
      }
    case Dict(m) =>
      forall k | k in m ensures SameShape(m[k], dr.Deref(d).entries[k]) {
        DerefKeepsShape(dr, m[k]);
      }
    case _ =>
  }

  /** A substitution that changes no string changes nothing. */
  lemma {:induction false} DerefIdentity(dr: Dereferator, d: Data)
    requires forall s :: dr.text(s) == s
    ensures dr.Deref(d) == d
  {
    match d
    case List(xs) =>
      forall i | 0 <= i < |xs| ensures dr.Deref(xs[i]) == xs[i] {
        DerefIdentity(dr, xs[i]);
      }
      assert dr.Deref(d).items == xs;
    case Dict(m) =>
      forall k | k in m ensures dr.Deref(m[k]) == m[k] {
        DerefIdentity(dr, m[k]);
      }
      assert dr.Deref(d).entries == m;
    case _ =>
  }

  /** Dereferencing twice with an idempotent substitution is dereferencing once. */
  lemma {:induction false} DerefIdempotent(dr: Dereferator, d: Data)
    requires forall s :: dr.text(dr.text(s)) == dr.text(s)
    ensures dr.Deref(dr.Deref(d)) == dr.Deref(d)
  {
    match d
    case List(xs) =>
      var once := dr.Deref(d).items;
      forall i | 0 <= i < |xs| ensures dr.Deref(once[i]) == once[i] {
        DerefIdempotent(dr, xs[i]);
      }
      assert dr.Deref(dr.Deref(d)).items == once;
    case Dict(m) =>
      var once := dr.Deref(d).entries;
      forall k | k in m ensures dr.Deref(once[k]) == once[k] {
        DerefIdempotent(dr, m[k]);
      }
      assert dr.Deref(dr.Deref(d)).entries == once;
    case _ =>
  }

  // ---------------------------------------------------------------------------
  // Rules: `{name: ..., param: value, ...}`

  /**
   * A rule given by name with parameters: the shape of `ValidatorSpec` and
   * `TableEndConditionSpec`, and the shape the model gives to the parser,
   * locator, deref and assumption specifications.
   */
  datatype RuleSpec = RuleSpec(name: Data, params: map<string, Data>)
  {
    /** `deref`: `deref_text` on the name and on every parameter value. */
    function Deref(dr: Dereferator): (r: RuleSpec)
      ensures r.params.Keys == params.Keys
    {
      RuleSpec(dr.DerefText(name), map k | k in params :: dr.DerefText(params[k]))
    }
  }

  /** A substitution that changes no string leaves a rule as it is. */
  lemma RuleDerefIdentity(dr: Dereferator, rule: RuleSpec)
    requires forall s :: dr.text(s) == s
    ensures rule.Deref(dr) == rule
  {
    assert rule.Deref(dr).params == rule.params;
  }

  /** Dereferencing a rule twice with an idempotent substitution is dereferencing it once. */
  lemma RuleDerefIdempotent(dr: Dereferator, rule: RuleSpec)
    requires forall s :: dr.text(dr.text(s)) == dr.text(s)
    ensures rule.Deref(dr).Deref(dr) == rule.Deref(dr)
  {
    assert rule.Deref(dr).Deref(dr).params == rule.Deref(dr).params;
  }

  /** `name_params(d, exclude)`: the `name` entry, and every other entry not excluded as a parameter. */
  function NameParams(d: map<string, Data>, exclude: set<string>): (r: Result<RuleSpec, SpecError>)
    ensures r.Ok? <==> "name" in d
    ensures r.Err? ==> r.error == MissingKey("name")
    ensures r.Ok? ==> r.value.name == d["name"]
    ensures r.Ok? ==> r.value.params.Keys == d.Keys - {"name"} - exclude
    ensures r.Ok? ==> forall k :: k in r.value.params ==> r.value.params[k] == d[k]
  {
    if "name" !in d then Err(MissingKey("name"))
    else Ok(RuleSpec(d["name"], map k | k in d && k != "name" && k !in exclude :: d[k]))
  }

  /**
   * The `from_dict` of the sub-specifications the model does not define:
   * `ParserSpec.allowed_keys` and `ParserSpec.from_dict` (given the whole
   * mapping), `LocatorSpec.from_dict` and `DerefSpec.from_dict` (given the
   * value of their key, `Null` when absent), and `AssumptionSpec.from_dict`.
   */
  datatype Builders = Builders(
    parserKeys: set<string>,
    parser: map<string, Data> -> Result<RuleSpec, SpecError>,
    locator: Data -> Result<RuleSpec, SpecError>,
    deref: Data -> Result<RuleSpec, SpecError>,
    assumption: map<string, Data> -> Result<RuleSpec, SpecError>)

  // ---------------------------------------------------------------------------
  // Dict comprehensions

  /** `{k: v for (k, v) in entries}`: a later entry replaces an earlier one with the same key. */
  function Keyed<K, V>(entries: seq<(K, V)>): map<K, V>
  {
    if entries == [] then map[]
    else
      var last := entries[|entries| - 1];
      Keyed(entries[..|entries| - 1])[last.0 := last.1]
  }

  /** Each entry's key is a key of the mapping. */
  lemma {:induction false} KeyedHasEntries<K, V>(entries: seq<(K, V)>)
    ensures forall i :: 0 <= i < |entries| ==> entries[i].0 in Keyed(entries)
  {
    if entries != [] {
      var n := |entries| - 1;
      KeyedHasEntries(entries[..n]);
      assert forall i :: 0 <= i < n ==> entries[..n][i] == entries[i];
    }
  }

  /** Each key of the mapping comes from an entry. */
  lemma {:induction false} KeyedFromEntry<K, V>(entries: seq<(K, V)>, k: K) returns (i: nat)
    requires k in Keyed(entries)
    ensures i < |entries| && entries[i].0 == k
  {
    var n := |entries| - 1;
    if entries[n].0 == k {
      i := n;
    } else {
      i := KeyedFromEntry(entries[..n], k);
    }
  }

  /** A key maps to the value of its last entry. */
  lemma {:induction false} KeyedLastWins<K, V>(entries: seq<(K, V)>, i: nat)
    requires i < |entries| && forall j :: i < j < |entries| ==> entries[j].0 != entries[i].0
    ensures entries[i].0 in Keyed(entries) && Keyed(entries)[entries[i].0] == entries[i].1
  {
    var n := |entries| - 1;
    if i < n {
      KeyedLastWins(entries[..n], i);
    }
  }

  /** The keys are exactly the entries' keys, and each key maps to the value of its last entry. */
  lemma KeyedLaterWins<K, V>(entries: seq<(K, V)>)
    ensures Keyed(entries).Keys == set i | 0 <= i < |entries| :: entries[i].0
    ensures forall i :: 0 <= i < |entries| && (forall j :: i < j < |entries| ==> entries[j].0 != entries[i].0) ==>
      Keyed(entries)[entries[i].0] == entries[i].1
  {
    KeyedHasEntries(entries);
    forall k | k in Keyed(entries) ensures k in set i | 0 <= i < |entries| :: entries[i].0 {
      var i := KeyedFromEntry(entries, k);
    }
    forall i | 0 <= i < |entries| && (forall j :: i < j < |entries| ==> entries[j].0 != entries[i].0)
      ensures Keyed(entries)[entries[i].0] == entries[i].1
    {
      KeyedLastWins(entries, i);
    }
  }

  // ---------------------------------------------------------------------------
  // Dictionary keys compared as Python compares them

  /** The value Python compares a key by: `True` is `1` and `False` is `0`, with equal hashes. */
  function KeyValue(k: Data): Data
  {
    if k.Bool? then Int(if k.b then 1 else 0) else k
  }

  /** `a` and `b` are one key of a Python dict. */
  predicate SameKey(a: Data, b: Data)
  {
    KeyValue(a) == KeyValue(b)
  }

  /** The other value that is the same key as `k` (`1` for `True`, `False` for `0`), or `k` itself when there is none. */
  function Twin(k: Data): (t: Data)
    ensures SameKey(t, k)
  {
    match k
    case Bool(b) => Int(if b then 1 else 0)
    case Int(i) => if i == 0 then Bool(false) else if i == 1 then Bool(true) else k
    case _ => k
  }

  /** A key equals only itself and its twin. */
  lemma OnlyTwins(a: Data, k: Data)
    requires SameKey(a, k)
    ensures a == k || a == Twin(k)
  {
  }

  /**
   * `{k: v for (k, v) in entries}` with Python's key equality: a later entry
   * whose key equals an earlier one replaces the value, and the key object
   * first inserted stays.
   */
  function PyKeyed<V>(entries: seq<(Data, V)>): map<Data, V>
  {
    if entries == [] then map[]
    else
      var n := |entries| - 1;
      var m := PyKeyed(entries[..n]);
      var k := entries[n].0;
      if k !in m && Twin(k) in m then m[Twin(k) := entries[n].1] else m[k := entries[n].1]
  }

  /** The `i`-th key equals no key before it. */
  predicate FirstOfKey<V>(entries: seq<(Data, V)>, i: nat)
    requires i < |entries|
  {
    forall j :: 0 <= j < i ==> !SameKey(entries[j].0, entries[i].0)
  }

  /** The `i`-th key equals no key after it. */
  predicate LastOfKey<V>(entries: seq<(Data, V)>, i: nat)
    requires i < |entries|
  {
    forall j :: i < j < |entries| ==> !SameKey(entries[j].0, entries[i].0)
  }

  /** The keys of the mapping are entries' keys, no two of them equal, and every entry's key equals one of them. */
  lemma {:induction false} PyKeyedKeys<V>(entries: seq<(Data, V)>)
    ensures forall a, b :: a in PyKeyed(entries) && b in PyKeyed(entries) && SameKey(a, b) ==> a == b
    ensures forall i :: 0 <= i < |entries| ==> entries[i].0 in PyKeyed(entries) || Twin(entries[i].0) in PyKeyed(entries)
    ensures forall k :: k in PyKeyed(entries) ==> exists i :: 0 <= i < |entries| && entries[i].0 == k
  {
    if entries != [] {
      var n := |entries| - 1;
      var pre := entries[..n];
      PyKeyedKeys(pre);
      assert forall i :: 0 <= i < n ==> pre[i] == entries[i];
      var m := PyKeyed(pre);
      var k := entries[n].0;
      if !(k !in m && Twin(k) in m) {
        forall a | a in m && SameKey(a, k) ensures a == k {
          OnlyTwins(a, k);
        }
      }
      forall k' | k' in PyKeyed(entries) ensures exists i :: 0 <= i < |entries| && entries[i].0 == k' {
        if k' in m {
          var i :| 0 <= i < n && pre[i].0 == k';
          assert entries[i].0 == k';
        } else {
          assert entries[n].0 == k';
        }
      }
    }
  }

  /** Whether an entry's key is the first of its kind does not depend on the entries after it. */
  lemma FirstOfKeyPrefix<V>(entries: seq<(Data, V)>, n: nat, i: nat)
    requires i < n <= |entries|
    ensures entries[..n][i] == entries[i]
    ensures FirstOfKey(entries[..n], i) <==> FirstOfKey(entries, i)
  {
    assert forall j :: 0 <= j <= i ==> entries[..n][j] == entries[j];
  }

  /** The last entry's key equals no earlier key exactly when neither it nor its twin is a key of the mapping built before it. */
  lemma PyKeyedNewKey<V>(entries: seq<(Data, V)>)
    requires entries != []
    ensures var n := |entries| - 1;
      FirstOfKey(entries, n) <==> entries[n].0 !in PyKeyed(entries[..n]) && Twin(entries[n].0) !in PyKeyed(entries[..n])
  {
    var n := |entries| - 1;
    var pre := entries[..n];
    PyKeyedKeys(pre);
    var m := PyKeyed(pre);
    var k := entries[n].0;
    if k in m || Twin(k) in m {
      var a := if k in m then k else Twin(k);
      var j :| 0 <= j < n && pre[j].0 == a;
      assert SameKey(entries[j].0, k);
    } else {
      forall j | 0 <= j < n ensures !SameKey(entries[j].0, k) {
        var a := entries[j].0;
        assert pre[j] == entries[j];
        assert a in m || Twin(a) in m;
        if SameKey(a, k) {
          OnlyTwins(a, k);
          OnlyTwins(Twin(a), k);
        }
      }
    }
  }

  /** The keys of the entries that equal no earlier key. */
  ghost function FirstKeys<V>(entries: seq<(Data, V)>): set<Data>
  {
    set i | 0 <= i < |entries| && FirstOfKey(entries, i) :: entries[i].0
  }

  /** An entry appended at the end adds its key to the first keys exactly when it equals no earlier key. */
  lemma FirstKeysStep<V>(entries: seq<(Data, V)>)
    requires entries != []
    ensures var n := |entries| - 1;
      FirstKeys(entries) == FirstKeys(entries[..n]) + (if FirstOfKey(entries, n) then {entries[n].0} else {})
  {
    var n := |entries| - 1;
    var pre := entries[..n];
    var k := entries[n].0;
    var added := if FirstOfKey(entries, n) then {k} else {};
    forall x | x in FirstKeys(entries) ensures x in FirstKeys(pre) + added {
      var i :| 0 <= i < |entries| && FirstOfKey(entries, i) && entries[i].0 == x;
      if i < n {
        FirstOfKeyPrefix(entries, n, i);
        assert x in FirstKeys(pre);
      } else {
        assert x in added;
      }
    }
    forall x | x in FirstKeys(pre) + added ensures x in FirstKeys(entries) {
      if x in FirstKeys(pre) {
        var i :| 0 <= i < n && FirstOfKey(pre, i) && pre[i].0 == x;
        FirstOfKeyPrefix(entries, n, i);
      } else {
        assert x == k && FirstOfKey(entries, n);
      }
    }
  }

  /** The keys of the mapping are exactly the keys of the entries that equal no earlier key. */
  lemma {:induction false} PyKeyedFirstKeys<V>(entries: seq<(Data, V)>)
    ensures PyKeyed(entries).Keys == FirstKeys(entries)
  {
    if entries != [] {
      var n := |entries| - 1;
      PyKeyedFirstKeys(entries[..n]);
      PyKeyedNewKey(entries);
      FirstKeysStep(entries);
    }
  }

  /** A key maps to the value of the last entry whose key equals it. */
  lemma {:induction false} PyKeyedLastWins<V>(entries: seq<(Data, V)>, i: nat)
    requires i < |entries| && LastOfKey(entries, i)
    ensures forall k :: k in PyKeyed(entries) && SameKey(k, entries[i].0) ==> PyKeyed(entries)[k] == entries[i].1
  {
    var n := |entries| - 1;
    var pre := entries[..n];
    PyKeyedKeys(entries);
    if i < n {
      assert forall j :: i < j < n ==> pre[j] == entries[j];
      PyKeyedLastWins(pre, i);
      assert !SameKey(entries[n].0, entries[i].0);
    } else {
      var m := PyKeyed(pre);
      var k := entries[n].0;
      var stored := if k !in m && Twin(k) in m then Twin(k) else k;
      assert stored in PyKeyed(entries) && SameKey(stored, k);
    }
  }

  /** Some order of the keys of a mapping: the iteration order of a Python dict, which a set does not record. */
  ghost function KeyOrder(keys: set<string>): (xs: seq<string>)
    ensures forall x :: x in xs <==> x in keys
    ensures |xs| == |keys|
    ensures forall i, j :: 0 <= i < j < |xs| ==> xs[i] != xs[j]
  {
    if keys == {} then []
    else
      var x :| x in keys;
      [x] + KeyOrder(keys - {x})
  }
}
