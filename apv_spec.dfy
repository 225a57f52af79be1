/**
 * `APVSpec` (assume, parse, validate): what to do with one located cell. The
 * parser, the fallback value, the validators and the assumptions, each filed
 * under its own key, free-form metadata and the block it was read from.
 */
module ApvSpecs {
  import opened Base
  import opened SpecData
  import ValidatorSpecs

  /** `default_fallback_value`. */
  const DefaultFallback: Data := Null

  /** The keys `APVSpec` reads itself. */
  const ConsumedKeys: set<string> := {"key", "validations", "assumptions", "metadata"}

  /** `allowed_keys`: its own keys and the parser's. */
  function AllowedKeys(parserKeys: set<string>): (keys: set<string>)
    ensures forall k :: k in keys <==> k in ConsumedKeys || k in parserKeys
  {
    ConsumedKeys + parserKeys
  }

  datatype ApvSpec = ApvSpec(
    key: Data,
    parser: RuleSpec,
    fallback: Data,
    validations: map<Data, RuleSpec>,
    assumptions: map<Data, RuleSpec>,
    metadata: Data,
    source: SpecSource)
  {
    /** `deref`: substitute in every part; the rules stay filed under the same keys and the source is kept. */
    function Deref(dr: Dereferator): (r: ApvSpec)
      ensures r.source == source
      ensures r.validations.Keys == validations.Keys && r.assumptions.Keys == assumptions.Keys
      ensures SameShape(metadata, r.metadata)
    {
      DerefKeepsShape(dr, metadata);
      ApvSpec(
        dr.DerefText(key),
        parser.Deref(dr),
        dr.DerefText(fallback),
        map k | k in validations :: validations[k].Deref(dr),
        map k | k in assumptions :: assumptions[k].Deref(dr),
        dr.Deref(metadata),
        source)
    }
  }

  /** A substitution that changes no string leaves the specification as it is. */
  lemma DerefIdentity(dr: Dereferator, a: ApvSpec)
    requires forall s :: dr.text(s) == s
    ensures a.Deref(dr) == a
  {
    var r := a.Deref(dr);
    RuleDerefIdentity(dr, a.parser);
    forall k | k in a.validations ensures r.validations[k] == a.validations[k] {
      RuleDerefIdentity(dr, a.validations[k]);
    }
    forall k | k in a.assumptions ensures r.assumptions[k] == a.assumptions[k] {
      RuleDerefIdentity(dr, a.assumptions[k]);
    }
    SpecData.DerefIdentity(dr, a.metadata);
    assert r.validations == a.validations;
    assert r.assumptions == a.assumptions;
  }

  /** Dereferencing twice with an idempotent substitution is dereferencing once. */
  lemma DerefIdempotent(dr: Dereferator, a: ApvSpec)
    requires forall s :: dr.text(dr.text(s)) == dr.text(s)
    ensures a.Deref(dr).Deref(dr) == a.Deref(dr)
  {
    var once := a.Deref(dr);
    var twice := once.Deref(dr);
    RuleDerefIdempotent(dr, a.parser);
    forall k | k in a.validations ensures twice.validations[k] == once.validations[k] {
      RuleDerefIdempotent(dr, a.validations[k]);
    }
    forall k | k in a.assumptions ensures twice.assumptions[k] == once.assumptions[k] {
      RuleDerefIdempotent(dr, a.assumptions[k]);
    }
    SpecData.DerefIdempotent(dr, a.metadata);
    assert twice.validations == once.validations;
    assert twice.assumptions == once.assumptions;
  }

  /**
   * One element of `validations` or `assumptions`: its `key` entry and the
   * rule built from it. A dict comprehension evaluates the key, then the
   * value, and hashes the key last, when it inserts the pair.
   */
  function KeyedRule(item: Data, what: string, build: map<string, Data> -> Result<RuleSpec, SpecError>)
    : (r: Result<(Data, RuleSpec), SpecError>)
    ensures r.Ok? <==> item.Dict? && "key" in item.entries && Hashable(item.entries["key"]) && build(item.entries).Ok?
    ensures r.Ok? ==> r.value == (item.entries["key"], build(item.entries).value)
    ensures item.Dict? && "key" in item.entries && build(item.entries).Err? ==> r == Err(build(item.entries).error)
  {
    if !item.Dict? then Err(NotAMapping(what))
    else if "key" !in item.entries then Err(MissingKey("key"))
    else
      var rule :- build(item.entries);
      if !Hashable(item.entries["key"]) then Err(Unhashable(what))
      else Ok((item.entries["key"], rule))
  }

  /** Every element in order, stopping at the first that fails. */
  function KeyedRules(items: seq<Data>, what: string, build: map<string, Data> -> Result<RuleSpec, SpecError>)
    : (r: Result<seq<(Data, RuleSpec)>, SpecError>)
    ensures r.Ok? <==> forall i :: 0 <= i < |items| ==> KeyedRule(items[i], what, build).Ok?
    ensures r.Ok? ==> |r.value| == |items| && forall i :: 0 <= i < |items| ==> r.value[i] == KeyedRule(items[i], what, build).value
  {
    if items == [] then Ok([])
    else
      var first :- KeyedRule(items[0], what, build);
      var rest :- KeyedRules(items[1..], what, build);
      assert forall i :: 1 <= i < |items| ==> items[i] == items[1..][i - 1];
      Ok([first] + rest)
  }

  /** `{v['key']: build(v) for v in d.get(name, [])}`. */
  function RulesUnder(d: map<string, Data>, name: string, build: map<string, Data> -> Result<RuleSpec, SpecError>)
    : Result<map<Data, RuleSpec>, SpecError>
  {
    var items :- Items(GetOr(d, name, List([])), name);
    var entries :- KeyedRules(items, name, build);
    Ok(PyKeyed(entries))
  }

  /**
   * `from_dict`: the entries are read in the order of the constructor's
   * keyword arguments, so the first failure among `key`, the parser,
   * `validations` and `assumptions` is the one raised.
   */
  function FromDict(d: map<string, Data>, source: Option<SpecSource>, b: Builders): (r: Result<ApvSpec, SpecError>)
    ensures r.Ok? <==>
      && "key" in d
      && b.parser(d).Ok?
      && RulesUnder(d, "validations", ValidatorSpecs.FromDict).Ok?
      && RulesUnder(d, "assumptions", b.assumption).Ok?
    ensures "key" !in d ==> r == Err(MissingKey("key"))
    ensures "key" in d && b.parser(d).Err? ==> r == Err(b.parser(d).error)
    ensures r.Ok? ==> r.value.key == d["key"] && b.parser(d) == Ok(r.value.parser)
    ensures r.Ok? ==> r.value.fallback == GetOr(d, "fallback", DefaultFallback)
    ensures r.Ok? ==> r.value.metadata == GetOr(d, "metadata", Dict(map[]))
    ensures r.Ok? ==> r.value.source == OrUnknown(source)
  {
    if "key" !in d then Err(MissingKey("key"))
    else
      var parser :- b.parser(d);
      var validations :- RulesUnder(d, "validations", ValidatorSpecs.FromDict);
      var assumptions :- RulesUnder(d, "assumptions", b.assumption);
      Ok(ApvSpec(
        d["key"],
        parser,
        GetOr(d, "fallback", DefaultFallback),
        validations,
        assumptions,
        GetOr(d, "metadata", Dict(map[])),
        OrUnknown(source)))
  }

  /** Without `validations` or `assumptions` entries the specification has none. */
  lemma FromDictDefaults(d: map<string, Data>, source: Option<SpecSource>, b: Builders)
    requires FromDict(d, source, b).Ok?
    ensures "validations" !in d ==> FromDict(d, source, b).value.validations == map[]
    ensures "assumptions" !in d ==> FromDict(d, source, b).value.assumptions == map[]
  {
  }

  /** The `key` entry of an element of `validations` or `assumptions`. */
  function ItemKey(item: Data): Data
    requires item.Dict? && "key" in item.entries
  {
    item.entries["key"]
  }

  /** Each element that was read gives its `key` entry and its built rule. */
  lemma KeyedRulesEntries(items: seq<Data>, what: string, build: map<string, Data> -> Result<RuleSpec, SpecError>)
    requires KeyedRules(items, what, build).Ok?
    ensures forall i :: 0 <= i < |items| ==> items[i].Dict? && "key" in items[i].entries && build(items[i].entries).Ok?
    ensures forall i :: 0 <= i < |items| ==>
      KeyedRules(items, what, build).value[i] == (ItemKey(items[i]), build(items[i].entries).value)
  {
    forall i | 0 <= i < |items|
      ensures items[i].Dict? && "key" in items[i].entries && build(items[i].entries).Ok?
      ensures KeyedRules(items, what, build).value[i] == (ItemKey(items[i]), build(items[i].entries).value)
    {
      assert KeyedRule(items[i], what, build).Ok?;
    }
  }

  /** The kept keys are exactly the elements' keys that equal no earlier one. */
  lemma KeyedRulesFirstKeys(items: seq<Data>, what: string, build: map<string, Data> -> Result<RuleSpec, SpecError>)
    requires KeyedRules(items, what, build).Ok?
    requires forall i :: 0 <= i < |items| ==> items[i].Dict? && "key" in items[i].entries
    ensures PyKeyed(KeyedRules(items, what, build).value).Keys ==
      set i | 0 <= i < |items| && (forall j :: 0 <= j < i ==> !SameKey(ItemKey(items[j]), ItemKey(items[i]))) :: ItemKey(items[i])
  {
    var es := KeyedRules(items, what, build).value;
    KeyedRulesEntries(items, what, build);
    PyKeyedFirstKeys(es);
    var m := PyKeyed(es);
    var firsts := set i | 0 <= i < |items| && (forall j :: 0 <= j < i ==> !SameKey(ItemKey(items[j]), ItemKey(items[i]))) :: ItemKey(items[i]);
    forall k | k in m ensures k in firsts {
      var i :| 0 <= i < |es| && FirstOfKey(es, i) && es[i].0 == k;
      assert forall j :: 0 <= j < i ==> !SameKey(ItemKey(items[j]), ItemKey(items[i]));
    }
    forall k | k in firsts ensures k in m {
      var i :| 0 <= i < |items| && (forall j :: 0 <= j < i ==> !SameKey(ItemKey(items[j]), ItemKey(items[i]))) && ItemKey(items[i]) == k;
      assert FirstOfKey(es, i);
    }
  }

  /** A kept key holds the rule of the last element whose key equals it. */
  lemma KeyedRulesLastWins(items: seq<Data>, what: string, build: map<string, Data> -> Result<RuleSpec, SpecError>)
    requires KeyedRules(items, what, build).Ok?
    requires forall i :: 0 <= i < |items| ==> items[i].Dict? && "key" in items[i].entries && build(items[i].entries).Ok?
    ensures var m := PyKeyed(KeyedRules(items, what, build).value);
      forall i :: 0 <= i < |items| && (forall j :: i < j < |items| ==> !SameKey(ItemKey(items[j]), ItemKey(items[i]))) ==>
        forall k :: k in m && SameKey(k, ItemKey(items[i])) ==> m[k] == build(items[i].entries).value
  {
    var es := KeyedRules(items, what, build).value;
    KeyedRulesEntries(items, what, build);
    forall i | 0 <= i < |items| && (forall j :: i < j < |items| ==> !SameKey(ItemKey(items[j]), ItemKey(items[i])))
      ensures forall k :: k in PyKeyed(es) && SameKey(k, ItemKey(items[i])) ==> PyKeyed(es)[k] == build(items[i].entries).value
    {
      assert LastOfKey(es, i);
      PyKeyedLastWins(es, i);
    }
  }

  /** No two kept keys are equal, and every element's key equals a kept one. */
  lemma KeyedRulesKeysCover(items: seq<Data>, what: string, build: map<string, Data> -> Result<RuleSpec, SpecError>)
    requires KeyedRules(items, what, build).Ok?
    requires forall i :: 0 <= i < |items| ==> items[i].Dict? && "key" in items[i].entries
    ensures var m := PyKeyed(KeyedRules(items, what, build).value);
      forall a, c :: a in m && c in m && SameKey(a, c) ==> a == c
    ensures var m := PyKeyed(KeyedRules(items, what, build).value);
      forall i :: 0 <= i < |items| ==> ItemKey(items[i]) in m || Twin(ItemKey(items[i])) in m
  {
    KeyedRulesEntries(items, what, build);
    PyKeyedKeys(KeyedRules(items, what, build).value);
  }

  /**
   * Rules built from a list are filed under the elements' `key` values,
   * compared as Python compares dictionary keys (`True` is `1`, `False` is
   * `0`). The key kept is the first element's among equal keys, no two kept
   * keys are equal, every element's key equals a kept one, and a kept key
   * holds the rule of the last element whose key equals it.
   */
  lemma KeyedRulesLaterWins(items: seq<Data>, what: string, build: map<string, Data> -> Result<RuleSpec, SpecError>)
    requires KeyedRules(items, what, build).Ok?
    ensures forall i :: 0 <= i < |items| ==> items[i].Dict? && "key" in items[i].entries && build(items[i].entries).Ok?
    ensures var m := PyKeyed(KeyedRules(items, what, build).value);
      forall a, c :: a in m && c in m && SameKey(a, c) ==> a == c
    ensures var m := PyKeyed(KeyedRules(items, what, build).value);
      m.Keys == set i | 0 <= i < |items| && (forall j :: 0 <= j < i ==> !SameKey(ItemKey(items[j]), ItemKey(items[i]))) :: ItemKey(items[i])
    ensures var m := PyKeyed(KeyedRules(items, what, build).value);
      forall i :: 0 <= i < |items| ==> ItemKey(items[i]) in m || Twin(ItemKey(items[i])) in m
    ensures var m := PyKeyed(KeyedRules(items, what, build).value);
      forall i :: 0 <= i < |items| && (forall j :: i < j < |items| ==> !SameKey(ItemKey(items[j]), ItemKey(items[i]))) ==>
        forall k :: k in m && SameKey(k, ItemKey(items[i])) ==> m[k] == build(items[i].entries).value
  {
    KeyedRulesEntries(items, what, build);
    KeyedRulesKeysCover(items, what, build);
    KeyedRulesFirstKeys(items, what, build);
    KeyedRulesLastWins(items, what, build);
  }

  /**
   * The validators are filed under the keys of the listed mappings, compared
   * as Python compares dictionary keys: the first of equal keys is kept, and
   * it holds the validator of the last mapping with an equal key.
   */
  lemma ValidationsLaterWins(d: map<string, Data>, source: Option<SpecSource>, b: Builders, vs: seq<Data>)
    requires FromDict(d, source, b).Ok?
    requires "validations" in d && d["validations"] == List(vs)
    ensures forall i :: 0 <= i < |vs| ==> vs[i].Dict? && "key" in vs[i].entries && "name" in vs[i].entries
    ensures var m := FromDict(d, source, b).value.validations;
      m.Keys == set i | 0 <= i < |vs| && (forall j :: 0 <= j < i ==> !SameKey(ItemKey(vs[j]), ItemKey(vs[i]))) :: ItemKey(vs[i])
    ensures var m := FromDict(d, source, b).value.validations;
      forall i :: 0 <= i < |vs| ==> ItemKey(vs[i]) in m || Twin(ItemKey(vs[i])) in m
    ensures var m := FromDict(d, source, b).value.validations;
      forall i :: 0 <= i < |vs| && (forall j :: i < j < |vs| ==> !SameKey(ItemKey(vs[j]), ItemKey(vs[i]))) ==>
        forall k :: k in m && SameKey(k, ItemKey(vs[i])) ==> m[k] == ValidatorSpecs.FromDict(vs[i].entries).value
  {
    var rules := KeyedRules(vs, "validations", ValidatorSpecs.FromDict);
    assert rules.Ok? && FromDict(d, source, b).value.validations == PyKeyed(rules.value) by {
      assert Items(d["validations"], "validations") == Ok(vs);
    }
    KeyedRulesLaterWins(vs, "validations", ValidatorSpecs.FromDict);
  }

  /**
   * The assumptions are filed under the keys of the listed mappings, compared
   * as Python compares dictionary keys: the first of equal keys is kept, and
   * it holds the assumption of the last mapping with an equal key.
   */
  lemma AssumptionsLaterWins(d: map<string, Data>, source: Option<SpecSource>, b: Builders, xs: seq<Data>)
    requires FromDict(d, source, b).Ok?
    requires "assumptions" in d && d["assumptions"] == List(xs)
    ensures forall i :: 0 <= i < |xs| ==> xs[i].Dict? && "key" in xs[i].entries && b.assumption(xs[i].entries).Ok?
    ensures var m := FromDict(d, source, b).value.assumptions;
      m.Keys == set i | 0 <= i < |xs| && (forall j :: 0 <= j < i ==> !SameKey(ItemKey(xs[j]), ItemKey(xs[i]))) :: ItemKey(xs[i])
    ensures var m := FromDict(d, source, b).value.assumptions;
      forall i :: 0 <= i < |xs| ==> ItemKey(xs[i]) in m || Twin(ItemKey(xs[i])) in m
    ensures var m := FromDict(d, source, b).value.assumptions;
      forall i :: 0 <= i < |xs| && (forall j :: i < j < |xs| ==> !SameKey(ItemKey(xs[j]), ItemKey(xs[i]))) ==>
        forall k :: k in m && SameKey(k, ItemKey(xs[i])) ==> m[k] == b.assumption(xs[i].entries).value
  {
    var rules := KeyedRules(xs, "assumptions", b.assumption);
    assert rules.Ok? && FromDict(d, source, b).value.assumptions == PyKeyed(rules.value) by {
      assert Items(d["assumptions"], "assumptions") == Ok(xs);
    }
    KeyedRulesLaterWins(xs, "assumptions", b.assumption);
  }

  /** With `validations: [{key: 1, ...}, {key: true, ...}]` the two validators are one entry, filed under `1`, holding the later one. */
  lemma TrueIsOne(d: map<string, Data>, source: Option<SpecSource>, b: Builders, first: map<string, Data>, second: map<string, Data>)
    requires FromDict(d, source, b).Ok?
    requires "validations" in d && d["validations"] == List([Dict(first), Dict(second)])
    requires "key" in first && first["key"] == Int(1) && "key" in second && second["key"] == Bool(true)
    ensures FromDict(d, source, b).value.validations == map[Int(1) := ValidatorSpecs.FromDict(second).value]
  {
    var vs := [Dict(first), Dict(second)];
    ValidationsLaterWins(d, source, b, vs);
    var m := FromDict(d, source, b).value.validations;
    assert ItemKey(vs[0]) == Int(1) && ItemKey(vs[1]) == Bool(true);
    assert m.Keys == {Int(1)};
  }
}
