/**
 * `ExcelProcessorSpec`: the extraction specifications read from a template,
 * grouped by the comment cell they were written in. The specification type
 * and how its key is read are parameters.
 */
module ExcelProcessorSpecs {
  import opened Grid

  datatype ExcelProcessorSpec<S> = ExcelProcessorSpec(taskSpecs: map<CellLocation, seq<S>>)
  {
    /** `n_location`: the number of comment cells holding specifications. */
    function NLocation(): (n: nat)
      ensures n == |taskSpecs.Keys|
      ensures n == 0 <==> taskSpecs == map[]
    {
      |taskSpecs|
    }
  }

  /** The number of specifications written in the cells `locs`, whatever order they are visited in. */
  ghost function Total<S>(m: map<CellLocation, seq<S>>, locs: set<CellLocation>): nat
    requires locs <= m.Keys
    decreases locs
  {
    if locs == {} then 0
    else
      var l :| l in locs;
      |m[l]| + Total(m, locs - {l})
  }

  /** Any cell can be counted first: the total does not depend on the order the cells are visited in. */
  lemma {:induction false} TotalRemove<S>(m: map<CellLocation, seq<S>>, locs: set<CellLocation>, l: CellLocation)
    requires locs <= m.Keys && l in locs
    ensures Total(m, locs) == |m[l]| + Total(m, locs - {l})
    decreases locs
  {
    var x :| x in locs && Total(m, locs) == |m[x]| + Total(m, locs - {x});
    if x != l {
      TotalRemove(m, locs - {x}, l);
      TotalRemove(m, locs - {l}, x);
      assert locs - {x} - {l} == locs - {l} - {x};
    }
  }

  /** `n_spec`: the number of specifications over all comment cells. */
  method NSpec<S>(spec: ExcelProcessorSpec<S>) returns (n: nat)
    ensures n == Total(spec.taskSpecs, spec.taskSpecs.Keys)
  {
    var m := spec.taskSpecs;
    n := 0;
    var rest := m.Keys;
    while rest != {}
      invariant rest <= m.Keys
      invariant n + Total(m, rest) == Total(m, m.Keys)
      decreases rest
    {
      var l :| l in rest;
      TotalRemove(m, rest, l);
      n := n + |m[l]|;
      rest := rest - {l};
    }
  }

  /** When every cell holds a specification, there are at least as many specifications as cells. */
  lemma {:induction false} TotalAtLeastLocations<S>(m: map<CellLocation, seq<S>>, locs: set<CellLocation>)
    requires locs <= m.Keys
    requires forall l :: l in locs ==> |m[l]| > 0
    ensures Total(m, locs) >= |locs|
    decreases locs
  {
    if locs != {} {
      var l :| l in locs;
      TotalRemove(m, locs, l);
      TotalAtLeastLocations(m, locs - {l});
    }
  }

  // ---------------------------------------------------------------------------
  // Keys

  /** A specification's place: the comment cell and its index in that cell's list. */
  type Position = (CellLocation, int)

  ghost predicate ValidPos<S>(m: map<CellLocation, seq<S>>, p: Position)
  {
    p.0 in m && 0 <= p.1 < |m[p.0]|
  }

  /** The key of the specification at `p`. */
  ghost function KeyAt<S, K>(m: map<CellLocation, seq<S>>, p: Position, keyOf: S -> K): K
    requires ValidPos(m, p)
  {
    keyOf(m[p.0][p.1])
  }

  /** No two specifications among the positions `ps` share a key. */
  ghost predicate UniqueOn<S, K>(m: map<CellLocation, seq<S>>, ps: set<Position>, keyOf: S -> K)
  {
    forall p, q :: p in ps && q in ps && ValidPos(m, p) && ValidPos(m, q) && p != q ==> KeyAt(m, p, keyOf) != KeyAt(m, q, keyOf)
  }

  /** No two specifications anywhere in the template share a key. */
  ghost predicate KeysUnique<S, K>(m: map<CellLocation, seq<S>>, keyOf: S -> K)
  {
    forall p, q :: ValidPos(m, p) && ValidPos(m, q) && p != q ==> KeyAt(m, p, keyOf) != KeyAt(m, q, keyOf)
  }

  /** The keys of the specifications at the positions `ps`. */
  ghost function KeysAt<S, K>(m: map<CellLocation, seq<S>>, ps: set<Position>, keyOf: S -> K): set<K>
  {
    set p | p in ps && ValidPos(m, p) :: KeyAt(m, p, keyOf)
  }

  /** `is_keys_unique`: no key is used by two specifications, whether in one comment cell or in two. */
  method IsKeysUnique<S, K(==)>(spec: ExcelProcessorSpec<S>, keyOf: S -> K) returns (unique: bool)
    ensures unique <==> KeysUnique(spec.taskSpecs, keyOf)
  {
    var m := spec.taskSpecs;
    var seen: set<K> := {};
    ghost var visited: set<Position> := {};
    var done: set<CellLocation> := {};
    var rest := m.Keys;
    while rest != {}
      invariant done <= m.Keys && rest == m.Keys - done
      invariant forall p :: p in visited <==> p.0 in done && ValidPos(m, p)
      invariant UniqueOn(m, visited, keyOf)
      invariant seen == KeysAt(m, visited, keyOf)
      decreases rest
    {
      var l :| l in rest;
      var specs := m[l];
      var i := 0;
      while i < |specs|
        invariant 0 <= i <= |specs|
        invariant forall p :: p in visited <==> (p.0 in done || (p.0 == l && p.1 < i)) && ValidPos(m, p)
        invariant UniqueOn(m, visited, keyOf)
        invariant seen == KeysAt(m, visited, keyOf)
      {
        var here: Position := (l, i);
        assert ValidPos(m, here) && here !in visited;
        if keyOf(specs[i]) in seen {
          ghost var p :| p in visited && ValidPos(m, p) && KeyAt(m, p, keyOf) == keyOf(specs[i]);
          assert KeyAt(m, here, keyOf) == KeyAt(m, p, keyOf);
          return false;
        }
        SeenGrows(m, visited, here, keyOf);
        visited := visited + {here};
        seen := seen + {keyOf(specs[i])};
        i := i + 1;
      }
      done := done + {l};
      rest := rest - {l};
    }
    assert forall p :: ValidPos(m, p) ==> p in visited;
    return true;
  }

  /** Visiting one more specification adds its key to the keys seen, and keeps them unique when the key is new. */
  lemma SeenGrows<S, K>(m: map<CellLocation, seq<S>>, visited: set<Position>, here: Position, keyOf: S -> K)
    requires ValidPos(m, here) && UniqueOn(m, visited, keyOf)
    requires KeyAt(m, here, keyOf) !in KeysAt(m, visited, keyOf)
    ensures KeysAt(m, visited + {here}, keyOf) == KeysAt(m, visited, keyOf) + {KeyAt(m, here, keyOf)}
    ensures UniqueOn(m, visited + {here}, keyOf)
  {
    forall p, q | p in visited + {here} && q in visited + {here} && ValidPos(m, p) && ValidPos(m, q) && p != q
      ensures KeyAt(m, p, keyOf) != KeyAt(m, q, keyOf)
    {
      if p == here {
        assert KeyAt(m, q, keyOf) in KeysAt(m, visited, keyOf);
      } else if q == here {
        assert KeyAt(m, p, keyOf) in KeysAt(m, visited, keyOf);
      }
    }
  }

  // ---------------------------------------------------------------------------
  // Counting keys

  /** The keys of the first `n` specifications of cell `l`. */
  ghost function KeysOfFirst<S, K>(m: map<CellLocation, seq<S>>, l: CellLocation, n: nat, keyOf: S -> K): set<K>
    requires l in m && n <= |m[l]|
  {
    set i | 0 <= i < n :: keyOf(m[l][i])
  }

  /** The keys of every specification written in the cells `locs`. */
  ghost function KeysIn<S, K>(m: map<CellLocation, seq<S>>, locs: set<CellLocation>, keyOf: S -> K): set<K>
    requires locs <= m.Keys
  {
    set l, i | l in locs && 0 <= i < |m[l]| :: keyOf(m[l][i])
  }

  /** With unique keys, the first `n` specifications of a cell have `n` keys. */
  lemma {:induction false} KeysOfFirstCount<S, K>(m: map<CellLocation, seq<S>>, l: CellLocation, n: nat, keyOf: S -> K)
    requires KeysUnique(m, keyOf) && l in m && n <= |m[l]|
    ensures |KeysOfFirst(m, l, n, keyOf)| == n
  {
    if n > 0 {
      KeysOfFirstCount(m, l, n - 1, keyOf);
      var k := keyOf(m[l][n - 1]);
      assert KeysOfFirst(m, l, n, keyOf) == KeysOfFirst(m, l, n - 1, keyOf) + {k};
      forall i | 0 <= i < n - 1 ensures keyOf(m[l][i]) != k {
        assert KeyAt(m, (l, i), keyOf) != KeyAt(m, (l, n - 1), keyOf);
      }
      assert k !in KeysOfFirst(m, l, n - 1, keyOf);
    }
  }

  /** Taking one cell out of `locs` splits the keys into that cell's and the rest's, which share none when keys are unique. */
  lemma KeysInSplit<S, K>(m: map<CellLocation, seq<S>>, locs: set<CellLocation>, l: CellLocation, keyOf: S -> K)
    requires KeysUnique(m, keyOf) && locs <= m.Keys && l in locs
    ensures KeysIn(m, locs, keyOf) == KeysOfFirst(m, l, |m[l]|, keyOf) + KeysIn(m, locs - {l}, keyOf)
    ensures KeysOfFirst(m, l, |m[l]|, keyOf) * KeysIn(m, locs - {l}, keyOf) == {}
  {
    var here := KeysOfFirst(m, l, |m[l]|, keyOf);
    var rest := KeysIn(m, locs - {l}, keyOf);
    forall k | k in KeysIn(m, locs, keyOf) ensures k in here + rest {
      var l', i :| l' in locs && 0 <= i < |m[l']| && keyOf(m[l'][i]) == k;
      if l' == l {
        assert k in here;
      } else {
        assert k in rest;
      }
    }
    forall i, l', j | 0 <= i < |m[l]| && l' in locs - {l} && 0 <= j < |m[l']|
      ensures keyOf(m[l][i]) != keyOf(m[l'][j])
    {
      assert KeyAt(m, (l, i), keyOf) != KeyAt(m, (l', j), keyOf);
    }
  }

  /** With unique keys, the cells `locs` hold as many distinct keys as specifications. */
  lemma {:induction false} KeysInCount<S, K>(m: map<CellLocation, seq<S>>, locs: set<CellLocation>, keyOf: S -> K)
    requires KeysUnique(m, keyOf) && locs <= m.Keys
    ensures |KeysIn(m, locs, keyOf)| == Total(m, locs)
    decreases locs
  {
    if locs == {} {
      assert KeysIn(m, locs, keyOf) == {};
    } else {
      var l :| l in locs;
      TotalRemove(m, locs, l);
      KeysInSplit(m, locs, l, keyOf);
      KeysOfFirstCount(m, l, |m[l]|, keyOf);
      KeysInCount(m, locs - {l}, keyOf);
    }
  }

  /** When `is_keys_unique` holds, the number of distinct keys is `n_spec`. */
  lemma UniqueKeysCount<S, K>(spec: ExcelProcessorSpec<S>, keyOf: S -> K)
    requires KeysUnique(spec.taskSpecs, keyOf)
    ensures |KeysIn(spec.taskSpecs, spec.taskSpecs.Keys, keyOf)| == Total(spec.taskSpecs, spec.taskSpecs.Keys)
  {
    KeysInCount(spec.taskSpecs, spec.taskSpecs.Keys, keyOf);
  }

  /** A template without specifications has no locations, no specifications, and unique keys. */
  lemma EmptySpec<S, K>(keyOf: S -> K)
    ensures var empty: map<CellLocation, seq<S>> := map[];
      && ExcelProcessorSpec(empty).NLocation() == 0
      && Total(empty, empty.Keys) == 0
      && KeysUnique(empty, keyOf)
  {
  }
}
