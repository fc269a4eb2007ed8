/** Layered configuration of an agent (apps/marvins/config_assembly.py), on values. */
module ConfigAssembly {
  import opened Basics

  /** A JSON value; everything that is not an object is a leaf. */
  datatype Json = Leaf(text: string) | Object(fields: map<string, Json>)

  type Fields = map<string, Json>

  function At(m: Fields, k: string): Option<Json> {
    if k in m then Some(m[k]) else None
  }

  // ---------------------------------------------------------------------------------------------
  // Deep merge.

  /** The value under a key that the override sets. */
  function Put(base: Option<Json>, override: Json): Json
    decreases override
  {
    if override.Leaf? || base.None? || base.value.Leaf? then override
    else
      var own, other := base.value.fields, override.fields;
      Object(map k | k in own.Keys + other.Keys :: if k in other then Put(At(own, k), other[k]) else own[k])
  }

  function Merge(base: Fields, override: Fields): Fields {
    Put(Some(Object(base)), Object(override)).fields
  }

  // ---------------------------------------------------------------------------------------------
  // Laws of the merge.

  lemma {:induction false} PutAt(base: Fields, override: Fields, k: string)
    ensures At(Put(Some(Object(base)), Object(override)).fields, k)
         == if k in override then Some(Put(At(base, k), override[k])) else At(base, k)
  {
  }

  lemma {:induction false} SameFields(a: Fields, b: Fields)
    requires forall k :: At(a, k) == At(b, k)
    ensures a == b
  {
    forall k ensures k in a <==> k in b {
      assert At(a, k) == At(b, k);
    }
    forall k | k in a ensures a[k] == b[k] {
      assert At(a, k) == At(b, k);
    }
  }

  /** Merging the same override again changes nothing. */
  lemma {:induction false} PutTwice(base: Option<Json>, override: Json)
    ensures Put(Some(Put(base, override)), override) == Put(base, override)
    decreases override
  {
    if override.Object? {
      var once := Put(base, override);
      forall k ensures At(Put(Some(once), override).fields, k) == At(once.fields, k) {
        PutAt(once.fields, override.fields, k);
        if base.Some? && base.value.Object? {
          PutAt(base.value.fields, override.fields, k);
        }
        if k in override.fields {
          PutTwice(if base.Some? && base.value.Object? then At(base.value.fields, k) else None, override.fields[k]);
        }
      }
      SameFields(Put(Some(once), override).fields, once.fields);
    }
  }

  lemma {:induction false} MergeIsIdempotent(base: Fields, override: Fields)
    ensures Merge(Merge(base, override), override) == Merge(base, override)
  {
    PutTwice(Some(Object(base)), Object(override));
  }

  /** Everything in `a` is also set by `c`, so merging `c` into it gives `c`. */
  predicate Covered(a: Json, c: Json)
    decreases a
  {
    a.Object? && c.Object? ==>
      forall k | k in a.fields :: k in c.fields && Covered(a.fields[k], c.fields[k])
  }

  lemma {:induction false} CoveredExactly(a: Json, c: Json)
    ensures Put(Some(a), c) == c <==> Covered(a, c)
    decreases c
  {
    if a.Object? && c.Object? {
      var m := Put(Some(a), c).fields;
      forall k
        ensures At(m, k) == At(c.fields, k) <==> (k in a.fields ==> k in c.fields && Covered(a.fields[k], c.fields[k]))
      {
        PutAt(a.fields, c.fields, k);
        if k in a.fields && k in c.fields {
          CoveredExactly(a.fields[k], c.fields[k]);
        }
      }
      if Covered(a, c) {
        SameFields(m, c.fields);
      } else {
        var k :| k in a.fields && !(k in c.fields && Covered(a.fields[k], c.fields[k]));
        assert At(m, k) != At(c.fields, k);
      }
    }
  }

  /**
   * Where the outer layers hold objects and the middle one a leaf, the leaf hides the first layer from the left-hand
   * grouping only; that shows unless the last layer covers the first.
   */
  predicate Compatible(a: Option<Json>, b: Json, c: Json)
    decreases c
  {
    a.Some? && a.value.Object? && c.Object? ==>
      if b.Leaf? then Covered(a.value, c)
      else forall k | k in c.fields && k in a.value.fields && k in b.fields ::
             Compatible(Some(a.value.fields[k]), b.fields[k], c.fields[k])
  }

  lemma {:induction false} AssociativeExactly(a: Option<Json>, b: Json, c: Json)
    ensures Put(Some(Put(a, b)), c) == Put(a, Put(Some(b), c)) <==> Compatible(a, b, c)
    decreases c
  {
    if a.Some? && a.value.Object? && c.Object? {
      if b.Leaf? {
        CoveredExactly(a.value, c);
      } else {
        AssociativeFields(a.value.fields, b.fields, c.fields, c);
      }
    }
  }

  lemma {:induction false} AssociativeFields(a: Fields, b: Fields, c: Fields, whole: Json)
    requires whole == Object(c)
    ensures Put(Some(Put(Some(Object(a)), Object(b))), Object(c))
         == Put(Some(Object(a)), Put(Some(Object(b)), Object(c)))
       <==> forall k | k in c && k in a && k in b :: Compatible(Some(a[k]), b[k], c[k])
    decreases whole, 0
  {
    var left := Put(Some(Put(Some(Object(a)), Object(b))), Object(c)).fields;
    var right := Put(Some(Object(a)), Put(Some(Object(b)), Object(c))).fields;
    forall k
      ensures At(left, k) == At(right, k) <==> (k in c && k in a && k in b ==> Compatible(Some(a[k]), b[k], c[k]))
    {
      PutAt(a, b, k);
      PutAt(Put(Some(Object(a)), Object(b)).fields, c, k);
      PutAt(b, c, k);
      PutAt(a, Put(Some(Object(b)), Object(c)).fields, k);
      if k in c && k in a && k in b {
        AssociativeExactly(Some(a[k]), b[k], c[k]);
      }
    }
    if forall k | k in c && k in a && k in b :: Compatible(Some(a[k]), b[k], c[k]) {
      SameFields(left, right);
    } else {
      var k :| k in c && k in a && k in b && !Compatible(Some(a[k]), b[k], c[k]);
      assert At(left, k) != At(right, k);
    }
  }

  /** Merging three layers can be grouped either way exactly when they are compatible. */
  lemma {:induction false} MergeIsAssociativeExactly(a: Fields, b: Fields, c: Fields)
    ensures Merge(Merge(a, b), c) == Merge(a, Merge(b, c)) <==> Compatible(Some(Object(a)), Object(b), Object(c))
  {
    AssociativeExactly(Some(Object(a)), Object(b), Object(c));
  }

  /** The failing case: a leaf between two objects hides the first of them from the left-hand grouping only. */
  lemma {:induction false} LeafBetweenObjects(k: string, x: string, y: string, u: Json, v: Json, w: string)
    requires x != y
    ensures var a: Fields, b: Fields, c: Fields := map[k := Object(map[x := u])], map[k := Leaf(w)],
              map[k := Object(map[y := v])];
            && Merge(Merge(a, b), c) == map[k := Object(map[y := v])]
            && Merge(a, Merge(b, c)) == map[k := Object(map[x := u, y := v])]
            && Merge(Merge(a, b), c) != Merge(a, Merge(b, c))
  {
    var a: Fields, b: Fields, c: Fields := map[k := Object(map[x := u])], map[k := Leaf(w)],
      map[k := Object(map[y := v])];
    MergeOne(k, a[k], b[k]);
    MergeOne(k, b[k], c[k]);
    MergeOne(k, a[k], c[k]);
    assert Put(Some(a[k]), c[k]) == Object(map[x := u, y := v]);
    assert x in Merge(a, c)[k].fields && x !in c[k].fields;
  }

  lemma {:induction false} MergeOne(k: string, p: Json, q: Json)
    ensures Merge(map[k := p], map[k := q]) == map[k := Put(Some(p), q)]
  {
    var m := Merge(map[k := p], map[k := q]);
    forall k' ensures At(m, k') == At(map[k := Put(Some(p), q)], k') {
      PutAt(map[k := p], map[k := q], k');
    }
    SameFields(m, map[k := Put(Some(p), q)]);
  }

  // ---------------------------------------------------------------------------------------------
  // Paths.

  function Lookup(j: Option<Json>, path: seq<string>): Option<Json>
    decreases |path|
  {
    if path == [] || j.None? then j
    else if j.value.Leaf? then None
    else Lookup(At(j.value.fields, path[0]), path[1..])
  }

  /** A layer decides a path when it has a value there or a leaf on the way. */
  predicate Decides(j: Json, path: seq<string>)
    decreases |path|
  {
    path == [] || j.Leaf? || (path[0] in j.fields && Decides(j.fields[path[0]], path[1..]))
  }

  function ScalarOf(j: Option<Json>): Option<string> {
    if j.Some? && j.value.Leaf? then Some(j.value.text) else None
  }

  /** A merge shows the override's leaf on the paths the override decides, and the base's on all others. */
  lemma {:induction false} LookupPut(base: Option<Json>, override: Json, path: seq<string>)
    ensures ScalarOf(Lookup(Some(Put(base, override)), path))
         == if Decides(override, path) then ScalarOf(Lookup(Some(override), path)) else ScalarOf(Lookup(base, path))
    decreases |path|
  {
    if path != [] && override.Object? {
      var k := path[0];
      if base.Some? && base.value.Object? {
        PutAt(base.value.fields, override.fields, k);
        if k in override.fields {
          LookupPut(At(base.value.fields, k), override.fields[k], path[1..]);
        }
      } else {
        UndecidedHasNoLeaf(override, path);
        if base.Some? {
          assert Lookup(base, path) == None;
        }
      }
    }
  }

  lemma {:induction false} UndecidedHasNoLeaf(j: Json, path: seq<string>)
    ensures !Decides(j, path) ==> Lookup(Some(j), path) == None
    decreases |path|
  {
    if path != [] && j.Object? && path[0] in j.fields {
      UndecidedHasNoLeaf(j.fields[path[0]], path[1..]);
    }
  }

  function MergeAll(layers: seq<Fields>): Fields {
    if layers == [] then map[] else Merge(MergeAll(layers[..|layers|-1]), layers[|layers|-1])
  }

  /** The last layer that decides a path. */
  function LastDeciding(layers: seq<Fields>, path: seq<string>): (i: Option<nat>)
    ensures i.Some? ==> i.value < |layers| && Decides(Object(layers[i.value]), path)
    ensures forall j | (if i.Some? then i.value + 1 else 0) <= j < |layers| :: !Decides(Object(layers[j]), path)
  {
    if layers == [] then None
    else if Decides(Object(layers[|layers|-1]), path) then Some(|layers| - 1)
    else LastDeciding(layers[..|layers|-1], path)
  }

  /** The scalar at a path is that of the last layer that decides it: no earlier layer ever overwrites a later one. */
  lemma {:induction false} LastLayerWins(layers: seq<Fields>, path: seq<string>)
    ensures var last := LastDeciding(layers, path);
            ScalarOf(Lookup(Some(Object(MergeAll(layers))), path))
            == if last.Some? then ScalarOf(Lookup(Some(Object(layers[last.value])), path)) else None
  {
    if layers == [] {
      assert path != [] ==> Lookup(Some(Object(map[])), path) == None;
    } else {
      LastLayerWins(layers[..|layers|-1], path);
      LookupPut(Some(Object(MergeAll(layers[..|layers|-1]))), Object(layers[|layers|-1]), path);
    }
  }

  // ---------------------------------------------------------------------------------------------
  // Layers.

  /** An attached and enabled resource; its type names the capabilities it configures. */
  datatype Resource = Resource(id: string, name: string, typeName: string, config: Fields, capabilityNames: seq<string>)

  /** What the resources say about a capability, in the order they are attached. */
  function ResourceLayers(resources: seq<Resource>, cap: string): seq<Fields> {
    if resources == [] then []
    else
      var rest, r := ResourceLayers(resources[..|resources|-1], cap), resources[|resources|-1];
      if cap in r.capabilityNames then rest + [r.config] else rest
  }

  /** The layers of a capability: reported by the agent, overridden from the control plane, injected by resources. */
  function CapabilityLayers(reported: map<string, Fields>, overrides: map<string, Fields>, resources: seq<Resource>,
                            cap: string)
    : seq<Fields>
  {
    (if cap in reported then [reported[cap]] else []) + (if cap in overrides then [overrides[cap]] else [])
    + ResourceLayers(resources, cap)
  }

  lemma {:induction false} MergeIntoNothing(m: Fields)
    ensures Merge(map[], m) == m
  {
    forall k ensures At(Merge(map[], m), k) == At(m, k) {
      PutAt(map[], m, k);
    }
    SameFields(Merge(map[], m), m);
  }

  lemma {:induction false} MergeAllSnoc(layers: seq<Fields>, m: Fields)
    ensures MergeAll(layers + [m]) == Merge(MergeAll(layers), m)
  {
    assert (layers + [m])[..|layers|] == layers;
  }

  lemma {:induction false} FirstLayers(reported: map<string, Fields>, overrides: map<string, Fields>, cap: string)
    requires cap in reported || cap in overrides
    ensures var base := if cap in reported then reported[cap] else map[];
            MergeAll(CapabilityLayers(reported, overrides, [], cap))
            == if cap in overrides then Merge(base, overrides[cap]) else base
  {
    var first := if cap in reported then [reported[cap]] else [];
    MergeAllSnoc([], if cap in reported then reported[cap] else map[]);
    assert [] + first == first;
    MergeIntoNothing(if cap in reported then reported[cap] else map[]);
    if cap in overrides {
      MergeAllSnoc(first, overrides[cap]);
      assert CapabilityLayers(reported, overrides, [], cap) == first + [overrides[cap]];
    } else {
      assert CapabilityLayers(reported, overrides, [], cap) == first;
    }
  }

  lemma {:induction false} NextLayer(reported: map<string, Fields>, overrides: map<string, Fields>,
                                     resources: seq<Resource>, n: nat, cap: string)
    requires n < |resources|
    ensures var before := MergeAll(CapabilityLayers(reported, overrides, resources[..n], cap));
            MergeAll(CapabilityLayers(reported, overrides, resources[..n+1], cap))
            == if cap in resources[n].capabilityNames then Merge(before, resources[n].config) else before
  {
    ResourceLayersSnoc(resources, n, cap);
    if cap in resources[n].capabilityNames {
      var first := (if cap in reported then [reported[cap]] else [])
                 + (if cap in overrides then [overrides[cap]] else []);
      MergeSnocAfter(first, ResourceLayers(resources[..n], cap), resources[n].config);
    }
  }

  lemma {:induction false} ResourceLayersSnoc(resources: seq<Resource>, n: nat, cap: string)
    requires n < |resources|
    ensures ResourceLayers(resources[..n+1], cap)
         == if cap in resources[n].capabilityNames then ResourceLayers(resources[..n], cap) + [resources[n].config]
            else ResourceLayers(resources[..n], cap)
  {
    assert resources[..n+1][..n] == resources[..n];
  }

  lemma {:induction false} MergeSnocAfter(first: seq<Fields>, rest: seq<Fields>, m: Fields)
    ensures MergeAll(first + (rest + [m])) == Merge(MergeAll(first + rest), m)
  {
    assert first + (rest + [m]) == (first + rest) + [m];
    MergeAllSnoc(first + rest, m);
  }
}
