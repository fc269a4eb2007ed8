/** The code that assembles a configuration, on mutable objects (apps/marvins/config_assembly.py). */
module ConfigObjects {
  import opened Basics
  import opened ConfigAssembly
  import opened ConfigSharing
  import opened ConfigRuns
  import opened ConfigAssembled

  datatype Node = Plain(text: string) | Nested(dict: Dict)

  type Path = seq<string>

  class Dict {
    var fields: map<string, Node>
    ghost const path: Path
    ghost const origin: Origin

    constructor (fields: map<string, Node>, ghost path: Path, ghost origin: Origin)
      ensures this.fields == fields && this.path == path && this.origin == origin
    {
      this.fields, this.path, this.origin := fields, path, origin;
    }

    ghost function Contents(): Cell
      reads this
    {
      map k | k in fields :: SlotOf(fields[k])
    }
  }

  ghost function SlotOf(node: Node): Slot {
    match node
    case Plain(text) => Scalar(text)
    case Nested(dict) => Sub(dict.origin)
  }

  /** Nested objects are known, hang at their path, and path and origin tell all objects apart. */
  ghost predicate WellPlaced(dicts: set<Dict>)
    reads dicts
  {
    && (forall d {:trigger NestedPlaced(d, dicts)} | d in dicts :: NestedPlaced(d, dicts))
    && (forall d, e | d in dicts && e in dicts && d.path == e.path && d.origin == e.origin :: d == e)
  }

  ghost predicate NestedPlaced(d: Dict, dicts: set<Dict>)
    reads d
  {
    forall k | k in d.fields && d.fields[k].Nested? ::
      d.fields[k].dict in dicts && d.fields[k].dict.path == d.path + [k]
  }

  /** The level at a path. */
  function SubAt(l: Level, path: Path): Option<Level>
    decreases |path|
  {
    if path == [] then Some(l) else if path[0] in l.below then SubAt(l.below[path[0]], path[1..]) else None
  }

  function CellAt(l: Level, path: Path, x: Origin): Option<Cell> {
    match SubAt(l, path)
    case Some(sub) => if x in sub.cells then Some(sub.cells[x]) else None
    case None => None
  }

  function Replace(l: Level, path: Path, sub: Level): Level
    decreases |path|
  {
    if path == [] then sub
    else if path[0] in l.below then l.(below := l.below[path[0] := Replace(l.below[path[0]], path[1..], sub)])
    else l
  }

  /** Every object has the slots of its cell. */
  ghost predicate Shows(l: Level, dicts: set<Dict>)
    reads dicts
  {
    forall d {:trigger ShowsDict(l, d)} | d in dicts :: ShowsDict(l, d)
  }

  ghost predicate ShowsDict(l: Level, d: Dict)
    reads d
  {
    CellAt(l, d.path, d.origin) == Some(d.Contents())
  }

  // ---------------------------------------------------------------------------------------------
  // Levels along a path.

  lemma {:induction false} ReplaceSame(l: Level, path: Path)
    requires SubAt(l, path).Some?
    ensures Replace(l, path, SubAt(l, path).value) == l
    decreases |path|
  {
    if path != [] {
      ReplaceSame(l.below[path[0]], path[1..]);
      assert l.below[path[0] := l.below[path[0]]] == l.below;
    }
  }

  lemma {:induction false} SubOfReplace(l: Level, path: Path, sub: Level)
    requires SubAt(l, path).Some?
    ensures SubAt(Replace(l, path, sub), path) == Some(sub)
    decreases |path|
  {
    if path != [] {
      SubOfReplace(l.below[path[0]], path[1..], sub);
    }
  }

  lemma {:induction false} SubBelow(l: Level, path: Path, k: string)
    requires SubAt(l, path).Some?
    ensures SubAt(l, path + [k]) == var sub := SubAt(l, path).value; if k in sub.below then Some(sub.below[k]) else None
    decreases |path|
  {
    if path == [] {
      assert (path + [k])[1..] == [] && (path + [k])[0] == k;
    } else {
      assert (path + [k])[1..] == path[1..] + [k] && (path + [k])[0] == path[0];
      SubBelow(l.below[path[0]], path[1..], k);
    }
  }

  /** Replacing one key further down. */
  lemma {:induction false} ReplaceBelow(l: Level, path: Path, k: string, sub: Level, t: Level)
    requires SubAt(l, path).Some? && k in sub.below
    ensures Replace(Replace(l, path, sub), path + [k], t) == Replace(l, path, sub.(below := sub.below[k := t]))
    decreases |path|
  {
    if path == [] {
      assert (path + [k])[1..] == [] && (path + [k])[0] == k;
    } else {
      assert (path + [k])[1..] == path[1..] + [k] && (path + [k])[0] == path[0];
      ReplaceBelow(l.below[path[0]], path[1..], k, sub, t);
      var l1 := Replace(l, path, sub);
      assert l1.below[path[0]] == Replace(l.below[path[0]], path[1..], sub);
    }
  }

  /** Changing one cell at a path changes that cell only. */
  lemma {:induction false} CellChanged(l: Level, path: Path, sub: Level, b: Origin, cell: Cell, p: Path, x: Origin)
    requires SubAt(l, path).Some?
    ensures CellAt(Replace(l, path, sub.(cells := sub.cells[b := cell])), p, x)
         == if p == path && x == b then Some(cell) else CellAt(Replace(l, path, sub), p, x)
    decreases |path|
  {
    if path != [] && p != [] && p[0] == path[0] {
      CellChanged(l.below[path[0]], path[1..], sub, b, cell, p[1..], x);
      assert p == path <==> p[1..] == path[1..];
    }
  }

  // ---------------------------------------------------------------------------------------------
  // One more key of a merge.

  lemma {:induction false} MergeNothing(l: Level, b: Origin, o: Origin)
    requires Linked(l) && b in l.cells && o in l.cells
    ensures MergeKeys(l, b, o, {}) == l
  {
    assert MergeKeys(l, b, o, {}).cells[b] == l.cells[b];
  }

  lemma {:induction false} NextCell(l: Level, b: Origin, o: Origin, done: set<string>, k: string)
    requires Linked(l) && b in l.cells && o in l.cells && k in l.cells[o] && k !in done
    ensures var l1, l2 := MergeKeys(l, b, o, done), MergeKeys(l, b, o, done + {k});
            && b in l1.cells && o in l1.cells && l1.cells[o] == l.cells[o]
            && (k in l1.cells[b] <==> k in l.cells[b]) && (k in l.cells[b] ==> l1.cells[b][k] == l.cells[b][k])
            && l2.cells == if BothSubs(l, b, o, k) then l1.cells else l1.cells[b := l1.cells[b][k := l.cells[o][k]]]
  {
    var l1, l2 := MergeKeys(l, b, o, done), MergeKeys(l, b, o, done + {k});
    assert l1.cells[o] == l.cells[o];
    if BothSubs(l, b, o, k) {
      assert l2.cells[b] == l1.cells[b];
    } else {
      assert l2.cells[b] == l1.cells[b][k := l.cells[o][k]];
    }
    assert forall x | x in l.cells && x != b :: l1.cells[x] == l2.cells[x] == l.cells[x];
  }

  lemma {:induction false} NextBelow(l: Level, b: Origin, o: Origin, done: set<string>, k: string)
    requires Linked(l) && b in l.cells && o in l.cells && k in l.cells[o] && k !in done
    ensures var l1, l2 := MergeKeys(l, b, o, done), MergeKeys(l, b, o, done + {k});
            if BothSubs(l, b, o, k) then
              k in l.below && k in l1.below && l1.below[k] == l.below[k]
              && l2.below == l1.below[k := MergeIn(l.below[k], l.cells[b][k].origin, l.cells[o][k].origin)]
            else l2.below == l1.below
  {
    var l1, l2 := MergeKeys(l, b, o, done), MergeKeys(l, b, o, done + {k});
    forall k' | k' in l.below
      ensures k' in l1.below && k' in l2.below
      ensures l1.below[k'] == if k' in done then MergedBelow(l, b, o, k') else l.below[k']
      ensures l2.below[k'] == if k' in done || k' == k then MergedBelow(l, b, o, k') else l.below[k']
    {
      BelowOf(l, b, o, done, k');
      BelowOf(l, b, o, done + {k}, k');
    }
    assert l1.below.Keys == l.below.Keys == l2.below.Keys;
    if BothSubs(l, b, o, k) {
      SameButOne(l1.below, l2.below, k);
    } else {
      SameLevels(l1.below, l2.below);
    }
  }

  lemma {:induction false} SameLevels(m: map<string, Level>, m': map<string, Level>)
    requires m'.Keys == m.Keys && forall k | k in m :: m'[k] == m[k]
    ensures m' == m
  {
  }

  lemma {:induction false} BelowOf(l: Level, b: Origin, o: Origin, keys: set<string>, k: string)
    requires Linked(l) && b in l.cells && o in l.cells && k in l.below
    ensures var l' := MergeKeys(l, b, o, keys);
            k in l'.below && l'.below[k] == if k in keys then MergedBelow(l, b, o, k) else l.below[k]
  {
  }

  lemma {:induction false} SameButOne(m: map<string, Level>, m': map<string, Level>, k: string)
    requires k in m && m'.Keys == m.Keys && forall k' | k' in m && k' != k :: m'[k'] == m[k']
    ensures m' == m[k := m'[k]]
  {
  }

  // ---------------------------------------------------------------------------------------------
  // Merging in place.

  /** `sub` is the level of the two objects in `l`, which the objects show. */
  ghost predicate Mergeable(l: Level, sub: Level, dicts: set<Dict>, base: Dict, override: Dict)
    reads dicts
  {
    && WellPlaced(dicts) && Shows(l, dicts) && base in dicts && override in dicts && base.path == override.path
    && SubAt(l, base.path) == Some(sub) && Linked(sub)
  }

  /** The objects show `l` with the given keys merged. */
  ghost predicate HasMerged(l: Level, sub: Level, dicts: set<Dict>, base: Dict, override: Dict, done: set<string>)
    reads dicts
  {
    && WellPlaced(dicts) && base in dicts && override in dicts && base.path == override.path
    && SubAt(l, base.path) == Some(sub) && Linked(sub) && base.origin in sub.cells && override.origin in sub.cells
    && Shows(Replace(l, base.path, MergeKeys(sub, base.origin, override.origin, done)), dicts)
  }

  lemma {:induction false} NothingMerged(l: Level, sub: Level, dicts: set<Dict>, base: Dict, override: Dict)
    requires Mergeable(l, sub, dicts, base, override)
    ensures HasMerged(l, sub, dicts, base, override, {})
    ensures override.origin in sub.cells && base.origin in sub.cells
    ensures sub.cells[override.origin].Keys == override.fields.Keys
  {
    assert ShowsDict(l, base) && ShowsDict(l, override);
    MergeNothing(sub, base.origin, override.origin);
    ReplaceSame(l, base.path);
  }

  lemma {:induction false} AllMerged(l: Level, sub: Level, dicts: set<Dict>, base: Dict, override: Dict,
                                     done: set<string>)
    requires HasMerged(l, sub, dicts, base, override, done) && done == sub.cells[override.origin].Keys
    ensures WellPlaced(dicts) && Shows(Replace(l, base.path, MergeIn(sub, base.origin, override.origin)), dicts)
  {
  }

  method DeepMerge(base: Dict, override: Dict, ghost l: Level, ghost sub: Level, ghost dicts: set<Dict>)
    requires Mergeable(l, sub, dicts, base, override)
    modifies dicts
    ensures base.origin in sub.cells && override.origin in sub.cells && WellPlaced(dicts)
    ensures Shows(Replace(l, base.path, MergeIn(sub, base.origin, override.origin)), dicts)
    decreases sub, 1
  {
    NothingMerged(l, sub, dicts, base, override);
    var todo := override.fields.Keys;
    ghost var done := {};
    while todo != {}
      invariant done + todo == sub.cells[override.origin].Keys && done !! todo
      invariant HasMerged(l, sub, dicts, base, override, done)
      decreases todo
    {
      var k :| k in todo;
      MergeKey(base, override, k, l, sub, dicts, done);
      todo, done := todo - {k}, done + {k};
    }
    AllMerged(l, sub, dicts, base, override, done);
  }

  /** The body of the loop. */
  method MergeKey(base: Dict, override: Dict, k: string, ghost l: Level, ghost sub: Level, ghost dicts: set<Dict>,
                  ghost done: set<string>)
    requires HasMerged(l, sub, dicts, base, override, done) && k in sub.cells[override.origin] && k !in done
    modifies dicts
    ensures HasMerged(l, sub, dicts, base, override, done + {k})
    decreases sub, 0
  {
    ghost var b, r := base.origin, override.origin;
    ghost var sub1, sub2 := MergeKeys(sub, b, r, done), MergeKeys(sub, b, r, done + {k});
    ghost var l1 := Replace(l, base.path, sub1);
    NextCell(sub, b, r, done, k);
    NextBelow(sub, b, r, done, k);
    SubOfReplace(l, base.path, sub1);
    assert ShowsDict(l1, base) && ShowsDict(l1, override) && NestedPlaced(base, dicts) && NestedPlaced(override, dicts);
    if override.fields[k].Nested? && k in base.fields && base.fields[k].Nested? {
      var nested, other := base.fields[k].dict, override.fields[k].dict;
      SubBelow(l1, base.path, k);
      DeepMerge(nested, other, l1, sub.below[k], dicts);
      ReplaceBelow(l, base.path, k, sub1, MergeIn(sub.below[k], nested.origin, other.origin));
    } else {
      StoreField(base, k, override.fields[k], l, sub1, dicts);
    }
  }

  method StoreField(base: Dict, k: string, node: Node, ghost l: Level, ghost sub: Level, ghost dicts: set<Dict>)
    requires WellPlaced(dicts) && base in dicts && SubAt(l, base.path).Some? && base.origin in sub.cells
    requires node.Nested? ==> node.dict in dicts && node.dict.path == base.path + [k]
    requires Shows(Replace(l, base.path, sub), dicts)
    modifies base
    ensures WellPlaced(dicts)
    ensures Shows(Replace(l, base.path,
                          sub.(cells := sub.cells[base.origin := sub.cells[base.origin][k := SlotOf(node)]])), dicts)
  {
    ghost var b := base.origin;
    ghost var cell := sub.cells[b][k := SlotOf(node)];
    SubOfReplace(l, base.path, sub);
    assert ShowsDict(Replace(l, base.path, sub), base);
    base.fields := base.fields[k := node];
    assert base.Contents() == cell;
    forall d | d in dicts ensures NestedPlaced(d, dicts) {
      assert old(NestedPlaced(d, dicts));
    }
    forall d | d in dicts ensures ShowsDict(Replace(l, base.path, sub.(cells := sub.cells[b := cell])), d) {
      assert old(ShowsDict(Replace(l, base.path, sub), d));
      CellChanged(l, base.path, sub, b, cell, d.path, d.origin);
    }
  }

  // ---------------------------------------------------------------------------------------------
  // Assembly.

  /** A dict of configurations whose objects are the roots of trees of the given origin. */
  ghost predicate AreRoots(configs: map<string, Dict>, dicts: set<Dict>, origin: string -> Origin) {
    forall c | c in configs :: configs[c] in dicts && configs[c].path == [] && configs[c].origin == origin(c)
  }

  function ReportedBy(): string -> Origin {
    (c: string) => Reported(c)
  }

  function OverridingBy(): string -> Origin {
    (c: string) => Overriding(c)
  }

  function RootBy(): string -> Origin {
    (c: string) => Root(c)
  }

  /** The objects show `l`, and the capabilities are its roots. */
  ghost predicate HasCapabilities(capabilities: map<string, Dict>, l: Level, dicts: set<Dict>)
    reads dicts
  {
    && WellPlaced(dicts) && Shows(l, dicts) && Linked(l)
    && (forall c :: Root(c) in l.cells <==> c in capabilities)
    && AreRoots(capabilities, dicts, RootBy())
  }

  /** A new object at the top of the objects. */
  method AddCapability(capabilities: map<string, Dict>, cap: string, fields: map<string, Node>, ghost cell: Cell,
                       ghost l: Level, ghost dicts: set<Dict>)
    returns (capabilities': map<string, Dict>, ghost dicts': set<Dict>)
    requires HasCapabilities(capabilities, l, dicts) && cap !in capabilities
    requires forall k | k in fields && fields[k].Nested? :: fields[k].dict in dicts && fields[k].dict.path == [k]
    requires cell == map k | k in fields :: SlotOf(fields[k])
    requires Linked(l.(cells := l.cells[Root(cap) := cell]))
    ensures HasCapabilities(capabilities', l.(cells := l.cells[Root(cap) := cell]), dicts')
    ensures capabilities' == capabilities[cap := capabilities'[cap]]
    ensures dicts <= dicts' && fresh(dicts' - dicts)
  {
    var added := new Dict(fields, [], Root(cap));
    capabilities', dicts' := capabilities[cap := added], dicts + {added};
    ghost var l' := l.(cells := l.cells[Root(cap) := cell]);
    forall d | d in dicts ensures d.path != [] || d.origin != Root(cap) {
      assert ShowsDict(l, d);
    }
    forall d | d in dicts' ensures NestedPlaced(d, dicts') {
      assert d in dicts ==> NestedPlaced(d, dicts);
    }
    forall d | d in dicts' ensures ShowsDict(l', d) {
      assert d in dicts ==> ShowsDict(l, d);
      CellChanged(l, [], l, Root(cap), cell, d.path, d.origin);
    }
  }

  lemma {:induction false} CopyLinks(l: Level, c: string, cell: Cell)
    requires Linked(l) && (cell == map[] || (Reported(c) in l.cells && cell == l.cells[Reported(c)]))
    ensures Linked(l.(cells := l.cells[Root(c) := cell]))
  {
    var l' := l.(cells := l.cells[Root(c) := cell]);
    assert forall x | x in l'.cells && x != Root(c) :: x in l.cells && l'.cells[x] == l.cells[x];
  }

  /** The code visits a dict in the order of its keys. */
  lemma {:induction false} VisitNext(l: Level, order: seq<string>, i: nat)
    requires i < |order|
    ensures forall c :: c in order[..i+1] <==> c in order[..i] || c == order[i]
    ensures CopyAll(l, order[..i+1]) == Copied(CopyAll(l, order[..i]), order[i])
    ensures OverrideAll(l, order[..i+1]) == Overridden(OverrideAll(l, order[..i]), order[i])
  {
    assert order[..i+1][..i] == order[..i];
    assert order[..i+1] == order[..i] + [order[i]];
  }

  method CopyReported(reported: map<string, Dict>, order: seq<string>, ghost l: Level, ghost dicts: set<Dict>)
    returns (capabilities: map<string, Dict>, ghost dicts': set<Dict>)
    requires HasCapabilities(map[], l, dicts) && AreRoots(reported, dicts, ReportedBy()) && Orders(order, reported.Keys)
    ensures capabilities.Keys == reported.Keys
    ensures HasCapabilities(capabilities, CopyAll(l, order), dicts') && dicts <= dicts' && fresh(dicts' - dicts)
  {
    capabilities, dicts' := map[], dicts;
    ghost var current := l;
    for i := 0 to |order|
      invariant forall c :: c in capabilities <==> c in order[..i]
      invariant current == CopyAll(l, order[..i])
      invariant HasCapabilities(capabilities, current, dicts') && dicts <= dicts' && fresh(dicts' - dicts)
    {
      var cap := order[i];
      VisitNext(l, order, i);
      IsRoot(reported, dicts, ReportedBy(), cap);
      capabilities, dicts' := CopyOne(capabilities, cap, reported[cap], current, dicts');
      current := Copied(current, cap);
    }
    assert order[..|order|] == order;
  }

  lemma {:induction false} IsRoot(configs: map<string, Dict>, dicts: set<Dict>, origin: string -> Origin, c: string)
    requires AreRoots(configs, dicts, origin) && c in configs
    ensures configs[c] in dicts && configs[c].path == [] && configs[c].origin == origin(c)
  {
  }

  method CopyOne(capabilities: map<string, Dict>, cap: string, source: Dict, ghost l: Level, ghost dicts: set<Dict>)
    returns (capabilities': map<string, Dict>, ghost dicts': set<Dict>)
    requires HasCapabilities(capabilities, l, dicts) && cap !in capabilities
    requires source in dicts && source.path == [] && source.origin == Reported(cap)
    ensures HasCapabilities(capabilities', Copied(l, cap), dicts') && capabilities'.Keys == capabilities.Keys + {cap}
    ensures dicts <= dicts' && fresh(dicts' - dicts)
  {
    assert ShowsDict(l, source) && NestedPlaced(source, dicts);
    CopyLinks(l, cap, l.cells[Reported(cap)]);
    capabilities', dicts' := AddCapability(capabilities, cap, source.fields, l.cells[Reported(cap)], l, dicts);
  }

  /** Merges an object into a capability, if there is such a capability. */
  method MergeInto(capabilities: map<string, Dict>, cap: string, source: Dict, ghost l: Level, ghost dicts: set<Dict>)
    requires HasCapabilities(capabilities, l, dicts) && source in dicts && source.path == []
    modifies dicts
    ensures HasCapabilities(capabilities, MergeCap(l, cap, source.origin), dicts)
  {
    assert ShowsDict(l, source);
    if cap in capabilities {
      assert capabilities[cap].path == [] && capabilities[cap].origin == RootBy()(cap);
      DeepMerge(capabilities[cap], source, l, l, dicts);
      MergeLinks(l, Root(cap), source.origin, l.cells[source.origin].Keys);
    }
  }

  method ApplyOverrides(capabilities: map<string, Dict>, overrides: map<string, Dict>, order: seq<string>,
                        ghost l: Level, ghost dicts: set<Dict>)
    returns (capabilities': map<string, Dict>, ghost dicts': set<Dict>)
    requires HasCapabilities(capabilities, l, dicts) && AreRoots(overrides, dicts, OverridingBy()) &&
             Orders(order, overrides.Keys)
    modifies dicts
    ensures capabilities'.Keys == capabilities.Keys + overrides.Keys
    ensures HasCapabilities(capabilities', OverrideAll(l, order), dicts') && dicts <= dicts' && fresh(dicts' - dicts)
  {
    capabilities', dicts' := capabilities, dicts;
    ghost var current := l;
    for i := 0 to |order|
      invariant forall c :: c in capabilities' <==> c in capabilities || c in order[..i]
      invariant current == OverrideAll(l, order[..i])
      invariant HasCapabilities(capabilities', current, dicts') && dicts <= dicts' && fresh(dicts' - dicts)
    {
      VisitNext(l, order, i);
      IsRoot(overrides, dicts, OverridingBy(), order[i]);
      capabilities', dicts' := ApplyOverride(capabilities', order[i], overrides[order[i]], current, dicts');
      current := Overridden(current, order[i]);
    }
    assert order[..|order|] == order;
    VisitedAll(capabilities'.Keys, capabilities.Keys, order, overrides.Keys);
  }

  lemma {:induction false} VisitedAll(after: set<string>, before: set<string>, order: seq<string>, keys: set<string>)
    requires Orders(order, keys) && forall c :: c in after <==> c in before || c in order
    ensures after == before + keys
  {
  }

  method ApplyOverride(capabilities: map<string, Dict>, cap: string, source: Dict, ghost l: Level,
                       ghost dicts: set<Dict>)
    returns (capabilities': map<string, Dict>, ghost dicts': set<Dict>)
    requires HasCapabilities(capabilities, l, dicts)
    requires source in dicts && source.path == [] && source.origin == Overriding(cap)
    modifies dicts
    ensures HasCapabilities(capabilities', Overridden(l, cap), dicts') &&
            capabilities'.Keys == capabilities.Keys + {cap}
    ensures dicts <= dicts' && fresh(dicts' - dicts)
  {
    capabilities', dicts' := capabilities, dicts;
    ghost var l1 := l;
    if cap !in capabilities {
      CopyLinks(l, cap, map[]);
      capabilities', dicts' := AddCapability(capabilities, cap, map[], map[], l, dicts);
      l1 := l.(cells := l.cells[Root(cap) := map[]]);
    }
    MergeInto(capabilities', cap, source, l1, dicts');
  }

  datatype ResourceObject = ResourceObject(id: string, name: string, typeName: string, config: Dict,
                                           capabilityNames: seq<string>)

  /** An entry of the result holds the resource's own configuration object. */
  datatype Entry = Entry(id: string, name: string, typeName: string, config: Dict)

  ghost predicate AreResources(resources: seq<ResourceObject>, given: seq<Resource>, dicts: set<Dict>) {
    |resources| == |given| &&
    forall i | 0 <= i < |resources| ::
      resources[i].config in dicts && resources[i].config.path == [] && resources[i].config.origin == Of(i)
      && resources[i].capabilityNames == given[i].capabilityNames
  }

  method InjectResource(capabilities: map<string, Dict>, r: ResourceObject, ghost n: nat, ghost l: Level,
                        ghost dicts: set<Dict>)
    requires HasCapabilities(capabilities, l, dicts)
    requires r.config in dicts && r.config.path == [] && r.config.origin == Of(n)
    modifies dicts
    ensures HasCapabilities(capabilities, Inject(l, r.capabilityNames, n), dicts)
  {
    for i := 0 to |r.capabilityNames|
      invariant HasCapabilities(capabilities, Inject(l, r.capabilityNames[..i], n), dicts)
    {
      assert r.capabilityNames[..i+1][..i] == r.capabilityNames[..i];
      MergeInto(capabilities, r.capabilityNames[i], r.config, Inject(l, r.capabilityNames[..i], n), dicts);
    }
    assert r.capabilityNames[..|r.capabilityNames|] == r.capabilityNames;
  }

  method InjectResources(capabilities: map<string, Dict>, resources: seq<ResourceObject>, ghost given: seq<Resource>,
                         ghost l: Level, ghost dicts: set<Dict>)
    returns (entries: seq<Entry>)
    requires HasCapabilities(capabilities, l, dicts) && AreResources(resources, given, dicts)
    modifies dicts
    ensures HasCapabilities(capabilities, InjectAll(l, given), dicts) && |entries| == |resources|
    ensures forall i | 0 <= i < |entries| ::
              entries[i] == Entry(resources[i].id, resources[i].name, resources[i].typeName, resources[i].config)
  {
    entries := [];
    for i := 0 to |resources|
      invariant HasCapabilities(capabilities, InjectAll(l, given[..i]), dicts) && |entries| == i
      invariant forall j | 0 <= j < i ::
                  entries[j] == Entry(resources[j].id, resources[j].name, resources[j].typeName, resources[j].config)
    {
      var r := resources[i];
      InjectNext(l, given, i);
      entries := entries + [Entry(r.id, r.name, r.typeName, r.config)];
      InjectResource(capabilities, r, i, InjectAll(l, given[..i]), dicts);
    }
    assert given[..|resources|] == given;
  }

  /**
   * The result: the capabilities' objects and, as entries, the resources' own configuration objects, as `l'` shows
   * them. Given configurations that are trees of their own, `l'` is what ConfigAssembled is about.
   */
  method AssembleMarvinConfig(reported: map<string, Dict>, reportedOrder: seq<string>, globalConfig: Dict?,
                              overrides: map<string, Dict>, overrideOrder: seq<string>, resources: seq<ResourceObject>,
                              ghost given: seq<Resource>, ghost l: Level, ghost dicts: set<Dict>)
    returns (global: Dict, capabilities: map<string, Dict>, entries: seq<Entry>, ghost l': Level,
             ghost dicts': set<Dict>)
    requires HasCapabilities(map[], l, dicts) && AreResources(resources, given, dicts)
    requires AreRoots(reported, dicts, ReportedBy()) && Orders(reportedOrder, reported.Keys)
    requires AreRoots(overrides, dicts, OverridingBy()) && Orders(overrideOrder, overrides.Keys)
    requires globalConfig != null ==> globalConfig !in dicts
    modifies dicts
    ensures fresh(global) && global.fields == if globalConfig == null then map[] else old(globalConfig.fields)
    ensures l' == AssembledUpTo(l, reportedOrder, overrideOrder, given, |given|)
    ensures capabilities.Keys == reported.Keys + overrides.Keys && HasCapabilities(capabilities, l', dicts')
    ensures |entries| == |resources| && dicts <= dicts' && fresh(dicts' - dicts)
    ensures forall i | 0 <= i < |entries| ::
              && entries[i] == Entry(resources[i].id, resources[i].name, resources[i].typeName, resources[i].config)
              && ShowsDict(l', entries[i].config) && entries[i].config.path == [] && entries[i].config.origin == Of(i)
  {
    global := new Dict(if globalConfig == null then map[] else globalConfig.fields, [], Root(""));
    capabilities, dicts' := CopyReported(reported, reportedOrder, l, dicts);
    capabilities, dicts' := ApplyOverrides(capabilities, overrides, overrideOrder, CopyAll(l, reportedOrder), dicts');
    l' := Prepared(l, reportedOrder, overrideOrder);
    entries := InjectResources(capabilities, resources, given, l', dicts');
    l' := InjectAll(l', given);
    assert given[..|given|] == given;
  }
}
