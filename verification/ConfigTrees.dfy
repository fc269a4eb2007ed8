/** Any configurations can be laid out as trees of objects of their own, which is what the assembly starts from. */
module ConfigTrees {
  import opened Basics
  import opened ConfigAssembly
  import opened ConfigSharing
  import opened ConfigOwnership
  import opened ConfigRuns
  import opened ConfigAssembled

  // ---------------------------------------------------------------------------------------------
  // How deep a value is.

  ghost predicate Shallow(j: Json, n: nat) {
    j.Leaf? || (n > 0 && forall k | k in j.fields :: Shallow(j.fields[k], n - 1))
  }

  lemma {:induction false} Deeper(j: Json, n: nat, m: nat)
    requires Shallow(j, n) && n <= m
    ensures Shallow(j, m)
    decreases n
  {
    if j.Object? {
      forall k | k in j.fields ensures Shallow(j.fields[k], m - 1) {
        Deeper(j.fields[k], n - 1, m - 1);
      }
    }
  }

  lemma {:induction false} DepthOf(j: Json) returns (n: nat)
    ensures Shallow(j, n)
    decreases j, 1, 0
  {
    n := 0;
    if j.Object? {
      n := DepthOfFields(j, j.fields.Keys);
      n := n + 1;
    }
  }

  lemma {:induction false} DepthOfFields(j: Json, keys: set<string>) returns (n: nat)
    requires j.Object? && keys <= j.fields.Keys
    ensures forall k | k in keys :: Shallow(j.fields[k], n)
    decreases j, 0, |keys|
  {
    n := 0;
    if keys != {} {
      var k :| k in keys;
      var first := DepthOf(j.fields[k]);
      var others := DepthOfFields(j, keys - {k});
      n := if first < others then others else first;
      forall k' | k' in keys ensures Shallow(j.fields[k'], n) {
        Deeper(j.fields[k'], if k' == k then first else others, n);
      }
    }
  }

  lemma {:induction false} DepthOfAll(m: Reading) returns (n: nat)
    ensures forall x | x in m :: Shallow(m[x], n)
    decreases |m|
  {
    n := 0;
    if m != map[] {
      var x :| x in m;
      var first := DepthOf(m[x]);
      var others := DepthOfAll(m - {x});
      n := if first < others then others else first;
      forall y | y in m ensures Shallow(m[y], n) {
        if y == x { Deeper(m[y], first, n); } else { Deeper((m - {x})[y], others, n); }
      }
    }
  }

  // ---------------------------------------------------------------------------------------------
  // Growing the trees.

  function CellOf(x: Origin, fields: Fields): Cell {
    map k | k in fields :: match fields[k] case Leaf(text) => Scalar(text) case Object(_) => Sub(x)
  }

  function Under(trees: map<Origin, Fields>, k: string): map<Origin, Fields> {
    map x | x in trees && k in trees[x] && trees[x][k].Object? :: trees[x][k].fields
  }

  predicate Branches(trees: map<Origin, Fields>, k: string) {
    Under(trees, k) != map[]
  }

  /** The objects are those of the trees, each under the origin of its tree. */
  ghost predicate Grown(l: Level, trees: map<Origin, Fields>) {
    && l.cells == (map x | x in trees :: CellOf(x, trees[x]))
    && (forall k :: k in l.below <==> Branches(trees, k))
    && (forall k | k in l.below :: Grown(l.below[k], Under(trees, k)))
  }

  ghost predicate AllShallow(trees: map<Origin, Fields>, n: nat) {
    forall x | x in trees :: Shallow(Object(trees[x]), n)
  }

  lemma {:induction false} UnderShallow(trees: map<Origin, Fields>, k: string, n: nat)
    requires AllShallow(trees, n) && Branches(trees, k)
    ensures n > 0 && AllShallow(Under(trees, k), n - 1)
  {
    var x :| x in Under(trees, k);
    assert Shallow(Object(trees[x]), n);
    forall x | x in Under(trees, k) ensures Shallow(Object(Under(trees, k)[x]), n - 1) {
      assert Shallow(Object(trees[x]), n);
      assert Shallow(Object(trees[x]).fields[k], n - 1);
    }
  }

  lemma {:induction false} Grow(trees: map<Origin, Fields>, n: nat) returns (l: Level)
    requires AllShallow(trees, n)
    ensures Grown(l, trees)
    decreases n, 1, 0
  {
    var keys := set x, k | x in trees && k in trees[x] && trees[x][k].Object? :: k;
    forall k | Branches(trees, k) ensures k in keys {
      var x :| x in Under(trees, k);
    }
    forall k | k in keys ensures Branches(trees, k) {
      var x :| x in trees && k in trees[x] && trees[x][k].Object?;
      assert x in Under(trees, k);
    }
    var below := GrowBelow(trees, keys, n);
    l := Level(map x | x in trees :: CellOf(x, trees[x]), below);
  }

  lemma {:induction false} GrowBelow(trees: map<Origin, Fields>, keys: set<string>, n: nat)
    returns (below: map<string, Level>)
    requires AllShallow(trees, n) && forall k | k in keys :: Branches(trees, k)
    ensures below.Keys == keys && forall k | k in keys :: Grown(below[k], Under(trees, k))
    decreases n, 0, |keys|
  {
    below := map[];
    if keys != {} {
      var k :| k in keys;
      UnderShallow(trees, k, n);
      var others := GrowBelow(trees, keys - {k}, n);
      var sub := Grow(Under(trees, k), n - 1);
      below := others[k := sub];
    }
  }

  lemma {:induction false} GrownIsLinked(l: Level, trees: map<Origin, Fields>)
    requires Grown(l, trees)
    ensures Linked(l)
    decreases l
  {
    forall k | k in l.below ensures Linked(l.below[k]) {
      GrownIsLinked(l.below[k], Under(trees, k));
    }
    forall x, k | x in l.cells && k in l.cells[x] && l.cells[x][k].Sub?
      ensures k in l.below && l.cells[x][k].origin in l.below[k].cells
    {
      assert x in Under(trees, k) && Branches(trees, k);
    }
  }

  lemma {:induction false} GrownIsTrees(l: Level, trees: map<Origin, Fields>)
    requires Grown(l, trees)
    ensures Trees(l)
    decreases l
  {
    forall k | k in l.below ensures Trees(l.below[k]) {
      GrownIsTrees(l.below[k], Under(trees, k));
    }
    forall k, x | k in l.below && x in l.below[k].cells ensures Hangs(l, k, x) {
      assert x in Under(trees, k) && l.cells[x] == CellOf(x, trees[x]);
    }
    forall x, k | x in l.cells && k in l.cells[x] && l.cells[x][k].Sub? ensures l.cells[x][k].origin == x {
      assert l.cells[x] == CellOf(x, trees[x]);
    }
  }

  lemma {:induction false} GrownReads(l: Level, trees: map<Origin, Fields>, x: Origin)
    requires Grown(l, trees) && Linked(l) && x in trees
    ensures Value(l, x) == Object(trees[x])
    decreases l
  {
    forall k ensures At(Value(l, x).fields, k) == At(trees[x], k) {
      FieldKind(l, x, k);
      if k in trees[x] && trees[x][k].Object? {
        assert x in Under(trees, k) && Branches(trees, k);
        GrownReads(l.below[k], Under(trees, k), x);
      }
    }
    SameObjects(Value(l, x), Object(trees[x]));
  }

  /** Whatever is configured, there are such objects. */
  lemma {:induction false} GivenExists(reported: map<string, Fields>, overrides: map<string, Fields>,
                                       resources: seq<Resource>)
    returns (l: Level)
    ensures Given(l, reported, overrides, resources)
  {
    var m := GivenReading(reported, overrides, resources);
    var n := DepthOfAll(m);
    var trees := TreesOf(m);
    TreesShallow(m, n);
    l := Grow(trees, n);
    GrownIsLinked(l, trees);
    GrownIsTrees(l, trees);
    GrownShows(l, m, reported, overrides, resources);
    GrownIsGiven(l, reported, overrides, resources);
  }

  lemma {:induction false} GrownShows(l: Level, m: Reading, reported: map<string, Fields>,
                                      overrides: map<string, Fields>, resources: seq<Resource>)
    requires Grown(l, TreesOf(m)) && Linked(l)
    requires forall x :: ReadAt(m, x) == GivenValue(reported, overrides, resources, x)
    ensures forall x :: if x in l.cells then Some(Value(l, x)) == GivenValue(reported, overrides, resources, x)
                        else GivenValue(reported, overrides, resources, x).None?
  {
    forall x | x in m ensures m[x].Object? {
      assert ReadAt(m, x) == GivenValue(reported, overrides, resources, x);
    }
    forall x ensures if x in l.cells then Some(Value(l, x)) == GivenValue(reported, overrides, resources, x)
                     else GivenValue(reported, overrides, resources, x).None?
    {
      assert ReadAt(m, x) == GivenValue(reported, overrides, resources, x);
      TreeReads(l, m, x);
    }
  }

  lemma {:induction false} TreeReads(l: Level, m: Reading, x: Origin)
    requires Grown(l, TreesOf(m)) && Linked(l) && forall y | y in m :: m[y].Object?
    ensures if x in l.cells then ReadAt(m, x) == Some(Value(l, x)) else ReadAt(m, x) == None
  {
    if x in m {
      GrownReads(l, TreesOf(m), x);
    }
  }

  function TreesOf(m: Reading): map<Origin, Fields> {
    map x | x in m && m[x].Object? :: m[x].fields
  }

  lemma {:induction false} TreesShallow(m: Reading, n: nat)
    requires forall x | x in m :: Shallow(m[x], n)
    ensures AllShallow(TreesOf(m), n)
  {
    forall x | x in TreesOf(m) ensures Shallow(Object(TreesOf(m)[x]), n) {
      assert Object(TreesOf(m)[x]) == m[x];
    }
  }

  lemma {:induction false} GrownIsGiven(l: Level, reported: map<string, Fields>, overrides: map<string, Fields>,
                                        resources: seq<Resource>)
    requires Linked(l) && Trees(l)
    requires forall x :: if x in l.cells then Some(Value(l, x)) == GivenValue(reported, overrides, resources, x)
                         else GivenValue(reported, overrides, resources, x).None?
    ensures Given(l, reported, overrides, resources)
  {
    forall c | c in reported ensures IsConfig(l, Reported(c), reported[c]) {
      assert Reported(c) in l.cells;
    }
    forall c | c in overrides ensures IsConfig(l, Overriding(c), overrides[c]) {
      assert Overriding(c) in l.cells;
    }
    forall i | 0 <= i < |resources| ensures Value(l, Of(i)) == Configs(resources)[i] {
      assert Of(i) in l.cells;
    }
  }
}
