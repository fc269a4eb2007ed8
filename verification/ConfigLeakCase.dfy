/** The failing case of an assembled configuration (apps/marvins/config_assembly.py). */
module ConfigLeakCase {
  import opened Basics
  import opened ConfigAssembly
  import opened ConfigSharing
  import opened ConfigOwnership
  import opened ConfigRuns
  import opened ConfigAssembled

  /** One field that is an object with one scalar. */
  function Single(k: string, x: string, u: string): Fields {
    map[k := Object(map[x := Leaf(u)])]
  }

  function Both(k: string, x: string, u: string, y: string, w: string): Json {
    Object(map[k := Object(map[x := Leaf(u), y := Leaf(w)])])
  }

  /** The first resource configures capabilities `a` and `b`, the second only `a`, each with an object under `k`. */
  function TwoResources(a: string, b: string, k: string, x: string, u: string, y: string, w: string): seq<Resource> {
    [Resource("0", "first", "t", Single(k, x, u), [a, b]), Resource("1", "second", "s", Single(k, y, w), [a])]
  }

  function NestedLevel(x: string, u: string, y: string, w: string): Level {
    Level(map[Of(0) := map[x := Scalar(u)], Of(1) := map[y := Scalar(w)]], map[])
  }

  function CellsGiven(a: string, b: string, k: string): map<Origin, Cell> {
    map[Reported(a) := map[], Reported(b) := map[], Of(0) := map[k := Sub(Of(0))], Of(1) := map[k := Sub(Of(1))]]
  }

  function GivenLevel(a: string, b: string, k: string, x: string, u: string, y: string, w: string): Level {
    Level(CellsGiven(a, b, k), map[k := NestedLevel(x, u, y, w)])
  }

  lemma {:induction false} NestedValues(x: string, u: string, y: string, w: string)
    ensures var n := NestedLevel(x, u, y, w);
            && Linked(n) && Trees(n)
            && Value(n, Of(0)) == Object(map[x := Leaf(u)]) && Value(n, Of(1)) == Object(map[y := Leaf(w)])
  {
    var n := NestedLevel(x, u, y, w);
    assert SlotValue(n, Of(0), x) == Leaf(u) && SlotValue(n, Of(1), y) == Leaf(w);
    assert Value(n, Of(0)).fields == map[x := Leaf(u)];
    assert Value(n, Of(1)).fields == map[y := Leaf(w)];
  }

  /** A cell with one object under `k` reads as that object under `k`. */
  lemma {:induction false} OneField(l: Level, z: Origin, k: string, o: Origin)
    requires Linked(l) && z in l.cells && l.cells[z] == map[k := Sub(o)] && k in l.below && o in l.below[k].cells
    ensures Value(l, z) == Object(map[k := Value(l.below[k], o)])
  {
    assert SlotValue(l, z, k) == Value(l.below[k], o);
    assert Value(l, z).fields == map[k := Value(l.below[k], o)];
  }

  /** Cells that are empty or hold one of the two objects under `k`. */
  ghost predicate Simple(cells: map<Origin, Cell>, k: string) {
    forall z | z in cells :: cells[z] == map[] || cells[z] == map[k := Sub(Of(0))] || cells[z] == map[k := Sub(Of(1))]
  }

  lemma {:induction false} SimpleLinks(cells: map<Origin, Cell>, k: string, n: Level)
    requires Simple(cells, k) && Linked(n) && Of(0) in n.cells && Of(1) in n.cells
    ensures Linked(Level(cells, map[k := n]))
  {
    var l := Level(cells, map[k := n]);
    forall z, k' | z in l.cells && k' in l.cells[z] && l.cells[z][k'].Sub?
      ensures k' in l.below && l.cells[z][k'].origin in l.below[k'].cells
    {
      assert k' == k;
    }
  }

  lemma {:induction false} GivenTrees(a: string, b: string, k: string, n: Level)
    requires Trees(n) && n.cells.Keys == {Of(0), Of(1)}
    ensures Trees(Level(CellsGiven(a, b, k), map[k := n]))
  {
    var l := Level(CellsGiven(a, b, k), map[k := n]);
    forall k', z | k' in l.below && z in l.below[k'].cells ensures Hangs(l, k', z) {
      assert k' == k && l.below[k'] == n && z in {Of(0), Of(1)};
    }
    forall z, k' | z in l.cells && k' in l.cells[z] && l.cells[z][k'].Sub? ensures l.cells[z][k'].origin == z {
      assert z in {Of(0), Of(1)} && k' == k;
    }
  }

  lemma {:induction false} GivenHolds(a: string, b: string, k: string, x: string, u: string, y: string, w: string)
    ensures Given(GivenLevel(a, b, k, x, u, y, w), map[a := map[], b := map[]], map[],
                  TwoResources(a, b, k, x, u, y, w))
  {
    NestedValues(x, u, y, w);
    SimpleLinks(CellsGiven(a, b, k), k, NestedLevel(x, u, y, w));
    GivenTrees(a, b, k, NestedLevel(x, u, y, w));
    GivenReads(GivenLevel(a, b, k, x, u, y, w), a, b, k, x, u, y, w);
  }

  lemma {:induction false} GivenReads(l: Level, a: string, b: string, k: string, x: string, u: string,
                                      y: string, w: string)
    requires l == GivenLevel(a, b, k, x, u, y, w) && Linked(l)
    ensures IsConfig(l, Reported(a), map[]) && IsConfig(l, Reported(b), map[])
    ensures ShowsResources(l, Configs(TwoResources(a, b, k, x, u, y, w)))
  {
    NestedValues(x, u, y, w);
    ReadsNested(l, 0, k, Single(k, x, u));
    ReadsNested(l, 1, k, Single(k, y, w));
    EmptyCell(l, Reported(a));
    EmptyCell(l, Reported(b));
    var configs := Configs(TwoResources(a, b, k, x, u, y, w));
    assert configs == [Object(Single(k, x, u)), Object(Single(k, y, w))];
  }

  lemma {:induction false} ReadsNested(l: Level, i: nat, k: string, fields: Fields)
    requires Linked(l) && Of(i) in l.cells && l.cells[Of(i)] == map[k := Sub(Of(i))]
    requires k in l.below && Of(i) in l.below[k].cells && fields == map[k := Value(l.below[k], Of(i))]
    ensures Value(l, Of(i)) == Object(fields)
  {
    OneField(l, Of(i), k, Of(i));
  }

  /** A first resource stores its own nested object in an empty capability. */
  lemma {:induction false} Graft(l: Level, c: string, k: string, o: Origin)
    requires Linked(l) && Root(c) in l.cells && o in l.cells && l.cells[Root(c)] == map[] &&
             l.cells[o] == map[k := Sub(o)]
    ensures MergeIn(l, Root(c), o) == Level(l.cells[Root(c) := map[k := Sub(o)]], l.below)
  {
    var l' := MergeKeys(l, Root(c), o, l.cells[o].Keys);
    assert MergeIn(l, Root(c), o) == l';
    assert l'.cells[Root(c)] == map[k := Sub(o)];
    assert l'.cells == l.cells[Root(c) := map[k := Sub(o)]];
    assert l'.below == l.below;
  }

  function GraftedCells(a: string, b: string, k: string): map<Origin, Cell> {
    CellsGiven(a, b, k)[Root(a) := map[k := Sub(Of(0))]][Root(b) := map[k := Sub(Of(0))]]
  }

  function CopiedCells(a: string, b: string, k: string): map<Origin, Cell> {
    CellsGiven(a, b, k)[Root(a) := map[]][Root(b) := map[]]
  }

  /** After the first resource both capabilities hold its object. */
  lemma {:induction false} AfterFirst(a: string, b: string, k: string, n: Level)
    requires Linked(n) && Of(0) in n.cells && Of(1) in n.cells && a != b
    ensures Linked(Level(GraftedCells(a, b, k), map[k := n]))
    ensures Inject(Prepared(Level(CellsGiven(a, b, k), map[k := n]), [a, b], []), [a, b], 0)
         == Level(GraftedCells(a, b, k), map[k := n])
  {
    var below := map[k := n];
    TwoSteps(Level(CellsGiven(a, b, k), below), a, b);
    CopiedTwice(a, b, k, below);
    GraftedTwice(a, b, k, n);
  }

  lemma {:induction false} CopiedTwice(a: string, b: string, k: string, below: map<string, Level>)
    requires a != b
    ensures Copied(Copied(Level(CellsGiven(a, b, k), below), a), b) == Level(CopiedCells(a, b, k), below)
  {
  }

  /** Both grafts, one at a time. */
  lemma {:induction false} GraftedTwice(a: string, b: string, k: string, n: Level)
    requires Linked(n) && Of(0) in n.cells && Of(1) in n.cells && a != b
    ensures Linked(Level(GraftedCells(a, b, k), map[k := n]))
    ensures MergeCap(MergeCap(Level(CopiedCells(a, b, k), map[k := n]), a, Of(0)), b, Of(0))
         == Level(GraftedCells(a, b, k), map[k := n])
  {
    var half := CopiedCells(a, b, k)[Root(a) := map[k := Sub(Of(0))]];
    GraftOnto(CopiedCells(a, b, k), a, k, n);
    GraftOnto(half, b, k, n);
    assert half[Root(b) := map[k := Sub(Of(0))]] == GraftedCells(a, b, k);
  }

  lemma {:induction false} GraftOnto(cells: map<Origin, Cell>, c: string, k: string, n: Level)
    requires Simple(cells, k) && Linked(n) && Of(0) in n.cells && Of(1) in n.cells
    requires Root(c) in cells && cells[Root(c)] == map[] && Of(0) in cells && cells[Of(0)] == map[k := Sub(Of(0))]
    ensures Linked(Level(cells, map[k := n]))
    ensures var after := cells[Root(c) := map[k := Sub(Of(0))]];
            && Simple(after, k) && Linked(Level(after, map[k := n]))
            && MergeCap(Level(cells, map[k := n]), c, Of(0)) == Level(after, map[k := n])
  {
    SimpleLinks(cells, k, n);
    SimpleLinks(cells[Root(c) := map[k := Sub(Of(0))]], k, n);
    Graft(Level(cells, map[k := n]), c, k, Of(0));
  }

  /** The first phases and the first resource, step by step. */
  lemma {:induction false} TwoSteps(l: Level, a: string, b: string)
    ensures Prepared(l, [a, b], []) == Copied(Copied(l, a), b)
    ensures forall l1: Level :: Inject(l1, [a, b], 0) == MergeCap(MergeCap(l1, a, Of(0)), b, Of(0))
    ensures forall l1: Level :: Inject(l1, [a], 1) == MergeCap(l1, a, Of(1))
  {
    assert [a, b][..1] == [a] && [a][..0] == [];
    assert CopyAll(l, [a]) == Copied(CopyAll(l, []), a);
    assert CopyAll(l, [a, b]) == Copied(CopyAll(l, [a]), b);
    forall l1: Level
      ensures Inject(l1, [a, b], 0) == MergeCap(MergeCap(l1, a, Of(0)), b, Of(0)) &&
              Inject(l1, [a], 1) == MergeCap(l1, a, Of(1))
    {
      assert Inject(l1, [a], 0) == MergeCap(Inject(l1, [], 0), a, Of(0));
    }
  }

  /**
   * The second resource's scalar goes into the first resource's object: the result shows it in the first resource's
   * own entry and in a capability that the second resource does not configure.
   */
  lemma {:induction false} LaterResourceLeaks(a: string, b: string, k: string, x: string, u: string,
                                              y: string, w: string)
    requires a != b && x != y
    ensures var l, resources := GivenLevel(a, b, k, x, u, y, w), TwoResources(a, b, k, x, u, y, w);
            var l' := AssembledUpTo(l, [a, b], [], resources, 2);
            && Given(l, map[a := map[], b := map[]], map[], resources)
            && Linked(l') && Of(0) in l'.cells && Root(b) in l'.cells
            && Value(l', Of(0)) == Value(l', Root(b)) == Both(k, x, u, y, w)
            && Value(l', Of(0)) != Object(resources[0].config)
            && Value(l', Root(b)) != LayerValue(map[a := map[], b := map[]], map[], resources, b)
  {
    var l, resources := GivenLevel(a, b, k, x, u, y, w), TwoResources(a, b, k, x, u, y, w);
    var n := NestedLevel(x, u, y, w);
    var l2 := Level(GraftedCells(a, b, k), l.below);
    GivenHolds(a, b, k, x, u, y, w);
    NestedValues(x, u, y, w);
    AfterFirst(a, b, k, n);
    InjectedTwice(Prepared(l, [a, b], []), resources);
    TwoSteps(l, a, b);
    SecondMerge(l2, a, b, k, x, u, y, w);
    OnlyFirstLayer(a, b, k, x, u, y, w);
    assert y in Both(k, x, u, y, w).fields[k].fields && y !in Single(k, x, u)[k].fields;
  }

  lemma {:induction false} InjectedTwice(l: Level, resources: seq<Resource>)
    requires |resources| == 2
    ensures InjectAll(l, resources[..2])
         == Inject(Inject(l, resources[0].capabilityNames, 0), resources[1].capabilityNames, 1)
  {
    InjectNext(l, resources, 1);
    InjectNext(l, resources, 0);
    assert resources[..0] == [];
  }

  lemma {:induction false} SecondMerge(l: Level, a: string, b: string, k: string, x: string, u: string,
                                       y: string, w: string)
    requires a != b && x != y && Linked(l) && l == Level(GraftedCells(a, b, k), map[k := NestedLevel(x, u, y, w)])
    ensures var l' := MergeCap(l, a, Of(1));
            && Linked(l') && Of(0) in l'.cells && Root(b) in l'.cells
            && Value(l', Of(0)) == Value(l', Root(b)) == Both(k, x, u, y, w)
  {
    var n := NestedLevel(x, u, y, w);
    NestedValues(x, u, y, w);
    TwoScalars(x, u, y, w);
    SecondMergeBelow(l, a, b, k, n);
  }

  lemma {:induction false} SecondMergeBelow(l: Level, a: string, b: string, k: string, n: Level)
    requires a != b && Linked(l) && l == Level(GraftedCells(a, b, k), map[k := n])
    requires Linked(n) && Of(0) in n.cells && Of(1) in n.cells
    ensures var l' := MergeCap(l, a, Of(1));
            && Linked(l') && Of(0) in l'.cells && Root(b) in l'.cells
            && Value(l', Of(0)) == Value(l', Root(b)) == Object(map[k := Put(Some(Value(n, Of(0))), Value(n, Of(1)))])
  {
    MergeShowsPut(n, Of(0), Of(1));
    var l' := MergeIn(l, Root(a), Of(1));
    OnlyBelowChanges(l, Root(a), k);
    OneField(l', Of(0), k, Of(0));
    OneField(l', Root(b), k, Of(0));
  }

  /** The second merge changes no object at this level, but the first resource's object below. */
  lemma {:induction false} OnlyBelowChanges(l: Level, x: Origin, k: string)
    requires Linked(l) && x in l.cells && Of(1) in l.cells && x != Of(1)
    requires l.cells[x] == map[k := Sub(Of(0))] && l.cells[Of(1)] == map[k := Sub(Of(1))]
    ensures var l' := MergeIn(l, x, Of(1));
            && Linked(l') && l'.cells == l.cells && k in l'.below
            && l'.below[k] == MergeIn(l.below[k], Of(0), Of(1)) && l'.below[k].cells.Keys == l.below[k].cells.Keys
  {
    MergeLinks(l, x, Of(1), l.cells[Of(1)].Keys);
    SameCells(l, x, k);
    MergedUnder(l, x, k);
  }

  lemma {:induction false} MergedUnder(l: Level, x: Origin, k: string)
    requires Linked(l) && x in l.cells && Of(1) in l.cells
    requires l.cells[x] == map[k := Sub(Of(0))] && l.cells[Of(1)] == map[k := Sub(Of(1))]
    ensures var l' := MergeIn(l, x, Of(1));
            && k in l'.below && l'.below[k] == MergeIn(l.below[k], Of(0), Of(1))
            && l'.below[k].cells.Keys == l.below[k].cells.Keys
  {
    MergeLinks(l.below[k], Of(0), Of(1), l.below[k].cells[Of(1)].Keys);
    assert BothSubs(l, x, Of(1), k);
    assert MergeIn(l, x, Of(1)) == MergeKeys(l, x, Of(1), l.cells[Of(1)].Keys);
  }

  lemma {:induction false} SameCells(l: Level, x: Origin, k: string)
    requires Linked(l) && x in l.cells && Of(1) in l.cells
    requires l.cells[x] == map[k := Sub(Of(0))] && l.cells[Of(1)] == map[k := Sub(Of(1))]
    ensures MergeIn(l, x, Of(1)).cells == l.cells
  {
    var l' := MergeKeys(l, x, Of(1), l.cells[Of(1)].Keys);
    assert MergeIn(l, x, Of(1)) == l';
    assert l'.cells[x] == l.cells[x];
  }

  lemma {:induction false} TwoScalars(x: string, u: string, y: string, w: string)
    requires x != y
    ensures Put(Some(Object(map[x := Leaf(u)])), Object(map[y := Leaf(w)])) == Object(map[x := Leaf(u), y := Leaf(w)])
  {
  }

  lemma {:induction false} OnlyFirstLayer(a: string, b: string, k: string, x: string, u: string, y: string, w: string)
    requires a != b
    ensures LayerValue(map[a := map[], b := map[]], map[], TwoResources(a, b, k, x, u, y, w), b)
         == Object(Single(k, x, u))
  {
    var reported: map<string, Fields> := map[a := map[], b := map[]];
    var resources := TwoResources(a, b, k, x, u, y, w);
    NextLayer(reported, map[], resources, 1, b);
    NextLayer(reported, map[], resources, 0, b);
    assert resources[..2] == resources && resources[..0] == [];
    FirstLayers(reported, map[], b);
    MergeIntoNothing(Single(k, x, u));
  }
}
