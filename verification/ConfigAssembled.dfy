/** When an assembled configuration is what its layers say (apps/marvins/config_assembly.py, assemble_marvin_config). */
module ConfigAssembled {
  import opened Basics
  import opened ConfigAssembly
  import opened ConfigSharing
  import opened ConfigOwnership
  import opened ConfigRuns

  // ---------------------------------------------------------------------------------------------
  // What is given: every configuration is a tree of objects of its own.

  ghost predicate Trees(l: Level) {
    && (forall x, k | x in l.cells && k in l.cells[x] && l.cells[x][k].Sub? :: l.cells[x][k].origin == x)
    && (forall k, x | k in l.below && x in l.below[k].cells :: Hangs(l, k, x))
    && (forall k | k in l.below :: Trees(l.below[k]))
  }

  ghost predicate IsConfig(l: Level, x: Origin, config: Fields)
    requires Linked(l)
  {
    x in l.cells && Value(l, x) == Object(config)
  }

  ghost predicate Given(l: Level, reported: map<string, Fields>, overrides: map<string, Fields>,
                        resources: seq<Resource>) {
    && Linked(l) && Trees(l) && (forall c :: Root(c) !in l.cells)
    && (forall c | c in reported :: IsConfig(l, Reported(c), reported[c]))
    && (forall c | c in overrides :: IsConfig(l, Overriding(c), overrides[c]))
    && ShowsResources(l, Configs(resources))
  }

  function Configs(resources: seq<Resource>): (rs: seq<Json>)
    ensures |rs| == |resources| && forall i | 0 <= i < |rs| :: rs[i] == Object(resources[i].config)
  {
    seq(|resources|, i requires 0 <= i < |resources| => Object(resources[i].config))
  }

  // ---------------------------------------------------------------------------------------------
  // The phases.

  /** A capability starts with a copy of what the agent reported: a new object with the same nested objects. */
  ghost function Copied(l: Level, c: string): Level {
    if Reported(c) in l.cells then l.(cells := l.cells[Root(c) := l.cells[Reported(c)]]) else l
  }

  ghost function CopyAll(l: Level, caps: seq<string>): Level {
    if caps == [] then l else Copied(CopyAll(l, caps[..|caps|-1]), caps[|caps|-1])
  }

  /** An override is merged into the capability, which is made if the agent did not report it. */
  ghost function Overridden(l: Level, c: string): Level {
    MergeCap(if Root(c) in l.cells then l else l.(cells := l.cells[Root(c) := map[]]), c, Overriding(c))
  }

  ghost function OverrideAll(l: Level, caps: seq<string>): Level {
    if caps == [] then l else Overridden(OverrideAll(l, caps[..|caps|-1]), caps[|caps|-1])
  }

  /** The dicts are visited in the given orders. */
  ghost function Prepared(l: Level, reportedOrder: seq<string>, overrideOrder: seq<string>): Level {
    OverrideAll(CopyAll(l, reportedOrder), overrideOrder)
  }

  ghost predicate Orders(order: seq<string>, keys: set<string>) {
    (forall i, j | 0 <= i < j < |order| :: order[i] != order[j]) && (forall c :: c in order <==> c in keys)
  }

  // ---------------------------------------------------------------------------------------------
  // Before resources come in, nothing is shared.

  /** No object of a capability refers to one of a resource. */
  ghost predicate Unshared(l: Level) {
    && (forall x, k | x in l.cells && !x.Of? && k in l.cells[x] && l.cells[x][k].Sub? :: !l.cells[x][k].origin.Of?)
    && (forall k | k in l.below :: Unshared(l.below[k]))
  }

  lemma {:induction false} TreesAreSeparate(l: Level)
    requires Trees(l)
    ensures Separate(l) && Unshared(l)
    decreases l
  {
    forall k | k in l.below ensures Separate(l.below[k]) && Unshared(l.below[k]) {
      TreesAreSeparate(l.below[k]);
    }
  }

  lemma {:induction false} UnsharedIsQuiet(l: Level, b: Origin, o: Origin)
    requires Linked(l) && Unshared(l) && b in l.cells && o in l.cells && !b.Of? && !o.Of?
    ensures QuietIn(l, b, o)
    decreases l
  {
    forall k ensures QuietAt(l, b, o, k) {
      if BothSubs(l, b, o, k) {
        UnsharedIsQuiet(l.below[k], l.cells[b][k].origin, l.cells[o][k].origin);
      }
    }
  }

  lemma {:induction false} UnsharedFrame(l: Level, x: Origin)
    requires Linked(l) && Unshared(l) && x in l.cells && !x.Of?
    ensures FrameOf(l, x) == Frame(Value(l, x))
    decreases l
  {
    forall k ensures At(FrameOf(l, x).fields, k) == At(Frame(Value(l, x)).fields, k) {
      FieldKind(l, x, k);
      if k in l.cells[x] && l.cells[x][k].Sub? {
        UnsharedFrame(l.below[k], l.cells[x][k].origin);
      }
    }
    SameObjects(FrameOf(l, x), Frame(Value(l, x)));
  }

  lemma {:induction false} UnsharedStays(l: Level, b: Origin, o: Origin)
    requires Linked(l) && Unshared(l) && b in l.cells && o in l.cells && !b.Of? && !o.Of?
    ensures Unshared(MergeIn(l, b, o))
    decreases l
  {
    MergeIsMerge(l, b, o);
    var l' := MergeIn(l, b, o);
    forall x, k | x in l'.cells && !x.Of? && k in l'.cells[x] && l'.cells[x][k].Sub?
      ensures !l'.cells[x][k].origin.Of?
    {
      assert x == b ==> SlotAt(l', b, k) == SlotAt(l, o, k) || SlotAt(l', b, k) == SlotAt(l, b, k);
    }
    forall k | k in l'.below ensures Unshared(l'.below[k]) {
      if BothSubs(l, b, o, k) {
        UnsharedStays(l.below[k], l.cells[b][k].origin, l.cells[o][k].origin);
      }
    }
  }

  /** A new object at the top changes what no other object reads. */
  lemma {:induction false} AddRoot(l: Level, c: string, cell: Cell)
    requires Linked(l) && Separate(l) && Unshared(l) && Root(c) !in l.cells
    requires cell == map[] || (Reported(c) in l.cells && cell == l.cells[Reported(c)])
    ensures var l' := l.(cells := l.cells[Root(c) := cell]);
            && Linked(l') && Separate(l') && Unshared(l')
            && (forall x | x in l.cells :: Value(l', x) == Value(l, x))
            && Value(l', Root(c)) == if cell == map[] then Object(map[]) else Value(l, Reported(c))
  {
    var l' := l.(cells := l.cells[Root(c) := cell]);
    AddedLinks(l, l', c, cell);
    AddedSeparate(l, l', c, cell);
    AddedReads(l, l', c, cell);
  }

  lemma {:induction false} AddedLinks(l: Level, l': Level, c: string, cell: Cell)
    requires Linked(l) && l' == l.(cells := l.cells[Root(c) := cell])
    requires cell == map[] || (Reported(c) in l.cells && cell == l.cells[Reported(c)])
    ensures Linked(l')
  {
    assert forall x | x in l'.cells && x != Root(c) :: x in l.cells && l'.cells[x] == l.cells[x];
  }

  lemma {:induction false} AddedReads(l: Level, l': Level, c: string, cell: Cell)
    requires Linked(l) && Linked(l') && l' == l.(cells := l.cells[Root(c) := cell]) && Root(c) !in l.cells
    requires cell == map[] || (Reported(c) in l.cells && cell == l.cells[Reported(c)])
    ensures forall x | x in l.cells :: Value(l', x) == Value(l, x)
    ensures Value(l', Root(c)) == if cell == map[] then Object(map[]) else Value(l, Reported(c))
  {
    forall x | x in l.cells ensures Value(l', x) == Value(l, x) {
      SameCell(l, l', x, x);
    }
    if cell != map[] {
      SameCell(l, l', Reported(c), Root(c));
    }
  }

  lemma {:induction false} AddedSeparate(l: Level, l': Level, c: string, cell: Cell)
    requires Separate(l) && Unshared(l) && l' == l.(cells := l.cells[Root(c) := cell]) && Root(c) !in l.cells
    requires cell == map[] || (Reported(c) in l.cells && cell == l.cells[Reported(c)])
    ensures Separate(l') && Unshared(l')
  {
    forall x, k | x in l'.cells && k in l'.cells[x] && l'.cells[x][k].Sub? ensures MayHold(x, l'.cells[x][k].origin) {
      if x == Root(c) {
        assert MayHold(Reported(c), l.cells[Reported(c)][k].origin);
      } else {
        assert MayHold(x, l.cells[x][k].origin);
      }
    }
    forall k, x | k in l'.below && x in l'.below[k].cells && x.Of? ensures Hangs(l', k, x) {
      assert Hangs(l, k, x);
    }
  }

  lemma {:induction false} SameCell(l: Level, l': Level, x: Origin, x': Origin)
    requires Linked(l) && Linked(l') && l'.below == l.below && x in l.cells && x' in l'.cells &&
             l'.cells[x'] == l.cells[x]
    ensures Value(l', x') == Value(l, x)
  {
    forall k ensures At(Value(l', x').fields, k) == At(Value(l, x).fields, k) {
      FieldKind(l, x, k);
      FieldKind(l', x', k);
    }
    SameObjects(Value(l', x'), Value(l, x));
  }

  // ---------------------------------------------------------------------------------------------
  // The phases on values: what each object at the top reads as, until a merge may have changed it.

  type Reading = map<Origin, Json>

  ghost predicate ReadsAs(l: Level, x: Origin, v: Json)
    requires Linked(l)
  {
    x in l.cells && Value(l, x) == v
  }

  ghost predicate AllRead(l: Level, m: Reading)
    requires Linked(l)
  {
    && (forall x | x in m :: ReadsAs(l, x, m[x]))
    && (forall x | x in l.cells && (x.Root? || x.Of?) :: x in m)
  }

  ghost predicate Prepares(l: Level, m: Reading) {
    Linked(l) && Separate(l) && Unshared(l) && AllRead(l, m)
  }

  function CopyValue(m: Reading, c: string): Reading {
    if Reported(c) in m then m[Root(c) := m[Reported(c)]] else m
  }

  function CopyValues(m: Reading, caps: seq<string>): Reading {
    if caps == [] then m else CopyValue(CopyValues(m, caps[..|caps|-1]), caps[|caps|-1])
  }

  function OverrideValue(m: Reading, c: string): Reading {
    if Overriding(c) !in m then m
    else
      (m - {Reported(c), Overriding(c)})
        [Root(c) := Put(Some(if Root(c) in m then m[Root(c)] else Object(map[])), m[Overriding(c)])]
  }

  function OverrideValues(m: Reading, caps: seq<string>): Reading {
    if caps == [] then m else OverrideValue(OverrideValues(m, caps[..|caps|-1]), caps[|caps|-1])
  }

  lemma {:induction false} AddReads(l: Level, m: Reading, c: string, cell: Cell)
    requires Prepares(l, m) && Root(c) !in m
    requires cell == map[] || (Reported(c) in l.cells && cell == l.cells[Reported(c)])
    ensures var l' := l.(cells := l.cells[Root(c) := cell]);
            Prepares(l', m[Root(c) := if cell == map[] then Object(map[]) else Value(l, Reported(c))])
  {
    AddRoot(l, c, cell);
    var l' := l.(cells := l.cells[Root(c) := cell]);
    forall x | x in m ensures ReadsAs(l', x, m[x]) {
      assert ReadsAs(l, x, m[x]);
    }
  }

  ghost predicate Copyable(m: Reading, caps: seq<string>) {
    (forall c | c in caps :: Reported(c) in m) && forall i, j | 0 <= i < j < |caps| :: caps[i] != caps[j]
  }

  lemma {:induction false} CopiedReading(m: Reading, caps: seq<string>, x: Origin)
    requires Copyable(m, caps)
    ensures ReadAt(CopyValues(m, caps), x)
         == if x.Root? && x.cap in caps then ReadAt(m, Reported(x.cap)) else ReadAt(m, x)
  {
    if caps != [] {
      var init, c := caps[..|caps|-1], caps[|caps|-1];
      assert caps == init + [c];
      CopiedReading(m, init, x);
      CopiedReading(m, init, Reported(c));
    }
  }

  lemma {:induction false} CopyPrepares(l: Level, m: Reading, caps: seq<string>)
    requires Prepares(l, m) && Copyable(m, caps) && forall c :: Root(c) !in m
    ensures Prepares(CopyAll(l, caps), CopyValues(m, caps))
  {
    if caps != [] {
      var init, c := caps[..|caps|-1], caps[|caps|-1];
      assert caps == init + [c];
      CopyPrepares(l, m, init);
      CopiedReading(m, init, Reported(c));
      CopiedReading(m, init, Root(c));
      CopyOne(CopyAll(l, init), CopyValues(m, init), c);
    }
  }

  function ReadAt(m: Reading, x: Origin): Option<Json> {
    if x in m then Some(m[x]) else None
  }

  lemma {:induction false} CopyOne(l: Level, m: Reading, c: string)
    requires Prepares(l, m) && ReadAt(m, Reported(c)).Some? && ReadAt(m, Root(c)) == None
    ensures Prepares(Copied(l, c), CopyValue(m, c))
  {
    assert ReadsAs(l, Reported(c), m[Reported(c)]);
    AddReads(l, m, c, l.cells[Reported(c)]);
    EmptyCell(l, Reported(c));
  }

  lemma {:induction false} EmptyCell(l: Level, x: Origin)
    requires Linked(l) && x in l.cells
    ensures l.cells[x] == map[] ==> Value(l, x) == Object(map[])
  {
    if l.cells[x] == map[] {
      assert Value(l, x).fields == map[];
    }
  }

  lemma {:induction false} OverrideValueAt(m: Reading, c: string, x: Origin)
    requires Overriding(c) in m
    ensures ReadAt(OverrideValue(m, c), x)
         == if x == Root(c) then Some(Put(Some(ReadAt(m, Root(c)).GetOr(Object(map[]))), m[Overriding(c)]))
            else if x == Reported(c) || x == Overriding(c) then None
            else ReadAt(m, x)
  {
  }

  ghost predicate Overridable(m: Reading, caps: seq<string>) {
    (forall c | c in caps :: Overriding(c) in m) && forall i, j | 0 <= i < j < |caps| :: caps[i] != caps[j]
  }

  lemma {:induction false} OtherReading(m: Reading, caps: seq<string>, x: Origin)
    requires Overridable(m, caps) && (x.Of? || x.cap !in caps)
    ensures ReadAt(OverrideValues(m, caps), x) == ReadAt(m, x)
  {
    if caps != [] {
      var init, c := caps[..|caps|-1], caps[|caps|-1];
      assert caps == init + [c];
      OtherReading(m, init, x);
      OtherReading(m, init, Overriding(c));
      OverrideValueAt(OverrideValues(m, init), c, x);
    }
  }

  lemma {:induction false} RootReading(m: Reading, caps: seq<string>, c: string)
    requires Overridable(m, caps) && c in caps
    ensures ReadAt(OverrideValues(m, caps), Root(c))
         == Some(Put(Some(ReadAt(m, Root(c)).GetOr(Object(map[]))), m[Overriding(c)]))
  {
    var init, d := caps[..|caps|-1], caps[|caps|-1];
    assert caps == init + [d];
    OtherReading(m, init, Overriding(d));
    OverrideValueAt(OverrideValues(m, init), d, Root(c));
    if c == d {
      OtherReading(m, init, Root(c));
    } else {
      RootReading(m, init, c);
    }
  }

  lemma {:induction false} OverridePrepares(l: Level, m: Reading, caps: seq<string>)
    requires Prepares(l, m) && Overridable(m, caps)
    ensures Prepares(OverrideAll(l, caps), OverrideValues(m, caps))
  {
    if caps != [] {
      var init, c := caps[..|caps|-1], caps[|caps|-1];
      assert caps == init + [c];
      OverridePrepares(l, m, init);
      OtherReading(m, init, Overriding(c));
      OverrideOne(OverrideAll(l, init), OverrideValues(m, init), c);
    }
  }

  lemma {:induction false} OverrideOne(l: Level, m: Reading, c: string)
    requires Prepares(l, m) && Overriding(c) in m
    ensures Prepares(Overridden(l, c), OverrideValue(m, c))
  {
    if Root(c) in m {
      assert ReadsAs(l, Root(c), m[Root(c)]);
      MergeReads(l, m, c);
    } else {
      OverrideNew(l, m, c);
    }
  }

  lemma {:induction false} OverrideNew(l: Level, m: Reading, c: string)
    requires Prepares(l, m) && Overriding(c) in m && Root(c) !in m
    ensures Prepares(Overridden(l, c), OverrideValue(m, c))
  {
    AddReads(l, m, c, map[]);
    MergeReads(l.(cells := l.cells[Root(c) := map[]]), m[Root(c) := Object(map[])], c);
    SameOverride(m, c);
  }

  lemma {:induction false} SameOverride(m: Reading, c: string)
    requires Overriding(c) in m && Root(c) !in m
    ensures OverrideValue(m, c) == OverrideValue(m[Root(c) := Object(map[])], c)
  {
  }

  lemma {:induction false} MergeReads(l: Level, m: Reading, c: string)
    requires Prepares(l, m) && Root(c) in m && Overriding(c) in m
    ensures Prepares(MergeCap(l, c, Overriding(c)), OverrideValue(m, c))
  {
    assert ReadsAs(l, Root(c), m[Root(c)]) && ReadsAs(l, Overriding(c), m[Overriding(c)]);
    UnsharedIsQuiet(l, Root(c), Overriding(c));
    QuietKeeps(l, Root(c), Overriding(c));
    MergeShowsPut(l, Root(c), Overriding(c));
    UnsharedStays(l, Root(c), Overriding(c));
    KeptReading(l, MergeIn(l, Root(c), Overriding(c)), m, c);
  }

  lemma {:induction false} KeptReading(l: Level, l': Level, m: Reading, c: string)
    requires Linked(l) && Linked(l') && AllRead(l, m) && OthersKept(l, l', Root(c)) && Root(c) in m &&
             Overriding(c) in m
    requires ReadsAs(l', Root(c), Put(Some(m[Root(c)]), m[Overriding(c)]))
    ensures AllRead(l', OverrideValue(m, c))
  {
    var m' := OverrideValue(m, c);
    forall x | x in m' ensures ReadsAs(l', x, m'[x]) {
      if x != Root(c) {
        assert Other(Root(c), x);
        KeptRead(l, l', Root(c), x, m[x]);
      }
    }
  }

  lemma {:induction false} KeptRead(l: Level, l': Level, b: Origin, x: Origin, v: Json)
    requires Linked(l) && Linked(l') && !b.Of? && OthersKept(l, l', b) && Other(b, x) && ReadsAs(l, x, v)
    ensures ReadsAs(l', x, v)
  {
    assert ReadsSame(l, l', x);
  }

  // ---------------------------------------------------------------------------------------------
  // What the capabilities are before the resources.

  /** What is known of a capability: the merge of its layers, from as many resources. */
  function LayerValue(reported: map<string, Fields>, overrides: map<string, Fields>, resources: seq<Resource>,
                      c: string): Json {
    Object(MergeAll(CapabilityLayers(reported, overrides, resources, c)))
  }

  function LayerValues(reported: map<string, Fields>, overrides: map<string, Fields>,
                       resources: seq<Resource>): map<string, Json> {
    map c | c in reported.Keys + overrides.Keys :: LayerValue(reported, overrides, resources, c)
  }

  /** A capability's own nesting: that of the first two layers, without what scalars of resources replaced. */
  function OwnFrame(reported: map<string, Fields>, overrides: map<string, Fields>, resources: seq<Resource>,
                    c: string): Json {
    if resources == [] then Frame(LayerValue(reported, overrides, [], c))
    else
      var rest, r := OwnFrame(reported, overrides, resources[..|resources|-1], c), resources[|resources|-1];
      if c in r.capabilityNames then Prune(rest, Object(r.config)) else rest
  }

  function OwnFrames(reported: map<string, Fields>, overrides: map<string, Fields>,
                     resources: seq<Resource>): map<string, Json> {
    map c | c in reported.Keys + overrides.Keys :: OwnFrame(reported, overrides, resources, c)
  }

  function GivenValue(reported: map<string, Fields>, overrides: map<string, Fields>, resources: seq<Resource>,
                      x: Origin): Option<Json> {
    match x
    case Reported(c) => if c in reported then Some(Object(reported[c])) else None
    case Overriding(c) => if c in overrides then Some(Object(overrides[c])) else None
    case Root(_) => None
    case Of(i) => if i < |resources| then Some(Object(resources[i].config)) else None
  }

  function GivenReading(reported: map<string, Fields>, overrides: map<string, Fields>,
                        resources: seq<Resource>): (m: Reading)
    ensures forall x :: ReadAt(m, x) == GivenValue(reported, overrides, resources, x)
  {
    (map c | c in reported :: Reported(c) := Object(reported[c]))
    + (map c | c in overrides :: Overriding(c) := Object(overrides[c]))
    + (map i | 0 <= i < |resources| :: Of(i) := Object(resources[i].config))
  }

  lemma {:induction false} GivenPrepares(l: Level, m: Reading, reported: map<string, Fields>,
                                         overrides: map<string, Fields>, resources: seq<Resource>)
    requires Given(l, reported, overrides, resources)
    requires forall x :: ReadAt(m, x) == GivenValue(reported, overrides, resources, x)
    ensures Prepares(l, m)
  {
    TreesAreSeparate(l);
    forall x | x in m ensures ReadsAs(l, x, m[x]) {
      assert ReadAt(m, x) == GivenValue(reported, overrides, resources, x);
      match x {
        case Reported(c) => assert IsConfig(l, x, reported[c]);
        case Overriding(c) => assert IsConfig(l, x, overrides[c]);
        case Of(i) => assert Value(l, x) == Configs(resources)[i];
        case Root(_) =>
      }
    }
    forall x | x in l.cells && (x.Root? || x.Of?) ensures x in m {
      assert ReadAt(m, x) == GivenValue(reported, overrides, resources, x);
    }
  }

  lemma {:induction false} PreparedReading(m: Reading, reported: map<string, Fields>, overrides: map<string, Fields>,
                                           resources: seq<Resource>,
                                           reportedOrder: seq<string>, overrideOrder: seq<string>, x: Origin)
    requires Orders(reportedOrder, reported.Keys) && Orders(overrideOrder, overrides.Keys) && (x.Root? || x.Of?)
    requires forall y :: ReadAt(m, y) == GivenValue(reported, overrides, resources, y)
    ensures ReadAt(OverrideValues(CopyValues(m, reportedOrder), overrideOrder), x)
         == if x.Of? then ReadAt(m, x)
            else if x.cap in reported || x.cap in overrides then Some(LayerValue(reported, overrides, [], x.cap))
            else None
  {
    BothAble(m, reported, overrides, resources, reportedOrder, overrideOrder);
    var m1 := CopyValues(m, reportedOrder);
    CopiedReading(m, reportedOrder, x);
    if x.Of? || x.cap !in overrides {
      OtherReading(m1, overrideOrder, x);
    } else {
      CopiedReading(m, reportedOrder, Overriding(x.cap));
      RootReading(m1, overrideOrder, x.cap);
    }
    if x.Root? && (x.cap in reported || x.cap in overrides) {
      FirstLayers(reported, overrides, x.cap);
    }
  }

  lemma {:induction false} BothAble(m: Reading, reported: map<string, Fields>, overrides: map<string, Fields>,
                                    resources: seq<Resource>, reportedOrder: seq<string>, overrideOrder: seq<string>)
    requires Orders(reportedOrder, reported.Keys) && Orders(overrideOrder, overrides.Keys)
    requires forall y :: ReadAt(m, y) == GivenValue(reported, overrides, resources, y)
    ensures Copyable(m, reportedOrder) && Overridable(CopyValues(m, reportedOrder), overrideOrder) &&
            forall c :: Root(c) !in m
  {
    forall c | c in reportedOrder ensures Reported(c) in m {
      assert ReadAt(m, Reported(c)) == GivenValue(reported, overrides, resources, Reported(c));
    }
    forall c | c in overrideOrder ensures Overriding(c) in CopyValues(m, reportedOrder) {
      CopiedReading(m, reportedOrder, Overriding(c));
      assert ReadAt(m, Overriding(c)) == GivenValue(reported, overrides, resources, Overriding(c));
    }
    forall c ensures Root(c) !in m {
      assert ReadAt(m, Root(c)) == GivenValue(reported, overrides, resources, Root(c));
    }
  }

  lemma {:induction false} PreparedPrepares(l: Level, m: Reading, reported: map<string, Fields>,
                                            overrides: map<string, Fields>, resources: seq<Resource>,
                                            reportedOrder: seq<string>, overrideOrder: seq<string>)
    requires Given(l, reported, overrides, resources)
    requires Orders(reportedOrder, reported.Keys) && Orders(overrideOrder, overrides.Keys)
    requires forall x :: ReadAt(m, x) == GivenValue(reported, overrides, resources, x)
    ensures Prepares(Prepared(l, reportedOrder, overrideOrder),
                     OverrideValues(CopyValues(m, reportedOrder), overrideOrder))
  {
    GivenPrepares(l, m, reported, overrides, resources);
    BothAble(m, reported, overrides, resources, reportedOrder, overrideOrder);
    CopyPrepares(l, m, reportedOrder);
    OverridePrepares(CopyAll(l, reportedOrder), CopyValues(m, reportedOrder), overrideOrder);
  }

  /** The top of the prepared objects reads as the first two layers and the resources do. */
  ghost predicate FirstReading(m: Reading, reported: map<string, Fields>, overrides: map<string, Fields>,
                               resources: seq<Resource>) {
    && (forall c :: ReadAt(m, Root(c))
                 == if c in reported || c in overrides then Some(LayerValue(reported, overrides, [], c)) else None)
    && (forall i: nat :: ReadAt(m, Of(i)) == if i < |resources| then Some(Object(resources[i].config)) else None)
  }

  lemma {:induction false} PreparedReadings(m: Reading, reported: map<string, Fields>, overrides: map<string, Fields>,
                                            resources: seq<Resource>,
                                            reportedOrder: seq<string>, overrideOrder: seq<string>)
    requires Orders(reportedOrder, reported.Keys) && Orders(overrideOrder, overrides.Keys)
    requires forall x :: ReadAt(m, x) == GivenValue(reported, overrides, resources, x)
    ensures FirstReading(OverrideValues(CopyValues(m, reportedOrder), overrideOrder), reported, overrides, resources)
  {
    var m2 := OverrideValues(CopyValues(m, reportedOrder), overrideOrder);
    forall c ensures ReadAt(m2, Root(c))
                  == if c in reported || c in overrides then Some(LayerValue(reported, overrides, [], c)) else None
    {
      PreparedReading(m, reported, overrides, resources, reportedOrder, overrideOrder, Root(c));
    }
    forall i: nat ensures ReadAt(m2, Of(i)) == if i < |resources| then Some(Object(resources[i].config)) else None {
      PreparedReading(m, reported, overrides, resources, reportedOrder, overrideOrder, Of(i));
      assert ReadAt(m, Of(i)) == GivenValue(reported, overrides, resources, Of(i));
    }
  }

  /** Before the first resource every capability is the merge of its layers, and all its nesting is its own. */
  lemma {:induction false} PreparedShows(l: Level, reported: map<string, Fields>, overrides: map<string, Fields>,
                                         resources: seq<Resource>,
                                         reportedOrder: seq<string>, overrideOrder: seq<string>)
    requires Given(l, reported, overrides, resources)
    requires Orders(reportedOrder, reported.Keys) && Orders(overrideOrder, overrides.Keys)
    ensures Shown(Prepared(l, reportedOrder, overrideOrder), LayerValues(reported, overrides, []),
                  OwnFrames(reported, overrides, []), Configs(resources))
  {
    var m := GivenReading(reported, overrides, resources);
    PreparedPrepares(l, m, reported, overrides, resources, reportedOrder, overrideOrder);
    PreparedReadings(m, reported, overrides, resources, reportedOrder, overrideOrder);
    ReadingShows(Prepared(l, reportedOrder, overrideOrder), OverrideValues(CopyValues(m, reportedOrder), overrideOrder),
                 reported, overrides, resources);
  }

  lemma {:induction false} ReadingShows(l: Level, m: Reading, reported: map<string, Fields>,
                                        overrides: map<string, Fields>, resources: seq<Resource>)
    requires Prepares(l, m)
    requires FirstReading(m, reported, overrides, resources)
    ensures Shown(l, LayerValues(reported, overrides, []), OwnFrames(reported, overrides, []), Configs(resources))
  {
    forall c ensures Root(c) in l.cells <==> c in reported || c in overrides {
      assert Root(c) in m ==> ReadsAs(l, Root(c), m[Root(c)]);
      assert ReadAt(m, Root(c)).Some? <==> c in reported || c in overrides;
    }
    forall c | c in reported || c in overrides
      ensures Reads(l, Root(c), LayerValue(reported, overrides, [], c), OwnFrame(reported, overrides, [], c))
    {
      assert ReadAt(m, Root(c)) == Some(LayerValue(reported, overrides, [], c)) && ReadsAs(l, Root(c), m[Root(c)]);
      UnsharedFrame(l, Root(c));
    }
    forall i: nat ensures Of(i) in l.cells <==> i < |resources| {
      assert Of(i) in m ==> ReadsAs(l, Of(i), m[Of(i)]);
      assert ReadAt(m, Of(i)).Some? <==> i < |resources|;
    }
    forall i | 0 <= i < |resources| ensures Value(l, Of(i)) == Configs(resources)[i] {
      assert ReadAt(m, Of(i)) == Some(Object(resources[i].config)) && ReadsAs(l, Of(i), m[Of(i)]);
    }
  }

  // ---------------------------------------------------------------------------------------------
  // The theorem.

  /** The objects when the first `n` resources have been injected. */
  ghost function AssembledUpTo(l: Level, reportedOrder: seq<string>, overrideOrder: seq<string>,
                               resources: seq<Resource>, n: nat): Level
    requires n <= |resources|
  {
    InjectAll(Prepared(l, reportedOrder, overrideOrder), resources[..n])
  }

  /** Every capability reads as the merge of its layers, and every resource's configuration as it was given. */
  ghost predicate AsExpected(l: Level, reported: map<string, Fields>, overrides: map<string, Fields>,
                             resources: seq<Resource>, n: nat)
    requires n <= |resources|
  {
    && Linked(l)
    && (forall c | c in reported || c in overrides ::
          ReadsAs(l, Root(c), LayerValue(reported, overrides, resources[..n], c)))
    && (forall i | 0 <= i < |resources| :: ReadsAs(l, Of(i), Configs(resources)[i]))
  }

  /** The n-th resource writes nothing new into an object that a capability it configures got from an earlier one. */
  predicate QuietStep(reported: map<string, Fields>, overrides: map<string, Fields>, resources: seq<Resource>, n: nat)
    requires n < |resources|
  {
    forall c | c in resources[n].capabilityNames && (c in reported || c in overrides) ::
      Quiet(LayerValue(reported, overrides, resources[..n], c), OwnFrame(reported, overrides, resources[..n], c),
            Object(resources[n].config))
  }

  lemma {:induction false} QuietStepFor(reported: map<string, Fields>, overrides: map<string, Fields>,
                                        resources: seq<Resource>, n: nat)
    requires n < |resources|
    ensures QuietStep(reported, overrides, resources, n)
       <==> QuietFor(LayerValues(reported, overrides, resources[..n]), OwnFrames(reported, overrides, resources[..n]),
                     resources[n].capabilityNames, Object(resources[n].config))
  {
  }

  lemma {:induction false} NextValue(reported: map<string, Fields>, overrides: map<string, Fields>,
                                     resources: seq<Resource>, n: nat, c: string)
    requires n < |resources|
    ensures LayerValue(reported, overrides, resources[..n+1], c)
         == if c in resources[n].capabilityNames then
              Put(Some(LayerValue(reported, overrides, resources[..n], c)), Object(resources[n].config))
            else LayerValue(reported, overrides, resources[..n], c)
    ensures OwnFrame(reported, overrides, resources[..n+1], c)
         == if c in resources[n].capabilityNames then
              Prune(OwnFrame(reported, overrides, resources[..n], c), Object(resources[n].config))
            else OwnFrame(reported, overrides, resources[..n], c)
  {
    assert resources[..n+1][..n] == resources[..n] && resources[..n+1][n] == resources[n];
    NextLayer(reported, overrides, resources, n, c);
  }

  lemma {:induction false} MergedIs(v: map<string, Json>, s: map<string, Json>, v': map<string, Json>,
                                    s': map<string, Json>, names: seq<string>, r: Json)
    requires v.Keys == s.Keys == v'.Keys == s'.Keys
    requires forall c | c in v :: v'[c] == if c in names then Put(Some(v[c]), r) else v[c]
    requires forall c | c in v :: s'[c] == if c in names then Prune(s[c], r) else s[c]
    ensures Merged(v, names, r) == v' && Pruned(s, names, r) == s'
  {
  }

  lemma {:induction false} NextValues(reported: map<string, Fields>, overrides: map<string, Fields>,
                                      resources: seq<Resource>, n: nat)
    requires n < |resources|
    ensures var names, r := resources[n].capabilityNames, Object(resources[n].config);
            && Merged(LayerValues(reported, overrides, resources[..n]), names, r)
                 == LayerValues(reported, overrides, resources[..n+1])
            && Pruned(OwnFrames(reported, overrides, resources[..n]), names, r)
                 == OwnFrames(reported, overrides, resources[..n+1])
  {
    var names, r := resources[n].capabilityNames, Object(resources[n].config);
    var v, s := LayerValues(reported, overrides, resources[..n]), OwnFrames(reported, overrides, resources[..n]);
    var v', s' := LayerValues(reported, overrides, resources[..n+1]), OwnFrames(reported, overrides, resources[..n+1]);
    forall c | c in v
      ensures v'[c] == if c in names then Put(Some(v[c]), r) else v[c]
      ensures s'[c] == if c in names then Prune(s[c], r) else s[c]
    {
      NextValue(reported, overrides, resources, n, c);
    }
    MergedIs(v, s, v', s', names, r);
  }

  lemma {:induction false} QuietShows(l: Level, reported: map<string, Fields>, overrides: map<string, Fields>,
                                      resources: seq<Resource>, n: nat)
    requires n <= |resources| && forall i | 0 <= i < n :: QuietStep(reported, overrides, resources, i)
    requires Shown(l, LayerValues(reported, overrides, []), OwnFrames(reported, overrides, []), Configs(resources))
    ensures Shown(InjectAll(l, resources[..n]), LayerValues(reported, overrides, resources[..n]),
                  OwnFrames(reported, overrides, resources[..n]), Configs(resources))
  {
    if n == 0 {
      assert resources[..0] == [];
    } else {
      QuietShows(l, reported, overrides, resources, n - 1);
      QuietStepFor(reported, overrides, resources, n - 1);
      assert resources[..n][..n-1] == resources[..n-1];
      InjectQuiet(InjectAll(l, resources[..n-1]), LayerValues(reported, overrides, resources[..n-1]),
                  OwnFrames(reported, overrides, resources[..n-1]), Configs(resources),
                  resources[n-1].capabilityNames, n - 1);
      NextValues(reported, overrides, resources, n - 1);
    }
  }

  lemma {:induction false} ShownIsExpected(l: Level, reported: map<string, Fields>, overrides: map<string, Fields>,
                                           resources: seq<Resource>, n: nat)
    requires n <= |resources|
    requires Shown(l, LayerValues(reported, overrides, resources[..n]), OwnFrames(reported, overrides, resources[..n]),
                   Configs(resources))
    ensures AsExpected(l, reported, overrides, resources, n)
  {
    forall c | c in reported || c in overrides
      ensures ReadsAs(l, Root(c), LayerValue(reported, overrides, resources[..n], c))
    {
      var v := LayerValues(reported, overrides, resources[..n]);
      assert c in v && Reads(l, Root(c), v[c], OwnFrames(reported, overrides, resources[..n])[c]);
    }
  }

  /** From the first step that is not quiet on, some resource's configuration reads differently. */
  lemma {:induction false} NoisyStep(l: Level, reported: map<string, Fields>, overrides: map<string, Fields>,
                                     resources: seq<Resource>, n: nat)
    requires n < |resources| && !QuietStep(reported, overrides, resources, n)
    requires Shown(l, LayerValues(reported, overrides, resources[..n]), OwnFrames(reported, overrides, resources[..n]),
                   Configs(resources))
    ensures Leaked(Inject(l, resources[n].capabilityNames, n), Configs(resources), n)
  {
    var v, s := LayerValues(reported, overrides, resources[..n]), OwnFrames(reported, overrides, resources[..n]);
    QuietStepFor(reported, overrides, resources, n);
    InjectNoisy(l, v, s, Configs(resources), resources[n].capabilityNames, n);
  }

  lemma {:induction false} InjectNext(l: Level, resources: seq<Resource>, n: nat)
    requires n < |resources|
    ensures InjectAll(l, resources[..n+1]) == Inject(InjectAll(l, resources[..n]), resources[n].capabilityNames, n)
  {
    assert resources[..n+1][..n] == resources[..n];
  }

  lemma {:induction false} LeakUnexpected(l: Level, reported: map<string, Fields>, overrides: map<string, Fields>,
                                          resources: seq<Resource>, n: nat)
    requires n < |resources| && Leaked(l, Configs(resources), n)
    ensures !AsExpected(l, reported, overrides, resources, n + 1)
  {
    LeakShows(l, Configs(resources), n);
    var i :| 0 <= i < |resources| && Of(i) in l.cells && Value(l, Of(i)) != Configs(resources)[i];
    assert !ReadsAs(l, Of(i), Configs(resources)[i]);
  }

  lemma {:induction false} FirstFalse(quiet: seq<bool>) returns (n: nat)
    requires exists i :: 0 <= i < |quiet| && !quiet[i]
    ensures n < |quiet| && !quiet[n] && forall i | 0 <= i < n :: quiet[i]
  {
    n := 0;
    while quiet[n]
      invariant n < |quiet| && forall i | 0 <= i < n :: quiet[i]
      decreases |quiet| - n
    {
      n := n + 1;
    }
  }

  lemma {:induction false} FirstNoisy(reported: map<string, Fields>, overrides: map<string, Fields>,
                                      resources: seq<Resource>)
    returns (n: nat)
    requires exists i :: 0 <= i < |resources| && !QuietStep(reported, overrides, resources, i)
    ensures n < |resources| && !QuietStep(reported, overrides, resources, n)
    ensures forall i | 0 <= i < n :: QuietStep(reported, overrides, resources, i)
  {
    var quiet := seq(|resources|, i requires 0 <= i < |resources| => QuietStep(reported, overrides, resources, i));
    var i :| 0 <= i < |resources| && !QuietStep(reported, overrides, resources, i);
    assert !quiet[i];
    n := FirstFalse(quiet);
    forall i | 0 <= i < n ensures QuietStep(reported, overrides, resources, i) {
      assert quiet[i];
    }
  }

  /** While the resources are quiet, the objects show what the layers say. */
  lemma {:induction false} ShownUpTo(l: Level, reported: map<string, Fields>, overrides: map<string, Fields>,
                                     resources: seq<Resource>, reportedOrder: seq<string>,
                                     overrideOrder: seq<string>, n: nat)
    requires Given(l, reported, overrides, resources)
    requires Orders(reportedOrder, reported.Keys) && Orders(overrideOrder, overrides.Keys)
    requires n <= |resources| && forall i | 0 <= i < n :: QuietStep(reported, overrides, resources, i)
    ensures Shown(AssembledUpTo(l, reportedOrder, overrideOrder, resources, n),
                  LayerValues(reported, overrides, resources[..n]), OwnFrames(reported, overrides, resources[..n]),
                  Configs(resources))
  {
    PreparedShows(l, reported, overrides, resources, reportedOrder, overrideOrder);
    QuietShows(Prepared(l, reportedOrder, overrideOrder), reported, overrides, resources, n);
  }

  lemma {:induction false} NoisyNext(l: Level, reported: map<string, Fields>, overrides: map<string, Fields>,
                                     resources: seq<Resource>, n: nat)
    requires n < |resources| && !QuietStep(reported, overrides, resources, n)
    requires Shown(InjectAll(l, resources[..n]), LayerValues(reported, overrides, resources[..n]),
                   OwnFrames(reported, overrides, resources[..n]), Configs(resources))
    ensures !AsExpected(InjectAll(l, resources[..n+1]), reported, overrides, resources, n + 1)
  {
    NoisyStep(InjectAll(l, resources[..n]), reported, overrides, resources, n);
    InjectNext(l, resources, n);
    LeakUnexpected(InjectAll(l, resources[..n+1]), reported, overrides, resources, n);
  }

  lemma {:induction false} QuietUpTo(l: Level, reported: map<string, Fields>, overrides: map<string, Fields>,
                                     resources: seq<Resource>, reportedOrder: seq<string>,
                                     overrideOrder: seq<string>, n: nat)
    requires Given(l, reported, overrides, resources)
    requires Orders(reportedOrder, reported.Keys) && Orders(overrideOrder, overrides.Keys)
    requires n <= |resources| && forall i | 0 <= i < n :: QuietStep(reported, overrides, resources, i)
    ensures AsExpected(AssembledUpTo(l, reportedOrder, overrideOrder, resources, n), reported, overrides, resources, n)
  {
    ShownUpTo(l, reported, overrides, resources, reportedOrder, overrideOrder, n);
    ShownIsExpected(AssembledUpTo(l, reportedOrder, overrideOrder, resources, n), reported, overrides, resources, n);
  }

  lemma {:induction false} QuietAfter(l: Level, reported: map<string, Fields>, overrides: map<string, Fields>,
                                      resources: seq<Resource>, reportedOrder: seq<string>,
                                      overrideOrder: seq<string>, n: nat)
    requires Given(l, reported, overrides, resources)
    requires Orders(reportedOrder, reported.Keys) && Orders(overrideOrder, overrides.Keys)
    requires n < |resources| && forall i | 0 <= i < n :: QuietStep(reported, overrides, resources, i)
    ensures QuietStep(reported, overrides, resources, n) ==>
              AsExpected(AssembledUpTo(l, reportedOrder, overrideOrder, resources, n + 1), reported, overrides,
                          resources, n + 1)
  {
    if QuietStep(reported, overrides, resources, n) {
      assert forall i | 0 <= i < n + 1 :: QuietStep(reported, overrides, resources, i);
      QuietUpTo(l, reported, overrides, resources, reportedOrder, overrideOrder, n + 1);
    }
  }

  lemma {:induction false} NoisyAfter(l: Level, reported: map<string, Fields>, overrides: map<string, Fields>,
                                      resources: seq<Resource>, reportedOrder: seq<string>,
                                      overrideOrder: seq<string>, n: nat)
    requires Given(l, reported, overrides, resources)
    requires Orders(reportedOrder, reported.Keys) && Orders(overrideOrder, overrides.Keys)
    requires n < |resources| && forall i | 0 <= i < n :: QuietStep(reported, overrides, resources, i)
    ensures !QuietStep(reported, overrides, resources, n) ==>
              !AsExpected(AssembledUpTo(l, reportedOrder, overrideOrder, resources, n + 1), reported, overrides,
                          resources, n + 1)
  {
    if !QuietStep(reported, overrides, resources, n) {
      ShownUpTo(l, reported, overrides, resources, reportedOrder, overrideOrder, n);
      NoisyNext(Prepared(l, reportedOrder, overrideOrder), reported, overrides, resources, n);
    }
  }

  /**
   * While all earlier resources were quiet, the configuration is what its layers say after the next resource exactly
   * when that one is quiet too. For the last resource this is the configuration returned.
   */
  lemma {:induction false} StepExactly(l: Level, reported: map<string, Fields>, overrides: map<string, Fields>,
                                       resources: seq<Resource>, reportedOrder: seq<string>,
                                       overrideOrder: seq<string>, n: nat)
    requires Given(l, reported, overrides, resources)
    requires Orders(reportedOrder, reported.Keys) && Orders(overrideOrder, overrides.Keys)
    requires n < |resources| && forall i | 0 <= i < n :: QuietStep(reported, overrides, resources, i)
    ensures AsExpected(AssembledUpTo(l, reportedOrder, overrideOrder, resources, n + 1), reported, overrides,
                       resources, n + 1)
       <==> QuietStep(reported, overrides, resources, n)
  {
    QuietAfter(l, reported, overrides, resources, reportedOrder, overrideOrder, n);
    NoisyAfter(l, reported, overrides, resources, reportedOrder, overrideOrder, n);
  }

  /**
   * The configuration is what its layers say, after every resource, exactly when no resource writes anything new
   * into an object that a capability it configures got from an earlier resource.
   */
  lemma {:induction false} AssembledExactly(l: Level, reported: map<string, Fields>, overrides: map<string, Fields>,
                                            resources: seq<Resource>,
                                            reportedOrder: seq<string>, overrideOrder: seq<string>)
    requires Given(l, reported, overrides, resources)
    requires Orders(reportedOrder, reported.Keys) && Orders(overrideOrder, overrides.Keys)
    ensures (forall n | 0 <= n <= |resources| ::
               AsExpected(AssembledUpTo(l, reportedOrder, overrideOrder, resources, n), reported, overrides,
                          resources, n))
       <==> (forall n | 0 <= n < |resources| :: QuietStep(reported, overrides, resources, n))
  {
    if forall n | 0 <= n < |resources| :: QuietStep(reported, overrides, resources, n) {
      forall n | 0 <= n <= |resources|
        ensures AsExpected(AssembledUpTo(l, reportedOrder, overrideOrder, resources, n), reported, overrides,
                           resources, n)
      {
        QuietUpTo(l, reported, overrides, resources, reportedOrder, overrideOrder, n);
      }
    } else {
      var n := FirstNoisy(reported, overrides, resources);
      StepExactly(l, reported, overrides, resources, reportedOrder, overrideOrder, n);
      assert !AsExpected(AssembledUpTo(l, reportedOrder, overrideOrder, resources, n + 1), reported, overrides,
                         resources, n + 1);
    }
  }

  /** Then the scalar at a path of a capability is that of the last layer that decides it. */
  lemma {:induction false} AssembledLastLayerWins(l: Level, reported: map<string, Fields>,
                                                  overrides: map<string, Fields>, resources: seq<Resource>,
                                                  reportedOrder: seq<string>, overrideOrder: seq<string>, c: string,
                                                  path: seq<string>)
    requires Given(l, reported, overrides, resources)
    requires Orders(reportedOrder, reported.Keys) && Orders(overrideOrder, overrides.Keys)
    requires (c in reported || c in overrides) &&
             forall n | 0 <= n < |resources| :: QuietStep(reported, overrides, resources, n)
    ensures var l', layers := AssembledUpTo(l, reportedOrder, overrideOrder, resources, |resources|),
                              CapabilityLayers(reported, overrides, resources, c);
            var last := LastDeciding(layers, path);
            && Linked(l') && Root(c) in l'.cells
            && ScalarOf(Lookup(Some(Value(l', Root(c))), path))
               == if last.Some? then ScalarOf(Lookup(Some(Object(layers[last.value])), path)) else None
  {
    AssembledExactly(l, reported, overrides, resources, reportedOrder, overrideOrder);
    var n := |resources|;
    assert AsExpected(AssembledUpTo(l, reportedOrder, overrideOrder, resources, n), reported, overrides, resources, n);
    assert resources[..n] == resources;
    assert ReadsAs(AssembledUpTo(l, reportedOrder, overrideOrder, resources, n), Root(c),
                   LayerValue(reported, overrides, resources, c));
    LastLayerWins(CapabilityLayers(reported, overrides, resources, c), path);
  }

  /** In particular resources without nested objects never disturb anything. */
  lemma {:induction false} FlatIsQuiet(reported: map<string, Fields>, overrides: map<string, Fields>,
                                       resources: seq<Resource>, n: nat)
    requires n < |resources| && forall k | k in resources[n].config :: resources[n].config[k].Leaf?
    ensures QuietStep(reported, overrides, resources, n)
  {
  }
}
