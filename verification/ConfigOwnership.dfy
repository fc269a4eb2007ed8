/**
 * Who may see a merge: objects of one capability are its own until a resource stores some of its objects there,
 * which from then on the capability shares with the resource and with whatever else holds them.
 */
module ConfigOwnership {
  import opened Basics
  import opened ConfigAssembly
  import opened ConfigSharing

  /** What an object may refer to: a resource's to its own, a capability's to its own and to resources'. */
  predicate MayHold(x: Origin, y: Origin) {
    if x.Of? then y == x else y.Of? || y.cap == x.cap
  }

  /** Everyone keeps to this, and a resource's object hangs where the resource has it. */
  ghost predicate Separate(l: Level) {
    && (forall x, k | x in l.cells && k in l.cells[x] && l.cells[x][k].Sub? :: MayHold(x, l.cells[x][k].origin))
    && (forall k, x | k in l.below && x in l.below[k].cells && x.Of? :: Hangs(l, k, x))
    && (forall k | k in l.below :: Separate(l.below[k]))
  }

  predicate Hangs(l: Level, k: string, x: Origin) {
    x in l.cells && k in l.cells[x] && l.cells[x][k] == Sub(x)
  }

  // ---------------------------------------------------------------------------------------------
  // A capability's own objects.

  /** Only the nesting: the objects among the fields. */
  function Frame(j: Json): Json {
    if j.Leaf? then j else Object(map k | k in j.fields && j.fields[k].Object? :: Frame(j.fields[k]))
  }

  /** What is left of an own nesting when a resource is merged in: its scalars replace objects. */
  function Prune(s: Json, r: Json): Json
    decreases s
  {
    if s.Leaf? || r.Leaf? then s
    else
      Object(map k | k in s.fields && !(k in r.fields && r.fields[k].Leaf?) ::
               if k in r.fields then Prune(s.fields[k], r.fields[k]) else s.fields[k])
  }

  /** The nesting of the objects that are no resource's. */
  function FrameOf(l: Level, x: Origin): Json
    requires Linked(l) && x in l.cells
  {
    Object(map k | k in l.cells[x] && l.cells[x][k].Sub? && !l.cells[x][k].origin.Of? ::
             FrameOf(l.below[k], l.cells[x][k].origin))
  }

  /**
   * Merging `r` into the value `v` whose own nesting is `s` changes no object of a resource: where both have objects
   * and that of `v` is not its own, it has everything in it already.
   */
  predicate Quiet(v: Json, s: Json, r: Json)
    decreases r
  {
    v.Object? && s.Object? && r.Object? ==>
      forall k | k in r.fields && k in v.fields && v.fields[k].Object? && r.fields[k].Object? ::
        if k in s.fields then Quiet(v.fields[k], s.fields[k], r.fields[k]) else Absorbs(v.fields[k], r.fields[k])
  }

  /** The same, read off the objects. */
  ghost predicate QuietIn(l: Level, b: Origin, o: Origin)
    requires Linked(l) && b in l.cells && o in l.cells
    decreases l, 1
  {
    forall k :: QuietAt(l, b, o, k)
  }

  ghost predicate QuietAt(l: Level, b: Origin, o: Origin, k: string)
    requires Linked(l) && b in l.cells && o in l.cells
    decreases l, 0
  {
    BothSubs(l, b, o, k) ==>
      var y, z := l.cells[b][k].origin, l.cells[o][k].origin;
      if y.Of? then Absorbs(Value(l.below[k], y), Value(l.below[k], z)) else QuietIn(l.below[k], y, z)
  }

  predicate QuietField(v: Json, s: Json, r: Json, k: string)
    requires v.Object? && s.Object? && r.Object?
  {
    k in r.fields && k in v.fields && v.fields[k].Object? && r.fields[k].Object? ==>
      if k in s.fields then Quiet(v.fields[k], s.fields[k], r.fields[k]) else Absorbs(v.fields[k], r.fields[k])
  }

  lemma {:induction false} QuietFields(v: Json, s: Json, r: Json)
    requires v.Object? && s.Object? && r.Object?
    ensures Quiet(v, s, r) <==> forall k :: QuietField(v, s, r, k)
  {
    if forall k :: QuietField(v, s, r, k) {
      forall k | k in r.fields && k in v.fields && v.fields[k].Object? && r.fields[k].Object?
        ensures if k in s.fields then Quiet(v.fields[k], s.fields[k], r.fields[k])
                else Absorbs(v.fields[k], r.fields[k])
      {
        assert QuietField(v, s, r, k);
      }
    }
  }

  lemma {:induction false} QuietExactly(l: Level, b: Origin, o: Origin)
    requires Linked(l) && b in l.cells && o in l.cells
    ensures Quiet(Value(l, b), FrameOf(l, b), Value(l, o)) <==> QuietIn(l, b, o)
    decreases l
  {
    forall k ensures QuietAt(l, b, o, k) <==> QuietField(Value(l, b), FrameOf(l, b), Value(l, o), k) {
      FieldKind(l, b, k);
      FieldKind(l, o, k);
      if BothSubs(l, b, o, k) && !l.cells[b][k].origin.Of? {
        QuietExactly(l.below[k], l.cells[b][k].origin, l.cells[o][k].origin);
      }
    }
    QuietFields(Value(l, b), FrameOf(l, b), Value(l, o));
  }

  // ---------------------------------------------------------------------------------------------
  // Quiet merges.

  /** Objects that are not of the capability merged into. */
  predicate Other(b: Origin, x: Origin)
    requires !b.Of?
  {
    x.Of? || x.cap != b.cap
  }

  /** All other objects read as before. */
  ghost predicate OthersKept(l: Level, l': Level, b: Origin)
    requires Linked(l) && Linked(l') && !b.Of?
  {
    l'.cells.Keys == l.cells.Keys && forall x | x in l.cells && Other(b, x) :: ReadsSame(l, l', x)
  }

  ghost predicate ReadsSame(l: Level, l': Level, x: Origin)
    requires Linked(l) && Linked(l')
  {
    x in l.cells && x in l'.cells && Value(l', x) == Value(l, x) && FrameOf(l', x) == FrameOf(l, x)
  }

  lemma {:induction false} QuietKeeps(l: Level, b: Origin, o: Origin)
    requires Linked(l) && Separate(l) && b in l.cells && o in l.cells
    requires !b.Of? && (o.Of? || o.cap == b.cap) && QuietIn(l, b, o)
    ensures Linked(MergeIn(l, b, o)) && Separate(MergeIn(l, b, o)) && OthersKept(l, MergeIn(l, b, o), b)
    decreases l, 1
  {
    MergeIsMerge(l, b, o);
    var l' := MergeIn(l, b, o);
    forall k | k in l.below ensures Separate(l'.below[k]) && OthersKept(l.below[k], l'.below[k], b) {
      QuietBelow(l, b, o, k);
    }
    SeparateAfter(l, l', b, o);
    OthersAfter(l, l', b, o);
  }

  lemma {:induction false} QuietBelow(l: Level, b: Origin, o: Origin, k: string)
    requires Linked(l) && Separate(l) && b in l.cells && o in l.cells && k in l.below
    requires !b.Of? && (o.Of? || o.cap == b.cap) && QuietIn(l, b, o)
    ensures var below := MergedBelow(l, b, o, k);
            Linked(below) && Separate(below) && OthersKept(l.below[k], below, b)
    decreases l, 0
  {
    if BothSubs(l, b, o, k) {
      var y, z := l.cells[b][k].origin, l.cells[o][k].origin;
      assert QuietAt(l, b, o, k) && MayHold(b, y) && MayHold(o, z);
      if y.Of? {
        AbsorbedUnchanged(l.below[k], y, z);
      } else {
        QuietKeeps(l.below[k], y, z);
        OtherSame(l.below[k], MergedBelow(l, b, o, k), y, b);
      }
    }
  }

  lemma {:induction false} OtherSame(l: Level, l': Level, y: Origin, b: Origin)
    requires Linked(l) && Linked(l') && !y.Of? && !b.Of? && y.cap == b.cap && OthersKept(l, l', y)
    ensures OthersKept(l, l', b)
  {
    forall x | x in l.cells && Other(b, x) ensures ReadsSame(l, l', x) {
      assert Other(y, x);
    }
  }

  lemma {:induction false} OthersAfter(l: Level, l': Level, b: Origin, o: Origin)
    requires Linked(l) && Separate(l) && b in l.cells && o in l.cells && !b.Of? && IsMerge(l, l', b, o)
    requires forall k | k in l.below :: OthersKept(l.below[k], l'.below[k], b)
    ensures OthersKept(l, l', b)
  {
    forall x | x in l.cells && Other(b, x) ensures ReadsSame(l, l', x) {
      forall k | k in l.cells[x] ensures SubSame(l, l', x, k) {
        if l.cells[x][k].Sub? {
          assert MayHold(x, l.cells[x][k].origin) && Other(b, l.cells[x][k].origin);
          assert OthersKept(l.below[k], l'.below[k], b) && ReadsSame(l.below[k], l'.below[k], l.cells[x][k].origin);
        }
      }
      SameSubs(l, l', x);
    }
  }

  ghost predicate SubSame(l: Level, l': Level, x: Origin, k: string)
    requires Linked(l) && Linked(l') && x in l.cells && x in l'.cells && k in l.cells[x] && k in l'.cells[x]
  {
    && l'.cells[x][k] == l.cells[x][k]
    && (l.cells[x][k].Sub? ==>
          var y := l.cells[x][k].origin;
          Value(l'.below[k], y) == Value(l.below[k], y) && FrameOf(l'.below[k], y) == FrameOf(l.below[k], y))
  }

  /** An object whose slots are as before and whose objects read as before reads as before. */
  lemma {:induction false} SameSubs(l: Level, l': Level, x: Origin)
    requires Linked(l) && Linked(l') && x in l.cells && x in l'.cells && l'.cells[x] == l.cells[x]
    requires forall k | k in l.cells[x] :: SubSame(l, l', x, k)
    ensures Value(l', x) == Value(l, x) && FrameOf(l', x) == FrameOf(l, x)
  {
    forall k ensures At(Value(l', x).fields, k) == At(Value(l, x).fields, k)
             ensures At(FrameOf(l', x).fields, k) == At(FrameOf(l, x).fields, k)
    {
      FieldSame(l, l', x, k);
    }
    SameObjects(Value(l', x), Value(l, x));
    SameObjects(FrameOf(l', x), FrameOf(l, x));
  }

  lemma {:induction false} FieldSame(l: Level, l': Level, x: Origin, k: string)
    requires Linked(l) && Linked(l') && x in l.cells && x in l'.cells && l'.cells[x] == l.cells[x]
    requires k in l.cells[x] ==> SubSame(l, l', x, k)
    ensures At(Value(l', x).fields, k) == At(Value(l, x).fields, k)
    ensures At(FrameOf(l', x).fields, k) == At(FrameOf(l, x).fields, k)
  {
    FieldKind(l, x, k);
    FieldKind(l', x, k);
  }

  lemma {:induction false} SeparateAfter(l: Level, l': Level, b: Origin, o: Origin)
    requires Linked(l) && Separate(l) && b in l.cells && o in l.cells && !b.Of? && (o.Of? || o.cap == b.cap)
    requires IsMerge(l, l', b, o) && forall k | k in l.below :: Separate(l'.below[k])
    ensures Separate(l')
  {
    forall x, k | x in l'.cells && k in l'.cells[x] && l'.cells[x][k].Sub? ensures MayHold(x, l'.cells[x][k].origin) {
      if x == b {
        assert SlotAt(l', b, k) == SlotAt(l, o, k) || SlotAt(l', b, k) == SlotAt(l, b, k);
      }
    }
    forall k, x | k in l'.below && x in l'.below[k].cells && x.Of? ensures Hangs(l', k, x) {
      assert Hangs(l, k, x);
    }
  }

  /** The capability's own nesting after a resource is merged in. */
  lemma {:induction false} FrameAfter(l: Level, b: Origin, o: Origin)
    requires Linked(l) && Separate(l) && b in l.cells && o in l.cells && !b.Of? && o.Of?
    ensures Linked(MergeIn(l, b, o)) && b in MergeIn(l, b, o).cells
    ensures FrameOf(MergeIn(l, b, o), b) == Prune(FrameOf(l, b), Value(l, o))
    decreases l
  {
    var l' := MergeIn(l, b, o);
    MergeIsMerge(l, b, o);
    forall k ensures At(FrameOf(l', b).fields, k) == At(Prune(FrameOf(l, b), Value(l, o)).fields, k) {
      if BothSubs(l, b, o, k) && !l.cells[b][k].origin.Of? {
        assert MayHold(o, l.cells[o][k].origin);
        FrameAfter(l.below[k], l.cells[b][k].origin, l.cells[o][k].origin);
      }
      FrameField(l, l', b, o, k);
    }
    SameObjects(FrameOf(l', b), Prune(FrameOf(l, b), Value(l, o)));
  }

  lemma {:induction false} FrameField(l: Level, l': Level, b: Origin, o: Origin, k: string)
    requires Linked(l) && Separate(l) && b in l.cells && o in l.cells && !b.Of? && o.Of? && IsMerge(l, l', b, o)
    requires BothSubs(l, b, o, k) && !l.cells[b][k].origin.Of? ==>
               var y, z := l.cells[b][k].origin, l.cells[o][k].origin;
               FrameOf(l'.below[k], y) == Prune(FrameOf(l.below[k], y), Value(l.below[k], z))
    ensures At(FrameOf(l', b).fields, k) == At(Prune(FrameOf(l, b), Value(l, o)).fields, k)
  {
    FieldKind(l, o, k);
    PruneField(FrameOf(l, b), Value(l, o), k);
    assert SlotAt(l', b, k) == if k in l.cells[o] && !BothSubs(l, b, o, k) then SlotAt(l, o, k) else SlotAt(l, b, k);
    if k in l.cells[o] && l.cells[o][k].Sub? {
      assert MayHold(o, l.cells[o][k].origin);
    }
  }

  lemma {:induction false} PruneField(s: Json, r: Json, k: string)
    requires s.Object? && r.Object?
    ensures At(Prune(s, r).fields, k)
         == if k in s.fields && !(k in r.fields && r.fields[k].Leaf?) then
              Some(if k in r.fields then Prune(s.fields[k], r.fields[k]) else s.fields[k])
            else None
  {
  }
}
