/** Merges that are not quiet show: some resource's configuration reads differently from then on. */
module ConfigLeaks {
  import opened Basics
  import opened ConfigAssembly
  import opened ConfigSharing
  import opened ConfigOwnership

  /** The object tree of an origin is its own throughout. */
  ghost predicate OwnSubs(l: Level, x: Origin) {
    && (forall k | x in l.cells && k in l.cells[x] && l.cells[x][k].Sub? :: l.cells[x][k].origin == x)
    && (forall k | k in l.below :: OwnSubs(l.below[k], x))
  }

  lemma {:induction false} ResourcesOwn(l: Level, x: Origin)
    requires Separate(l) && x.Of?
    ensures OwnSubs(l, x)
    decreases l
  {
    forall k | x in l.cells && k in l.cells[x] && l.cells[x][k].Sub? ensures l.cells[x][k].origin == x {
      assert MayHold(x, l.cells[x][k].origin);
    }
    forall k | k in l.below ensures OwnSubs(l.below[k], x) {
      ResourcesOwn(l.below[k], x);
    }
  }

  /** At the key the object of `x` has taken over the slot of `y`, and its original value `v` was different there. */
  predicate TookOver(l: Level, x: Origin, y: Origin, v: Json, k: string)
    requires x in l.cells && y in l.cells && v.Object?
  {
    && k in l.cells[x] && k in l.cells[y] && l.cells[x][k] == l.cells[y][k]
    && match l.cells[y][k]
       case Scalar(text) => k !in v.fields || v.fields[k] != Leaf(text)
       case Sub(_) => k !in v.fields || v.fields[k].Leaf?
  }

  /** Somewhere along the objects that `x` and `y` both have. */
  ghost predicate Differs(l: Level, x: Origin, y: Origin, v: Json)
    decreases l
  {
    x in l.cells && y in l.cells && v.Object? && exists k :: DiffersAt(l, x, y, v, k)
  }

  ghost predicate DiffersAt(l: Level, x: Origin, y: Origin, v: Json, k: string)
    requires x in l.cells && y in l.cells && v.Object?
    decreases l, 0
  {
    || TookOver(l, x, y, v, k)
    || (Hangs(l, k, x) && Hangs(l, k, y) && k in v.fields && k in l.below && Differs(l.below[k], x, y, v.fields[k]))
  }

  lemma {:induction false} DiffersShows(l: Level, x: Origin, y: Origin, v: Json)
    requires Linked(l) && Differs(l, x, y, v)
    ensures Value(l, x) != v
    decreases l
  {
    var k :| DiffersAt(l, x, y, v, k);
    FieldKind(l, x, k);
    if !TookOver(l, x, y, v, k) {
      DiffersShows(l.below[k], x, y, v.fields[k]);
    }
  }

  /** Further merges of `y` into whatever object leave that so. */
  lemma {:induction false} DiffersStays(l: Level, x: Origin, y: Origin, v: Json, b: Origin)
    requires Linked(l) && OwnSubs(l, y) && Differs(l, x, y, v) && b in l.cells
    ensures Linked(MergeIn(l, b, y)) && Differs(MergeIn(l, b, y), x, y, v)
    decreases l
  {
    MergeIsMerge(l, b, y);
    var l' := MergeIn(l, b, y);
    var k :| DiffersAt(l, x, y, v, k);
    if b == y {
      AbsorbsSelf(Value(l, y));
      AbsorbedUnchanged(l, y, y);
    } else if TookOver(l, x, y, v, k) {
      StaysTaken(l, l', x, y, v, b, k);
    } else {
      assert Hangs(l, k, x) && Hangs(l, k, y);
      if BothSubs(l, b, y, k) {
        DiffersStays(l.below[k], x, y, v.fields[k], l.cells[b][k].origin);
      }
      StaysHung(l, l', x, y, b, k);
      assert DiffersAt(l', x, y, v, k);
    }
  }

  lemma {:induction false} StaysTaken(l: Level, l': Level, x: Origin, y: Origin, v: Json, b: Origin, k: string)
    requires Linked(l) && b in l.cells && x in l.cells && y in l.cells && b != y && IsMerge(l, l', b, y)
    requires v.Object? && TookOver(l, x, y, v, k)
    ensures DiffersAt(l', x, y, v, k)
  {
    assert SlotAt(l', b, k) == if k in l.cells[y] && !BothSubs(l, b, y, k) then SlotAt(l, y, k) else SlotAt(l, b, k);
    assert SlotAt(l', x, k) == SlotAt(l, x, k);
  }

  lemma {:induction false} StaysHung(l: Level, l': Level, x: Origin, y: Origin, b: Origin, k: string)
    requires Linked(l) && b in l.cells && y in l.cells && b != y && IsMerge(l, l', b, y)
    requires Hangs(l, k, x) && Hangs(l, k, y)
    ensures Hangs(l', k, x) && Hangs(l', k, y)
  {
    assert SlotAt(l', b, k) == if k in l.cells[y] && !BothSubs(l, b, y, k) then SlotAt(l, y, k) else SlotAt(l, b, k);
    assert SlotAt(l', x, k) == SlotAt(l, x, k);
  }

  /** Merging `y` into an object that does not have everything in it makes that object differ. */
  lemma {:induction false} MergeTakesOver(l: Level, x: Origin, y: Origin)
    requires Linked(l) && x in l.cells && y in l.cells && x != y && OwnSubs(l, x) && OwnSubs(l, y)
    requires !Absorbs(Value(l, x), Value(l, y))
    ensures Differs(MergeIn(l, x, y), x, y, Value(l, x))
    decreases l
  {
    MergeIsMerge(l, x, y);
    var l', v, w := MergeIn(l, x, y), Value(l, x), Value(l, y);
    var k :| k in w.fields && !(k in v.fields && Absorbs(v.fields[k], w.fields[k]));
    FieldKind(l, x, k);
    FieldKind(l, y, k);
    if BothSubs(l, x, y, k) {
      assert Hangs(l, k, x) && Hangs(l, k, y);
      MergeTakesOver(l.below[k], x, y);
      DifferenceRises(l, l', x, y, k, x);
    } else {
      TakesSlot(l, l', x, y, k);
      assert DiffersAt(l', x, y, v, k);
    }
  }

  lemma {:induction false} DifferenceRises(l: Level, l': Level, b: Origin, y: Origin, k: string, x: Origin)
    requires Linked(l) && b in l.cells && y in l.cells && b != y && IsMerge(l, l', b, y)
    requires k in l.below && x in l.below[k].cells && Hangs(l, k, x) && Hangs(l, k, y)
    requires Differs(l'.below[k], x, y, Value(l.below[k], x))
    ensures Differs(l', x, y, Value(l, x))
  {
    StaysHung(l, l', x, y, b, k);
    FieldKind(l, x, k);
    assert DiffersAt(l', x, y, Value(l, x), k);
  }

  lemma {:induction false} TakesSlot(l: Level, l': Level, x: Origin, y: Origin, k: string)
    requires Linked(l) && x in l.cells && y in l.cells && x != y && IsMerge(l, l', x, y)
    requires k in l.cells[y] && !BothSubs(l, x, y, k)
    requires !(k in l.cells[x] && Absorbs(SlotValue(l, x, k), SlotValue(l, y, k)))
    ensures TookOver(l', x, y, Value(l, x), k)
  {
    FieldKind(l, x, k);
    FieldKind(l, y, k);
    assert SlotAt(l', x, k) == SlotAt(l, y, k) == SlotAt(l', y, k);
  }

  /** A merge into a capability that is not quiet makes the object tree of some resource differ. */
  lemma {:induction false} NoiseShows(l: Level, b: Origin, o: Origin) returns (x: Origin)
    requires Linked(l) && Separate(l) && b in l.cells && o in l.cells && !b.Of? && o.Of? && !QuietIn(l, b, o)
    ensures x.Of? && x in l.cells && Differs(MergeIn(l, b, o), x, o, Value(l, x))
    decreases l
  {
    MergeIsMerge(l, b, o);
    var l' := MergeIn(l, b, o);
    var k :| !QuietAt(l, b, o, k);
    var y, z := l.cells[b][k].origin, l.cells[o][k].origin;
    assert MayHold(o, z) && MayHold(b, y);
    if y.Of? {
      x := y;
      if x == o {
        AbsorbsSelf(Value(l.below[k], o));
        assert false;
      }
      ResourcesOwn(l.below[k], x);
      ResourcesOwn(l.below[k], o);
      MergeTakesOver(l.below[k], x, o);
    } else {
      x := NoiseShows(l.below[k], y, z);
    }
    assert Hangs(l, k, x) && Hangs(l, k, o);
    DifferenceRises(l, l', b, o, k, x);
  }
}
