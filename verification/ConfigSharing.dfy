/**
 * Layered configuration when nested objects are shared, as the code shares them (apps/marvins/config_assembly.py):
 * merging stores the override's own nested objects, and later merges change them in place.
 */
module ConfigSharing {
  import opened Basics
  import opened ConfigAssembly

  /** The tree an object was read from, or the new object made for a capability. */
  datatype Origin = Reported(cap: string) | Overriding(cap: string) | Root(cap: string) | Of(resource: nat)

  datatype Slot = Scalar(text: string) | Sub(origin: Origin)

  type Cell = map<string, Slot>

  /**
   * All objects at one path, by origin, and below each key those at the longer path. Merging moves an object only
   * to the path it already has, so key and origin name it.
   */
  datatype Level = Level(cells: map<Origin, Cell>, below: map<string, Level>)

  /** Every object that is referred to exists. */
  ghost predicate Linked(l: Level) {
    && (forall x, k | x in l.cells && k in l.cells[x] && l.cells[x][k].Sub? ::
          k in l.below && l.cells[x][k].origin in l.below[k].cells)
    && (forall k | k in l.below :: Linked(l.below[k]))
  }

  /** What one reads from an object. */
  function Value(l: Level, x: Origin): Json
    requires Linked(l) && x in l.cells
    decreases l, 1
  {
    Object(map k | k in l.cells[x] :: SlotValue(l, x, k))
  }

  function SlotValue(l: Level, x: Origin, k: string): Json
    requires Linked(l) && x in l.cells && k in l.cells[x]
    decreases l, 0
  {
    match l.cells[x][k]
    case Scalar(text) => Leaf(text)
    case Sub(y) => Value(l.below[k], y)
  }

  lemma {:induction false} FieldKind(l: Level, x: Origin, k: string)
    requires Linked(l) && x in l.cells
    ensures k in Value(l, x).fields <==> k in l.cells[x]
    ensures k in l.cells[x] ==> Value(l, x).fields[k] == SlotValue(l, x, k)
    ensures k in l.cells[x] ==> (SlotValue(l, x, k).Object? <==> l.cells[x][k].Sub?)
  {
  }

  // ---------------------------------------------------------------------------------------------
  // Merging in place.

  predicate BothSubs(l: Level, b: Origin, o: Origin, k: string)
    requires b in l.cells && o in l.cells
  {
    k in l.cells[o] && l.cells[o][k].Sub? && k in l.cells[b] && l.cells[b][k].Sub?
  }

  /** The merge of the given keys: where both hold objects these are merged, elsewhere the override's slot is stored. */
  function MergeKeys(l: Level, b: Origin, o: Origin, keys: set<string>): Level
    requires Linked(l) && b in l.cells && o in l.cells
    decreases l, 0
  {
    Level(
      l.cells[b := map k | k in l.cells[b].Keys + l.cells[o].Keys * keys ::
                     if k in keys && k in l.cells[o] && !BothSubs(l, b, o, k) then l.cells[o][k] else l.cells[b][k]],
      map k | k in l.below ::
        if k in keys && BothSubs(l, b, o, k) then MergeIn(l.below[k], l.cells[b][k].origin, l.cells[o][k].origin)
        else l.below[k])
  }

  function MergeIn(l: Level, b: Origin, o: Origin): Level
    requires Linked(l) && b in l.cells && o in l.cells
    decreases l, 1
  {
    MergeKeys(l, b, o, l.cells[o].Keys)
  }

  /** What is stored was referred to before. */
  lemma {:induction false} MergedLinksExist(l: Level, b: Origin, o: Origin, keys: set<string>, l': Level)
    requires Linked(l) && b in l.cells && o in l.cells && l' == MergeKeys(l, b, o, keys)
    requires forall k | k in l.below :: l'.below[k].cells.Keys == l.below[k].cells.Keys
    ensures forall x, k | x in l'.cells && k in l'.cells[x] && l'.cells[x][k].Sub? ::
              k in l'.below && l'.cells[x][k].origin in l'.below[k].cells
  {
  }

  lemma {:induction false} MergeLinks(l: Level, b: Origin, o: Origin, keys: set<string>)
    requires Linked(l) && b in l.cells && o in l.cells
    ensures var l' := MergeKeys(l, b, o, keys);
            Linked(l') && l'.cells.Keys == l.cells.Keys && l'.below.Keys == l.below.Keys
    ensures forall x | x in l.cells && x != b :: MergeKeys(l, b, o, keys).cells[x] == l.cells[x]
    decreases l
  {
    var l' := MergeKeys(l, b, o, keys);
    forall k | k in l.below ensures Linked(l'.below[k]) && l'.below[k].cells.Keys == l.below[k].cells.Keys {
      if k in keys && BothSubs(l, b, o, k) {
        var y, z := l.cells[b][k].origin, l.cells[o][k].origin;
        MergeLinks(l.below[k], y, z, l.below[k].cells[z].Keys);
      }
    }
    MergedLinksExist(l, b, o, keys, l');
  }

  function SlotAt(l: Level, x: Origin, k: string): Option<Slot> {
    if x in l.cells && k in l.cells[x] then Some(l.cells[x][k]) else None
  }

  /** What is below a key after the merge. */
  function MergedBelow(l: Level, b: Origin, o: Origin, k: string): Level
    requires Linked(l) && b in l.cells && o in l.cells && k in l.below
  {
    if BothSubs(l, b, o, k) then MergeIn(l.below[k], l.cells[b][k].origin, l.cells[o][k].origin) else l.below[k]
  }

  /** One level of a merge, key by key. */
  ghost predicate IsMerge(l: Level, l': Level, b: Origin, o: Origin)
    requires Linked(l) && b in l.cells && o in l.cells
  {
    && Linked(l') && l'.cells.Keys == l.cells.Keys && l'.below.Keys == l.below.Keys
    && (forall x | x in l.cells && x != b :: l'.cells[x] == l.cells[x])
    && (forall k ::
          SlotAt(l', b, k) == if k in l.cells[o] && !BothSubs(l, b, o, k) then SlotAt(l, o, k) else SlotAt(l, b, k))
    && (forall k | k in l.below ::
          l'.below[k] == MergedBelow(l, b, o, k) && l'.below[k].cells.Keys == l.below[k].cells.Keys)
  }

  lemma {:induction false} MergeIsMerge(l: Level, b: Origin, o: Origin)
    requires Linked(l) && b in l.cells && o in l.cells
    ensures IsMerge(l, MergeIn(l, b, o), b, o)
  {
    MergeLinks(l, b, o, l.cells[o].Keys);
    forall k | k in l.below ensures MergedBelow(l, b, o, k).cells.Keys == l.below[k].cells.Keys {
      if BothSubs(l, b, o, k) {
        var y, z := l.cells[b][k].origin, l.cells[o][k].origin;
        MergeLinks(l.below[k], y, z, l.below[k].cells[z].Keys);
      }
    }
  }

  /** The object merged into always reads as the merge of the values. */
  lemma {:induction false} MergeShowsPut(l: Level, b: Origin, o: Origin)
    requires Linked(l) && b in l.cells && o in l.cells
    ensures Linked(MergeIn(l, b, o)) && b in MergeIn(l, b, o).cells
    ensures Value(MergeIn(l, b, o), b) == Put(Some(Value(l, b)), Value(l, o))
    decreases l
  {
    MergeLinks(l, b, o, l.cells[o].Keys);
    forall k ensures At(Value(MergeIn(l, b, o), b).fields, k) == At(Put(Some(Value(l, b)), Value(l, o)).fields, k) {
      if BothSubs(l, b, o, k) {
        MergeShowsPut(l.below[k], l.cells[b][k].origin, l.cells[o][k].origin);
      }
      MergedField(l, b, o, k);
      PutField(l, b, o, k);
    }
    SameObjects(Value(MergeIn(l, b, o), b), Put(Some(Value(l, b)), Value(l, o)));
  }

  lemma {:induction false} SameObjects(a: Json, c: Json)
    requires a.Object? && c.Object? && forall k :: At(a.fields, k) == At(c.fields, k)
    ensures a == c
  {
    SameFields(a.fields, c.fields);
  }

  /** The merge of the values at one key. */
  lemma {:induction false} PutField(l: Level, b: Origin, o: Origin, k: string)
    requires Linked(l) && b in l.cells && o in l.cells
    ensures At(Put(Some(Value(l, b)), Value(l, o)).fields, k)
         == if BothSubs(l, b, o, k) then
              Some(Put(Some(Value(l.below[k], l.cells[b][k].origin)), Value(l.below[k], l.cells[o][k].origin)))
            else if k in l.cells[o] then At(Value(l, o).fields, k)
            else At(Value(l, b).fields, k)
  {
    PutAt(Value(l, b).fields, Value(l, o).fields, k);
    if k in l.cells[o] {
      PutSlots(if k in l.cells[b] then Some(SlotValue(l, b, k)) else None, SlotValue(l, o, k));
    }
  }

  lemma {:induction false} PutSlots(base: Option<Json>, override: Json)
    ensures override.Leaf? || base.None? || base.value.Leaf? ==> Put(base, override) == override
  {
  }

  /** The merge read at one key. */
  lemma {:induction false} MergedField(l: Level, b: Origin, o: Origin, k: string)
    requires Linked(l) && b in l.cells && o in l.cells && Linked(MergeIn(l, b, o)) && b in MergeIn(l, b, o).cells
    requires BothSubs(l, b, o, k) ==>
               var y, z := l.cells[b][k].origin, l.cells[o][k].origin;
               Linked(MergeIn(l.below[k], y, z)) && y in MergeIn(l.below[k], y, z).cells
    ensures At(Value(MergeIn(l, b, o), b).fields, k)
         == if BothSubs(l, b, o, k) then
              Some(Value(MergeIn(l.below[k], l.cells[b][k].origin, l.cells[o][k].origin), l.cells[b][k].origin))
            else if k in l.cells[o] then At(Value(l, o).fields, k)
            else At(Value(l, b).fields, k)
  {
  }

  // ---------------------------------------------------------------------------------------------
  // Merges that add nothing.

  /** Everything in `c` is already in `a`. */
  predicate Absorbs(a: Json, c: Json)
    decreases c
  {
    if a.Object? && c.Object? then forall k | k in c.fields :: k in a.fields && Absorbs(a.fields[k], c.fields[k])
    else a == c
  }

  lemma {:induction false} AbsorbsSelf(a: Json)
    ensures Absorbs(a, a)
    decreases a
  {
    if a.Object? {
      forall k | k in a.fields ensures Absorbs(a.fields[k], a.fields[k]) {
        AbsorbsSelf(a.fields[k]);
      }
    }
  }

  lemma {:induction false} AbsorbsExactly(a: Json, c: Json)
    ensures Put(Some(a), c) == a <==> Absorbs(a, c)
    decreases c
  {
    if a.Object? && c.Object? {
      var put := Put(Some(a), c).fields;
      forall k
        ensures At(put, k) == At(a.fields, k) <==>
                  (k in c.fields ==> k in a.fields && Absorbs(a.fields[k], c.fields[k]))
      {
        PutAt(a.fields, c.fields, k);
        if k in a.fields && k in c.fields {
          AbsorbsExactly(a.fields[k], c.fields[k]);
        }
      }
      if Absorbs(a, c) {
        SameFields(put, a.fields);
      } else {
        var k :| k in c.fields && !(k in a.fields && Absorbs(a.fields[k], c.fields[k]));
        assert At(put, k) != At(a.fields, k);
      }
    }
  }

  /** What absorbing means at one key. */
  lemma {:induction false} AbsorbsAt(l: Level, b: Origin, o: Origin, k: string)
    requires Linked(l) && b in l.cells && o in l.cells && Absorbs(Value(l, b), Value(l, o)) && k in l.cells[o]
    ensures k in l.cells[b] && (BothSubs(l, b, o, k) || l.cells[o][k] == l.cells[b][k])
    ensures BothSubs(l, b, o, k) ==>
              Absorbs(Value(l.below[k], l.cells[b][k].origin), Value(l.below[k], l.cells[o][k].origin))
  {
    FieldKind(l, b, k);
    FieldKind(l, o, k);
    AbsorbsField(Value(l, b), Value(l, o), k);
    AbsorbsSlots(SlotValue(l, b, k), SlotValue(l, o, k));
  }

  lemma {:induction false} AbsorbsField(a: Json, c: Json, k: string)
    requires a.Object? && c.Object? && Absorbs(a, c) && k in c.fields
    ensures k in a.fields && Absorbs(a.fields[k], c.fields[k])
  {
  }

  lemma {:induction false} AbsorbsSlots(a: Json, c: Json)
    requires Absorbs(a, c)
    ensures (a.Object? && c.Object?) || a == c
  {
  }

  /** Such a merge leaves every object as it is. */
  lemma {:induction false} AbsorbedUnchanged(l: Level, b: Origin, o: Origin)
    requires Linked(l) && b in l.cells && o in l.cells && Absorbs(Value(l, b), Value(l, o))
    ensures MergeIn(l, b, o) == l
    decreases l
  {
    forall k | k in l.cells[o] ensures k in l.cells[b] && (BothSubs(l, b, o, k) || l.cells[o][k] == l.cells[b][k]) {
      AbsorbsAt(l, b, o, k);
    }
    forall k | k in l.below && BothSubs(l, b, o, k)
      ensures MergeIn(l.below[k], l.cells[b][k].origin, l.cells[o][k].origin) == l.below[k]
    {
      AbsorbsAt(l, b, o, k);
      AbsorbedUnchanged(l.below[k], l.cells[b][k].origin, l.cells[o][k].origin);
    }
    SameSlots(l, b, o);
    SameBelow(l, b, o);
  }

  lemma {:induction false} SameSlots(l: Level, b: Origin, o: Origin)
    requires Linked(l) && b in l.cells && o in l.cells
    requires forall k | k in l.cells[o] :: k in l.cells[b] && (BothSubs(l, b, o, k) || l.cells[o][k] == l.cells[b][k])
    ensures MergeIn(l, b, o).cells == l.cells
  {
    MergeLinks(l, b, o, l.cells[o].Keys);
    assert MergeIn(l, b, o).cells[b] == l.cells[b];
  }

  lemma {:induction false} SameBelow(l: Level, b: Origin, o: Origin)
    requires Linked(l) && b in l.cells && o in l.cells
    requires forall k | k in l.below && BothSubs(l, b, o, k) ::
               MergeIn(l.below[k], l.cells[b][k].origin, l.cells[o][k].origin) == l.below[k]
    ensures MergeIn(l, b, o).below == l.below
  {
  }
}
