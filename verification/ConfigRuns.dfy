/** Injecting resources one after another into shared objects (apps/marvins/config_assembly.py). */
module ConfigRuns {
  import opened Basics
  import opened ConfigAssembly
  import opened ConfigSharing
  import opened ConfigOwnership
  import opened ConfigLeaks

  // ---------------------------------------------------------------------------------------------
  // The resource phase.

  /** Merges into a capability there is. */
  ghost function MergeCap(l: Level, c: string, o: Origin): Level {
    if Linked(l) && Root(c) in l.cells && o in l.cells then MergeIn(l, Root(c), o) else l
  }

  /** Merges a resource into the capabilities named. */
  ghost function Inject(l: Level, names: seq<string>, n: nat): Level {
    if names == [] then l else MergeCap(Inject(l, names[..|names|-1], n), names[|names|-1], Of(n))
  }

  ghost function InjectAll(l: Level, resources: seq<Resource>): Level {
    if resources == [] then l
    else
      var n := |resources| - 1;
      Inject(InjectAll(l, resources[..n]), resources[n].capabilityNames, n)
  }

  /** The capabilities read as `v` with own nestings `s`, and the resources as `rs`. */
  ghost predicate Shown(l: Level, v: map<string, Json>, s: map<string, Json>, rs: seq<Json>) {
    Linked(l) && Separate(l) && ShowsCapabilities(l, v, s) && ShowsResources(l, rs)
  }

  ghost predicate ShowsCapabilities(l: Level, v: map<string, Json>, s: map<string, Json>)
    requires Linked(l)
  {
    && v.Keys == s.Keys
    && (forall c :: Root(c) in l.cells <==> c in v)
    && (forall c | c in v :: Reads(l, Root(c), v[c], s[c]))
  }

  ghost predicate ShowsResources(l: Level, rs: seq<Json>)
    requires Linked(l)
  {
    && (forall i: nat :: Of(i) in l.cells <==> i < |rs|)
    && (forall i | 0 <= i < |rs| :: Value(l, Of(i)) == rs[i])
  }

  ghost predicate Reads(l: Level, x: Origin, v: Json, s: Json)
    requires Linked(l)
  {
    x in l.cells && Value(l, x) == v && FrameOf(l, x) == s
  }

  lemma {:induction false} MergeShown(l: Level, v: map<string, Json>, s: map<string, Json>, rs: seq<Json>,
                                      c: string, n: nat)
    requires Shown(l, v, s, rs) && c in v && n < |rs| && Quiet(v[c], s[c], rs[n])
    ensures Shown(MergeIn(l, Root(c), Of(n)), v[c := Put(Some(v[c]), rs[n])], s[c := Prune(s[c], rs[n])], rs)
  {
    QuietExactly(l, Root(c), Of(n));
    QuietKeeps(l, Root(c), Of(n));
    MergeShowsPut(l, Root(c), Of(n));
    FrameAfter(l, Root(c), Of(n));
    assert Reads(l, Root(c), v[c], s[c]);
    KeptShown(l, MergeIn(l, Root(c), Of(n)), v, s, rs, c, Put(Some(v[c]), rs[n]), Prune(s[c], rs[n]));
  }

  lemma {:induction false} KeptShown(l: Level, l': Level, v: map<string, Json>, s: map<string, Json>, rs: seq<Json>,
                                     c: string, vc: Json, sc: Json)
    requires Shown(l, v, s, rs) && c in v && Linked(l') && Separate(l') && OthersKept(l, l', Root(c)) &&
             Reads(l', Root(c), vc, sc)
    ensures Shown(l', v[c := vc], s[c := sc], rs)
  {
    KeptCapabilities(l, l', v, s, c, vc, sc);
    KeptResources(l, l', rs, Root(c));
  }

  lemma {:induction false} KeptCapabilities(l: Level, l': Level, v: map<string, Json>, s: map<string, Json>, c: string,
                                            vc: Json, sc: Json)
    requires Linked(l) && Linked(l') && ShowsCapabilities(l, v, s) && c in v
    requires OthersKept(l, l', Root(c)) && Reads(l', Root(c), vc, sc)
    ensures ShowsCapabilities(l', v[c := vc], s[c := sc])
  {
    RootsKept(l, l', v, s, c);
    KeptReads(l, l', v, s, c, vc, sc);
  }

  lemma {:induction false} KeptReads(l: Level, l': Level, v: map<string, Json>, s: map<string, Json>, c: string,
                                     vc: Json, sc: Json)
    requires Linked(l) && Linked(l') && ShowsCapabilities(l, v, s) && c in v
    requires OthersKept(l, l', Root(c)) && Reads(l', Root(c), vc, sc)
    ensures forall d | d in v :: Reads(l', Root(d), v[c := vc][d], s[c := sc][d])
  {
    forall d | d in v ensures Reads(l', Root(d), v[c := vc][d], s[c := sc][d]) {
      KeptCapability(l, l', v, s, c, vc, sc, d);
    }
  }

  lemma {:induction false} RootsKept(l: Level, l': Level, v: map<string, Json>, s: map<string, Json>, c: string)
    requires Linked(l) && Linked(l') && ShowsCapabilities(l, v, s) && c in v && OthersKept(l, l', Root(c))
    requires Root(c) in l'.cells
    ensures forall d :: Root(d) in l'.cells <==> d in v
  {
    forall d ensures Root(d) in l'.cells <==> d in v {
      assert Root(d) in l.cells <==> d in v;
    }
  }

  lemma {:induction false} KeptCapability(l: Level, l': Level, v: map<string, Json>, s: map<string, Json>, c: string,
                                          vc: Json, sc: Json, d: string)
    requires Linked(l) && Linked(l') && ShowsCapabilities(l, v, s) && c in v && d in v
    requires OthersKept(l, l', Root(c)) && Reads(l', Root(c), vc, sc)
    ensures Reads(l', Root(d), v[c := vc][d], s[c := sc][d])
  {
    if d != c {
      assert Reads(l, Root(d), v[d], s[d]);
      ReadsKept(l, l', Root(c), Root(d), v[d], s[d]);
    }
  }

  lemma {:induction false} ReadsKept(l: Level, l': Level, b: Origin, x: Origin, v: Json, s: Json)
    requires Linked(l) && Linked(l') && !b.Of? && OthersKept(l, l', b) && Other(b, x) && Reads(l, x, v, s)
    ensures Reads(l', x, v, s)
  {
    assert ReadsSame(l, l', x);
  }

  lemma {:induction false} KeptResources(l: Level, l': Level, rs: seq<Json>, b: Origin)
    requires Linked(l) && Linked(l') && !b.Of? && OthersKept(l, l', b) && ShowsResources(l, rs)
    ensures ShowsResources(l', rs)
  {
    forall i | 0 <= i < |rs| ensures Value(l', Of(i)) == rs[i] {
      assert Other(b, Of(i)) && ReadsSame(l, l', Of(i));
    }
  }

  /** Everything the same value has been merged into absorbs it. */
  lemma {:induction false} AbsorbingIsQuiet(v: Json, s: Json, r: Json)
    requires Absorbs(v, r)
    ensures Quiet(v, s, r)
    decreases r
  {
    if v.Object? && s.Object? && r.Object? {
      forall k | k in r.fields && k in v.fields && v.fields[k].Object? && r.fields[k].Object?
        ensures if k in s.fields then Quiet(v.fields[k], s.fields[k], r.fields[k])
                else Absorbs(v.fields[k], r.fields[k])
      {
        AbsorbsField(v, r, k);
        if k in s.fields {
          AbsorbingIsQuiet(v.fields[k], s.fields[k], r.fields[k]);
        }
      }
    }
  }

  lemma {:induction false} PruneTwice(s: Json, r: Json)
    ensures Prune(Prune(s, r), r) == Prune(s, r)
    decreases s
  {
    if s.Object? && r.Object? {
      var once := Prune(s, r);
      forall k ensures At(Prune(once, r).fields, k) == At(once.fields, k) {
        PruneField(s, r, k);
        PruneField(once, r, k);
        if k in s.fields && k in r.fields {
          PruneTwice(s.fields[k], r.fields[k]);
        }
      }
      SameObjects(Prune(once, r), once);
    }
  }

  /** Merging the same resource again is quiet and changes nothing. */
  lemma {:induction false} MergeAgain(v: Json, s: Json, r: Json)
    ensures var v', s' := Put(Some(v), r), Prune(s, r);
            Quiet(v', s', r) && Put(Some(v'), r) == v' && Prune(s', r) == s'
  {
    PutTwice(Some(v), r);
    AbsorbsExactly(Put(Some(v), r), r);
    AbsorbingIsQuiet(Put(Some(v), r), Prune(s, r), r);
    PruneTwice(s, r);
  }

  function Merged(v: map<string, Json>, names: seq<string>, r: Json): map<string, Json> {
    map c | c in v :: if c in names then Put(Some(v[c]), r) else v[c]
  }

  function Pruned(s: map<string, Json>, names: seq<string>, r: Json): map<string, Json> {
    map c | c in s :: if c in names then Prune(s[c], r) else s[c]
  }

  ghost predicate QuietFor(v: map<string, Json>, s: map<string, Json>, names: seq<string>, r: Json) {
    forall c | c in names && c in v && c in s :: Quiet(v[c], s[c], r)
  }

  lemma {:induction false} InjectQuiet(l: Level, v: map<string, Json>, s: map<string, Json>, rs: seq<Json>,
                                       names: seq<string>, n: nat)
    requires Shown(l, v, s, rs) && n < |rs| && QuietFor(v, s, names, rs[n])
    ensures Shown(Inject(l, names, n), Merged(v, names, rs[n]), Pruned(s, names, rs[n]), rs)
  {
    if names == [] {
      assert Merged(v, names, rs[n]) == v && Pruned(s, names, rs[n]) == s;
    } else {
      var init, c := names[..|names|-1], names[|names|-1];
      assert names == init + [c];
      InjectQuiet(l, v, s, rs, init, n);
      InjectOne(Inject(l, init, n), v, s, rs, init, c, n);
    }
  }

  lemma {:induction false} InjectOne(l1: Level, v: map<string, Json>, s: map<string, Json>, rs: seq<Json>,
                                     init: seq<string>, c: string, n: nat)
    requires v.Keys == s.Keys && n < |rs| && (c in v ==> Quiet(v[c], s[c], rs[n]))
    requires Shown(l1, Merged(v, init, rs[n]), Pruned(s, init, rs[n]), rs)
    ensures Shown(MergeCap(l1, c, Of(n)), Merged(v, init + [c], rs[n]), Pruned(s, init + [c], rs[n]), rs)
  {
    var v1, s1 := Merged(v, init, rs[n]), Pruned(s, init, rs[n]);
    if c in v {
      MergeAgain(v[c], s[c], rs[n]);
      MergedSnoc(v, s, init, c, rs[n]);
      MergeShown(l1, v1, s1, rs, c, n);
    } else {
      MergedAway(v, s, init, c, rs[n]);
    }
  }

  /** A name that is no capability changes nothing. */
  lemma {:induction false} MergedAway(v: map<string, Json>, s: map<string, Json>, init: seq<string>, c: string, r: Json)
    requires v.Keys == s.Keys && c !in v
    ensures Merged(v, init + [c], r) == Merged(v, init, r) && Pruned(s, init + [c], r) == Pruned(s, init, r)
  {
  }

  lemma {:induction false} MergedSnoc(v: map<string, Json>, s: map<string, Json>, init: seq<string>, c: string, r: Json)
    requires v.Keys == s.Keys && c in v
    ensures var v1, s1 := Merged(v, init, r), Pruned(s, init, r);
            && Merged(v, init + [c], r) == v1[c := Put(Some(v1[c]), r)]
            && Pruned(s, init + [c], r) == s1[c := Prune(s1[c], r)]
  {
    MergeAgain(v[c], s[c], r);
  }

  // ---------------------------------------------------------------------------------------------
  // A merge that is not quiet.

  /** Some resource reads differently, and resource `n` can only go on to leave that so. */
  ghost predicate Leaked(l: Level, rs: seq<Json>, n: nat) {
    && Linked(l) && Of(n) in l.cells && OwnSubs(l, Of(n))
    && exists i :: 0 <= i < |rs| && Differs(l, Of(i), Of(n), rs[i])
  }

  lemma {:induction false} OwnStays(l: Level, b: Origin, y: Origin)
    requires Linked(l) && b in l.cells && y in l.cells && OwnSubs(l, y)
    ensures OwnSubs(MergeIn(l, b, y), y)
    decreases l
  {
    MergeIsMerge(l, b, y);
    var l' := MergeIn(l, b, y);
    forall k | k in l'.cells[y] && l'.cells[y][k].Sub? ensures l'.cells[y][k].origin == y {
      assert SlotAt(l', y, k) == SlotAt(l, y, k);
    }
    forall k | k in l'.below ensures OwnSubs(l'.below[k], y) {
      if BothSubs(l, b, y, k) {
        OwnStays(l.below[k], l.cells[b][k].origin, y);
      }
    }
  }

  lemma {:induction false} LeakStays(l: Level, rs: seq<Json>, n: nat, c: string)
    requires Leaked(l, rs, n)
    ensures Leaked(MergeCap(l, c, Of(n)), rs, n)
  {
    if Root(c) in l.cells {
      var i :| 0 <= i < |rs| && Differs(l, Of(i), Of(n), rs[i]);
      DiffersStays(l, Of(i), Of(n), rs[i], Root(c));
      OwnStays(l, Root(c), Of(n));
      MergeIsMerge(l, Root(c), Of(n));
    }
  }

  lemma {:induction false} LeakStarts(l: Level, v: map<string, Json>, s: map<string, Json>, rs: seq<Json>,
                                      c: string, n: nat)
    requires Shown(l, v, s, rs) && c in v && n < |rs| && !Quiet(v[c], s[c], rs[n])
    ensures Leaked(MergeIn(l, Root(c), Of(n)), rs, n)
  {
    QuietExactly(l, Root(c), Of(n));
    var x := NoiseShows(l, Root(c), Of(n));
    MergeIsMerge(l, Root(c), Of(n));
    ResourcesOwn(l, Of(n));
    OwnStays(l, Root(c), Of(n));
    assert Of(x.resource) == x && Value(l, x) == rs[x.resource];
  }

  lemma {:induction false} InjectNoisy(l: Level, v: map<string, Json>, s: map<string, Json>, rs: seq<Json>,
                                       names: seq<string>, n: nat)
    requires Shown(l, v, s, rs) && n < |rs| && !QuietFor(v, s, names, rs[n])
    ensures Leaked(Inject(l, names, n), rs, n)
  {
    var init, c := names[..|names|-1], names[|names|-1];
    assert names == init + [c];
    if QuietFor(v, s, init, rs[n]) {
      InjectQuiet(l, v, s, rs, init, n);
      assert c in v && !Quiet(v[c], s[c], rs[n]) && c !in init;
      LeakStarts(Inject(l, init, n), Merged(v, init, rs[n]), Pruned(s, init, rs[n]), rs, c, n);
    } else {
      InjectNoisy(l, v, s, rs, init, n);
      LeakStays(Inject(l, init, n), rs, n, c);
    }
  }

  lemma {:induction false} LeakShows(l: Level, rs: seq<Json>, n: nat)
    requires Leaked(l, rs, n)
    ensures exists i :: 0 <= i < |rs| && Of(i) in l.cells && Value(l, Of(i)) != rs[i]
  {
    var i :| 0 <= i < |rs| && Differs(l, Of(i), Of(n), rs[i]);
    DiffersShows(l, Of(i), Of(n), rs[i]);
  }
}
