/** What a registration leaves behind, and when repeating it changes nothing. */
module RegistrationLaws {
  import opened Basics
  import opened CapabilityRows
  import opened Registration
  import opened Text
  import EmbeddingFreshness

  /** The document is that of the metadata, and the flag in step with the versions. */
  ghost predicate SavedRow(r: Row) {
    r.document == Document(r.meta) && (r.needsReEmbedding <==> r.version > r.embeddingVersion)
  }

  /** The manifest asks for no save. */
  predicate LeftAlone(r: Row, c: Manifest) {
    r.enabled && ChangedFields(r.meta, c) == {}
  }

  /** What a manifest makes of a row that it has to write. */
  function Updated(r: Row, c: Manifest): Row {
    var m := WithManifest(r.meta, c);
    var version := if Document(m) == r.document then r.version else r.version + 1;
    r.(meta := m, enabled := true, document := Document(m), version := version,
       needsReEmbedding := version > r.embeddingVersion)
  }

  lemma NothingChanged(m: Meta, c: Manifest)
    requires ChangedFields(m, c) == {}
    ensures WithManifest(m, c) == m
  {
    assert FDescription !in ChangedFields(m, c) && FSchema !in ChangedFields(m, c) && FUseCases !in ChangedFields(m, c)
        && FAliases !in ChangedFields(m, c) && FTags !in ChangedFields(m, c);
  }

  lemma WrittenMeta(m: Meta, c: Manifest, provider: string)
    ensures WriteMeta(m, WithManifest(m, c).(provider := provider), ChangedFields(m, c) + {FDocument, FVersion, FNeeds})
         == WithManifest(m, c)
  {
    var fields := ChangedFields(m, c) + {FDocument, FVersion, FNeeds};
    assert FName !in fields && FProvider !in fields;
    assert m.description == c.description || FDescription in fields;
    assert m.schema == c.schema || FSchema in fields;
    assert m.useCases == c.useCases || FUseCases in fields;
    assert m.aliases == c.aliases || FAliases in fields;
    assert m.tags == c.tags || FTags in fields;
  }

  /** What a manifest makes of any row. */
  function Resynced(r: Row, c: Manifest): Row {
    if LeftAlone(r, c) then r else Updated(r, c)
  }

  /** The first of the two saves. */
  lemma SavedChanges(r: Row, c: Manifest)
    ensures Saved(r, r.(meta := WithManifest(r.meta, c)), Some(ChangedFields(r.meta, c)))
         == Updated(r, c).(enabled := r.enabled)
  {
    var m := WithManifest(r.meta, c);
    WrittenMeta(r.meta, c, Provider(m));
  }

  /** The second save turns the row on, and brings its document up to date if the first did not. */
  lemma SavedEnabled(r: Row, instance: Row)
    requires Document(instance.meta) == Document(r.meta) && instance.document == r.document
    requires instance.version == r.version && instance.embeddingVersion == r.embeddingVersion
    ensures var version := if Document(r.meta) == r.document then r.version else r.version + 1;
            Saved(r, instance.(enabled := true), Some({FEnabled}))
            == r.(enabled := true, document := Document(r.meta), version := version,
                  needsReEmbedding := version > r.embeddingVersion)
  {
    var fields := {FEnabled} + {FDocument, FVersion, FNeeds};
    assert FName !in fields && FProvider !in fields && FDescription !in fields && FSchema !in fields
        && FUseCases !in fields && FAliases !in fields && FTags !in fields;
    assert WriteMeta(r.meta, instance.meta.(provider := Provider(instance.meta)), fields) == r.meta;
  }

  /**
   * Whatever is stored, a manifest leaves an enabled row with its metadata alone, stale document and all; any other row
   * it brings up to date.
   */
  lemma SyncedIsUpdated(r: Row, c: Manifest)
    ensures Synced(Some(r), c) == Resynced(r, c)
    ensures SavedRow(Synced(Some(r), c)) <==> SavedRow(r) || ChangedFields(r.meta, c) != {} || !r.enabled
  {
    var m, fields := WithManifest(r.meta, c), ChangedFields(r.meta, c);
    if fields == {} {
      NothingChanged(r.meta, c);
      SavedEnabled(r, r.(meta := m));
    } else {
      SavedChanges(r, c);
      ProviderOnce(m);
      SavedEnabled(Updated(r, c).(enabled := r.enabled), Refresh(r.(meta := m)));
    }
  }

  /** For a saved row it makes no difference. */
  lemma SavedIsUpdated(r: Row, c: Manifest)
    requires SavedRow(r)
    ensures Resynced(r, c) == Updated(r, c)
  {
    if LeftAlone(r, c) {
      NothingChanged(r.meta, c);
    }
  }

  lemma CreatedIsSaved(c: Manifest)
    ensures var r := Created(c);
            SavedRow(r) && r.enabled && r.meta.name == c.name && r.meta == WithManifest(r.meta, c) && r.embedding.None?
  {
    ProviderOnce(WithManifest(Meta(c.name, "", "", Schema([], ""), [], [], []), c));
  }

  // ---------------------------------------------------------------------------------------------
  // One capability through a whole manifest list.

  function EnabledFor(manifests: seq<Manifest>, name: string): seq<Manifest> {
    if manifests == [] then []
    else
      var rest, c := EnabledFor(manifests[..|manifests|-1], name), manifests[|manifests|-1];
      if c.enabled && c.name == name then rest + [c] else rest
  }

  lemma {:induction false} EnabledForMembers(manifests: seq<Manifest>, organization: string, name: string)
    ensures forall c :: c in EnabledFor(manifests, name) <==> c in manifests && c.enabled && c.name == name
    ensures EnabledFor(manifests, name) != [] <==> (organization, name) in EnabledKeys(organization, manifests)
  {
    if manifests != [] {
      EnabledForMembers(manifests[..|manifests|-1], organization, name);
      assert manifests == manifests[..|manifests|-1] + [manifests[|manifests|-1]];
    }
    var cs := EnabledFor(manifests, name);
    if cs != [] {
      assert cs[0] in cs;
    }
  }

  function Fold(r: Row, cs: seq<Manifest>): Row {
    if cs == [] then r else Resynced(Fold(r, cs[..|cs|-1]), cs[|cs|-1])
  }

  lemma {:induction false} FoldKeeps(r: Row, cs: seq<Manifest>)
    ensures Fold(r, cs).meta.name == r.meta.name && Fold(r, cs).meta.provider == r.meta.provider
    ensures Fold(r, cs).embeddingVersion == r.embeddingVersion && Fold(r, cs).embedding == r.embedding
            && Fold(r, cs).embeddingModel == r.embeddingModel
    ensures cs != [] ==> Fold(r, cs).enabled && Fold(r, cs).meta == WithManifest(r.meta, cs[|cs|-1])
  {
    if cs != [] {
      FoldKeeps(r, cs[..|cs|-1]);
      ResyncedKeeps(Fold(r, cs[..|cs|-1]), cs[|cs|-1]);
    }
  }

  lemma ResyncedKeeps(r: Row, c: Manifest)
    ensures Resynced(r, c).enabled && Resynced(r, c).meta == WithManifest(r.meta, c)
  {
    if LeftAlone(r, c) {
      NothingChanged(r.meta, c);
    }
  }

  ghost predicate AllLeave(r: Row, cs: seq<Manifest>) {
    forall i | 0 <= i < |cs| :: LeftAlone(r, cs[i])
  }

  /** A row is saved in the end, unless it was not and every manifest leaves it alone. */
  lemma {:induction false} FoldSavedExactly(r: Row, cs: seq<Manifest>)
    ensures SavedRow(Fold(r, cs)) <==> SavedRow(r) || !AllLeave(r, cs)
    ensures AllLeave(r, cs) ==> Fold(r, cs) == r
  {
    if cs != [] {
      var init, c := cs[..|cs|-1], cs[|cs|-1];
      FoldSavedExactly(r, init);
      ResyncedSaved(Fold(r, init), c);
      AllLeaveSnoc(r, cs);
    }
  }

  lemma ResyncedSaved(r: Row, c: Manifest)
    ensures SavedRow(Resynced(r, c)) <==> SavedRow(r) || !LeftAlone(r, c)
  {
  }

  lemma AllLeaveSnoc(r: Row, cs: seq<Manifest>)
    requires cs != []
    ensures AllLeave(r, cs) <==> AllLeave(r, cs[..|cs|-1]) && LeftAlone(r, cs[|cs|-1])
  {
    assert forall i | 0 <= i < |cs| - 1 :: cs[..|cs|-1][i] == cs[i];
  }

  /** The row a capability starts from: the stored one, or the one its first manifest creates. */
  function Base(rows: Rows, key: Key, cs: seq<Manifest>): Row
    requires cs != []
  {
    if key in rows then rows[key] else Created(cs[0])
  }

  lemma UpdatedCreated(c: Manifest)
    ensures Resynced(Created(c), c) == Created(c)
  {
    CreatedIsSaved(c);
  }

  /** The row of a key after a manifest list. */
  function After(rows: Rows, organization: string, manifests: seq<Manifest>, key: Key): Option<Row> {
    var cs := EnabledFor(manifests, key.1);
    if key.0 != organization || cs == [] then RowAt(rows, key) else Some(Fold(Base(rows, key, cs), cs))
  }

  lemma AfterOneMore(rows: Rows, organization: string, manifests: seq<Manifest>, key: Key)
    requires manifests != []
    ensures var init, c := manifests[..|manifests|-1], manifests[|manifests|-1];
            After(rows, organization, manifests, key)
            == if c.enabled && key == (organization, c.name) then Some(Synced(After(rows, organization, init, key), c))
               else After(rows, organization, init, key)
  {
    var init, c := manifests[..|manifests|-1], manifests[|manifests|-1];
    if c.enabled && key == (organization, c.name) {
      var cs := EnabledFor(init, key.1);
      if cs == [] {
        FirstManifest(rows, key, c);
      } else {
        NextManifest(rows, key, cs, c);
      }
    }
  }

  lemma NextManifest(rows: Rows, key: Key, cs: seq<Manifest>, c: Manifest)
    requires cs != []
    ensures Fold(Base(rows, key, cs + [c]), cs + [c]) == Synced(Some(Fold(Base(rows, key, cs), cs)), c)
  {
    var base := Base(rows, key, cs);
    assert (cs + [c])[..|cs|] == cs && Base(rows, key, cs + [c]) == base;
    SyncedIsUpdated(Fold(base, cs), c);
  }

  lemma FirstManifest(rows: Rows, key: Key, c: Manifest)
    ensures Fold(Base(rows, key, [c]), [c]) == Synced(RowAt(rows, key), c)
  {
    var base := Base(rows, key, [c]);
    assert [c][..0] == [] && Fold(base, []) == base;
    if key in rows {
      SyncedIsUpdated(rows[key], c);
    } else {
      UpdatedCreated(c);
    }
  }

  lemma {:induction false} AppliedAt(rows: Rows, organization: string, manifests: seq<Manifest>, key: Key)
    ensures RowAt(AppliedAll(rows, organization, manifests), key) == After(rows, organization, manifests, key)
  {
    if manifests != [] {
      AppliedAt(rows, organization, manifests[..|manifests|-1], key);
      AfterOneMore(rows, organization, manifests, key);
    }
  }

  lemma BaseName(rows: Rows, key: Key, cs: seq<Manifest>)
    requires cs != [] && cs[0].name == key.1
    ensures Base(rows, key, cs).meta.name == if key in rows then rows[key].meta.name else key.1
    ensures key !in rows ==> SavedRow(Base(rows, key, cs))
  {
    CreatedIsSaved(cs[0]);
  }

  // ---------------------------------------------------------------------------------------------
  // What is left behind.

  ghost predicate DistinctNames(manifests: seq<Manifest>) {
    forall i, j | 0 <= i < j < |manifests| :: manifests[i].name != manifests[j].name
  }

  /**
   * Whatever is stored, rows of enabled names exist, are on and carry the last manifest of their name; all others are
   * as before.
   */
  lemma RegisteredRow(rows: Rows, organization: string, manifests: seq<Manifest>, key: Key)
    ensures var rows', cs := AppliedAll(rows, organization, manifests), EnabledFor(manifests, key.1);
            if key in EnabledKeys(organization, manifests) then
              cs != [] && key in rows' && rows'[key].enabled
              && rows'[key].meta.name == (if key in rows then rows[key].meta.name else key.1)
              && rows'[key].meta == WithManifest(rows'[key].meta, cs[|cs|-1])
            else RowAt(rows', key) == RowAt(rows, key)
  {
    AppliedAt(rows, organization, manifests, key);
    EnabledForMembers(manifests, organization, key.1);
    var cs := EnabledFor(manifests, key.1);
    if key in EnabledKeys(organization, manifests) {
      assert cs[0] in cs;
      BaseName(rows, key, cs);
      FoldKeeps(Base(rows, key, cs), cs);
    }
  }

  /** With distinct names every enabled manifest's metadata is in its row, and the links are the enabled names. */
  lemma RegistrationCarriesManifest(rows: Rows, organization: string, manifests: seq<Manifest>, i: nat)
    requires DistinctNames(manifests) && i < |manifests| && manifests[i].enabled
    ensures var rows', key := AppliedAll(rows, organization, manifests), (organization, manifests[i].name);
            && key in rows' && rows'[key].enabled && rows'[key].meta == WithManifest(rows'[key].meta, manifests[i])
            && (set k | k in rows' && k in EnabledKeys(organization, manifests)) == EnabledKeys(organization, manifests)
  {
    var rows', key := AppliedAll(rows, organization, manifests), (organization, manifests[i].name);
    RegisteredRow(rows, organization, manifests, key);
    EnabledForMembers(manifests, organization, key.1);
    var cs := EnabledFor(manifests, key.1);
    assert cs[|cs|-1] in cs;
    forall k | k in EnabledKeys(organization, manifests) ensures k in rows' {
      RegisteredRow(rows, organization, manifests, k);
    }
  }

  // ---------------------------------------------------------------------------------------------
  // Repeating a registration.

  function DocumentAs(r: Row, c: Manifest): string {
    Document(WithManifest(r.meta, c))
  }

  ghost predicate AllGive(r: Row, cs: seq<Manifest>, document: string) {
    forall i | 0 <= i < |cs| :: DocumentAs(r, cs[i]) == document
  }

  lemma AllGiveSnoc(r: Row, cs: seq<Manifest>, document: string)
    requires cs != []
    ensures AllGive(r, cs, document) <==> AllGive(r, cs[..|cs|-1], document) && DocumentAs(r, cs[|cs|-1]) == document
  {
    assert forall i | 0 <= i < |cs| - 1 :: cs[..|cs|-1][i] == cs[i];
  }

  lemma UpdatedVersion(r: Row, c: Manifest)
    ensures Updated(r, c).version >= r.version && Updated(r, c).document == DocumentAs(r, c)
    ensures Updated(r, c).version == r.version <==> DocumentAs(r, c) == r.document
  {
  }

  /** A run of updates leaves the version alone exactly when every manifest gives the document the row had. */
  lemma {:induction false} FoldVersion(r: Row, cs: seq<Manifest>)
    requires SavedRow(r)
    ensures Fold(r, cs).version >= r.version
    ensures Fold(r, cs).version == r.version <==> AllGive(r, cs, r.document)
    ensures Fold(r, cs).version == r.version ==> Fold(r, cs).document == r.document
  {
    if cs != [] {
      var init, c := cs[..|cs|-1], cs[|cs|-1];
      FoldVersion(r, init);
      FoldKeeps(r, init);
      FoldSavedExactly(r, init);
      SavedIsUpdated(Fold(r, init), c);
      SameFrame(r, Fold(r, init), init, c);
      UpdatedVersion(Fold(r, init), c);
      AllGiveSnoc(r, cs, r.document);
    }
  }

  lemma SameFrame(r: Row, r': Row, init: seq<Manifest>, c: Manifest)
    requires r'.meta == if init == [] then r.meta else WithManifest(r.meta, init[|init|-1])
    ensures DocumentAs(r', c) == DocumentAs(r, c)
  {
  }

  /** Applying the same manifests again to the row they left. */
  lemma FoldAgain(r: Row, cs: seq<Manifest>)
    requires cs != []
    ensures var r1 := Fold(r, cs);
            Fold(r1, cs) == r1 <==> forall c, c' | c in cs && c' in cs :: DocumentAs(r1, c) == DocumentAs(r1, c')
  {
    var r1 := Fold(r, cs);
    FoldKeeps(r, cs);
    FoldSavedExactly(r, cs);
    if SavedRow(r1) {
      SavedAgain(r1, cs);
    } else {
      forall c | c in cs ensures DocumentAs(r1, c) == Document(r1.meta) {
        var i :| 0 <= i < |cs| && cs[i] == c;
        assert LeftAlone(r, cs[i]);
        NothingChanged(r1.meta, c);
      }
    }
  }

  lemma SavedAgain(r1: Row, cs: seq<Manifest>)
    requires cs != [] && SavedRow(r1) && r1.enabled && r1.meta == WithManifest(r1.meta, cs[|cs|-1])
    ensures Fold(r1, cs) == r1 <==> forall c, c' | c in cs && c' in cs :: DocumentAs(r1, c) == DocumentAs(r1, c')
  {
    FoldKeeps(r1, cs);
    FoldSavedExactly(r1, cs);
    FoldVersion(r1, cs);
    LastDocument(r1, cs);
  }

  /** The document a manifest gives the row of its name, stored or not. */
  function DocumentFor(rows: Rows, key: Key, c: Manifest): string {
    Document(WithManifest(if key in rows then rows[key].meta else Meta(key.1, "", "", Schema([], ""), [], [], []), c))
  }

  /** Enabled manifests of one name describe one document. */
  ghost predicate SameNameSameDocument(rows: Rows, organization: string, manifests: seq<Manifest>) {
    forall c, c' | c in manifests && c' in manifests && c.enabled && c'.enabled && c.name == c'.name ::
      DocumentFor(rows, (organization, c.name), c) == DocumentFor(rows, (organization, c.name), c')
  }

  /** The registration itself does not change what a further manifest would make of the row. */
  lemma DocumentKept(rows: Rows, organization: string, manifests: seq<Manifest>, key: Key, c: Manifest)
    requires key.0 == organization && EnabledFor(manifests, key.1) != []
    ensures var once := AppliedAll(rows, organization, manifests);
            key in once && DocumentAs(once[key], c) == DocumentFor(rows, key, c)
  {
    var cs := EnabledFor(manifests, key.1);
    AppliedAt(rows, organization, manifests, key);
    FoldKeeps(Base(rows, key, cs), cs);
    EnabledForMembers(manifests, organization, key.1);
    assert cs[0] in cs;
    if key !in rows {
      ProviderOnce(WithManifest(Meta(key.1, "", "", Schema([], ""), [], [], []), c));
    }
  }

  /** Repeating a registration changes no row exactly when manifests of one name describe one document. */
  lemma RepeatChangesNothingExactly(rows: Rows, organization: string, manifests: seq<Manifest>)
    ensures var once := AppliedAll(rows, organization, manifests);
            AppliedAll(once, organization, manifests) == once <==> SameNameSameDocument(rows, organization, manifests)
  {
    var once := AppliedAll(rows, organization, manifests);
    var twice := AppliedAll(once, organization, manifests);
    forall key ensures RowAt(twice, key) == RowAt(once, key) <==> SameAt(rows, manifests, organization, key) {
      RepeatAt(rows, organization, manifests, key);
    }
    if twice == once {
      AllSame(rows, organization, manifests);
    } else if SameNameSameDocument(rows, organization, manifests) {
      forall key ensures RowAt(twice, key) == RowAt(once, key) {
        EnabledForMembers(manifests, organization, key.1);
        assert SameAt(rows, manifests, organization, key);
      }
      SameRows(twice, once);
    }
  }

  lemma AllSame(rows: Rows, organization: string, manifests: seq<Manifest>)
    requires forall key :: SameAt(rows, manifests, organization, key)
    ensures SameNameSameDocument(rows, organization, manifests)
  {
    forall c, c' | c in manifests && c' in manifests && c.enabled && c'.enabled && c.name == c'.name
      ensures DocumentFor(rows, (organization, c.name), c) == DocumentFor(rows, (organization, c.name), c')
    {
      EnabledForMembers(manifests, organization, c.name);
      assert SameAt(rows, manifests, organization, (organization, c.name));
    }
  }

  ghost predicate SameAt(rows: Rows, manifests: seq<Manifest>, organization: string, key: Key) {
    key.0 == organization ==>
      forall c, c' | c in EnabledFor(manifests, key.1) && c' in EnabledFor(manifests, key.1) ::
        DocumentFor(rows, key, c) == DocumentFor(rows, key, c')
  }

  lemma SameRows(a: Rows, b: Rows)
    requires forall key :: RowAt(a, key) == RowAt(b, key)
    ensures a == b
  {
    forall key ensures key in a <==> key in b {
      assert RowAt(a, key) == RowAt(b, key);
    }
    forall key | key in a ensures a[key] == b[key] {
      assert RowAt(a, key) == RowAt(b, key);
    }
  }

  lemma RepeatAt(rows: Rows, organization: string, manifests: seq<Manifest>, key: Key)
    ensures var once := AppliedAll(rows, organization, manifests);
            RowAt(AppliedAll(once, organization, manifests), key) == RowAt(once, key) <==>
              SameAt(rows, manifests, organization, key)
  {
    var once, cs := AppliedAll(rows, organization, manifests), EnabledFor(manifests, key.1);
    AppliedAt(rows, organization, manifests, key);
    AppliedAt(once, organization, manifests, key);
    if key.0 == organization && cs != [] {
      FoldAgain(Base(rows, key, cs), cs);
      assert once[key] == Fold(Base(rows, key, cs), cs);
      forall c | c in cs ensures DocumentAs(once[key], c) == DocumentFor(rows, key, c) {
        DocumentKept(rows, organization, manifests, key, c);
      }
    }
  }

  /** When the row has the last manifest's document, all agree with it exactly when all agree. */
  lemma LastDocument(r: Row, cs: seq<Manifest>)
    requires cs != [] && r.document == DocumentAs(r, cs[|cs|-1])
    ensures AllGive(r, cs, r.document)
       <==> (forall c, c' | c in cs && c' in cs :: DocumentAs(r, c) == DocumentAs(r, c'))
  {
    var last := cs[|cs|-1];
    assert last in cs;
    if forall c, c' | c in cs && c' in cs :: DocumentAs(r, c) == DocumentAs(r, c') {
      forall i | 0 <= i < |cs| ensures DocumentAs(r, cs[i]) == r.document {
        assert cs[i] in cs;
      }
    }
  }

  /** The failing case: one name twice with different descriptions; each repetition describes the row anew. */
  lemma TwoDescriptionsKeepChanging(rows: Rows, organization: string, name: string, d: string, d': string)
    requires d != d'
    ensures var manifests := [Described(name, d), Described(name, d')];
            var once := AppliedAll(rows, organization, manifests);
            AppliedAll(once, organization, manifests) != once
  {
    var c, c', key := Described(name, d), Described(name, d'), (organization, name);
    var manifests := [c, c'];
    PlainDocument(rows, key, c);
    PlainDocument(rows, key, c');
    var head := PlainHead(rows, key);
    assert (head + d)[|head|..] == d && (head + d')[|head|..] == d';
    assert c in manifests && c' in manifests && c.enabled && c'.enabled && c.name == c'.name;
    assert !SameNameSameDocument(rows, organization, manifests);
    RepeatChangesNothingExactly(rows, organization, manifests);
  }

  function Described(name: string, description: string): Manifest {
    Manifest(name, true, description, Schema([], ""), [], [], [], "")
  }

  function PlainHead(rows: Rows, key: Key): string {
    var m := if key in rows then rows[key].meta else Meta(key.1, "", "", Schema([], ""), [], [], []);
    "Capability: " + m.name + ['\n'] + ("Provider: " + Provider(m) + ['\n'] + "Description: ")
  }

  lemma PlainDocument(rows: Rows, key: Key, c: Manifest)
    requires c.useCases == c.aliases == c.tags == [] && c.schema.properties == []
    ensures DocumentFor(rows, key, c) == PlainHead(rows, key) + c.description
  {
    var m := WithManifest(if key in rows then rows[key].meta else Meta(key.1, "", "", Schema([], ""), [], [], []), c);
    var parts := ["Capability: " + m.name, "Provider: " + Provider(m), "Description: " + m.description];
    assert Parts(m, Provider(m)) == parts;
    assert parts[1..][1..] == [parts[2]];
    assert Join(parts[1..], '\n') == parts[1] + ['\n'] + Join(parts[1..][1..], '\n');
  }

  /** In particular a manifest with distinct names can be sent again and again. */
  lemma DistinctNamesRepeat(rows: Rows, organization: string, manifests: seq<Manifest>)
    requires DistinctNames(manifests)
    ensures var once := AppliedAll(rows, organization, manifests);
            AppliedAll(once, organization, manifests) == once
  {
    RepeatChangesNothingExactly(rows, organization, manifests);
    var once := AppliedAll(rows, organization, manifests);
    forall c, c' | c in manifests && c' in manifests && c.name == c'.name ensures c == c' {
      var i :| 0 <= i < |manifests| && manifests[i] == c;
      var j :| 0 <= j < |manifests| && manifests[j] == c';
      assert i == j;
    }
  }

  // ---------------------------------------------------------------------------------------------
  // Registration and the embedding index.

  ghost predicate TrackedRows(rows: Rows, embed: EmbeddingFreshness.Embed) {
    forall key | key in rows :: EmbeddingFreshness.Tracked(rows[key], embed)
  }

  lemma {:induction false} FoldIsTracked(r: Row, cs: seq<Manifest>, embed: EmbeddingFreshness.Embed)
    requires EmbeddingFreshness.Tracked(r, embed)
    ensures EmbeddingFreshness.Tracked(Fold(r, cs), embed)
  {
    if cs != [] {
      FoldIsTracked(r, cs[..|cs|-1], embed);
    }
  }

  lemma FoldFreshExactly(r: Row, cs: seq<Manifest>, embed: EmbeddingFreshness.Embed)
    requires EmbeddingFreshness.Tracked(r, embed)
    ensures EmbeddingFreshness.Tracked(Fold(r, cs), embed)
    ensures EmbeddingFreshness.Fresh(Fold(r, cs), embed) <==> EmbeddingFreshness.Fresh(r, embed) || !AllLeave(r, cs)
  {
    FoldIsTracked(r, cs, embed);
    FoldSavedExactly(r, cs);
  }

  lemma CreatedIsFresh(c: Manifest, embed: EmbeddingFreshness.Embed)
    ensures EmbeddingFreshness.Fresh(Created(c), embed)
  {
    EmbeddingFreshness.CreateIsFresh(WithManifest(Meta(c.name, "", "", Schema([], ""), [], [], []), c), true, embed);
  }

  /** Some enabled manifest creates the row, turns it on or changes its metadata. */
  ghost predicate Touched(rows: Rows, organization: string, manifests: seq<Manifest>, key: Key) {
    && key in EnabledKeys(organization, manifests)
    && (key in rows ==> exists c :: c in manifests && c.enabled && c.name == key.1 && !LeftAlone(rows[key], c))
  }

  /** After a registration a row is fresh exactly when it was or some manifest touched it; else it stays stale. */
  lemma RegistrationRefreshesExactly(rows: Rows, organization: string, manifests: seq<Manifest>, key: Key,
                                     embed: EmbeddingFreshness.Embed)
    requires TrackedRows(rows, embed) && key in AppliedAll(rows, organization, manifests)
    ensures var row' := AppliedAll(rows, organization, manifests)[key];
            && EmbeddingFreshness.Tracked(row', embed)
            && (EmbeddingFreshness.Fresh(row', embed) <==>
                  (key in rows && EmbeddingFreshness.Fresh(rows[key], embed))
                  || Touched(rows, organization, manifests, key))
  {
    AppliedAt(rows, organization, manifests, key);
    EnabledForMembers(manifests, organization, key.1);
    var cs := EnabledFor(manifests, key.1);
    if key.0 == organization && cs != [] {
      var base := Base(rows, key, cs);
      if key !in rows {
        CreatedIsFresh(cs[0], embed);
      }
      FoldFreshExactly(base, cs, embed);
      LeftByAll(base, cs);
    }
  }

  lemma LeftByAll(r: Row, cs: seq<Manifest>)
    ensures AllLeave(r, cs) <==> forall c :: c in cs ==> LeftAlone(r, c)
  {
    if AllLeave(r, cs) {
      forall c | c in cs ensures LeftAlone(r, c) {
        var i :| 0 <= i < |cs| && cs[i] == c;
      }
    }
  }

  ghost predicate FreshRows(rows: Rows, embed: EmbeddingFreshness.Embed) {
    forall key | key in rows :: EmbeddingFreshness.Fresh(rows[key], embed)
  }

  /** Whatever manifests agents send, a row that may be searched keeps the vector of its current metadata. */
  lemma RegistrationKeepsFresh(rows: Rows, organization: string, manifests: seq<Manifest>,
                               embed: EmbeddingFreshness.Embed)
    requires FreshRows(rows, embed)
    ensures FreshRows(AppliedAll(rows, organization, manifests), embed)
  {
    var rows' := AppliedAll(rows, organization, manifests);
    forall key | key in rows' ensures EmbeddingFreshness.Fresh(rows'[key], embed) {
      RegistrationRefreshesExactly(rows, organization, manifests, key, embed);
      RegisteredRow(rows, organization, manifests, key);
    }
  }
}
