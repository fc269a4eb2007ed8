/** What a registration stores, column by column (services/grpc_server/servicer.py). */
module RegistrationReading {
  import opened Basics
  import opened CapabilityRows
  import opened DocumentReading
  import opened Registration
  import opened RegistrationLaws
  import EmbeddingFreshness

  // ---------------------------------------------------------------------------------------------
  // Configurations, ids and links.

  /** The last manifest of the name, enabled or not. */
  ghost predicate IsLastNamed(manifests: seq<Manifest>, name: string, i: int) {
    0 <= i < |manifests| && manifests[i].name == name && forall j | i < j < |manifests| :: manifests[j].name != name
  }

  /** Each name that some manifest has, enabled or not, is stored with the configuration of its last manifest. */
  lemma {:induction false} ConfigsExactly(manifests: seq<Manifest>, name: string)
    ensures name in Configs(manifests) <==> exists i :: IsLastNamed(manifests, name, i)
    ensures forall i | IsLastNamed(manifests, name, i) ::
              name in Configs(manifests) && Configs(manifests)[name] == manifests[i].config
  {
    if manifests != [] {
      var init, n := manifests[..|manifests|-1], |manifests| - 1;
      ConfigsExactly(init, name);
      if manifests[n].name == name {
        assert IsLastNamed(manifests, name, n);
      } else {
        forall i ensures IsLastNamed(manifests, name, i) <==> IsLastNamed(init, name, i) {
          assert forall j | 0 <= j < n :: init[j] == manifests[j];
        }
      }
    }
  }

  predicate IsEnabled(c: Manifest) {
    c.enabled
  }

  /** The rows to embed are those of the enabled manifests, in their order. */
  lemma {:induction false} EnabledListExactly(organization: string, manifests: seq<Manifest>)
    returns (positions: seq<nat>)
    ensures Selects(positions, manifests, IsEnabled)
    ensures |EnabledList(organization, manifests)| == |positions|
    ensures forall j | 0 <= j < |positions| ::
              positions[j] < |manifests|
              && EnabledList(organization, manifests)[j] == (organization, manifests[positions[j]].name)
  {
    positions := [];
    if manifests != [] {
      var n := |manifests| - 1;
      var before := EnabledListExactly(organization, manifests[..n]);
      SelectsSnoc(before, manifests, IsEnabled);
      positions := if IsEnabled(manifests[n]) then before + [n] else before;
      EnabledNext(organization, manifests, before);
    }
  }

  lemma EnabledNext(organization: string, manifests: seq<Manifest>, before: seq<nat>)
    requires manifests != [] && |EnabledList(organization, manifests[..|manifests|-1])| == |before|
    requires var n := |manifests| - 1;
             forall j | 0 <= j < |before| ::
               before[j] < n
               && EnabledList(organization, manifests[..n])[j] == (organization, manifests[before[j]].name)
    ensures var n := |manifests| - 1;
            var all := if IsEnabled(manifests[n]) then before + [n] else before;
            && |EnabledList(organization, manifests)| == |all|
            && forall j | 0 <= j < |all| ::
                 all[j] < |manifests|
                 && EnabledList(organization, manifests)[j] == (organization, manifests[all[j]].name)
  {
  }

  /** The agent is linked to the rows of its organization that an enabled manifest names. */
  lemma LinksExactly(organization: string, manifests: seq<Manifest>, key: Key)
    ensures key in EnabledKeys(organization, manifests)
       <==> key.0 == organization
            && exists i :: 0 <= i < |manifests| && manifests[i].enabled && manifests[i].name == key.1
  {
    if key in EnabledKeys(organization, manifests) {
      var c :| c in manifests && c.enabled && key == (organization, c.name);
      var i :| 0 <= i < |manifests| && manifests[i] == c;
    }
  }

  // ---------------------------------------------------------------------------------------------
  // Rows.

  predicate Carries(m: Meta, c: Manifest) {
    && m.description == c.description && m.schema == c.schema && m.useCases == c.useCases && m.aliases == c.aliases
    && m.tags == c.tags
  }

  /**
   * An enabled row that carries the manifest stays as it is. Any other is turned on and carries it; its document is
   * built anew, and its version is raised if that document differs from the stored one.
   */
  lemma SyncedExactly(r: Row, c: Manifest)
    ensures var r' := Synced(Some(r), c);
            if r.enabled && Carries(r.meta, c) then r' == r
            else
              && r'.enabled && Carries(r'.meta, c) && r'.meta.name == r.meta.name && r'.meta.provider == r.meta.provider
              && r'.document == Written(r'.meta, Provider(r'.meta))
              && r'.version == (if r'.document == r.document then r.version else r.version + 1)
              && (r'.needsReEmbedding <==> r'.version > r.embeddingVersion)
              && r'.embedding == r.embedding && r'.embeddingModel == r.embeddingModel
              && r'.embeddingVersion == r.embeddingVersion
  {
    SyncedIsUpdated(r, c);
    LeftAloneExactly(r, c);
    DocumentExactly(WithManifest(r.meta, c));
  }

  lemma LeftAloneExactly(r: Row, c: Manifest)
    ensures LeftAlone(r, c) <==> r.enabled && Carries(r.meta, c)
  {
    if LeftAlone(r, c) {
      NothingChanged(r.meta, c);
    }
  }

  /** A new row is on, carries the manifest, has version one and asks for an embedding. */
  lemma CreatedExactly(c: Manifest)
    ensures var r := Created(c);
            && r.enabled && r.meta.name == c.name && Carries(r.meta, c)
            && IsProvider(r.meta.provider, NamedOnly(c.name))
            && r.document == Written(r.meta, r.meta.provider) && r.version == 1
            && r.embedding == None && r.embeddingVersion == 0 && r.needsReEmbedding
  {
    var m := WithManifest(Meta(c.name, "", "", Schema([], ""), [], [], []), c);
    ProviderOnce(m);
    DocumentExactly(m);
    SameTop(m, m.(provider := Provider(m)), Provider(m));
    EmbeddingFreshness.CreateIsFresh(m, true, (model: string, document: string) => []);
  }

  function NamedOnly(name: string): Meta {
    Meta(name, "", "", Schema([], ""), [], [], [])
  }

  /** What is written depends on the provider given, not on the one stored. */
  lemma SameTop(m: Meta, m': Meta, p: string)
    requires m' == m.(provider := m'.provider)
    ensures Written(m, p) == Written(m', p)
  {
  }

  ghost predicate IsLastEnabled(manifests: seq<Manifest>, name: string, i: int) {
    0 <= i < |manifests| && manifests[i].enabled && manifests[i].name == name
    && forall j | i < j < |manifests| :: !(manifests[j].enabled && manifests[j].name == name)
  }

  /** After a registration a row carries the last enabled manifest of its name. */
  lemma RegisteredExactly(rows: Rows, organization: string, manifests: seq<Manifest>, key: Key, i: int)
    requires key.0 == organization && IsLastEnabled(manifests, key.1, i)
    ensures var rows' := AppliedAll(rows, organization, manifests);
            && key in rows' && rows'[key].enabled && Carries(rows'[key].meta, manifests[i])
            && rows'[key].meta.name == if key in rows then rows[key].meta.name else key.1
  {
    LinksExactly(organization, manifests, key);
    RegisteredRow(rows, organization, manifests, key);
    LastEnabledExactly(manifests, key.1);
  }

  /** A row that no enabled manifest names is as it was, and so is every row of another organization. */
  lemma OthersExactly(rows: Rows, organization: string, manifests: seq<Manifest>, key: Key)
    requires key.0 != organization
             || forall i | 0 <= i < |manifests| && manifests[i].enabled :: manifests[i].name != key.1
    ensures RowAt(AppliedAll(rows, organization, manifests), key) == RowAt(rows, key)
  {
    LinksExactly(organization, manifests, key);
    RegisteredRow(rows, organization, manifests, key);
  }

  lemma {:induction false} LastEnabledExactly(manifests: seq<Manifest>, name: string)
    ensures var cs := EnabledFor(manifests, name);
            && (forall i | IsLastEnabled(manifests, name, i) :: cs != [] && cs[|cs|-1] == manifests[i])
            && (cs != [] ==> exists i :: IsLastEnabled(manifests, name, i))
  {
    if manifests != [] {
      var init, n := manifests[..|manifests|-1], |manifests| - 1;
      LastEnabledExactly(init, name);
      if manifests[n].enabled && manifests[n].name == name {
        assert IsLastEnabled(manifests, name, n);
      } else {
        forall i ensures IsLastEnabled(manifests, name, i) <==> IsLastEnabled(init, name, i) {
          LastEnabledBefore(manifests, name, i);
        }
      }
    }
  }

  lemma LastEnabledBefore(manifests: seq<Manifest>, name: string, i: int)
    requires manifests != [] && !(manifests[|manifests|-1].enabled && manifests[|manifests|-1].name == name)
    ensures IsLastEnabled(manifests, name, i) <==> IsLastEnabled(manifests[..|manifests|-1], name, i)
  {
    var init := manifests[..|manifests|-1];
    assert forall j | 0 <= j < |init| :: init[j] == manifests[j];
  }
}
