/** Synchronising an agent and its capability manifest at registration (services/grpc_server/servicer.py). */
module Registration {
  import opened Basics
  import opened CapabilityRows

  datatype Manifest = Manifest(
    name: string, enabled: bool, description: string, schema: Schema,
    useCases: seq<string>, aliases: seq<string>, tags: seq<string>, config: string)

  datatype Host = Host(
    hostname: string, localIp: string, provider: string, region: string, availabilityZone: string, vmId: string,
    os: string, osVersion: string, arch: string)

  datatype Register = Register(agentVersion: string, labels: seq<string>, host: Host, capabilities: seq<Manifest>)

  type Key = (string, string)

  datatype MarvinRow = MarvinRow(
    organization: string, name: string, online: bool, lastSeen: int, agentVersion: string, labels: seq<string>,
    host: Host, configs: map<string, string>, linked: set<Key>)

  type Rows = map<Key, Row>

  const NO_HOST := Host("", "", "", "", "", "", "", "", "")

  // ---------------------------------------------------------------------------------------------
  // One manifest.

  function WithManifest(m: Meta, c: Manifest): Meta {
    m.(description := c.description, schema := c.schema, useCases := c.useCases, aliases := c.aliases, tags := c.tags)
  }

  function Created(c: Manifest): Row {
    var row := Row(WithManifest(Meta(c.name, "", "", Schema([], ""), [], [], []), c), true, "", 0, None, "", 0, false);
    Saved(row, row, None)
  }

  function ChangedFields(m: Meta, c: Manifest): set<Field> {
    (if m.description != c.description then {FDescription} else {}) + (if m.schema != c.schema then {FSchema} else {})
    + (if m.useCases != c.useCases then {FUseCases} else {}) + (if m.aliases != c.aliases then {FAliases} else {})
    + (if m.tags != c.tags then {FTags} else {})
  }

  /** The row after one enabled manifest. */
  function Synced(row: Option<Row>, c: Manifest): Row {
    if row.None? then Created(c)
    else if !row.value.enabled then
      Saved(Rewritten(row.value, c), Instance(row.value, c).(enabled := true), Some({FEnabled}))
    else Rewritten(row.value, c)
  }

  /** The stored row after its changed metadata is saved. */
  function Rewritten(row: Row, c: Manifest): Row {
    var fields := ChangedFields(row.meta, c);
    if fields != {} then Saved(row, row.(meta := WithManifest(row.meta, c)), Some(fields)) else row
  }

  /** The instance in memory at that point. */
  function Instance(row: Row, c: Manifest): Row {
    var instance := row.(meta := WithManifest(row.meta, c));
    if ChangedFields(row.meta, c) != {} then Refresh(instance) else instance
  }

  function RowAt(rows: Rows, key: Key): Option<Row> {
    if key in rows then Some(rows[key]) else None
  }

  function Applied(rows: Rows, organization: string, c: Manifest): Rows {
    if c.enabled then rows[(organization, c.name) := Synced(RowAt(rows, (organization, c.name)), c)] else rows
  }

  function AppliedAll(rows: Rows, organization: string, manifests: seq<Manifest>): Rows {
    if manifests == [] then rows
    else Applied(AppliedAll(rows, organization, manifests[..|manifests|-1]), organization, manifests[|manifests|-1])
  }

  function EnabledKeys(organization: string, manifests: seq<Manifest>): set<Key> {
    set c | c in manifests && c.enabled :: (organization, c.name)
  }

  /** Every manifest's configuration is kept, also of a disabled capability. */
  function Configs(manifests: seq<Manifest>): map<string, string> {
    if manifests == [] then map[]
    else Configs(manifests[..|manifests|-1])[manifests[|manifests|-1].name := manifests[|manifests|-1].config]
  }

  /** The capabilities to embed, in manifest order. */
  function EnabledList(organization: string, manifests: seq<Manifest>): seq<Key> {
    if manifests == [] then []
    else
      var rest, c := EnabledList(organization, manifests[..|manifests|-1]), manifests[|manifests|-1];
      if c.enabled then rest + [(organization, c.name)] else rest
  }

  // ---------------------------------------------------------------------------------------------
  // The code.

  class Database {
    var capabilities: Rows
    var marvins: map<string, MarvinRow>

    constructor ()
    {
      capabilities, marvins := map[], map[];
    }

    method UpdateMarvinRegistration(agentId: string, register: Register, organization: string, now: int)
      returns (ids: seq<Key>)
      modifies this
      ensures agentId in old(marvins) && old(marvins)[agentId].organization != organization ==>
                ids == [] && capabilities == old(capabilities) && marvins == old(marvins)
      ensures agentId !in old(marvins) || old(marvins)[agentId].organization == organization ==>
                && capabilities == AppliedAll(old(capabilities), organization, register.capabilities)
                && marvins.Keys == old(marvins).Keys + {agentId}
                && (forall a | a in old(marvins) && a != agentId :: marvins[a] == old(marvins)[a])
                && marvins[agentId].organization == organization
                && marvins[agentId].online && marvins[agentId].lastSeen == now
                && marvins[agentId].name == (if agentId in old(marvins) then old(marvins)[agentId].name
                                             else if register.host.hostname != "" then register.host.hostname
                                             else agentId)
                && marvins[agentId].agentVersion == register.agentVersion
                && marvins[agentId].host == register.host && marvins[agentId].labels == register.labels
                && marvins[agentId].configs == Configs(register.capabilities)
                && ids == EnabledList(organization, register.capabilities)
                && marvins[agentId].linked
                   == set key | key in capabilities && key in EnabledKeys(organization, register.capabilities)
    {
      var marvin: MarvinRow;
      if agentId in marvins {
        marvin := marvins[agentId];
        if marvin.organization != organization {
          return [];
        }
      } else {
        marvin := MarvinRow(organization, if register.host.hostname != "" then register.host.hostname else agentId,
                            false, now, "", [], NO_HOST, map[], {});
      }
      marvin := marvin.(online := true, lastSeen := now, agentVersion := register.agentVersion,
                        labels := register.labels, host := register.host);
      var configs, enabled;
      ids, configs, enabled := SyncManifests(organization, register.capabilities);
      marvin := marvin.(configs := configs,
                        linked := set key | key in capabilities && key.0 == organization && key.1 in enabled);
      marvins := marvins[agentId := marvin];
    }

    method SyncManifests(organization: string, manifests: seq<Manifest>)
      returns (ids: seq<Key>, configs: map<string, string>, enabled: set<string>)
      modifies this`capabilities
      ensures capabilities == AppliedAll(old(capabilities), organization, manifests)
      ensures configs == Configs(manifests) && ids == EnabledList(organization, manifests)
      ensures forall name :: name in enabled <==> (organization, name) in EnabledKeys(organization, manifests)
    {
      ids, configs, enabled := [], map[], {};
      for n := 0 to |manifests|
        invariant capabilities == AppliedAll(old(capabilities), organization, manifests[..n])
        invariant configs == Configs(manifests[..n]) && ids == EnabledList(organization, manifests[..n])
        invariant forall name ::
                    name in enabled <==> exists i :: 0 <= i < n && manifests[i].enabled && manifests[i].name == name
      {
        var c := manifests[n];
        assert manifests[..n+1][..n] == manifests[..n];
        configs := configs[c.name := c.config];
        if c.enabled {
          enabled := enabled + {c.name};
          SyncCapability((organization, c.name), c);
          ids := ids + [(organization, c.name)];
        }
      }
      assert manifests[..|manifests|] == manifests;
    }

    method SyncCapability(key: Key, c: Manifest)
      modifies this`capabilities
      ensures capabilities == old(capabilities)[key := Synced(RowAt(old(capabilities), key), c)]
    {
      if key !in capabilities {
        capabilities := capabilities[key := Created(c)];
      } else {
        var stored := new CapabilityRow(capabilities[key]);
        SyncStored(stored, c);
        capabilities := capabilities[key := stored.row];
      }
    }
  }

  method SyncStored(stored: CapabilityRow, c: Manifest)
    modifies stored
    ensures stored.row == Synced(Some(old(stored.row)), c)
  {
    var capability := new Capability(stored);
    SaveChanges(capability, stored, c);
    if !capability.enabled {
      capability.enabled := true;
      capability.Save(stored, Some({FEnabled}));
    }
  }

  method SaveChanges(capability: Capability, stored: CapabilityRow, c: Manifest)
    requires capability.Value() == stored.row
    modifies capability, stored
    ensures stored.row == Rewritten(old(stored.row), c) && capability.Value() == Instance(old(stored.row), c)
    ensures capability.enabled == old(stored.row.enabled)
  {
    var updated := Differences(capability.meta, c);
    capability.meta := WithManifest(capability.meta, c);
    assert capability.Value() == stored.row.(meta := WithManifest(stored.row.meta, c));
    if updated != {} {
      capability.Save(stored, Some(updated));
    }
  }

  method Differences(m: Meta, c: Manifest) returns (updated: set<Field>)
    ensures updated == ChangedFields(m, c)
  {
    updated := {};
    if m.description != c.description {
      updated := updated + {FDescription};
    }
    if m.schema != c.schema {
      updated := updated + {FSchema};
    }
    if m.useCases != c.useCases {
      updated := updated + {FUseCases};
    }
    if m.aliases != c.aliases {
      updated := updated + {FAliases};
    }
    if m.tags != c.tags {
      updated := updated + {FTags};
    }
  }
}
