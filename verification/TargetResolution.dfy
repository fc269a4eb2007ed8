/** Resolving a capability and a selector to a snapshot of executors (apps/marvins/discovery.py). */
module TargetResolution {
  import opened Basics
  import opened Text
  import opened Sorting
  import opened Selectors

  datatype Resource = Resource(id: string, organization: string, enabled: bool, scopeType: string)

  datatype Marvin = Marvin(
    id: string, organization: string, status: Status, capabilities: set<string>,
    hostname: string, region: string, availabilityZone: string, provider: string,
    labels: seq<string>, attachments: seq<Resource>)
  {
    function Seen(): Agent {
      Agent(id, hostname, region, availabilityZone, provider, set r | r in attachments :: r.id, labels)
    }
  }

  datatype Policy = Policy(defaultMaxTargets: nat, absoluteMaxTargets: nat, requiresResource: bool)

  datatype Capability = Capability(
    id: string, organization: string, name: string, enabled: bool, scope: string, strategy: string, policy: Policy)

  datatype Error = CapabilityNotFound | SelectorRequiresResource | FanOutLimitExceeded(count: nat)

  datatype TargetSet = TargetSet(
    selector: TargetSelector, snapshot: seq<string>, count: nat, logicalTargetCount: nat, fanoutClass: string,
    targets: map<string, seq<string>>)

  const RESOURCE_SCOPES := {"cluster", "namespace", "service", "environment"}

  /** Rows have primary keys, and a resource is attached to an agent at most once. */
  ghost predicate Keyed(marvins: seq<Marvin>) {
    && (forall i, j | 0 <= i < j < |marvins| :: marvins[i].id != marvins[j].id)
    && (forall m <- marvins :: forall i, j | 0 <= i < j < |m.attachments| :: m.attachments[i].id != m.attachments[j].id)
  }

  // ---------------------------------------------------------------------------------------------
  // Candidates, in the order of their ids.

  predicate ById(a: Marvin, b: Marvin) {
    AtMost(a.id, b.id)
  }

  predicate Eligible(m: Marvin, organization: string, capability: Capability, selector: TargetSelector) {
    && m.organization == organization && m.status == Online && capability.id in m.capabilities
    && Matches(m.Seen(), selector)
  }

  function Eligibles(marvins: seq<Marvin>, organization: string, capability: Capability,
                     selector: TargetSelector): seq<Marvin> {
    if marvins == [] then []
    else
      var rest, m := Eligibles(marvins[..|marvins|-1], organization, capability, selector), marvins[|marvins|-1];
      if Eligible(m, organization, capability, selector) then rest + [m] else rest
  }

  // ---------------------------------------------------------------------------------------------
  // Logical targets.

  predicate Counts(r: Resource, m: Marvin, scope: string, resourceIds: seq<string>) {
    && r.organization == m.organization && r.enabled && r.scopeType == scope
    && (resourceIds == [] || r.id in resourceIds)
  }

  /** The logical targets an agent serves: itself, its host, or its resources of the scope. */
  predicate Serves(m: Marvin, scope: string, resourceIds: seq<string>, target: string) {
    if scope in RESOURCE_SCOPES then exists r | r in m.attachments :: r.id == target && Counts(r, m, scope, resourceIds)
    else target == if scope == "host" && m.hostname != "" then m.hostname else m.id
  }

  function Group(marvins: seq<Marvin>, scope: string, resourceIds: seq<string>, target: string): (group: seq<Marvin>)
    ensures forall m :: m in group <==> m in marvins && Serves(m, scope, resourceIds, target)
  {
    if marvins == [] then []
    else
      var rest, m := Group(marvins[..|marvins|-1], scope, resourceIds, target), marvins[|marvins|-1];
      assert marvins == marvins[..|marvins|-1] + [m];
      if Serves(m, scope, resourceIds, target) then rest + [m] else rest
  }

  type Groups = map<string, seq<Marvin>>

  function GroupIn(groups: Groups, target: string): seq<Marvin> {
    if target in groups then groups[target] else []
  }

  ghost predicate NoEmptyGroup(groups: Groups) {
    forall target | target in groups :: groups[target] != []
  }

  /** `groups` has a group for each target that some agent serves. */
  ghost predicate AreGroups(groups: Groups, marvins: seq<Marvin>, scope: string, resourceIds: seq<string>) {
    NoEmptyGroup(groups) && forall target :: GroupIn(groups, target) == Group(marvins, scope, resourceIds, target)
  }

  lemma GroupSnoc(marvins: seq<Marvin>, n: nat, scope: string, resourceIds: seq<string>, target: string)
    requires n < |marvins|
    ensures Group(marvins[..n+1], scope, resourceIds, target)
         == if Serves(marvins[n], scope, resourceIds, target)
            then Group(marvins[..n], scope, resourceIds, target) + [marvins[n]]
            else Group(marvins[..n], scope, resourceIds, target)
  {
    assert marvins[..n+1][..n] == marvins[..n];
  }

  method GroupByAgent(marvins: seq<Marvin>, scope: string) returns (groups: Groups)
    requires scope !in RESOURCE_SCOPES && scope != "host" && Keyed(marvins)
    ensures AreGroups(groups, marvins, scope, [])
  {
    groups := map[];
    for n := 0 to |marvins|
      invariant AreGroups(groups, marvins[..n], scope, [])
    {
      var m := marvins[n];
      groups := groups[m.id := [m]];
      forall target ensures GroupIn(groups, target) == Group(marvins[..n+1], scope, [], target) {
        GroupSnoc(marvins, n, scope, [], target);
        FreshTarget(marvins[..n], scope, m.id);
      }
    }
    assert marvins[..|marvins|] == marvins;
  }

  lemma {:induction false} FreshTarget(marvins: seq<Marvin>, scope: string, target: string)
    requires scope !in RESOURCE_SCOPES && scope != "host" && forall m <- marvins :: m.id != target
    ensures Group(marvins, scope, [], target) == []
  {
    if marvins != [] {
      FreshTarget(marvins[..|marvins|-1], scope, target);
    }
  }

  /** An agent that serves one target joins that group and no other. */
  lemma JoinGroup(groups: Groups, marvins: seq<Marvin>, n: nat, scope: string, resourceIds: seq<string>, target: string)
    requires n < |marvins| && AreGroups(groups, marvins[..n], scope, resourceIds)
    requires forall t :: Serves(marvins[n], scope, resourceIds, t) <==> t == target
    ensures AreGroups(groups[target := GroupIn(groups, target) + [marvins[n]]], marvins[..n+1], scope, resourceIds)
  {
    var groups' := groups[target := GroupIn(groups, target) + [marvins[n]]];
    forall t ensures GroupIn(groups', t) == Group(marvins[..n+1], scope, resourceIds, t) {
      GroupSnoc(marvins, n, scope, resourceIds, t);
      assert GroupIn(groups, t) == Group(marvins[..n], scope, resourceIds, t);
    }
  }

  method GroupByHost(marvins: seq<Marvin>) returns (groups: Groups)
    ensures AreGroups(groups, marvins, "host", [])
  {
    groups := map[];
    for n := 0 to |marvins|
      invariant AreGroups(groups, marvins[..n], "host", [])
    {
      var m := marvins[n];
      var target := if m.hostname != "" then m.hostname else m.id;
      JoinGroup(groups, marvins, n, "host", [], target);
      groups := groups[target := GroupIn(groups, target) + [m]];
    }
    assert marvins[..|marvins|] == marvins;
  }

  method GroupByResource(marvins: seq<Marvin>, scope: string, resourceIds: seq<string>) returns (groups: Groups)
    requires scope in RESOURCE_SCOPES && Keyed(marvins)
    ensures AreGroups(groups, marvins, scope, resourceIds)
  {
    groups := map[];
    for n := 0 to |marvins|
      invariant AreGroups(groups, marvins[..n], scope, resourceIds)
    {
      groups := AddAttachments(groups, marvins[n], scope, resourceIds);
      forall target ensures GroupIn(groups, target) == Group(marvins[..n+1], scope, resourceIds, target) {
        GroupSnoc(marvins, n, scope, resourceIds, target);
      }
    }
    assert marvins[..|marvins|] == marvins;
  }

  method AddAttachments(groups: Groups, m: Marvin, scope: string, resourceIds: seq<string>) returns (groups': Groups)
    requires scope in RESOURCE_SCOPES && NoEmptyGroup(groups)
    requires forall i, j | 0 <= i < j < |m.attachments| :: m.attachments[i].id != m.attachments[j].id
    ensures NoEmptyGroup(groups')
    ensures forall target :: GroupIn(groups', target)
              == if Serves(m, scope, resourceIds, target) then GroupIn(groups, target) + [m]
                 else GroupIn(groups, target)
  {
    groups' := groups;
    for n := 0 to |m.attachments|
      invariant NoEmptyGroup(groups')
      invariant forall target :: GroupIn(groups', target)
                  == if exists i ::
                          0 <= i < n && m.attachments[i].id == target && Counts(m.attachments[i], m, scope, resourceIds)
                     then GroupIn(groups, target) + [m] else GroupIn(groups, target)
    {
      var r := m.attachments[n];
      if r.organization != m.organization || !r.enabled || r.scopeType != scope ||
         (resourceIds != [] && r.id !in resourceIds) {
        continue;
      }
      groups' := groups'[r.id := GroupIn(groups', r.id) + [m]];
    }
  }

  function ResourceIdsOf(selector: TargetSelector): seq<string> {
    selector.resourceIds.GetOr([])
  }

  method ResolveLogicalTargets(capability: Capability, marvins: seq<Marvin>, selector: TargetSelector)
    returns (r: Result<Groups, Error>)
    requires Keyed(marvins)
    ensures r.Ok? ==> AreGroups(r.value, marvins, capability.scope, ResourceIdsOf(selector))
    ensures r.Err? <==> capability.scope in RESOURCE_SCOPES
                        && forall target :: Group(marvins, capability.scope, ResourceIdsOf(selector), target) == []
    ensures r.Err? ==> r.error == SelectorRequiresResource
  {
    if capability.scope == "host" {
      var groups := GroupByHost(marvins);
      ResourceIdsIgnored(groups, marvins, capability.scope, ResourceIdsOf(selector));
      return Ok(groups);
    }
    if capability.scope in RESOURCE_SCOPES {
      var groups := GroupByResource(marvins, capability.scope, ResourceIdsOf(selector));
      if groups == map[] {
        assert forall target :: GroupIn(groups, target) == [];
        return Err(SelectorRequiresResource);
      }
      var target :| target in groups;
      assert Group(marvins, capability.scope, ResourceIdsOf(selector), target) == GroupIn(groups, target) != [];
      return Ok(groups);
    }
    var groups := GroupByAgent(marvins, capability.scope);
    ResourceIdsIgnored(groups, marvins, capability.scope, ResourceIdsOf(selector));
    r := Ok(groups);
  }

  lemma ResourceIdsIgnored(groups: Groups, marvins: seq<Marvin>, scope: string, resourceIds: seq<string>)
    requires scope !in RESOURCE_SCOPES && AreGroups(groups, marvins, scope, [])
    ensures AreGroups(groups, marvins, scope, resourceIds)
  {
    forall target ensures Group(marvins, scope, [], target) == Group(marvins, scope, resourceIds, target) {
      SameGroup(marvins, scope, resourceIds, target);
    }
  }

  lemma {:induction false} SameGroup(marvins: seq<Marvin>, scope: string, resourceIds: seq<string>, target: string)
    requires scope !in RESOURCE_SCOPES
    ensures Group(marvins, scope, [], target) == Group(marvins, scope, resourceIds, target)
  {
    if marvins != [] {
      SameGroup(marvins[..|marvins|-1], scope, resourceIds, target);
    }
  }

  // ---------------------------------------------------------------------------------------------
  // Executors of one target.

  function SelectionSize(strategy: string, n: nat): nat {
    if strategy == "all" then n
    else if strategy == "quorum" then (n + 1) / 2
    else if n == 0 then 0 else 1
  }

  function SelectExecutors(group: seq<Marvin>, strategy: string): seq<Marvin> {
    var ordered := Sort(group, ById);
    IdOrder();
    SortIsStableSort(group, ById);
    ordered[..SelectionSize(strategy, |ordered|)]
  }

  lemma IdOrder()
    ensures TotalPreorder(ById)
  {
    forall x: Marvin, y: Marvin ensures ById(x, y) || ById(y, x) {
      AtMostTotal(x.id, y.id);
    }
    forall x: Marvin, y: Marvin, z: Marvin | ById(x, y) && ById(y, z) ensures ById(x, z) {
      AtMostTransitive(x.id, y.id, z.id);
    }
  }

  /** The selection is not empty, and no agent left out has a smaller id than one taken. */
  lemma SelectionIsLeast(group: seq<Marvin>, strategy: string)
    requires group != []
    ensures var executors := SelectExecutors(group, strategy);
            && |executors| == SelectionSize(strategy, |group|) > 0
            && multiset(executors) <= multiset(group)
            && (forall x, y | x in executors && y in multiset(group) - multiset(executors) :: ById(x, y))
  {
    var ordered := Sort(group, ById);
    IdOrder();
    SortIsStableSort(group, ById);
    var n := SelectionSize(strategy, |ordered|);
    assert ordered == ordered[..n] + ordered[n..];
    assert multiset(group) - multiset(ordered[..n]) == multiset(ordered[n..]);
    forall x, y | x in ordered[..n] && y in multiset(ordered[n..]) ensures ById(x, y) {
      assert y in ordered[n..];
    }
  }
}
