/** What a resolution gives, in terms of the columns of the rows and the fields of the selectors. */
module TargetReading {
  import opened Basics
  import opened Text
  import opened Sorting
  import opened Selectors
  import opened SelectorFields
  import opened TargetResolution
  import opened TargetSets
  import opened TargetLaws

  // ---------------------------------------------------------------------------------------------
  // Agents.

  /** The agent's columns are in all lists of the selector, its labels as wanted, and some resource is attached. */
  ghost predicate PassesColumns(m: Marvin, s: TargetSelector) {
    && (s.hostname.Some? ==> m.hostname in s.hostname.value)
    && (s.region.Some? ==> m.region in s.region.value)
    && (s.availabilityZone.Some? ==> m.availabilityZone in s.availabilityZone.value)
    && (s.provider.Some? ==> m.provider in s.provider.value)
    && (s.marvinIds.Some? ==> m.id in s.marvinIds.value)
    && (s.resourceIds.Some? ==> exists r :: r in m.attachments && r.id in s.resourceIds.value)
    && (s.labels.Some? ==> forall k | k in s.labels.value :: Carries(m.labels, k, s.labels.value[k]))
  }

  /** No selector, or no list in it, names no resource. */
  function Named(s: Option<TargetSelector>): Option<seq<string>> {
    if s.None? then None else s.value.resourceIds
  }

  ghost predicate Qualifies(m: Marvin, organization: string, capability: Capability, session: Option<TargetSelector>,
                            requested: Option<TargetSelector>) {
    && m.organization == organization && m.status == Online && capability.id in m.capabilities
    && (session.Some? ==> PassesColumns(m, session.value))
    && (requested.Some? ==> PassesColumns(m, requested.value))
    && (Named(session).Some? && Named(requested).Some? ==>
          exists r :: r in m.attachments && r.id in Named(session).value && r.id in Named(requested).value)
  }

  lemma SeenExactly(m: Marvin, s: TargetSelector)
    ensures Matches(m.Seen(), s) <==> PassesColumns(m, s)
  {
    MatchesExactly(m.Seen(), s);
    if s.resourceIds.Some? {
      assert (exists r :: r in m.Seen().attached && r in s.resourceIds.value)
        <==> exists r :: r in m.attachments && r.id in s.resourceIds.value by {
        AttachedIds(m, s.resourceIds.value, s.resourceIds.value);
      }
    }
  }

  lemma AttachedIds(m: Marvin, a: seq<string>, b: seq<string>)
    ensures (exists id :: id in m.Seen().attached && id in a && id in b)
       <==> exists r :: r in m.attachments && r.id in a && r.id in b
  {
    if id :| id in m.Seen().attached && id in a && id in b {
      var r :| r in m.attachments && r.id == id;
    }
    if r :| r in m.attachments && r.id in a && r.id in b {
      assert r.id in m.Seen().attached;
    }
  }

  lemma AnythingPasses(m: Marvin)
    ensures PassesColumns(m, ANYTHING)
  {
  }

  /** The rows that pass: online agents of the organization that advertise the capability and pass both selectors. */
  lemma QualifiesExactly(m: Marvin, organization: string, capability: Capability, session: Option<TargetSelector>,
                         requested: Option<TargetSelector>)
    ensures Eligible(m, organization, capability, Merge(session.GetOr(ANYTHING), requested.GetOr(ANYTHING)))
       <==> Qualifies(m, organization, capability, session, requested)
  {
    var own, other := session.GetOr(ANYTHING), requested.GetOr(ANYTHING);
    SeenExactly(m, own);
    SeenExactly(m, other);
    AnythingPasses(m);
    MergeImpliesBoth(m.Seen(), own, other);
    if Matches(m.Seen(), own) && Matches(m.Seen(), other) {
      BothAreMergeUpToResources(m.Seen(), own, other);
      if own.resourceIds.Some? && other.resourceIds.Some? {
        AttachedIds(m, own.resourceIds.value, other.resourceIds.value);
      }
    }
  }

  // ---------------------------------------------------------------------------------------------
  // Targets.

  predicate InResourceScope(scope: string) {
    scope == "cluster" || scope == "namespace" || scope == "service" || scope == "environment"
  }

  predicate InList(id: string, list: Option<seq<string>>) {
    list.Some? ==> id in list.value
  }

  /** An agent's target is itself, its host if it has a name, or each attached resource that counts. */
  ghost predicate HasTarget(m: Marvin, scope: string, session: Option<TargetSelector>,
                            requested: Option<TargetSelector>, t: string) {
    if InResourceScope(scope) then
      exists r :: r in m.attachments && r.id == t && r.organization == m.organization && r.enabled
                  && r.scopeType == scope && InList(r.id, Named(session)) && InList(r.id, Named(requested))
    else if scope == "host" && m.hostname != "" then t == m.hostname
    else t == m.id
  }

  lemma NamedInMerge(session: Option<TargetSelector>, requested: Option<TargetSelector>, id: string)
    ensures var merged := Merge(session.GetOr(ANYTHING), requested.GetOr(ANYTHING)).resourceIds;
            InList(id, merged) <==> InList(id, Named(session)) && InList(id, Named(requested))
  {
    var own, other := session.GetOr(ANYTHING), requested.GetOr(ANYTHING);
    MergeExactly(own, other);
    if own.resourceIds.Some? && other.resourceIds.Some? {
      IntersectIsCommon(own.resourceIds.value, other.resourceIds.value);
    }
  }

  lemma HasTargetExactly(m: Marvin, organization: string, capability: Capability, session: Option<TargetSelector>,
                         requested: Option<TargetSelector>, t: string)
    requires Qualifies(m, organization, capability, session, requested)
    ensures Serves(m, capability.scope, ResourceIdsOf(Merge(session.GetOr(ANYTHING), requested.GetOr(ANYTHING))), t)
       <==> HasTarget(m, capability.scope, session, requested, t)
  {
    var selector := Merge(session.GetOr(ANYTHING), requested.GetOr(ANYTHING));
    QualifiesExactly(m, organization, capability, session, requested);
    SeenExactly(m, selector);
    assert selector.resourceIds != Some([]);
    ServesExactly(m, capability.scope, session, requested, t);
  }

  lemma ServesExactly(m: Marvin, scope: string, session: Option<TargetSelector>, requested: Option<TargetSelector>,
                      t: string)
    requires Merge(session.GetOr(ANYTHING), requested.GetOr(ANYTHING)).resourceIds != Some([])
    ensures Serves(m, scope, ResourceIdsOf(Merge(session.GetOr(ANYTHING), requested.GetOr(ANYTHING))), t)
       <==> HasTarget(m, scope, session, requested, t)
  {
    var merged := Merge(session.GetOr(ANYTHING), requested.GetOr(ANYTHING)).resourceIds;
    forall id ensures InList(id, merged) <==> InList(id, Named(session)) && InList(id, Named(requested)) {
      NamedInMerge(session, requested, id);
    }
  }

  /** The agents that can serve a target. */
  ghost predicate CanServe(m: Marvin, marvins: seq<Marvin>, organization: string, capability: Capability,
                           session: Option<TargetSelector>, requested: Option<TargetSelector>, t: string) {
    && m in marvins && Qualifies(m, organization, capability, session, requested)
    && HasTarget(m, capability.scope, session, requested, t)
  }

  lemma CanServeExactly(m: Marvin, marvins: seq<Marvin>, organization: string, capability: Capability,
                        session: Option<TargetSelector>, requested: Option<TargetSelector>, t: string)
    ensures Candidate(m, marvins, organization, capability,
                      Merge(session.GetOr(ANYTHING), requested.GetOr(ANYTHING)), t)
       <==> CanServe(m, marvins, organization, capability, session, requested, t)
  {
    QualifiesExactly(m, organization, capability, session, requested);
    if Qualifies(m, organization, capability, session, requested) {
      HasTargetExactly(m, organization, capability, session, requested, t);
    }
  }

  // ---------------------------------------------------------------------------------------------
  // The capability.

  predicate IsMeant(c: Capability, organization: string, ref: CapabilityRef) {
    c.organization == organization && c.enabled && match ref case Object(o) => c == o case Named(name) => c.name == name
  }

  /** The given capability, or the first of the name, enabled and of the organization. */
  ghost predicate IsFound(c: Capability, capabilities: seq<Capability>, organization: string, ref: CapabilityRef) {
    && IsMeant(c, organization, ref)
    && (ref.Named? ==> exists i :: 0 <= i < |capabilities| && capabilities[i] == c
                                   && forall j | 0 <= j < i :: !IsMeant(capabilities[j], organization, ref))
  }

  lemma {:induction false} FoundExactly(capabilities: seq<Capability>, organization: string, ref: CapabilityRef)
    ensures forall c :: FindCapability(capabilities, organization, ref) == Some(c)
                   <==> IsFound(c, capabilities, organization, ref)
  {
    if ref.Named? && capabilities != [] {
      FoundExactly(capabilities[1..], organization, ref);
      forall c ensures IsFound(c, capabilities, organization, ref)
                  <==> if IsMeant(capabilities[0], organization, ref) then c == capabilities[0]
                       else IsFound(c, capabilities[1..], organization, ref)
      {
        FoundCons(c, capabilities, organization, ref);
      }
    }
  }

  lemma FoundCons(c: Capability, capabilities: seq<Capability>, organization: string, ref: CapabilityRef)
    requires ref.Named? && capabilities != []
    ensures IsFound(c, capabilities, organization, ref)
       <==> if IsMeant(capabilities[0], organization, ref) then c == capabilities[0]
            else IsFound(c, capabilities[1..], organization, ref)
  {
    if IsMeant(capabilities[0], organization, ref) {
      if c == capabilities[0] {
        assert capabilities[0] == c;
      }
    } else {
      if i :| 0 <= i < |capabilities| && capabilities[i] == c
              && forall j | 0 <= j < i :: !IsMeant(capabilities[j], organization, ref) {
        if IsMeant(c, organization, ref) {
          assert capabilities[1..][i-1] == c;
          assert forall j | 0 <= j < i - 1 :: capabilities[1..][j] == capabilities[j+1];
        }
      }
      if i :| 0 <= i < |capabilities| - 1 && capabilities[1..][i] == c
              && forall j | 0 <= j < i :: !IsMeant(capabilities[1..][j], organization, ref) {
        assert capabilities[i+1] == c;
        forall j | 0 <= j < i + 1 ensures !IsMeant(capabilities[j], organization, ref) {
          assert j > 0 ==> capabilities[1..][j-1] == capabilities[j];
        }
      }
    }
  }

  /** An unknown capability is refused, and nothing else is refused as one. */
  lemma NotFoundExactly(marvins: seq<Marvin>, capabilities: seq<Capability>, organization: string, ref: CapabilityRef,
                        requested: Option<TargetSelector>, session: Option<TargetSelector>)
    ensures Resolve(marvins, capabilities, organization, ref, requested, session) == Err(CapabilityNotFound)
       <==> forall c :: !IsFound(c, capabilities, organization, ref)
  {
    FoundExactly(capabilities, organization, ref);
    UnknownExactly(marvins, capabilities, organization, ref, requested, session);
    var found := FindCapability(capabilities, organization, ref);
    assert found.Some? ==> IsFound(found.value, capabilities, organization, ref);
  }

  lemma UnknownExactly(marvins: seq<Marvin>, capabilities: seq<Capability>, organization: string, ref: CapabilityRef,
                       requested: Option<TargetSelector>, session: Option<TargetSelector>)
    ensures Resolve(marvins, capabilities, organization, ref, requested, session) == Err(CapabilityNotFound)
       <==> FindCapability(capabilities, organization, ref) == None
  {
  }

  // ---------------------------------------------------------------------------------------------
  // The outcome.

  /** No selector names a resource, or their lists share none. */
  ghost predicate NamesNone(session: Option<TargetSelector>, requested: Option<TargetSelector>) {
    (Named(session).None? && Named(requested).None?)
    || forall id :: !(InList(id, Named(session)) && InList(id, Named(requested)))
  }

  lemma NamesNoneExactly(session: Option<TargetSelector>, requested: Option<TargetSelector>)
    ensures ResourceIdsOf(Merge(session.GetOr(ANYTHING), requested.GetOr(ANYTHING))) == []
       <==> NamesNone(session, requested)
  {
    var merged := Merge(session.GetOr(ANYTHING), requested.GetOr(ANYTHING)).resourceIds;
    MergeExactly(session.GetOr(ANYTHING), requested.GetOr(ANYTHING));
    forall id ensures InList(id, merged) <==> InList(id, Named(session)) && InList(id, Named(requested)) {
      NamedInMerge(session, requested, id);
    }
    if merged.Some? && merged.value != [] {
      assert InList(merged.value[0], merged);
    }
  }

  /** When a resource is asked for. */
  lemma ResourceAskedExactly(marvins: seq<Marvin>, capabilities: seq<Capability>, organization: string,
                             ref: CapabilityRef, requested: Option<TargetSelector>, session: Option<TargetSelector>,
                             c: Capability)
    requires Keyed(marvins) && IsFound(c, capabilities, organization, ref)
    ensures Resolve(marvins, capabilities, organization, ref, requested, session) == Err(SelectorRequiresResource) <==>
              (c.policy.requiresResource && NamesNone(session, requested))
              || (InResourceScope(c.scope)
                  && forall m, t :: !CanServe(m, marvins, organization, c, session, requested, t))
  {
    FoundExactly(capabilities, organization, ref);
    ResourceErrorExactly(marvins, capabilities, organization, ref, requested, session, c);
    NamesNoneExactly(session, requested);
    UnservedExactly(marvins, organization, c, session, requested);
  }

  lemma UnservedExactly(marvins: seq<Marvin>, organization: string, c: Capability, session: Option<TargetSelector>,
                        requested: Option<TargetSelector>)
    ensures Unserved(marvins, organization, c, Merge(session.GetOr(ANYTHING), requested.GetOr(ANYTHING)))
       <==> forall m, t :: !CanServe(m, marvins, organization, c, session, requested, t)
  {
    var merged := Merge(session.GetOr(ANYTHING), requested.GetOr(ANYTHING));
    forall m, t ensures Candidate(m, marvins, organization, c, merged, t)
                   <==> CanServe(m, marvins, organization, c, session, requested, t)
    {
      CanServeExactly(m, marvins, organization, c, session, requested, t);
    }
  }

  /** The ids are those of the first agents by id, and as many as the strategy asks for. */
  ghost predicate IsSelection(ids: seq<string>, group: seq<Marvin>, strategy: string) {
    && (forall i, j | 0 <= i < j < |ids| :: ids[i] != ids[j] && AtMost(ids[i], ids[j]))
    && (forall id | id in ids :: exists m :: m in group && m.id == id)
    && (forall m, id | m in group && m.id !in ids && id in ids :: AtMost(id, m.id))
    && |ids| == if strategy == "all" then |group| else if strategy == "quorum" then (|group| + 1) / 2 else 1
  }

  /** The targets are those some agent can serve, each served by the first of its agents. */
  lemma TargetsExactly(marvins: seq<Marvin>, capabilities: seq<Capability>, organization: string, ref: CapabilityRef,
                       requested: Option<TargetSelector>, session: Option<TargetSelector>, c: Capability, t: string)
    returns (group: seq<Marvin>)
    requires Keyed(marvins) && IsFound(c, capabilities, organization, ref)
    requires Resolve(marvins, capabilities, organization, ref, requested, session).Ok?
    ensures var ts := Resolve(marvins, capabilities, organization, ref, requested, session).value;
            && DistinctIds(group)
            && (forall m :: m in group <==> CanServe(m, marvins, organization, c, session, requested, t))
            && (t in ts.targets <==> group != [])
            && (t in ts.targets ==> IsSelection(ts.targets[t], group, c.strategy))
  {
    FoundExactly(capabilities, organization, ref);
    group := GroupOf(marvins, organization, c, Merge(session.GetOr(ANYTHING), requested.GetOr(ANYTHING)), t);
    ResolvedTargets(marvins, capabilities, organization, ref, requested, session, c, t);
    GroupCanServe(marvins, organization, c, session, requested, t);
    if group != [] {
      SelectionIsFirst(group, c.strategy);
    }
  }

  lemma ResolvedTargets(marvins: seq<Marvin>, capabilities: seq<Capability>, organization: string, ref: CapabilityRef,
                        requested: Option<TargetSelector>, session: Option<TargetSelector>, c: Capability, t: string)
    requires FindCapability(capabilities, organization, ref) == Some(c)
    requires Resolve(marvins, capabilities, organization, ref, requested, session).Ok?
    ensures var targets := Resolve(marvins, capabilities, organization, ref, requested, session).value.targets;
            var merged := Merge(session.GetOr(ANYTHING), requested.GetOr(ANYTHING));
            var group := GroupOf(marvins, organization, c, merged, t);
            && (t in targets <==> group != [])
            && (t in targets ==> targets[t] == Ids(SelectExecutors(group, c.strategy)))
  {
    var merged := Merge(session.GetOr(ANYTHING), requested.GetOr(ANYTHING));
    var candidates := Candidates(marvins, organization, c, merged);
    var targets := Resolve(marvins, capabilities, organization, ref, requested, session).value.targets;
    assert targets == Executors(candidates, c, merged);
    assert targets.Keys == AllTargets(candidates, c.scope, ResourceIdsOf(merged));
  }

  lemma GroupCanServe(marvins: seq<Marvin>, organization: string, c: Capability, session: Option<TargetSelector>,
                      requested: Option<TargetSelector>, t: string)
    requires Keyed(marvins)
    ensures var merged := Merge(session.GetOr(ANYTHING), requested.GetOr(ANYTHING));
            var group := GroupOf(marvins, organization, c, merged, t);
            && DistinctIds(group)
            && (forall m :: m in group <==> CanServe(m, marvins, organization, c, session, requested, t))
  {
    var merged := Merge(session.GetOr(ANYTHING), requested.GetOr(ANYTHING));
    var group := GroupOf(marvins, organization, c, merged, t);
    GroupIsCandidates(marvins, organization, c, merged, t);
    forall m ensures m in group <==> CanServe(m, marvins, organization, c, session, requested, t) {
      CanServeExactly(m, marvins, organization, c, session, requested, t);
    }
    CandidatesKeyed(marvins, organization, c, merged);
    GroupKeyed(Candidates(marvins, organization, c, merged), c.scope, ResourceIdsOf(merged), t);
  }

  ghost predicate DistinctIds(marvins: seq<Marvin>) {
    forall i, j | 0 <= i < j < |marvins| :: marvins[i].id != marvins[j].id
  }

  lemma {:induction false} GroupKeyed(marvins: seq<Marvin>, scope: string, resourceIds: seq<string>, t: string)
    requires DistinctIds(marvins)
    ensures DistinctIds(Group(marvins, scope, resourceIds, t))
  {
    if marvins != [] {
      var init, last := marvins[..|marvins|-1], marvins[|marvins|-1];
      GroupKeyed(init, scope, resourceIds, t);
      var rest := Group(init, scope, resourceIds, t);
      forall i | 0 <= i < |rest| ensures rest[i].id != last.id {
        assert rest[i] in rest;
        var j :| 0 <= j < |init| && init[j] == rest[i];
        assert marvins[j] == init[j];
      }
      var group := Group(marvins, scope, resourceIds, t);
      assert group == if Serves(last, scope, resourceIds, t) then rest + [last] else rest;
      assert forall i, j | 0 <= i < j < |rest| :: rest[i].id != rest[j].id;
      assert forall i, j | 0 <= i < j < |group| :: group[i].id != group[j].id;
    }
  }

  lemma SelectionIsFirst(group: seq<Marvin>, strategy: string)
    requires group != [] && DistinctIds(group)
    ensures IsSelection(Ids(SelectExecutors(group, strategy)), group, strategy)
  {
    var ordered, executors := Sort(group, ById), SelectExecutors(group, strategy);
    var ids := Ids(executors);
    IdOrder();
    SortIsStableSort(group, ById);
    SelectionIsLeast(group, strategy);
    DistinctPermutation(group, ordered);
    forall i, j | 0 <= i < j < |ids| ensures ids[i] != ids[j] && AtMost(ids[i], ids[j]) {
      assert ById(ordered[i], ordered[j]);
    }
    forall id | id in ids ensures exists m :: m in group && m.id == id {
      var m := ExecutorWithId(group, strategy, id);
    }
    forall m, id | m in group && m.id !in ids && id in ids ensures AtMost(id, m.id) {
      var i :| 0 <= i < |ids| && ids[i] == id;
      forall j | 0 <= j < |executors| ensures executors[j] != m {
        assert ids[j] == executors[j].id;
      }
      ExecutorsAreLeast(group, strategy, executors[i], m);
    }
  }

  lemma DistinctPermutation(s: seq<Marvin>, r: seq<Marvin>)
    requires multiset(s) == multiset(r) && DistinctIds(s)
    ensures DistinctIds(r)
  {
    forall i, j | 0 <= i < j < |r| ensures r[i].id != r[j].id {
      assert r[i] in multiset(s) && r[j] in multiset(s);
      if r[i] == r[j] {
        OccursTwice(r, i, j);
        OccursOnce(s, r[i]);
      }
    }
  }

  // ---------------------------------------------------------------------------------------------
  // The snapshot.

  function Concat(targets: map<string, seq<string>>, keys: seq<string>): seq<string>
    requires forall k <- keys :: k in targets
  {
    if keys == [] then [] else Concat(targets, keys[..|keys|-1]) + targets[keys[|keys|-1]]
  }

  lemma {:induction false} AddNewIsFirsts(s: seq<string>, ids: seq<string>)
    ensures AddNew(Firsts(s), ids) == Firsts(s + ids)
  {
    if ids == [] {
      assert s + ids == s;
    } else {
      var init, x := ids[..|ids|-1], ids[|ids|-1];
      AddNewIsFirsts(s, init);
      FirstsSnoc(s + init, x);
      assert s + ids == s + init + [x];
    }
  }

  lemma {:induction false} SnapshotIsFirsts(targets: map<string, seq<string>>, keys: seq<string>)
    requires forall k <- keys :: k in targets
    ensures Snapshot(targets, keys) == Firsts(Concat(targets, keys))
  {
    if keys != [] {
      SnapshotIsFirsts(targets, keys[..|keys|-1]);
      AddNewIsFirsts(Concat(targets, keys[..|keys|-1]), targets[keys[|keys|-1]]);
    }
  }

  /**
   * The snapshot lists the executors of the targets by target, each once; with its count go the number of targets and
   * the class of the fan-out, and it stays within the hard limit. The selector kept is the merged one.
   */
  lemma SnapshotExactly(marvins: seq<Marvin>, capabilities: seq<Capability>, organization: string, ref: CapabilityRef,
                        requested: Option<TargetSelector>, session: Option<TargetSelector>, c: Capability)
    returns (keys: seq<string>)
    requires IsFound(c, capabilities, organization, ref)
    requires Resolve(marvins, capabilities, organization, ref, requested, session).Ok?
    ensures var ts := Resolve(marvins, capabilities, organization, ref, requested, session).value;
            && (forall k :: k in keys <==> k in ts.targets)
            && (forall i, j | 0 <= i < j < |keys| :: keys[i] != keys[j] && AtMost(keys[i], keys[j]))
            && ts.snapshot == Firsts(Concat(ts.targets, keys))
            && ts.count == |ts.snapshot| <= c.policy.absoluteMaxTargets && ts.logicalTargetCount == |ts.targets|
            && ts.fanoutClass == (if ts.count < 2 then "single" else if ts.count < 11 then "small"
                                  else if ts.count < 51 then "medium" else "large")
            && ts.selector == Merge(if session.Some? then session.value else NOTHING,
                                    if requested.Some? then requested.value else NOTHING)
  {
    FoundExactly(capabilities, organization, ref);
    var ts := Resolve(marvins, capabilities, organization, ref, requested, session).value;
    keys := SortedKeys(ts.targets.Keys);
    SnapshotIsFirsts(ts.targets, keys);
    assert |ts.targets| == |ts.targets.Keys|;
  }

  const NOTHING := TargetSelector(None, None, None, None, None, None, None)

  /** A fan-out is refused only above the hard limit, with its size. */
  lemma FanOutRefused(marvins: seq<Marvin>, capabilities: seq<Capability>, organization: string, ref: CapabilityRef,
                      requested: Option<TargetSelector>, session: Option<TargetSelector>, c: Capability, n: nat)
    requires IsFound(c, capabilities, organization, ref)
    requires Resolve(marvins, capabilities, organization, ref, requested, session) == Err(FanOutLimitExceeded(n))
    ensures n > c.policy.absoluteMaxTargets
    ensures var merged := Merge(session.GetOr(ANYTHING), requested.GetOr(ANYTHING));
            var targets := Executors(Candidates(marvins, organization, c, merged), c, merged);
            n == |Firsts(Concat(targets, SortedKeys(targets.Keys)))|
  {
    FoundExactly(capabilities, organization, ref);
    var merged := Merge(session.GetOr(ANYTHING), requested.GetOr(ANYTHING));
    var targets := Executors(Candidates(marvins, organization, c, merged), c, merged);
    SnapshotIsFirsts(targets, SortedKeys(targets.Keys));
  }
}
