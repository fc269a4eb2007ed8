/** From candidates to an immutable, canonical snapshot: resolve_targets in apps/marvins/discovery.py. */
module TargetSets {
  import opened Basics
  import opened Text
  import opened Sorting
  import opened Selectors
  import opened TargetResolution

  datatype CapabilityRef = Object(capability: Capability) | Named(name: string)

  // ---------------------------------------------------------------------------------------------
  // Sorted keys.

  predicate IsLeast(k: string, keys: set<string>) {
    k in keys && forall k' | k' in keys :: AtMost(k, k')
  }

  lemma {:induction false} LeastExists(keys: set<string>) returns (k: string)
    requires keys != {}
    ensures IsLeast(k, keys)
  {
    k :| k in keys;
    if keys == {k} {
      AtMostTotal(k, k);
    } else {
      var least := LeastExists(keys - {k});
      AtMostTotal(k, least);
      AtMostTotal(k, k);
      if AtMost(k, least) {
        forall k' | k' in keys ensures AtMost(k, k') {
          if k' != k { AtMostTransitive(k, least, k'); }
        }
      } else {
        k := least;
      }
    }
  }


  lemma LeastOf(keys: set<string>)
    requires keys != {}
    ensures exists k :: IsLeast(k, keys)
  {
    var k := LeastExists(keys);
  }

  function SortedKeys(keys: set<string>): (ordered: seq<string>)
    ensures forall k :: k in ordered <==> k in keys
    ensures forall i, j | 0 <= i < j < |ordered| :: ordered[i] != ordered[j] && AtMost(ordered[i], ordered[j])
  {
    if keys == {} then []
    else [Least(keys)] + SortedKeys(keys - {Least(keys)})
  }

  function Least(keys: set<string>): (k: string)
    requires keys != {}
    ensures IsLeast(k, keys)
  {
    LeastOf(keys);
    LeastUnique(keys);
    var k :| k in keys && IsLeast(k, keys); k
  }

  lemma LeastUnique(keys: set<string>)
    ensures forall a, b :: IsLeast(a, keys) && IsLeast(b, keys) ==> a == b
  {
    forall a, b | IsLeast(a, keys) && IsLeast(b, keys) ensures a == b {
      AtMostAntisymmetric(a, b);
    }
  }

  // ---------------------------------------------------------------------------------------------
  // Specification.

  function FindCapability(capabilities: seq<Capability>, organization: string, ref: CapabilityRef): Option<Capability> {
    match ref
    case Object(c) => if c.organization == organization && c.enabled then Some(c) else None
    case Named(name) =>
      if capabilities == [] then None
      else if capabilities[0].organization == organization && capabilities[0].enabled && capabilities[0].name == name
      then Some(capabilities[0])
      else FindCapability(capabilities[1..], organization, ref)
  }

  /** The rows that pass, in the order of their ids. */
  function Candidates(marvins: seq<Marvin>, organization: string, capability: Capability,
                      selector: TargetSelector): seq<Marvin> {
    Sort(Eligibles(marvins, organization, capability, selector), ById)
  }

  function TargetsOf(m: Marvin, scope: string, resourceIds: seq<string>): (targets: set<string>)
    ensures forall t :: t in targets <==> Serves(m, scope, resourceIds, t)
  {
    if scope in RESOURCE_SCOPES then set r | r in m.attachments && Counts(r, m, scope, resourceIds) :: r.id
    else {if scope == "host" && m.hostname != "" then m.hostname else m.id}
  }

  function AllTargets(marvins: seq<Marvin>, scope: string, resourceIds: seq<string>): (targets: set<string>)
    ensures forall t :: t in targets <==> Group(marvins, scope, resourceIds, t) != []
  {
    ServedTargets(marvins, scope, resourceIds);
    set m, t | m in marvins && t in TargetsOf(m, scope, resourceIds) :: t
  }

  lemma ServedTargets(marvins: seq<Marvin>, scope: string, resourceIds: seq<string>)
    ensures forall t :: (exists m :: m in marvins && t in TargetsOf(m, scope, resourceIds))
                   <==> Group(marvins, scope, resourceIds, t) != []
  {
    forall t ensures (exists m :: m in marvins && t in TargetsOf(m, scope, resourceIds))
                <==> Group(marvins, scope, resourceIds, t) != []
    {
      var group := Group(marvins, scope, resourceIds, t);
      if m :| m in marvins && t in TargetsOf(m, scope, resourceIds) {
        assert m in group;
      } else if group != [] {
        assert group[0] in marvins;
      }
    }
  }

  function Ids(marvins: seq<Marvin>): (ids: seq<string>)
    ensures |ids| == |marvins| && forall i | 0 <= i < |ids| :: ids[i] == marvins[i].id
  {
    seq(|marvins|, i requires 0 <= i < |marvins| => marvins[i].id)
  }

  function Executors(candidates: seq<Marvin>, capability: Capability,
                     selector: TargetSelector): map<string, seq<string>> {
    map t | t in AllTargets(candidates, capability.scope, ResourceIdsOf(selector)) ::
      Ids(SelectExecutors(Group(candidates, capability.scope, ResourceIdsOf(selector), t), capability.strategy))
  }

  function AddNew(snapshot: seq<string>, ids: seq<string>): seq<string> {
    if ids == [] then snapshot
    else
      var rest := AddNew(snapshot, ids[..|ids|-1]);
      if ids[|ids|-1] in rest then rest else rest + [ids[|ids|-1]]
  }

  /** The executors of the targets in the order of the targets, each kept where it first appears. */
  function Snapshot(targets: map<string, seq<string>>, keys: seq<string>): seq<string>
    requires forall k <- keys :: k in targets
  {
    if keys == [] then [] else AddNew(Snapshot(targets, keys[..|keys|-1]), targets[keys[|keys|-1]])
  }

  function FanoutClass(count: nat): string {
    if count <= 1 then "single" else if count <= 10 then "small" else if count <= 50 then "medium" else "large"
  }

  const ANYTHING := TargetSelector(None, None, None, None, None, None, None)

  function ResolveFor(candidates: seq<Marvin>, capability: Capability,
                      selector: TargetSelector): Result<TargetSet, Error> {
    var targets := Executors(candidates, capability, selector);
    if capability.scope in RESOURCE_SCOPES && targets.Keys == {} then Err(SelectorRequiresResource)
    else
      var snapshot := Snapshot(targets, SortedKeys(targets.Keys));
      if |snapshot| > capability.policy.absoluteMaxTargets then Err(FanOutLimitExceeded(|snapshot|))
      else Ok(TargetSet(selector, snapshot, |snapshot|, |targets.Keys|, FanoutClass(|snapshot|), targets))
  }

  function Resolve(marvins: seq<Marvin>, capabilities: seq<Capability>, organization: string, ref: CapabilityRef,
                   requested: Option<TargetSelector>, session: Option<TargetSelector>): Result<TargetSet, Error>
  {
    match FindCapability(capabilities, organization, ref)
    case None => Err(CapabilityNotFound)
    case Some(capability) =>
      var selector := Merge(session.GetOr(ANYTHING), requested.GetOr(ANYTHING));
      if capability.policy.requiresResource && ResourceIdsOf(selector) == [] then Err(SelectorRequiresResource)
      else ResolveFor(Candidates(marvins, organization, capability, selector), capability, selector)
  }

  // ---------------------------------------------------------------------------------------------
  // The code.

  method ResolveTargets(marvins: seq<Marvin>, capabilities: seq<Capability>, organization: string, ref: CapabilityRef,
                        requested: Option<TargetSelector>, session: Option<TargetSelector>)
    returns (r: Result<TargetSet, Error>)
    requires Keyed(marvins)
    ensures r == Resolve(marvins, capabilities, organization, ref, requested, session)
  {
    var found := FindCapability(capabilities, organization, ref);
    if found.None? {
      return Err(CapabilityNotFound);
    }
    var capability := found.value;
    var selector := MergeWith(session.GetOr(ANYTHING), requested.GetOr(ANYTHING));
    if capability.policy.requiresResource && ResourceIdsOf(selector) == [] {
      return Err(SelectorRequiresResource);
    }
    var candidates := ApplySelector(marvins, organization, capability, selector);
    candidates := Sort(candidates, ById);
    CandidatesKeyed(marvins, organization, capability, selector);
    r := ResolveCandidates(candidates, capability, selector);
  }

  method ResolveCandidates(candidates: seq<Marvin>, capability: Capability, selector: TargetSelector)
    returns (r: Result<TargetSet, Error>)
    requires Keyed(candidates)
    ensures r == ResolveFor(candidates, capability, selector)
  {
    var logical := ResolveLogicalTargets(capability, candidates, selector);
    ghost var expected := Executors(candidates, capability, selector);
    NoTargets(candidates, capability, selector);
    if logical.Err? {
      return Err(SelectorRequiresResource);
    }
    GroupExecutors(logical.value, candidates, capability, selector);
    var targets, snapshot := SelectAll(logical.value, capability.strategy, expected);
    if |snapshot| > capability.policy.absoluteMaxTargets {
      return Err(FanOutLimitExceeded(|snapshot|));
    }
    r := Ok(TargetSet(selector, snapshot, |snapshot|, |logical.value.Keys|, FanoutClass(|snapshot|), targets));
  }

  method ApplySelector(marvins: seq<Marvin>, organization: string, capability: Capability, selector: TargetSelector)
    returns (r: seq<Marvin>)
    ensures r == Eligibles(marvins, organization, capability, selector)
  {
    r := [];
    for n := 0 to |marvins|
      invariant r == Eligibles(marvins[..n], organization, capability, selector)
    {
      assert marvins[..n+1][..n] == marvins[..n];
      if Eligible(marvins[n], organization, capability, selector) {
        r := r + [marvins[n]];
      }
    }
    assert marvins[..|marvins|] == marvins;
  }

  lemma NoTargets(candidates: seq<Marvin>, capability: Capability, selector: TargetSelector)
    ensures Executors(candidates, capability, selector).Keys == {}
       <==> forall t :: Group(candidates, capability.scope, ResourceIdsOf(selector), t) == []
  {
    var targets := AllTargets(candidates, capability.scope, ResourceIdsOf(selector));
    assert Executors(candidates, capability, selector).Keys == targets;
    if t :| t in targets {
      assert Group(candidates, capability.scope, ResourceIdsOf(selector), t) != [];
    }
  }

  lemma GroupExecutors(groups: Groups, candidates: seq<Marvin>, capability: Capability, selector: TargetSelector)
    requires AreGroups(groups, candidates, capability.scope, ResourceIdsOf(selector))
    ensures var expected := Executors(candidates, capability, selector);
            expected.Keys == groups.Keys
            && forall t | t in groups :: expected[t] == Ids(SelectExecutors(groups[t], capability.strategy))
  {
    var expected := Executors(candidates, capability, selector);
    forall t ensures t in groups <==> t in expected {
      assert GroupIn(groups, t) == Group(candidates, capability.scope, ResourceIdsOf(selector), t);
    }
    forall t | t in groups ensures expected[t] == Ids(SelectExecutors(groups[t], capability.strategy)) {
      assert GroupIn(groups, t) == Group(candidates, capability.scope, ResourceIdsOf(selector), t);
    }
  }

  method SelectAll(groups: Groups, strategy: string, ghost expected: map<string, seq<string>>)
    returns (targets: map<string, seq<string>>, snapshot: seq<string>)
    requires expected.Keys == groups.Keys
    requires forall t | t in groups :: expected[t] == Ids(SelectExecutors(groups[t], strategy))
    ensures targets == expected && snapshot == Snapshot(expected, SortedKeys(expected.Keys))
  {
    var keys := SortedKeys(groups.Keys);
    targets, snapshot := SelectInOrder(groups, keys, strategy, expected);
    SameTargets(targets, expected, keys);
  }

  lemma SameTargets(targets: map<string, seq<string>>, expected: map<string, seq<string>>, keys: seq<string>)
    requires forall k | k in expected :: k in keys
    requires forall k <- keys :: k in targets
    requires forall k | k in targets :: k in expected && targets[k] == expected[k]
    ensures targets == expected
  {
    forall k | k in expected ensures k in targets {
      assert k in keys;
    }
  }

  /** The selection loop over the targets in the order of their keys. */
  method SelectInOrder(groups: Groups, keys: seq<string>, strategy: string, ghost expected: map<string, seq<string>>)
    returns (targets: map<string, seq<string>>, snapshot: seq<string>)
    requires forall k <- keys :: k in groups && k in expected
    requires forall t | t in groups && t in expected :: expected[t] == Ids(SelectExecutors(groups[t], strategy))
    ensures forall k <- keys :: k in targets
    ensures forall k | k in targets :: k in expected && targets[k] == expected[k]
    ensures snapshot == Snapshot(expected, keys)
  {
    targets, snapshot := map[], [];
    for n := 0 to |keys|
      invariant SelectedSoFar(targets, expected, keys, n)
      invariant snapshot == Snapshot(expected, keys[..n])
    {
      assert keys[n] in groups;
      var executors := SelectIds(groups[keys[n]], strategy);
      OneMoreTarget(targets, expected, keys, n);
      targets := targets[keys[n] := executors];
      SnapshotSnoc(expected, keys, n);
      snapshot := AddExecutors(snapshot, executors);
    }
    assert keys[..|keys|] == keys;
  }

  ghost predicate SelectedSoFar(targets: map<string, seq<string>>, expected: map<string, seq<string>>,
                                keys: seq<string>, n: nat)
    requires n <= |keys|
  {
    && (forall i | 0 <= i < n :: keys[i] in targets)
    && (forall k | k in targets :: k in expected && targets[k] == expected[k])
  }

  lemma OneMoreTarget(targets: map<string, seq<string>>, expected: map<string, seq<string>>, keys: seq<string>, n: nat)
    requires n < |keys| && keys[n] in expected && SelectedSoFar(targets, expected, keys, n)
    ensures SelectedSoFar(targets[keys[n] := expected[keys[n]]], expected, keys, n + 1)
  {
  }

  method SelectIds(group: seq<Marvin>, strategy: string) returns (ids: seq<string>)
    ensures ids == Ids(SelectExecutors(group, strategy))
  {
    ids := Ids(SelectExecutors(group, strategy));
  }

  lemma SnapshotSnoc(targets: map<string, seq<string>>, keys: seq<string>, n: nat)
    requires n < |keys| && forall k <- keys :: k in targets
    ensures Snapshot(targets, keys[..n+1]) == AddNew(Snapshot(targets, keys[..n]), targets[keys[n]])
  {
    assert keys[..n+1][..n] == keys[..n];
  }

  method AddExecutors(snapshot: seq<string>, ids: seq<string>) returns (snapshot': seq<string>)
    ensures snapshot' == AddNew(snapshot, ids)
  {
    snapshot' := snapshot;
    for n := 0 to |ids|
      invariant snapshot' == AddNew(snapshot, ids[..n])
    {
      assert ids[..n+1][..n] == ids[..n];
      if ids[n] !in snapshot' {
        snapshot' := snapshot' + [ids[n]];
      }
    }
    assert ids[..|ids|] == ids;
  }

  // ---------------------------------------------------------------------------------------------
  // Candidates are keyed, and do not depend on the order of the rows.

  lemma {:induction false} EligiblesMembers(marvins: seq<Marvin>, organization: string, capability: Capability,
                                            selector: TargetSelector)
    ensures var r := Eligibles(marvins, organization, capability, selector);
            forall m :: m in r <==> m in marvins && Eligible(m, organization, capability, selector)
    ensures Keyed(marvins) ==> Keyed(Eligibles(marvins, organization, capability, selector))
  {
    if marvins != [] {
      var init, m := marvins[..|marvins|-1], marvins[|marvins|-1];
      EligiblesMembers(init, organization, capability, selector);
      assert marvins == init + [m];
      if Keyed(marvins) && Eligible(m, organization, capability, selector) {
        KeyedSnoc(marvins, Eligibles(init, organization, capability, selector));
      }
    }
  }

  lemma KeyedSnoc(marvins: seq<Marvin>, some: seq<Marvin>)
    requires marvins != [] && Keyed(marvins) && Keyed(some)
    requires forall m <- some :: m in marvins[..|marvins|-1]
    ensures Keyed(some + [marvins[|marvins|-1]])
  {
    var m := marvins[|marvins|-1];
    forall i | 0 <= i < |some| ensures some[i].id != m.id {
      assert some[i] in some && some[i] in marvins[..|marvins|-1];
    }
  }

  lemma CandidatesKeyed(marvins: seq<Marvin>, organization: string, capability: Capability, selector: TargetSelector)
    requires Keyed(marvins)
    ensures Keyed(Candidates(marvins, organization, capability, selector))
    ensures forall m :: m in Candidates(marvins, organization, capability, selector)
                   <==> m in marvins && Eligible(m, organization, capability, selector)
  {
    var s := Eligibles(marvins, organization, capability, selector);
    EligiblesMembers(marvins, organization, capability, selector);
    IdOrder();
    SortIsStableSort(s, ById);
    KeyedPermutation(s, Sort(s, ById));
  }

  lemma KeyedPermutation(s: seq<Marvin>, r: seq<Marvin>)
    requires Keyed(s) && multiset(s) == multiset(r)
    ensures Keyed(r) && forall m :: m in r <==> m in s
  {
    forall m ensures m in r <==> m in s {
      assert m in multiset(r) <==> m in multiset(s);
    }
    forall i, j | 0 <= i < j < |r| ensures r[i].id != r[j].id {
      if r[i].id == r[j].id {
        assert r[i] in s && r[j] in s;
        assert r[i] == r[j];
        OccursTwice(r, i, j);
        OccursOnce(s, r[i]);
        assert false;
      }
    }
  }

  lemma OccursTwice(r: seq<Marvin>, i: nat, j: nat)
    requires i < j < |r| && r[i] == r[j]
    ensures multiset(r)[r[i]] >= 2
  {
    assert r == r[..j] + [r[j]] + r[j+1..];
    assert r[i] in r[..j];
  }

  lemma {:induction false} OccursOnce(s: seq<Marvin>, m: Marvin)
    requires forall i, j | 0 <= i < j < |s| :: s[i].id != s[j].id
    ensures multiset(s)[m] <= 1
  {
    if s != [] {
      OccursOnce(s[..|s|-1], m);
      assert s == s[..|s|-1] + [s[|s|-1]];
    }
  }
}
