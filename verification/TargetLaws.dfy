/** What a resolved target set promises. */
module TargetLaws {
  import opened Basics
  import opened Text
  import opened Sorting
  import opened Selectors
  import opened TargetResolution
  import opened TargetSets

  ghost predicate NoDuplicates(s: seq<string>) {
    forall i, j | 0 <= i < j < |s| :: s[i] != s[j]
  }

  lemma {:induction false} AddNewMembers(snapshot: seq<string>, ids: seq<string>)
    requires NoDuplicates(snapshot)
    ensures NoDuplicates(AddNew(snapshot, ids))
    ensures forall x :: x in AddNew(snapshot, ids) <==> x in snapshot || x in ids
  {
    if ids != [] {
      AddNewMembers(snapshot, ids[..|ids|-1]);
      assert ids == ids[..|ids|-1] + [ids[|ids|-1]];
    }
  }

  lemma {:induction false} SnapshotMembers(targets: map<string, seq<string>>, keys: seq<string>)
    requires forall k <- keys :: k in targets
    ensures NoDuplicates(Snapshot(targets, keys))
    ensures forall x :: x in Snapshot(targets, keys) <==> exists k :: k in keys && x in targets[k]
  {
    if keys != [] {
      var init, last := keys[..|keys|-1], keys[|keys|-1];
      assert keys == init + [last];
      SnapshotMembers(targets, init);
      AddNewMembers(Snapshot(targets, init), targets[last]);
      forall x ensures x in Snapshot(targets, keys) <==> exists k :: k in keys && x in targets[k] {
        if k :| k in keys && x in targets[k] {
          assert k in init || k == last;
        }
      }
    }
  }

  /** A snapshot lists the executors of the targets, each once, and is never larger than the hard limit. */
  lemma SnapshotIsUnionOfTargets(marvins: seq<Marvin>, capabilities: seq<Capability>, organization: string,
                                 ref: CapabilityRef, requested: Option<TargetSelector>, session: Option<TargetSelector>)
    requires Resolve(marvins, capabilities, organization, ref, requested, session).Ok?
    ensures var ts := Resolve(marvins, capabilities, organization, ref, requested, session).value;
            && NoDuplicates(ts.snapshot)
            && (forall x :: x in ts.snapshot <==> exists t :: t in ts.targets && x in ts.targets[t])
            && ts.count == |ts.snapshot|
            && ts.count <= FindCapability(capabilities, organization, ref).value.policy.absoluteMaxTargets
  {
    var ts := Resolve(marvins, capabilities, organization, ref, requested, session).value;
    var keys := SortedKeys(ts.targets.Keys);
    SnapshotMembers(ts.targets, keys);
    forall x ensures x in ts.snapshot <==> exists t :: t in ts.targets && x in ts.targets[t] {
      if t :| t in ts.targets && x in ts.targets[t] {
        assert t in keys && x in ts.targets[t];
      }
    }
  }

  /** The candidates of a target: the passing rows that serve it. */
  ghost predicate Candidate(m: Marvin, marvins: seq<Marvin>, organization: string, capability: Capability,
                            selector: TargetSelector, t: string)
  {
    m in marvins && Eligible(m, organization, capability, selector) &&
    Serves(m, capability.scope, ResourceIdsOf(selector), t)
  }

  lemma GroupIsCandidates(marvins: seq<Marvin>, organization: string, capability: Capability,
                          selector: TargetSelector, t: string)
    requires Keyed(marvins)
    ensures var group := Group(Candidates(marvins, organization, capability, selector), capability.scope,
                               ResourceIdsOf(selector), t);
            forall m :: m in group <==> Candidate(m, marvins, organization, capability, selector, t)
  {
    CandidatesKeyed(marvins, organization, capability, selector);
  }

  /** The targets of a resolution are exactly those some candidate serves. */
  lemma TargetsAreServed(marvins: seq<Marvin>, organization: string, capability: Capability,
                         selector: TargetSelector, t: string)
    requires Keyed(marvins)
    ensures t in Executors(Candidates(marvins, organization, capability, selector), capability, selector)
       <==> exists m :: Candidate(m, marvins, organization, capability, selector, t)
  {
    GroupIsCandidates(marvins, organization, capability, selector, t);
    var group := Group(Candidates(marvins, organization, capability, selector), capability.scope,
                       ResourceIdsOf(selector), t);
    assert Executors(Candidates(marvins, organization, capability, selector), capability, selector).Keys
        == AllTargets(Candidates(marvins, organization, capability, selector), capability.scope,
                      ResourceIdsOf(selector));
    if group != [] {
      assert Candidate(group[0], marvins, organization, capability, selector, t);
    }
  }

  ghost function GroupOf(marvins: seq<Marvin>, organization: string, capability: Capability, selector: TargetSelector,
                         t: string): seq<Marvin>
  {
    Group(Candidates(marvins, organization, capability, selector), capability.scope, ResourceIdsOf(selector), t)
  }

  /** A target in the result has candidates, and gets one, all, or half of them rounded up. */
  lemma TargetIsServed(marvins: seq<Marvin>, organization: string, capability: Capability,
                       selector: TargetSelector, t: string)
    requires t in Executors(Candidates(marvins, organization, capability, selector), capability, selector)
    ensures var group := GroupOf(marvins, organization, capability, selector, t);
            && group != []
            && |Executors(Candidates(marvins, organization, capability, selector), capability, selector)[t]|
               == (if capability.strategy == "all" then |group|
                   else if capability.strategy == "quorum" then |group| - |group| / 2
                   else 1)
  {
    SelectionIsLeast(GroupOf(marvins, organization, capability, selector, t), capability.strategy);
  }

  /** Executors are online agents of the organization that advertise the capability and pass both selectors. */
  lemma ExecutorPassesBothSelectors(marvins: seq<Marvin>, organization: string, capability: Capability,
                                    session: TargetSelector, requested: TargetSelector,
                                    t: string, id: string)
    returns (m: Marvin)
    requires Keyed(marvins)
    requires var selector := Merge(session, requested);
             var targets := Executors(Candidates(marvins, organization, capability, selector), capability, selector);
             t in targets && id in targets[t]
    ensures m.id == id && m in marvins && m.status == Online && m.organization == organization &&
            capability.id in m.capabilities
    ensures Matches(m.Seen(), session) && Matches(m.Seen(), requested)
    ensures Serves(m, capability.scope, ResourceIdsOf(Merge(session, requested)), t)
  {
    var selector := Merge(session, requested);
    m := ExecutorIsCandidate(marvins, organization, capability, selector, t, id);
    MergeImpliesBoth(m.Seen(), session, requested);
  }

  /** Every agent of a snapshot is such an executor. */
  lemma SnapshotIsSound(marvins: seq<Marvin>, capabilities: seq<Capability>, organization: string, ref: CapabilityRef,
                        requested: Option<TargetSelector>, session: Option<TargetSelector>, id: string)
    returns (m: Marvin)
    requires Keyed(marvins) && Resolve(marvins, capabilities, organization, ref, requested, session).Ok?
    requires id in Resolve(marvins, capabilities, organization, ref, requested, session).value.snapshot
    ensures m.id == id && m in marvins && m.status == Online && m.organization == organization
    ensures FindCapability(capabilities, organization, ref).value.id in m.capabilities
    ensures Matches(m.Seen(), session.GetOr(ANYTHING)) && Matches(m.Seen(), requested.GetOr(ANYTHING))
  {
    var ts := Resolve(marvins, capabilities, organization, ref, requested, session).value;
    SnapshotIsUnionOfTargets(marvins, capabilities, organization, ref, requested, session);
    var t :| t in ts.targets && id in ts.targets[t];
    m := ExecutorPassesBothSelectors(marvins, organization, FindCapability(capabilities, organization, ref).value,
                                     session.GetOr(ANYTHING), requested.GetOr(ANYTHING), t, id);
  }

  lemma ExecutorIsCandidate(marvins: seq<Marvin>, organization: string, capability: Capability,
                            selector: TargetSelector, t: string, id: string) returns (m: Marvin)
    requires Keyed(marvins)
    requires var targets := Executors(Candidates(marvins, organization, capability, selector), capability, selector);
             t in targets && id in targets[t]
    ensures m.id == id && Candidate(m, marvins, organization, capability, selector, t)
  {
    var group := GroupOf(marvins, organization, capability, selector, t);
    m := ExecutorWithId(group, capability.strategy, id);
    GroupIsCandidates(marvins, organization, capability, selector, t);
    assert m in group;
  }

  lemma ExecutorWithId(group: seq<Marvin>, strategy: string, id: string) returns (m: Marvin)
    requires id in Ids(SelectExecutors(group, strategy))
    ensures m in group && m.id == id
  {
    var executors := SelectExecutors(group, strategy);
    var i :| 0 <= i < |executors| && Ids(executors)[i] == id;
    m := executors[i];
    IdOrder();
    SortIsStableSort(group, ById);
    assert m in multiset(Sort(group, ById));
  }

  /** No candidate left out has a smaller id than an executor. */
  lemma ExecutorsAreLeast(group: seq<Marvin>, strategy: string, executor: Marvin, other: Marvin)
    requires executor in SelectExecutors(group, strategy)
    requires other in group && other !in SelectExecutors(group, strategy)
    ensures ById(executor, other)
  {
    SelectionIsLeast(group, strategy);
    assert other in multiset(group) - multiset(SelectExecutors(group, strategy));
  }

  ghost predicate Unserved(marvins: seq<Marvin>, organization: string, capability: Capability,
                           selector: TargetSelector) {
    forall m, t :: !Candidate(m, marvins, organization, capability, selector, t)
  }

  lemma NoTargetsExactly(marvins: seq<Marvin>, organization: string, capability: Capability, selector: TargetSelector)
    requires Keyed(marvins)
    ensures Executors(Candidates(marvins, organization, capability, selector), capability, selector).Keys == {}
       <==> Unserved(marvins, organization, capability, selector)
  {
    var targets := Executors(Candidates(marvins, organization, capability, selector), capability, selector);
    if Unserved(marvins, organization, capability, selector) {
      forall t ensures t !in targets {
        TargetsAreServed(marvins, organization, capability, selector, t);
      }
    } else {
      var m, t :| Candidate(m, marvins, organization, capability, selector, t);
      TargetsAreServed(marvins, organization, capability, selector, t);
      assert t in targets.Keys;
    }
  }

  lemma ResourceErrorFor(candidates: seq<Marvin>, capability: Capability, selector: TargetSelector)
    ensures ResolveFor(candidates, capability, selector) == Err(SelectorRequiresResource)
       <==> capability.scope in RESOURCE_SCOPES && Executors(candidates, capability, selector).Keys == {}
  {
  }

  /**
   * For a known capability the resolution asks for a resource exactly when the policy demands one and the merged
   * selector names none, or the scope is a resource scope and no candidate has a resource that counts.
   */
  lemma ResourceErrorExactly(marvins: seq<Marvin>, capabilities: seq<Capability>, organization: string,
                             ref: CapabilityRef, requested: Option<TargetSelector>, session: Option<TargetSelector>,
                             capability: Capability)
    requires Keyed(marvins) && FindCapability(capabilities, organization, ref) == Some(capability)
    ensures var selector := Merge(session.GetOr(ANYTHING), requested.GetOr(ANYTHING));
            Resolve(marvins, capabilities, organization, ref, requested, session) == Err(SelectorRequiresResource) <==>
              (capability.policy.requiresResource && ResourceIdsOf(selector) == [])
              || (capability.scope in RESOURCE_SCOPES && Unserved(marvins, organization, capability, selector))
  {
    var selector := Merge(session.GetOr(ANYTHING), requested.GetOr(ANYTHING));
    NoTargetsExactly(marvins, organization, capability, selector);
    ResourceErrorFor(Candidates(marvins, organization, capability, selector), capability, selector);
  }

  // ---------------------------------------------------------------------------------------------
  // Canonicity.

  ghost predicate SameEligible(a: seq<Marvin>, b: seq<Marvin>, organization: string, capability: Capability,
                               selector: TargetSelector) {
    forall m :: m in a && Eligible(m, organization, capability, selector)
           <==> m in b && Eligible(m, organization, capability, selector)
  }

  lemma {:induction false} LikeNone(s: seq<Marvin>, t: Marvin)
    requires forall m <- s :: m.id != t.id
    ensures Like(s, ById, t) == []
  {
    if s != [] {
      LikeNone(s[..|s|-1], t);
      if ById(s[|s|-1], t) && ById(t, s[|s|-1]) {
        AtMostAntisymmetric(s[|s|-1].id, t.id);
        assert false;
      }
    }
  }

  lemma {:induction false} LikeOne(s: seq<Marvin>, k: nat, t: Marvin)
    requires forall i, j | 0 <= i < j < |s| :: s[i].id != s[j].id
    requires k < |s| && s[k].id == t.id
    ensures Like(s, ById, t) == [s[k]]
  {
    var last := s[|s|-1];
    AtMostTotal(t.id, t.id);
    if k == |s| - 1 {
      LikeNone(s[..|s|-1], t);
    } else {
      LikeOne(s[..|s|-1], k, t);
      if ById(last, t) && ById(t, last) {
        AtMostAntisymmetric(last.id, t.id);
        assert false;
      }
    }
  }

  lemma SameMembersSameLike(a: seq<Marvin>, b: seq<Marvin>, t: Marvin)
    requires Keyed(a) && Keyed(b) && forall m :: m in a <==> m in b
    ensures Like(a, ById, t) == Like(b, ById, t)
  {
    if i :| 0 <= i < |a| && a[i].id == t.id {
      LikeOne(a, i, t);
      assert a[i] in a && a[i] in b;
      var j :| 0 <= j < |b| && b[j] == a[i];
      LikeOne(b, j, t);
    } else {
      LikeNone(a, t);
      LikeNone(b, t);
    }
  }

  lemma CandidatesCanonical(a: seq<Marvin>, b: seq<Marvin>, organization: string, capability: Capability,
                            selector: TargetSelector)
    requires Keyed(a) && Keyed(b) && SameEligible(a, b, organization, capability, selector)
    ensures Candidates(a, organization, capability, selector) == Candidates(b, organization, capability, selector)
  {
    var x, y := Eligibles(a, organization, capability, selector), Eligibles(b, organization, capability, selector);
    EligiblesMembers(a, organization, capability, selector);
    EligiblesMembers(b, organization, capability, selector);
    IdOrder();
    SortIsStableSort(x, ById);
    SortIsStableSort(y, ById);
    forall t ensures Like(Sort(x, ById), ById, t) == Like(Sort(y, ById), ById, t) {
      SameMembersSameLike(x, y, t);
    }
    SortedIsUnique(Sort(x, ById), Sort(y, ById), ById);
  }

  /** The outcome depends only on the set of rows that pass the filters, not on their order or on the other rows. */
  lemma ResolutionIsCanonical(a: seq<Marvin>, b: seq<Marvin>, capabilities: seq<Capability>, organization: string,
                              ref: CapabilityRef, requested: Option<TargetSelector>, session: Option<TargetSelector>)
    requires Keyed(a) && Keyed(b)
    requires forall capability | FindCapability(capabilities, organization, ref) == Some(capability) ::
               SameEligible(a, b, organization, capability, Merge(session.GetOr(ANYTHING), requested.GetOr(ANYTHING)))
    ensures Resolve(a, capabilities, organization, ref, requested, session)
         == Resolve(b, capabilities, organization, ref, requested, session)
  {
    var found := FindCapability(capabilities, organization, ref);
    if found.Some? {
      CandidatesCanonical(a, b, organization, found.value, Merge(session.GetOr(ANYTHING), requested.GetOr(ANYTHING)));
    }
  }
}
