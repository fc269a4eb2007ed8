/** Target selectors and their merge (apps/marvins/selectors.py), and how a selector filters agents. */
module Selectors {
  import opened Basics
  import opened Text

  datatype LabelValue = Any | One(value: string) | Among(values: seq<string>)

  type Labels = map<string, LabelValue>

  datatype TargetSelector = TargetSelector(
    hostname: Option<seq<string>>, region: Option<seq<string>>, availabilityZone: Option<seq<string>>,
    provider: Option<seq<string>>, labels: Option<Labels>, resourceIds: Option<seq<string>>,
    marvinIds: Option<seq<string>>)

  // ---------------------------------------------------------------------------------------------
  // Selectors as dicts: a field that is None has no key.

  datatype Field = Hostname | Region | AvailabilityZone | Provider | LabelsField | ResourceIds | MarvinIds

  datatype FieldValue = Items(items: seq<string>) | LabelMap(labels: Labels)

  type Dict = map<Field, FieldValue>

  ghost predicate WellTyped(d: Dict) {
    forall f | f in d :: d[f].LabelMap? <==> f == LabelsField
  }

  function ListField(s: TargetSelector, f: Field): Option<seq<string>>
    requires f != LabelsField
  {
    match f
    case Hostname => s.hostname
    case Region => s.region
    case AvailabilityZone => s.availabilityZone
    case Provider => s.provider
    case ResourceIds => s.resourceIds
    case MarvinIds => s.marvinIds
  }

  function Get(s: TargetSelector, f: Field): Option<FieldValue> {
    if f == LabelsField then (if s.labels.Some? then Some(LabelMap(s.labels.value)) else None)
    else if ListField(s, f).Some? then Some(Items(ListField(s, f).value)) else None
  }

  const FIELDS := {Hostname, Region, AvailabilityZone, Provider, LabelsField, ResourceIds, MarvinIds}

  function ToDict(s: TargetSelector): (d: Dict)
    ensures WellTyped(d)
    ensures forall f: Field :: Get(s, f) == GetIn(d, f)
  {
    map f | f in FIELDS && Get(s, f).Some? :: Get(s, f).value
  }

  function Listed(d: Dict, f: Field): Option<seq<string>>
    requires WellTyped(d) && f != LabelsField
  {
    if f in d then Some(d[f].items) else None
  }

  function GetIn(d: Dict, f: Field): Option<FieldValue> {
    if f in d then Some(d[f]) else None
  }

  function FromDict(d: Dict): (s: TargetSelector)
    requires WellTyped(d)
    ensures forall f: Field :: Get(s, f) == GetIn(d, f)
  {
    TargetSelector(
      Listed(d, Hostname), Listed(d, Region), Listed(d, AvailabilityZone), Listed(d, Provider),
      if LabelsField in d then Some(d[LabelsField].labels) else None,
      Listed(d, ResourceIds), Listed(d, MarvinIds))
  }

  /** A selector survives the trip through its dict. */
  lemma DictRoundTrip(s: TargetSelector)
    ensures FromDict(ToDict(s)) == s
  {
    var s' := FromDict(ToDict(s));
    forall f: Field ensures Get(s', f) == Get(s, f) {
      assert Get(s', f) == GetIn(ToDict(s), f);
    }
    SameFields(s, s');
  }

  lemma SameFields(s: TargetSelector, s': TargetSelector)
    requires forall f: Field :: Get(s', f) == Get(s, f)
    ensures s' == s
  {
    assert Get(s', Hostname) == Get(s, Hostname) && Get(s', Region) == Get(s, Region);
    assert Get(s', AvailabilityZone) == Get(s, AvailabilityZone) && Get(s', Provider) == Get(s, Provider);
    assert Get(s', LabelsField) == Get(s, LabelsField);
    assert Get(s', ResourceIds) == Get(s, ResourceIds) && Get(s', MarvinIds) == Get(s, MarvinIds);
  }

  /** And a well-typed dict the trip through a selector. */
  lemma SelectorRoundTrip(d: Dict)
    requires WellTyped(d)
    ensures ToDict(FromDict(d)) == d
  {
    var d' := ToDict(FromDict(d));
    forall f: Field ensures GetIn(d', f) == GetIn(d, f) {
      assert Get(FromDict(d), f) == GetIn(d', f);
    }
    SameDicts(d, d');
  }

  lemma SameDicts(d: Dict, d': Dict)
    requires forall f: Field :: GetIn(d', f) == GetIn(d, f)
    ensures d' == d
  {
    forall f: Field ensures f in d' <==> f in d {
      assert GetIn(d', f) == GetIn(d, f);
    }
    forall f: Field | f in d ensures d'[f] == d[f] {
      assert GetIn(d', f) == GetIn(d, f);
    }
  }

  // ---------------------------------------------------------------------------------------------
  // Merging.

  function Intersect(own: seq<string>, other: seq<string>): (r: seq<string>)
    ensures forall x :: x in r <==> x in own && x in other
  {
    if own == [] then []
    else
      var rest, x := Intersect(own[..|own|-1], other), own[|own|-1];
      assert own == own[..|own|-1] + [x];
      if x in other then rest + [x] else rest
  }

  function ToList(v: LabelValue): seq<string> {
    match v
    case Any => []
    case One(s) => [s]
    case Among(l) => l
  }

  function MergeLabel(own: LabelValue, other: LabelValue): LabelValue {
    if own.Any? then other
    else if other.Any? then own
    else
      var both := Intersect(ToList(own), ToList(other));
      if |both| == 1 then One(both[0]) else Among(both)
  }

  function LabelOf(l: Labels, k: string): LabelValue {
    if k in l then l[k] else Any
  }

  function MergedLabels(own: Labels, other: Labels): Labels {
    map k | k in own.Keys + other.Keys :: MergeLabel(LabelOf(own, k), LabelOf(other, k))
  }

  method MergeLabels(own: Labels, other: Labels) returns (merged: Labels)
    ensures merged == MergedLabels(own, other)
  {
    merged := map[];
    var todo := own.Keys + other.Keys;
    while todo != {}
      invariant todo <= own.Keys + other.Keys
      invariant merged.Keys == (own.Keys + other.Keys) - todo
      invariant forall k | k in merged :: merged[k] == MergeLabel(LabelOf(own, k), LabelOf(other, k))
      decreases todo
    {
      var k :| k in todo;
      var ownValue, otherValue := LabelOf(own, k), LabelOf(other, k);
      if ownValue.Any? {
        merged := merged[k := otherValue];
      } else if otherValue.Any? {
        merged := merged[k := ownValue];
      } else {
        var both := Intersect(ToList(ownValue), ToList(otherValue));
        merged := merged[k := if |both| == 1 then One(both[0]) else Among(both)];
      }
      todo := todo - {k};
    }
  }

  function MergeValue(own: FieldValue, other: FieldValue): FieldValue {
    match (own, other)
    case (Items(a), Items(b)) => Items(Intersect(a, b))
    case (LabelMap(a), LabelMap(b)) => LabelMap(MergedLabels(a, b))
    case _ => own
  }

  /** The merged dict, field by field. */
  function MergedDict(own: Dict, other: Dict): Dict {
    map f | f in own.Keys + other.Keys ::
      if f !in own then other[f] else if f !in other then own[f] else MergeValue(own[f], other[f])
  }

  function Merge(own: TargetSelector, other: TargetSelector): TargetSelector {
    FromDict(MergedDict(ToDict(own), ToDict(other)))
  }

  method MergeWith(own: TargetSelector, other: TargetSelector) returns (merged: TargetSelector)
    ensures merged == Merge(own, other)
  {
    var mergedOwn, otherDict := ToDict(own), ToDict(other);
    var todo := otherDict.Keys;
    while todo != {}
      invariant todo <= otherDict.Keys && WellTyped(mergedOwn)
      invariant mergedOwn.Keys == ToDict(own).Keys + (otherDict.Keys - todo)
      invariant forall f | f in mergedOwn ::
                  mergedOwn[f]
                    == if f in otherDict.Keys - todo then MergedDict(ToDict(own), otherDict)[f] else ToDict(own)[f]
      decreases todo
    {
      var f :| f in todo;
      if f !in mergedOwn {
        mergedOwn := mergedOwn[f := otherDict[f]];
      } else if f == LabelsField {
        var labels := MergeLabels(mergedOwn[f].labels, otherDict[f].labels);
        mergedOwn := mergedOwn[f := LabelMap(labels)];
      } else {
        mergedOwn := mergedOwn[f := Items(Intersect(mergedOwn[f].items, otherDict[f].items))];
      }
      todo := todo - {f};
    }
    assert mergedOwn == MergedDict(ToDict(own), otherDict);
    merged := FromDict(mergedOwn);
  }

  // ---------------------------------------------------------------------------------------------
  // Filtering agents.

  /** What a selector can see of an agent. */
  datatype Agent = Agent(
    id: string, hostname: string, region: string, availabilityZone: string, provider: string,
    attached: set<string>, labels: seq<string>)

  /** Agent labels as a dict: "key:value", or a bare key; a later label replaces an earlier one with its key. */
  function LabelDict(labels: seq<string>): map<string, Option<string>> {
    if labels == [] then map[]
    else
      var rest, last := LabelDict(labels[..|labels|-1]), labels[|labels|-1];
      match Cut(last, ':')
      case Some((key, value)) => rest[key := Some(value)]
      case None => rest[last := None]
  }

  method LabelsAsDict(labels: seq<string>) returns (parsed: map<string, Option<string>>)
    ensures parsed == LabelDict(labels)
  {
    parsed := map[];
    for n := 0 to |labels|
      invariant parsed == LabelDict(labels[..n])
    {
      assert labels[..n+1][..n] == labels[..n];
      match Cut(labels[n], ':') {
        case Some((key, value)) => parsed := parsed[key := Some(value)];
        case None => parsed := parsed[labels[n] := None];
      }
    }
    assert labels[..|labels|] == labels;
  }

  predicate Allows(wanted: LabelValue, actual: Option<string>) {
    wanted.Any? || (actual.Some? && actual.value in ToList(wanted))
  }

  predicate HasLabels(actual: map<string, Option<string>>, wanted: Labels) {
    forall k | k in wanted :: k in actual && Allows(wanted[k], actual[k])
  }

  method LabelMatches(actual: map<string, Option<string>>, wanted: Labels) returns (matches: bool)
    ensures matches <==> HasLabels(actual, wanted)
  {
    var todo := wanted.Keys;
    while todo != {}
      invariant todo <= wanted.Keys
      invariant forall k | k in wanted.Keys - todo :: k in actual && Allows(wanted[k], actual[k])
      decreases todo
    {
      var k :| k in todo;
      todo := todo - {k};
      if k !in actual {
        return false;
      }
      if wanted[k].Any? {
        continue;
      }
      if actual[k].None? || actual[k].value !in ToList(wanted[k]) {
        return false;
      }
    }
    matches := true;
  }

  function Attribute(a: Agent, f: Field): string {
    match f
    case Hostname => a.hostname
    case Region => a.region
    case AvailabilityZone => a.availabilityZone
    case Provider => a.provider
    case _ => a.id
  }

  /** One field of the filter: a list holds the attribute, except that resources ask for some attached one. */
  predicate Passes(a: Agent, f: Field, value: FieldValue) {
    match value
    case LabelMap(labels) => HasLabels(LabelDict(a.labels), labels)
    case Items(items) =>
      if f == ResourceIds then exists r :: r in a.attached && r in items else Attribute(a, f) in items
  }

  predicate Matches(a: Agent, s: TargetSelector) {
    forall f: Field | Get(s, f).Some? :: Passes(a, f, Get(s, f).value)
  }

  // ---------------------------------------------------------------------------------------------
  // Merging is conjunction.

  lemma MergeGet(own: TargetSelector, other: TargetSelector, f: Field)
    ensures Get(Merge(own, other), f)
         == if Get(own, f).None? then Get(other, f)
            else if Get(other, f).None? then Get(own, f)
            else Some(MergeValue(Get(own, f).value, Get(other, f).value))
  {
    var d := MergedDict(ToDict(own), ToDict(other));
    assert Get(FromDict(d), f) == GetIn(d, f);
    assert Get(own, f) == GetIn(ToDict(own), f) && Get(other, f) == GetIn(ToDict(other), f);
  }

  lemma MergeLabelAllows(own: LabelValue, other: LabelValue, actual: Option<string>)
    ensures Allows(MergeLabel(own, other), actual) <==> Allows(own, actual) && Allows(other, actual)
  {
    if !own.Any? && !other.Any? && actual.Some? {
      var both := Intersect(ToList(own), ToList(other));
      assert actual.value in both <==> actual.value in ToList(own) && actual.value in ToList(other);
      if |both| == 1 {
        assert both == [both[0]];
      }
    }
  }

  lemma MergedLabelsConjunction(actual: map<string, Option<string>>, own: Labels, other: Labels)
    ensures HasLabels(actual, MergedLabels(own, other)) <==> HasLabels(actual, own) && HasLabels(actual, other)
  {
    var merged := MergedLabels(own, other);
    forall k | k in own.Keys + other.Keys
      ensures k in actual ==>
                (Allows(merged[k], actual[k]) <==>
                   Allows(LabelOf(own, k), actual[k]) && Allows(LabelOf(other, k), actual[k]))
    {
      if k in actual {
        MergeLabelAllows(LabelOf(own, k), LabelOf(other, k), actual[k]);
      }
    }
    if HasLabels(actual, merged) {
      forall k | k in own ensures k in actual && Allows(own[k], actual[k]) { assert k in merged; }
      forall k | k in other ensures k in actual && Allows(other[k], actual[k]) { assert k in merged; }
    }
  }

  /** Field by field, passing the merge is passing both sides, for every field but the resources. */
  lemma MergeValueConjunction(a: Agent, f: Field, own: FieldValue, other: FieldValue)
    requires own.LabelMap? <==> other.LabelMap?
    ensures Passes(a, f, MergeValue(own, other)) ==> Passes(a, f, own) && Passes(a, f, other)
    ensures f != ResourceIds ==> (Passes(a, f, MergeValue(own, other)) <==> Passes(a, f, own) && Passes(a, f, other))
  {
    if own.LabelMap? {
      MergedLabelsConjunction(LabelDict(a.labels), own.labels, other.labels);
    }
  }

  lemma MergeImpliesBoth(a: Agent, own: TargetSelector, other: TargetSelector)
    ensures Matches(a, Merge(own, other)) ==> Matches(a, own) && Matches(a, other)
  {
    if Matches(a, Merge(own, other)) {
      forall f: Field ensures Get(own, f).Some? ==> Passes(a, f, Get(own, f).value)
                      ensures Get(other, f).Some? ==> Passes(a, f, Get(other, f).value)
      {
        MergeGet(own, other, f);
        if Get(own, f).Some? && Get(other, f).Some? {
          MergeValueConjunction(a, f, Get(own, f).value, Get(other, f).value);
        }
      }
    }
  }

  /** An agent that matches both sides matches the merge exactly when its resources do. */
  lemma BothAreMergeUpToResources(a: Agent, own: TargetSelector, other: TargetSelector)
    requires Matches(a, own) && Matches(a, other)
    ensures Matches(a, Merge(own, other))
       <==> (own.resourceIds.None? || other.resourceIds.None?
             || exists r :: r in a.attached && r in own.resourceIds.value && r in other.resourceIds.value)
  {
    var merged := Merge(own, other);
    forall f: Field | f != ResourceIds && Get(merged, f).Some? ensures Passes(a, f, Get(merged, f).value) {
      PassesMerged(a, own, other, f);
    }
    MergedResources(a, own, other);
  }

  lemma PassesMerged(a: Agent, own: TargetSelector, other: TargetSelector, f: Field)
    requires Matches(a, own) && Matches(a, other) && f != ResourceIds && Get(Merge(own, other), f).Some?
    ensures Passes(a, f, Get(Merge(own, other), f).value)
  {
    MergeGet(own, other, f);
    if Get(own, f).Some? && Get(other, f).Some? {
      MergeValueConjunction(a, f, Get(own, f).value, Get(other, f).value);
    }
  }

  lemma MergedResources(a: Agent, own: TargetSelector, other: TargetSelector)
    requires Matches(a, own) && Matches(a, other)
    ensures Get(Merge(own, other), ResourceIds).None? ||
            Passes(a, ResourceIds, Get(Merge(own, other), ResourceIds).value)
       <==> (own.resourceIds.None? || other.resourceIds.None?
             || exists r :: r in a.attached && r in own.resourceIds.value && r in other.resourceIds.value)
  {
    MergeGet(own, other, ResourceIds);
    assert Get(own, ResourceIds).Some? ==> Passes(a, ResourceIds, Get(own, ResourceIds).value);
    assert Get(other, ResourceIds).Some? ==> Passes(a, ResourceIds, Get(other, ResourceIds).value);
  }

  ghost predicate ResourcesNested(own: TargetSelector, other: TargetSelector) {
    || own.resourceIds.None?
    || other.resourceIds.None?
    || (forall r | r in own.resourceIds.value :: r in other.resourceIds.value)
    || (forall r | r in other.resourceIds.value :: r in own.resourceIds.value)
  }

  ghost predicate MatchesElsewhere(a: Agent, s: TargetSelector) {
    Matches(a, s.(resourceIds := None))
  }

  /** Resources aside, the selector leaves something to match: no empty list, and no label key with a colon. */
  predicate Open(s: TargetSelector) {
    && s.hostname != Some([]) && s.region != Some([]) && s.availabilityZone != Some([]) && s.provider != Some([])
    && s.marvinIds != Some([])
    && (s.labels.Some? ==> forall k | k in s.labels.value :: OpenLabel(k, s.labels.value[k]))
  }

  predicate OpenLabel(key: string, value: LabelValue) {
    ':' !in key && (value.Any? || ToList(value) != [])
  }

  /**
   * Merging is conjunction on all agents exactly when the resource lists are nested or open, unless the other
   * fields of the merge already shut every agent out.
   */
  lemma MergeIsConjunctionExactly(own: TargetSelector, other: TargetSelector)
    ensures (forall a: Agent :: Matches(a, Merge(own, other)) <==> Matches(a, own) && Matches(a, other))
       <==> ResourcesNested(own, other) || !Open(Merge(own, other))
  {
    if ResourcesNested(own, other) || !Open(Merge(own, other)) {
      forall a: Agent ensures Matches(a, Merge(own, other)) <==> Matches(a, own) && Matches(a, other) {
        MergeImpliesBoth(a, own, other);
        if Matches(a, own) && Matches(a, other) {
          MatchesParts(a, own);
          MatchesParts(a, other);
          MergeElsewhere(a, own, other);
          MatchedIsOpen(a, Merge(own, other));
          BothAreMergeUpToResources(a, own, other);
        }
      }
    } else {
      var x :| x in own.resourceIds.value && x !in other.resourceIds.value;
      var y :| y in other.resourceIds.value && y !in own.resourceIds.value;
      var a := OpenIsMatched(Merge(own, other), {x, y});
      MergeElsewhere(a, own, other);
      MatchesParts(a, own);
      MatchesParts(a, other);
      BothAreMergeUpToResources(a, own, other);
    }
  }

  /** The failing case: an agent attached to two resources passes each selector, but not their merge. */
  lemma MergeShutsOutBothAttached(a: Agent, x: string, y: string)
    requires x != y && x in a.attached && y in a.attached
    ensures var own, other := ForResource(x), ForResource(y);
            Matches(a, own) && Matches(a, other) && !Matches(a, Merge(own, other))
  {
    var own, other := ForResource(x), ForResource(y);
    MatchesParts(a, own);
    MatchesParts(a, other);
    assert x in a.attached && x in own.resourceIds.value && y in a.attached && y in other.resourceIds.value;
    BothAreMergeUpToResources(a, own, other);
  }

  function ForResource(id: string): TargetSelector {
    TargetSelector(None, None, None, None, None, Some([id]), None)
  }

  lemma MergeElsewhere(a: Agent, own: TargetSelector, other: TargetSelector)
    ensures MatchesElsewhere(a, Merge(own, other)) <==> MatchesElsewhere(a, own) && MatchesElsewhere(a, other)
  {
    var own', other' := own.(resourceIds := None), other.(resourceIds := None);
    var merged, merged' := Merge(own, other).(resourceIds := None), Merge(own', other');
    forall f: Field ensures Get(merged, f) == Get(merged', f) {
      MergeGetElsewhere(own, other, f);
    }
    SameMatches(a, merged, merged');
    MergeImpliesBoth(a, own', other');
    if Matches(a, own') && Matches(a, other') {
      BothAreMergeUpToResources(a, own', other');
    }
  }

  lemma MergeGetElsewhere(own: TargetSelector, other: TargetSelector, f: Field)
    ensures Get(Merge(own, other).(resourceIds := None), f)
         == Get(Merge(own.(resourceIds := None), other.(resourceIds := None)), f)
  {
    var own', other' := own.(resourceIds := None), other.(resourceIds := None);
    MergeGet(own, other, f);
    MergeGet(own', other', f);
    WithoutResources(own, f);
    WithoutResources(other, f);
    WithoutResources(Merge(own, other), f);
  }

  lemma WithoutResources(s: TargetSelector, f: Field)
    ensures Get(s.(resourceIds := None), f) == if f == ResourceIds then None else Get(s, f)
  {
  }

  lemma SameMatches(a: Agent, s: TargetSelector, s': TargetSelector)
    requires forall f: Field :: Get(s, f) == Get(s', f)
    ensures Matches(a, s) <==> Matches(a, s')
  {
  }

  // Labels that agents can have.

  lemma {:induction false} LabelKeys(labels: seq<string>)
    ensures forall k | k in LabelDict(labels) :: ':' !in k
  {
    if labels != [] {
      LabelKeys(labels[..|labels|-1]);
      CutHead(labels[|labels|-1], ':');
    }
  }

  lemma {:induction false} LabelsFor(wanted: Labels) returns (labels: seq<string>)
    requires forall k | k in wanted :: OpenLabel(k, wanted[k])
    ensures HasLabels(LabelDict(labels), wanted)
    decreases |wanted|
  {
    if wanted == map[] {
      labels := [];
    } else {
      var k :| k in wanted;
      var rest := LabelsFor(wanted - {k});
      var value := if wanted[k].Any? then "" else ToList(wanted[k])[0];
      CutFirst(k, value, ':');
      var last := if wanted[k].Any? then k else k + [':'] + value;
      labels := rest + [last];
      assert labels[..|labels|-1] == rest;
      assert forall k' | k' in wanted && k' != k :: k' in wanted - {k};
    }
  }

  lemma MatchedIsOpen(a: Agent, s: TargetSelector)
    requires MatchesElsewhere(a, s)
    ensures Open(s)
  {
    var s' := s.(resourceIds := None);
    forall f: Field | f != ResourceIds && Get(s, f).Some? ensures Passes(a, f, Get(s, f).value) {
      assert Get(s', f) == Get(s, f);
    }
    LabelKeys(a.labels);
    assert s.hostname.Some? ==> Passes(a, Hostname, Get(s, Hostname).value);
    assert s.region.Some? ==> Passes(a, Region, Get(s, Region).value);
    assert s.availabilityZone.Some? ==> Passes(a, AvailabilityZone, Get(s, AvailabilityZone).value);
    assert s.provider.Some? ==> Passes(a, Provider, Get(s, Provider).value);
    assert s.marvinIds.Some? ==> Passes(a, MarvinIds, Get(s, MarvinIds).value);
    assert s.labels.Some? ==> Passes(a, LabelsField, Get(s, LabelsField).value);
  }

  function First(o: Option<seq<string>>): string {
    if o.Some? && o.value != [] then o.value[0] else ""
  }

  lemma OpenIsMatched(s: TargetSelector, attached: set<string>) returns (a: Agent)
    requires Open(s)
    ensures MatchesElsewhere(a, s) && a.attached == attached
  {
    var labels := LabelsFor(s.labels.GetOr(map[]));
    a := Agent(First(s.marvinIds), First(s.hostname), First(s.region), First(s.availabilityZone), First(s.provider),
               attached, labels);
  }

  lemma MatchesParts(a: Agent, s: TargetSelector)
    ensures Matches(a, s)
       <==> MatchesElsewhere(a, s) && (s.resourceIds.None? || exists r :: r in a.attached && r in s.resourceIds.value)
  {
    var s' := s.(resourceIds := None);
    assert forall f: Field | f != ResourceIds :: Get(s', f) == Get(s, f);
    assert s.resourceIds.Some? ==> Get(s, ResourceIds) == Some(Items(s.resourceIds.value));
    if MatchesElsewhere(a, s) {
      assert forall f: Field | f != ResourceIds && Get(s, f).Some? :: Passes(a, f, Get(s', f).value);
    }
  }
}
