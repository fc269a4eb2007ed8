/** Selectors field by field: what each field asks of an agent, and what a merge makes of it. */
module SelectorFields {
  import opened Basics
  import opened Text
  import opened Selectors

  // ---------------------------------------------------------------------------------------------
  // Labels as the strings they are.

  /** The label has this key: it is the bare key, or the key, a colon and a value. */
  predicate HasKey(text: string, k: string) {
    ':' !in k && (text == k || (|k| < |text| && text[..|k|] == k && text[|k|] == ':'))
  }

  ghost predicate IsLastLabel(labels: seq<string>, k: string, i: int) {
    0 <= i < |labels| && HasKey(labels[i], k) && forall j | i < j < |labels| :: !HasKey(labels[j], k)
  }

  lemma CutIsKey(text: string, k: string)
    ensures match Cut(text, ':')
            case Some((key, value)) => (HasKey(text, k) <==> key == k) && text == key + [':'] + value && text != key
            case None => HasKey(text, k) <==> text == k
  {
    CutHead(text, ':');
    CutWhole(text, ':');
    match Cut(text, ':') {
      case Some((key, value)) =>
        if HasKey(text, k) {
          SameHead(key, value, k, text);
        }
      case None =>
        assert forall i | 0 <= i < |text| :: text[i] in text;
    }
  }

  lemma SameHead(key: string, value: string, k: string, text: string)
    requires ':' !in key && text == key + [':'] + value && HasKey(text, k)
    ensures key == k
  {
    assert forall i | 0 <= i < |key| :: key[i] in key && text[i] == key[i];
    assert forall i | 0 <= i < |k| :: k[i] in k && text[i] == text[..|k|][i] == k[i];
    assert text[|key|] == ':';
    assert |key| == |k|;
  }

  /** A key is there when some label has it, and its value is that of the last such label. */
  lemma {:induction false} LabelDictExactly(labels: seq<string>, k: string)
    ensures k in LabelDict(labels) <==> exists i :: IsLastLabel(labels, k, i)
    ensures forall i | IsLastLabel(labels, k, i) && k in LabelDict(labels) ::
              if labels[i] == k then LabelDict(labels)[k] == None
              else LabelDict(labels)[k].Some? && labels[i] == k + ":" + LabelDict(labels)[k].value
  {
    if labels != [] {
      var init, n := labels[..|labels|-1], |labels| - 1;
      LabelDictExactly(init, k);
      CutIsKey(labels[n], k);
      if HasKey(labels[n], k) {
        assert IsLastLabel(labels, k, n);
      } else {
        forall i ensures IsLastLabel(labels, k, i) <==> IsLastLabel(init, k, i) {
          LastLabelSnoc(labels, k, i);
        }
      }
    }
  }

  lemma LastLabelSnoc(labels: seq<string>, k: string, i: int)
    requires labels != [] && !HasKey(labels[|labels|-1], k)
    ensures IsLastLabel(labels, k, i) <==> IsLastLabel(labels[..|labels|-1], k, i)
  {
    var init := labels[..|labels|-1];
    assert forall j | 0 <= j < |init| :: init[j] == labels[j];
  }

  /** The last label with the key, if any, has an allowed value: any, this one, or one of these. */
  ghost predicate Carries(labels: seq<string>, k: string, wanted: LabelValue) {
    exists i :: IsLastLabel(labels, k, i) &&
      match wanted
      case Any => true
      case One(value) => labels[i] == k + ":" + value
      case Among(values) => exists value :: value in values && labels[i] == k + ":" + value
  }

  lemma HasLabelsExactly(labels: seq<string>, wanted: Labels)
    ensures HasLabels(LabelDict(labels), wanted) <==> forall k | k in wanted :: Carries(labels, k, wanted[k])
  {
    forall k | k in wanted
      ensures Carries(labels, k, wanted[k]) <==> k in LabelDict(labels) && Allows(wanted[k], LabelDict(labels)[k])
    {
      CarriesExactly(labels, k, wanted[k]);
    }
  }

  lemma CarriesExactly(labels: seq<string>, k: string, wanted: LabelValue)
    ensures Carries(labels, k, wanted) <==> k in LabelDict(labels) && Allows(wanted, LabelDict(labels)[k])
  {
    LabelDictExactly(labels, k);
    if i :| IsLastLabel(labels, k, i) {
      forall j | IsLastLabel(labels, k, j) ensures j == i {
      }
      var actual := LabelDict(labels)[k];
      forall value ensures labels[i] == k + ":" + value <==> actual == Some(value) {
        LabelWith(labels[i], k, actual, value);
      }
    }
  }

  lemma LabelWith(text: string, k: string, actual: Option<string>, value: string)
    requires if text == k then actual == None else actual.Some? && text == k + ":" + actual.value
    ensures text == k + ":" + value <==> actual == Some(value)
  {
    if text == k + ":" + value {
      assert |text| > |k|;
      assert text[|k|+1..] == value;
      if actual.Some? {
        assert text[|k|+1..] == actual.value;
      }
    }
  }

  // ---------------------------------------------------------------------------------------------
  // Agents.

  /** Every list that is given holds the agent's own value; of the resources it holds some attached one. */
  lemma MatchesExactly(a: Agent, s: TargetSelector)
    ensures Matches(a, s) <==>
              && (s.hostname.Some? ==> a.hostname in s.hostname.value)
              && (s.region.Some? ==> a.region in s.region.value)
              && (s.availabilityZone.Some? ==> a.availabilityZone in s.availabilityZone.value)
              && (s.provider.Some? ==> a.provider in s.provider.value)
              && (s.marvinIds.Some? ==> a.id in s.marvinIds.value)
              && (s.resourceIds.Some? ==> exists r :: r in a.attached && r in s.resourceIds.value)
              && (s.labels.Some? ==> forall k | k in s.labels.value :: Carries(a.labels, k, s.labels.value[k]))
  {
    if s.labels.Some? {
      HasLabelsExactly(a.labels, s.labels.value);
    }
    FieldsExactly(a, s);
  }

  ghost predicate PassesField(a: Agent, s: TargetSelector, f: Field) {
    Get(s, f).Some? ==> Passes(a, f, Get(s, f).value)
  }

  lemma FieldsExactly(a: Agent, s: TargetSelector)
    ensures Matches(a, s) <==>
              && PassesField(a, s, Hostname) && PassesField(a, s, Region) && PassesField(a, s, AvailabilityZone)
              && PassesField(a, s, Provider) && PassesField(a, s, MarvinIds) && PassesField(a, s, ResourceIds)
              && PassesField(a, s, LabelsField)
  {
    if Matches(a, s) {
      forall f: Field ensures PassesField(a, s, f) {
      }
    }
  }

  // ---------------------------------------------------------------------------------------------
  // Merging.

  /** The elements of `a` that are in `b`, in the order of `a`. */
  function Common(a: seq<string>, b: seq<string>): seq<string> {
    if a == [] then [] else (if a[0] in b then [a[0]] else []) + Common(a[1..], b)
  }

  lemma {:induction false} CommonSnoc(a: seq<string>, x: string, b: seq<string>)
    ensures Common(a + [x], b) == Common(a, b) + if x in b then [x] else []
  {
    if a == [] {
      assert (a + [x])[1..] == [];
    } else {
      assert (a + [x])[1..] == a[1..] + [x];
      CommonSnoc(a[1..], x, b);
    }
  }

  lemma {:induction false} IntersectIsCommon(a: seq<string>, b: seq<string>)
    ensures Intersect(a, b) == Common(a, b)
  {
    if a != [] {
      IntersectIsCommon(a[..|a|-1], b);
      CommonSnoc(a[..|a|-1], a[|a|-1], b);
      assert a == a[..|a|-1] + [a[|a|-1]];
    }
  }

  /** A list given on one side is kept; of two lists the elements of the first that are in the second. */
  predicate BothLists(own: Option<seq<string>>, other: Option<seq<string>>, merged: Option<seq<string>>) {
    match (own, other)
    case (None, _) => merged == other
    case (_, None) => merged == own
    case (Some(a), Some(b)) => merged == Some(Common(a, b))
  }

  /** Any gives way to the other side; otherwise the common values, as a single value if there is just one. */
  predicate BothValues(own: LabelValue, other: LabelValue, merged: LabelValue) {
    if own.Any? then merged == other
    else if other.Any? then merged == own
    else
      var a := if own.One? then [own.value] else own.values;
      var b := if other.One? then [other.value] else other.values;
      var both := Common(a, b);
      merged == if |both| == 1 then One(both[0]) else Among(both)
  }

  ghost predicate BothLabels(own: Option<Labels>, other: Option<Labels>, merged: Option<Labels>) {
    match (own, other)
    case (None, _) => merged == other
    case (_, None) => merged == own
    case (Some(a), Some(b)) =>
      merged.Some? && merged.value.Keys == a.Keys + b.Keys &&
      forall k | k in merged.value ::
        BothValues(if k in a then a[k] else Any, if k in b then b[k] else Any, merged.value[k])
  }

  /** A merge, field by field. */
  lemma MergeExactly(own: TargetSelector, other: TargetSelector)
    ensures var merged := Merge(own, other);
            && BothLists(own.hostname, other.hostname, merged.hostname)
            && BothLists(own.region, other.region, merged.region)
            && BothLists(own.availabilityZone, other.availabilityZone, merged.availabilityZone)
            && BothLists(own.provider, other.provider, merged.provider)
            && BothLists(own.resourceIds, other.resourceIds, merged.resourceIds)
            && BothLists(own.marvinIds, other.marvinIds, merged.marvinIds)
            && BothLabels(own.labels, other.labels, merged.labels)
  {
    forall f: Field | f != LabelsField
      ensures BothLists(ListField(own, f), ListField(other, f), ListField(Merge(own, other), f))
    {
      MergedList(own, other, f);
    }
    var merged := Merge(own, other);
    assert ListField(merged, Hostname) == merged.hostname && ListField(merged, Region) == merged.region;
    assert ListField(merged, AvailabilityZone) == merged.availabilityZone;
    assert ListField(merged, Provider) == merged.provider && ListField(merged, ResourceIds) == merged.resourceIds;
    assert ListField(merged, MarvinIds) == merged.marvinIds;
    MergedLabelsField(own, other);
  }

  lemma MergedList(own: TargetSelector, other: TargetSelector, f: Field)
    requires f != LabelsField
    ensures BothLists(ListField(own, f), ListField(other, f), ListField(Merge(own, other), f))
  {
    MergeGet(own, other, f);
    if ListField(own, f).Some? && ListField(other, f).Some? {
      IntersectIsCommon(ListField(own, f).value, ListField(other, f).value);
    }
  }

  lemma MergedLabelsField(own: TargetSelector, other: TargetSelector)
    ensures BothLabels(own.labels, other.labels, Merge(own, other).labels)
  {
    MergeGet(own, other, LabelsField);
    if own.labels.Some? && other.labels.Some? {
      var a, b := own.labels.value, other.labels.value;
      forall k | k in a.Keys + b.Keys
        ensures BothValues(if k in a then a[k] else Any, if k in b then b[k] else Any, MergedLabels(a, b)[k])
      {
        MergedValue(LabelOf(a, k), LabelOf(b, k));
      }
    }
  }

  lemma MergedValue(own: LabelValue, other: LabelValue)
    ensures BothValues(own, other, MergeLabel(own, other))
  {
    if !own.Any? && !other.Any? {
      IntersectIsCommon(ToList(own), ToList(other));
    }
  }
}
