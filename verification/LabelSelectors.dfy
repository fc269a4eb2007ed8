/** Label selectors written as text (apps/marvins/labels.py) and their agreement with dict selectors. */
module LabelSelectors {
  import opened Basics
  import opened Text
  import opened Selectors

  type Parsed = map<string, Option<string>>

  /** The parts read so far; the error carries the offending part. */
  function ParseParts(parts: seq<string>): Result<Parsed, string> {
    if parts == [] then Ok(map[])
    else
      match ParseParts(parts[..|parts|-1])
      case Err(e) => Err(e)
      case Ok(out) => ParsePart(out, Trim(parts[|parts|-1]))
  }

  function ParsePart(out: Parsed, part: string): Result<Parsed, string> {
    if part == "" then Ok(out)
    else if '=' in part then Err(part)
    else match Cut(part, ':')
      case Some((k, v)) => Ok(out[Trim(k) := Some(Trim(v))])
      case None => Ok(out[Trim(part) := None])
  }

  function Parse(selector: string): Result<Parsed, string> {
    ParseParts(Split(selector, ','))
  }

  method ParseLabelSelector(selector: string) returns (r: Result<Parsed, string>)
    ensures r == Parse(selector)
  {
    var out: Parsed, parts := map[], Split(selector, ',');
    for n := 0 to |parts|
      invariant ParseParts(parts[..n]) == Ok(out)
    {
      assert parts[..n+1][..n] == parts[..n];
      var part := Trim(parts[n]);
      if part == "" {
        continue;
      }
      if '=' in part {
        ErrorStays(parts, n + 1);
        return Err(part);
      }
      match Cut(part, ':') {
        case Some((k, v)) => out := out[Trim(k) := Some(Trim(v))];
        case None => out := out[Trim(part) := None];
      }
    }
    assert parts[..|parts|] == parts;
    r := Ok(out);
  }

  lemma {:induction false} ErrorStays(parts: seq<string>, n: nat)
    requires n <= |parts| && ParseParts(parts[..n]).Err?
    ensures ParseParts(parts) == ParseParts(parts[..n])
  {
    if n < |parts| {
      assert parts[..|parts|-1][..n] == parts[..n];
      ErrorStays(parts[..|parts|-1], n);
    } else {
      assert parts[..n] == parts;
    }
  }

  /** A parsed selector as the dict selector it becomes: a bare key asks only for presence. */
  function Wanted(selector: Parsed): Labels {
    map k | k in selector :: if selector[k].Some? then One(selector[k].value) else Any
  }

  /** Decides the same relation as LabelMatches does on the dict of the labels. */
  method MarvinMatchesLabels(labels: seq<string>, selector: Parsed) returns (matches: bool)
    ensures matches <==> HasLabels(LabelDict(labels), Wanted(selector))
  {
    var actual := LabelsAsDict(labels);
    var todo := selector.Keys;
    while todo != {}
      invariant todo <= selector.Keys
      invariant forall k | k in selector.Keys - todo :: k in actual && Allows(Wanted(selector)[k], actual[k])
      decreases todo
    {
      var k :| k in todo;
      todo := todo - {k};
      if k !in actual {
        assert k in Wanted(selector);
        return false;
      }
      if selector[k].Some? && actual[k] != selector[k] {
        assert k in Wanted(selector) && !Allows(Wanted(selector)[k], actual[k]);
        return false;
      }
    }
    matches := true;
  }

  // ---------------------------------------------------------------------------------------------
  // Which texts are refused.

  lemma {:induction false} TrimKeeps(s: string, c: char)
    requires !IsSpace(c)
    ensures c in Trim(s) <==> c in s
  {
    StripLeftKeeps(s, c);
    StripRightKeeps(StripLeft(s, IsSpace), c);
  }

  lemma {:induction false} StripLeftKeeps(s: string, c: char)
    requires !IsSpace(c)
    ensures c in StripLeft(s, IsSpace) <==> c in s
  {
    if s != "" && IsSpace(s[0]) {
      StripLeftKeeps(s[1..], c);
      assert s == [s[0]] + s[1..];
    }
  }

  lemma {:induction false} StripRightKeeps(s: string, c: char)
    requires !IsSpace(c)
    ensures c in StripRight(s, IsSpace) <==> c in s
  {
    if s != "" && IsSpace(s[|s|-1]) {
      StripRightKeeps(s[..|s|-1], c);
      assert s == s[..|s|-1] + [s[|s|-1]];
    }
  }

  ghost predicate SomeHas(parts: seq<string>, c: char) {
    exists i :: 0 <= i < |parts| && c in parts[i]
  }

  lemma SomeHasSnoc(parts: seq<string>, c: char)
    requires parts != []
    ensures SomeHas(parts, c) <==> SomeHas(parts[..|parts|-1], c) || c in parts[|parts|-1]
  {
    if i :| 0 <= i < |parts| - 1 && c in parts[i] {
      assert c in parts[..|parts|-1][i];
    }
    if SomeHas(parts[..|parts|-1], c) {
      var i :| 0 <= i < |parts| - 1 && c in parts[..|parts|-1][i];
      assert c in parts[i];
    }
  }

  lemma {:induction false} SplitKeeps(s: string, sep: char, c: char)
    requires c != sep
    ensures c in s <==> SomeHas(Split(s, sep), c)
  {
    if s != "" {
      SplitKeeps(s[1..], sep, c);
      var rest, parts := Split(s[1..], sep), Split(s, sep);
      assert s == [s[0]] + s[1..];
      if c in s {
        if c == s[0] {
          assert c in parts[0];
        } else {
          var i :| 0 <= i < |rest| && c in rest[i];
          assert c in parts[if s[0] == sep then i + 1 else i];
        }
      }
      if i :| 0 <= i < |parts| && c in parts[i] {
        assert s[0] == sep && i > 0 ==> c in rest[i-1];
        assert s[0] != sep && c != s[0] ==> c in rest[i];
      }
    }
  }

  lemma {:induction false} PartsFail(parts: seq<string>)
    ensures ParseParts(parts).Err? <==> SomeHas(parts, '=')
  {
    if parts != [] {
      PartsFail(parts[..|parts|-1]);
      SomeHasSnoc(parts, '=');
      TrimKeeps(parts[|parts|-1], '=');
    }
  }

  /** A selector text is refused exactly when it contains an equals sign. */
  lemma RefusedExactlyOnEquals(selector: string)
    ensures Parse(selector).Err? <==> '=' in selector
  {
    SplitKeeps(selector, ',', '=');
    PartsFail(Split(selector, ','));
  }

  // ---------------------------------------------------------------------------------------------
  // Reading back a printed selector.

  predicate CleanText(s: string) {
    ',' !in s && '=' !in s && Bare(s, IsSpace)
  }

  /** An entry that can be printed: a bare key must not be empty, and no key may contain a colon. */
  predicate Clean(entry: (string, Option<string>)) {
    && CleanText(entry.0) && ':' !in entry.0
    && (entry.1.None? ==> entry.0 != "")
    && (entry.1.Some? ==> CleanText(entry.1.value))
  }

  function Print(entry: (string, Option<string>)): string {
    if entry.1.Some? then entry.0 + [':'] + entry.1.value else entry.0
  }

  function PrintAll(entries: seq<(string, Option<string>)>): seq<string> {
    seq(|entries|, i requires 0 <= i < |entries| => Print(entries[i]))
  }

  function Entries(entries: seq<(string, Option<string>)>): Parsed {
    if entries == [] then map[] else Entries(entries[..|entries|-1])[entries[|entries|-1].0 := entries[|entries|-1].1]
  }

  lemma BareIsTrimmed(s: string)
    requires Bare(s, IsSpace)
    ensures Trim(s) == s
  {
  }

  lemma PrintedPart(out: Parsed, entry: (string, Option<string>))
    requires Clean(entry)
    ensures ',' !in Print(entry)
    ensures ParsePart(out, Trim(Print(entry))) == Ok(out[entry.0 := entry.1])
  {
    var part := Print(entry);
    assert Bare(part, IsSpace);
    BareIsTrimmed(part);
    BareIsTrimmed(entry.0);
    if entry.1.Some? {
      BareIsTrimmed(entry.1.value);
      CutFirst(entry.0, entry.1.value, ':');
      assert part[|entry.0|] == ':';
    } else {
      CutFirst(entry.0, "", ':');
    }
  }

  lemma {:induction false} ParsePrintedParts(entries: seq<(string, Option<string>)>)
    requires forall i | 0 <= i < |entries| :: Clean(entries[i])
    ensures ParseParts(PrintAll(entries)) == Ok(Entries(entries))
    ensures forall i | 0 <= i < |entries| :: ',' !in PrintAll(entries)[i]
  {
    if entries != [] {
      var init, last := entries[..|entries|-1], entries[|entries|-1];
      ParsePrintedParts(init);
      assert PrintAll(entries)[..|entries|-1] == PrintAll(init);
      assert forall i | 0 <= i < |init| :: PrintAll(entries)[i] == PrintAll(init)[i];
      PrintedPart(Entries(init), last);
    }
  }

  /** Parsing the comma-separated print of clean entries gives the entries back. */
  lemma ParseOfPrint(entries: seq<(string, Option<string>)>)
    requires entries != [] && forall i | 0 <= i < |entries| :: Clean(entries[i])
    ensures Parse(Join(PrintAll(entries), ',')) == Ok(Entries(entries))
  {
    ParsePrintedParts(entries);
    SplitOfJoin(PrintAll(entries), ',');
  }

  // ---------------------------------------------------------------------------------------------
  // White space, blank parts, and errors.

  ghost predicate AllSpace(s: string) {
    forall i | 0 <= i < |s| :: IsSpace(s[i])
  }

  /** An entry with white space around its key and value, or a part that is nothing but white space. */
  datatype Part = Blank(space: string) | Padded(a: string, entry: (string, Option<string>), b: string, c: string,
                                                d: string)

  ghost predicate CleanPart(p: Part) {
    match p
    case Blank(s) => AllSpace(s)
    case Padded(a, entry, b, c, d) => Clean(entry) && AllSpace(a) && AllSpace(b) && AllSpace(c) && AllSpace(d)
  }

  function PrintPart(p: Part): string {
    match p
    case Blank(s) => s
    case Padded(a, (k, None), _, _, d) => a + k + d
    case Padded(a, (k, Some(v)), b, c, d) => (a + (k + b)) + ":" + ((c + v) + d)
  }

  function PrintParts(parts: seq<Part>): seq<string> {
    seq(|parts|, i requires 0 <= i < |parts| => PrintPart(parts[i]))
  }

  /** The entries of the parts; a later one replaces an earlier one with its key. */
  function EntriesOf(parts: seq<Part>): Parsed {
    if parts == [] then map[]
    else
      var rest, last := EntriesOf(parts[..|parts|-1]), parts[|parts|-1];
      if last.Blank? then rest else rest[last.entry.0 := last.entry.1]
  }

  lemma TrimExactly(l: string, s: string, r: string)
    requires Bare(s, IsSpace) && AllSpace(l) && AllSpace(r)
    ensures Trim(l + s + r) == s
  {
    StripExactly(l, s, r, IsSpace);
  }

  lemma SpaceHasNo(s: string, c: char)
    requires AllSpace(s) && !IsSpace(c)
    ensures c !in s
  {
  }

  /** Parsing one such part adds its entry, or nothing. */
  lemma PaddedPart(out: Parsed, p: Part)
    requires CleanPart(p)
    ensures ParsePart(out, Trim(PrintPart(p))) == Ok(if p.Blank? then out else out[p.entry.0 := p.entry.1])
  {
    match p {
      case Blank(s) =>
        TrimExactly(s, "", "");
        assert s + "" + "" == s;
      case Padded(a, (k, None), b, c, d) =>
        TrimExactly(a, k, d);
        TrimExactly("", k, "");
        assert "" + k + "" == k;
        CutFirst(k, "", ':');
      case Padded(a, (k, Some(v)), b, c, d) => PaddedValue(out, a, k, b, c, v, d);
    }
  }

  lemma PaddedValue(out: Parsed, a: string, k: string, b: string, c: string, v: string, d: string)
    requires CleanPart(Padded(a, (k, Some(v)), b, c, d))
    ensures ParsePart(out, Trim((a + (k + b)) + ":" + ((c + v) + d))) == Ok(out[k := Some(v)])
  {
    var left, right := Before(k, b), After(c, v);
    var text := left + ":" + right;
    TrimWhole(a, k, b, c, v, d);
    LeftIsKey(k, b);
    RightIsValue(c, v);
    CutFirst(left, right, ':');
    assert text == left + [':'] + right;
    assert text[|left|] == ':';
    assert '=' !in text;
  }

  /** What is left on both sides of the colon when the part is stripped. */
  function Before(k: string, b: string): string {
    if k == "" then "" else k + b
  }

  function After(c: string, v: string): string {
    if v == "" then "" else c + v
  }

  lemma LeftIsKey(k: string, b: string)
    requires CleanText(k) && ':' !in k && AllSpace(b)
    ensures Trim(Before(k, b)) == k && ':' !in Before(k, b) && '=' !in Before(k, b)
  {
    SpaceHasNo(b, '=');
    SpaceHasNo(b, ':');
    TrimBefore(k, b);
  }

  lemma TrimBefore(k: string, b: string)
    requires Bare(k, IsSpace) && AllSpace(b)
    ensures Trim(Before(k, b)) == k
  {
    var none: string := "";
    if k == "" {
      TrimExactly(none, k, none);
    } else {
      TrimExactly(none, k, b);
      assert none + k == k;
    }
  }

  lemma RightIsValue(c: string, v: string)
    requires CleanText(v) && AllSpace(c)
    ensures Trim(After(c, v)) == v && '=' !in After(c, v)
  {
    SpaceHasNo(c, '=');
    if v != "" {
      TrimExactly(c, v, "");
      assert c + v + "" == c + v;
    }
  }

  lemma TrimWhole(a: string, k: string, b: string, c: string, v: string, d: string)
    requires CleanPart(Padded(a, (k, Some(v)), b, c, d))
    ensures Trim((a + (k + b)) + ":" + ((c + v) + d)) == Before(k, b) + ":" + After(c, v)
  {
    var l, r := if k == "" then a + b else a, if v == "" then c + d else d;
    OnTheLeft(a, k, b);
    OnTheRight(c, v, d);
    Around(l, Before(k, b), ":", After(c, v), r);
    BareAround(k, b, c, v);
    TrimExactly(l, Before(k, b) + ":" + After(c, v), r);
  }

  lemma OnTheLeft(a: string, k: string, b: string)
    ensures a + (k + b) == (if k == "" then a + b else a) + Before(k, b)
  {
    assert k == "" ==> k + b == b;
    assert (a + b) + "" == a + b;
  }

  lemma OnTheRight(c: string, v: string, d: string)
    ensures (c + v) + d == After(c, v) + if v == "" then c + d else d
  {
    assert v == "" ==> c + v == c;
    assert "" + (c + d) == c + d;
  }

  lemma Around(l: string, left: string, colon: string, right: string, r: string)
    ensures (l + left) + colon + (right + r) == l + (left + colon + right) + r
  {
  }

  lemma BareAround(k: string, b: string, c: string, v: string)
    requires CleanText(k) && CleanText(v)
    ensures Bare(Before(k, b) + ":" + After(c, v), IsSpace)
  {
    var s := Before(k, b) + ":" + After(c, v);
    assert s[0] == if k == "" then ':' else k[0];
    assert s[|s|-1] == if v == "" then ':' else v[|v|-1];
  }

  lemma PartHasNoComma(p: Part)
    requires CleanPart(p)
    ensures ',' !in PrintPart(p)
  {
    match p {
      case Blank(s) => SpaceHasNo(s, ',');
      case Padded(a, _, b, c, d) =>
        SpaceHasNo(a, ',');
        SpaceHasNo(b, ',');
        SpaceHasNo(c, ',');
        SpaceHasNo(d, ',');
    }
  }

  lemma {:induction false} ParsePaddedParts(parts: seq<Part>)
    requires forall i | 0 <= i < |parts| :: CleanPart(parts[i])
    ensures ParseParts(PrintParts(parts)) == Ok(EntriesOf(parts))
  {
    if parts != [] {
      var init, last := parts[..|parts|-1], parts[|parts|-1];
      ParsePaddedParts(init);
      assert PrintParts(parts)[..|parts|-1] == PrintParts(init);
      PaddedPart(EntriesOf(init), last);
    }
  }

  /** Parsing skips blank parts and the white space around keys and values. */
  lemma ParseOfPadded(parts: seq<Part>)
    requires parts != [] && forall i | 0 <= i < |parts| :: CleanPart(parts[i])
    ensures Parse(Join(PrintParts(parts), ',')) == Ok(EntriesOf(parts))
  {
    ParsePaddedParts(parts);
    forall i | 0 <= i < |parts| ensures ',' !in PrintParts(parts)[i] {
      PartHasNoComma(parts[i]);
    }
    SplitOfJoin(PrintParts(parts), ',');
  }

  ghost predicate IsFirstBad(parts: seq<string>, i: int, part: string) {
    && 0 <= i < |parts| && part == Trim(parts[i]) && '=' in parts[i] && forall j | 0 <= j < i :: '=' !in parts[j]
  }

  /** A refusal names the first part with an equals sign. */
  lemma {:induction false} ErrorExactly(parts: seq<string>)
    ensures ParseParts(parts).Err? ==> exists i :: IsFirstBad(parts, i, ParseParts(parts).error)
  {
    if parts != [] && ParseParts(parts).Err? {
      var init := parts[..|parts|-1];
      if ParseParts(init).Err? {
        ErrorExactly(init);
        var i :| IsFirstBad(init, i, ParseParts(init).error);
        FirstBadStays(parts, i, ParseParts(init).error);
      } else {
        LastIsBad(parts);
      }
    }
  }

  lemma FirstBadStays(parts: seq<string>, i: int, part: string)
    requires parts != [] && IsFirstBad(parts[..|parts|-1], i, part)
    ensures IsFirstBad(parts, i, part)
  {
    assert forall j | 0 <= j < |parts| - 1 :: parts[j] == parts[..|parts|-1][j];
  }

  lemma LastIsBad(parts: seq<string>)
    requires parts != [] && ParseParts(parts[..|parts|-1]).Ok? && ParseParts(parts).Err?
    ensures IsFirstBad(parts, |parts| - 1, ParseParts(parts).error)
  {
    var init, last := parts[..|parts|-1], parts[|parts|-1];
    NoneHas(init);
    LastErrs(parts);
    LastFails(ParseParts(init).value, last);
    BadAt(parts, init, Trim(last));
  }

  lemma LastErrs(parts: seq<string>)
    requires parts != [] && ParseParts(parts[..|parts|-1]).Ok? && ParseParts(parts).Err?
    ensures ParsePart(ParseParts(parts[..|parts|-1]).value, Trim(parts[|parts|-1])) == ParseParts(parts)
  {
  }

  lemma BadAt(parts: seq<string>, init: seq<string>, part: string)
    requires parts != [] && init == parts[..|parts|-1]
    requires part == Trim(parts[|parts|-1]) && '=' in parts[|parts|-1]
    requires forall j | 0 <= j < |init| :: '=' !in init[j]
    ensures IsFirstBad(parts, |parts| - 1, part)
  {
    forall j | 0 <= j < |parts| - 1 ensures '=' !in parts[j] {
      assert parts[j] == init[j];
    }
  }

  lemma NoneHas(parts: seq<string>)
    requires ParseParts(parts).Ok?
    ensures forall j | 0 <= j < |parts| :: '=' !in parts[j]
  {
    PartsFail(parts);
    assert !SomeHas(parts, '=');
  }

  lemma LastFails(out: Parsed, last: string)
    requires ParsePart(out, Trim(last)).Err?
    ensures ParsePart(out, Trim(last)).error == Trim(last) && '=' in last
  {
    TrimKeeps(last, '=');
  }

  /** Every key asked for is there, with just the value asked for if there is one. */
  lemma WantedExactly(actual: map<string, Option<string>>, selector: Parsed)
    ensures HasLabels(actual, Wanted(selector))
       <==> forall k | k in selector :: k in actual && (selector[k].Some? ==> actual[k] == selector[k])
  {
    if HasLabels(actual, Wanted(selector)) {
      forall k | k in selector ensures k in actual && (selector[k].Some? ==> actual[k] == selector[k]) {
        assert k in Wanted(selector);
      }
    }
  }
}
