/** Printing and parsing vector columns (apps/marvins/fields.py). */
module Vectors {
  import opened Basics
  import opened Text

  /** What a field can be given: nothing, text from the database, or numbers. */
  datatype FieldValue<F> = Absent | Written(text: string) | Numbers(numbers: seq<F>)

  predicate IsBracket(c: char) {
    c == '[' || c == ']'
  }

  function ShowAll<F>(v: seq<F>, show: F -> string): (parts: seq<string>)
    ensures |parts| == |v| && forall i | 0 <= i < |v| :: parts[i] == show(v[i])
  {
    seq(|v|, i requires 0 <= i < |v| => show(v[i]))
  }

  function GetPrepValue<F>(value: FieldValue<F>, show: F -> string): Option<string> {
    match value
    case Absent => None
    case Written(text) => if Trim(text) == "" then None else Some(Trim(text))
    case Numbers(v) => Some("[" + Join(ShowAll(v, show), ',') + "]")
  }

  /** The numbers of all parts, or nothing if one of them is not a number. */
  function ReadAll<F>(parts: seq<string>, read: string -> Option<F>): Option<seq<F>> {
    if parts == [] then Some([])
    else match (ReadAll(parts[..|parts|-1], read), read(parts[|parts|-1]))
      case (Some(v), Some(x)) => Some(v + [x])
      case _ => None
  }

  function ToPython<F>(value: FieldValue<F>, read: string -> Option<F>): Option<seq<F>> {
    match value
    case Absent => None
    case Numbers(v) => Some(v)
    case Written(text) =>
      var stripped := Trim(text);
      if stripped == "" then None else ReadAll(Split(Strip(stripped, IsBracket), ','), read)
  }

  predicate Token(s: string) {
    s != "" && forall i | 0 <= i < |s| :: s[i] != ',' && !IsBracket(s[i])
  }

  /** The number prints without separators and reads back. */
  predicate ReadsBack<F(==)>(x: F, show: F -> string, read: string -> Option<F>) {
    Token(show(x)) && read(show(x)) == Some(x)
  }

  /** The empty text is no number, and the numbers of the vector read back. */
  ghost predicate Codec<F>(v: seq<F>, show: F -> string, read: string -> Option<F>) {
    read("") == None && forall i | 0 <= i < |v| :: ReadsBack(v[i], show, read)
  }

  lemma {:induction false} ReadShown<F>(v: seq<F>, show: F -> string, read: string -> Option<F>)
    requires Codec(v, show, read)
    ensures ReadAll(ShowAll(v, show), read) == Some(v)
  {
    if v != [] {
      ReadShown(v[..|v|-1], show, read);
      assert ShowAll(v, show)[..|v|-1] == ShowAll(v[..|v|-1], show);
      assert ReadsBack(v[|v|-1], show, read);
      assert v == v[..|v|-1] + [v[|v|-1]];
    }
  }

  lemma {:induction false} JoinEnds(parts: seq<string>)
    requires parts != [] && forall i | 0 <= i < |parts| :: parts[i] != ""
    ensures Join(parts, ',') != ""
    ensures Join(parts, ',')[0] == parts[0][0]
    ensures var body, last := Join(parts, ','), parts[|parts|-1]; body[|body|-1] == last[|last|-1]
  {
    if |parts| > 1 {
      JoinEnds(parts[1..]);
    }
  }

  lemma StripBrackets(body: string)
    requires Bare(body, IsBracket)
    ensures Strip("[" + body + "]", IsBracket) == body
  {
    var s := "[" + body + "]";
    assert s[1..] == body + "]";
    if body == "" {
      assert "]"[1..] == "" && StripLeft("]", IsBracket) == "";
    } else {
      assert StripLeft(body + "]", IsBracket) == body + "]";
      assert (body + "]")[..|body|] == body && StripRight(body, IsBracket) == body;
    }
  }

  /** Parsing a printed vector gives the vector back, except that the empty vector comes back as nothing. */
  lemma RoundTripExactly<F>(v: seq<F>, show: F -> string, read: string -> Option<F>)
    requires Codec(v, show, read)
    ensures ToPython(Written(GetPrepValue(Numbers(v), show).value), read) == if v == [] then None else Some(v)
  {
    var parts := ShowAll(v, show);
    var body := Join(parts, ',');
    var text := "[" + body + "]";
    assert text[0] == '[' && text[|text|-1] == ']';
    assert Trim(text) == text;
    if v == [] {
      StripBrackets(body);
      assert Split("", ',') == [""];
      assert [""][..0] == [];
    } else {
      forall i | 0 <= i < |parts| ensures Token(parts[i]) && ',' !in parts[i] {
        assert ReadsBack(v[i], show, read);
      }
      JoinEnds(parts);
      assert Token(parts[0]) && Token(parts[|v|-1]);
      StripBrackets(body);
      SplitOfJoin(parts, ',');
      ReadShown(v, show, read);
    }
  }

  /** The empty text is no number, and every number that can be read prints to a text that reads back. */
  ghost predicate PrintsWhatItReads<F>(show: F -> string, read: string -> Option<F>) {
    read("") == None && forall s: string :: read(s).Some? ==> ReadsBack(read(s).value, show, read)
  }

  /** Whatever text parses, the print of the result parses to the same vector. */
  lemma ReprintIsStable<F>(text: string, show: F -> string, read: string -> Option<F>)
    requires PrintsWhatItReads(show, read) && ToPython(Written(text), read).Some?
    ensures var v := ToPython(Written(text), read).value;
            ToPython(Written(GetPrepValue(Numbers(v), show).value), read) == Some(v)
  {
    var parts := Split(Strip(Trim(text), IsBracket), ',');
    AllRead(parts, show, read);
    RoundTripExactly(ToPython(Written(text), read).value, show, read);
  }

  lemma {:induction false} AllRead<F>(parts: seq<string>, show: F -> string, read: string -> Option<F>)
    requires PrintsWhatItReads(show, read) && ReadAll(parts, read).Some?
    ensures |ReadAll(parts, read).value| == |parts| && Codec(ReadAll(parts, read).value, show, read)
  {
    if parts != [] {
      AllRead(parts[..|parts|-1], show, read);
      assert ReadsBack(read(parts[|parts|-1]).value, show, read);
    }
  }

  // ---------------------------------------------------------------------------------------------
  // The texts.

  /** Numbers are printed between brackets, with commas between them; a text is kept but for the space around it. */
  lemma PrintedExactly<F>(v: seq<F>, show: F -> string, text: string)
    requires v != [] && forall i | 0 <= i < |v| :: ',' !in show(v[i])
    ensures var printed := GetPrepValue(Numbers(v), show);
            && printed.Some? && |printed.value| >= 2
            && printed.value[0] == '[' && printed.value[|printed.value|-1] == ']'
            && Split(printed.value[1..|printed.value|-1], ',') == ShowAll(v, show)
    ensures GetPrepValue(Absent, show) == None
    ensures GetPrepValue(Written(text), show) == if Trim(text) == "" then None else Some(Trim(text))
  {
    var body := Join(ShowAll(v, show), ',');
    var printed := "[" + body + "]";
    assert printed[1..|printed|-1] == body;
    SplitOfJoin(ShowAll(v, show), ',');
  }

  /** A vector is read exactly when each of its parts is a number, with or without brackets and space around it. */
  lemma ReadExactly<F>(l: string, parts: seq<string>, r: string, read: string -> Option<F>)
    requires parts != [] && forall i | 0 <= i < |parts| :: Token(parts[i]) && Bare(parts[i], IsSpace)
    requires (forall i | 0 <= i < |l| :: IsSpace(l[i])) && forall i | 0 <= i < |r| :: IsSpace(r[i])
    ensures var body := Join(parts, ',');
            ToPython(Written(l + ("[" + body + "]") + r), read) == ToPython(Written(l + body + r), read)
            == ReadAll(parts, read)
    ensures ReadAll(parts, read).None? <==> exists i :: 0 <= i < |parts| && read(parts[i]).None?
    ensures ReadAll(parts, read).Some? ==>
              |ReadAll(parts, read).value| == |parts|
              && forall i | 0 <= i < |parts| :: read(parts[i]) == Some(ReadAll(parts, read).value[i])
  {
    var body := Join(parts, ',');
    assert forall i | 0 <= i < |parts| :: ',' !in parts[i];
    JoinEnds(parts);
    assert Token(parts[0]) && Token(parts[|parts|-1]) && Bare(parts[0], IsSpace) && Bare(parts[|parts|-1], IsSpace);
    StripExactly(l, "[" + body + "]", r, IsSpace);
    StripExactly(l, body, r, IsSpace);
    StripBrackets(body);
    SplitOfJoin(parts, ',');
    assert Strip(body, IsBracket) == body;
    ReadAllExactly(parts, read);
  }

  lemma {:induction false} ReadAllExactly<F>(parts: seq<string>, read: string -> Option<F>)
    ensures ReadAll(parts, read).None? <==> exists i :: 0 <= i < |parts| && read(parts[i]).None?
    ensures ReadAll(parts, read).Some? ==>
              |ReadAll(parts, read).value| == |parts|
              && forall i | 0 <= i < |parts| :: read(parts[i]) == Some(ReadAll(parts, read).value[i])
  {
    if parts != [] {
      var init, n := parts[..|parts|-1], |parts| - 1;
      ReadAllExactly(init, read);
      assert forall i | 0 <= i < n :: init[i] == parts[i];
    }
  }

  // ---------------------------------------------------------------------------------------------
  // A printer and a parser that fit together: decimal numerals.

  function ReadDecimal(s: string): Option<nat> {
    if s != "" && Value(s) >= 0 && Decimal(Value(s)) == s then Some(Value(s)) else None
  }

  lemma DecimalCodec(v: seq<nat>)
    ensures Codec(v, Decimal, ReadDecimal) && PrintsWhatItReads(Decimal, ReadDecimal)
  {
    forall n: nat ensures ReadsBack(n, Decimal, ReadDecimal) {
      DecimalIsToken(n);
      ValueOfDecimal(n);
    }
  }

  lemma {:induction false} DecimalIsToken(n: nat)
    ensures Token(Decimal(n))
  {
    if n >= 10 {
      DecimalIsToken(n / 10);
    }
  }
}
