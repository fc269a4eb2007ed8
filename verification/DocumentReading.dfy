/** What the search document says and what a save writes, column by column (apps/marvins/models.py). */
module DocumentReading {
  import opened Basics
  import opened Text
  import opened CapabilityRows

  // ---------------------------------------------------------------------------------------------
  // The document.

  /** One line for each entry. */
  function Lines(entries: seq<string>): string {
    if entries == [] then "" else "\n- " + entries[0] + Lines(entries[1..])
  }

  /** One line for each parameter that is described. */
  function DescribedLines(properties: seq<(string, string)>): string {
    if properties == [] then ""
    else
      var (name, description) := properties[0];
      (if description == "" then "" else "\n- " + name + ": " + description) + DescribedLines(properties[1..])
  }

  function Commas(words: seq<string>): string {
    if words == [] then ""
    else if |words| == 1 then words[0]
    else Commas(words[..|words|-1]) + ", " + words[|words|-1]
  }

  /** The given provider, or what comes before the first dot of the name, or nothing. */
  ghost predicate IsProvider(p: string, m: Meta) {
    if m.provider != "" then p == m.provider
    else if '.' in m.name then
      exists n :: 0 <= n < |m.name| && m.name[n] == '.' && '.' !in m.name[..n] && p == m.name[..n]
    else p == ""
  }

  lemma ProviderExactly(m: Meta)
    ensures IsProvider(Provider(m), m)
  {
    CutHead(m.name, '.');
    CutWhole(m.name, '.');
    if m.provider == "" && '.' in m.name {
      var p := Provider(m);
      assert m.name[..|p|] == p && m.name[|p|] == '.';
    }
  }

  // Joining with line feeds is putting each further part on a line of its own.

  function Below(parts: seq<string>): string {
    if parts == [] then "" else Below(parts[..|parts|-1]) + "\n" + parts[|parts|-1]
  }

  lemma {:induction false} JoinIsBelow(first: string, parts: seq<string>)
    ensures Join([first] + parts, '\n') == first + Below(parts)
    decreases |parts|
  {
    if parts == [] {
      assert [first] + parts == [first];
    } else {
      BelowCons(parts);
      JoinIsBelow(parts[0], parts[1..]);
      assert [parts[0]] + parts[1..] == parts;
      assert ([first] + parts)[1..] == parts;
      assert "\n" == ['\n'];
    }
  }

  lemma {:induction false} BelowCons(parts: seq<string>)
    requires parts != []
    ensures Below(parts) == "\n" + parts[0] + Below(parts[1..])
  {
    if |parts| > 1 {
      var init := parts[..|parts|-1];
      BelowCons(init);
      assert parts[1..][..|parts|-2] == init[1..];
    } else {
      assert parts[..0] == [] && parts[1..] == [];
    }
  }

  lemma {:induction false} BelowConcat(a: seq<string>, b: seq<string>)
    ensures Below(a + b) == Below(a) + Below(b)
  {
    if b == [] {
      assert a + b == a;
    } else {
      BelowConcat(a, b[..|b|-1]);
      assert (a + b)[..|a + b|-1] == a + b[..|b|-1];
    }
  }

  lemma {:induction false} LinesSnoc(entries: seq<string>, x: string)
    ensures Lines(entries + [x]) == Lines(entries) + "\n- " + x
  {
    if entries == [] {
      assert (entries + [x])[1..] == [];
    } else {
      assert (entries + [x])[1..] == entries[1..] + [x];
      LinesSnoc(entries[1..], x);
    }
  }

  lemma {:induction false} BulletsAreLines(entries: seq<string>)
    ensures Below(Bullets(entries)) == Lines(entries)
  {
    if entries != [] {
      var init, last := entries[..|entries|-1], entries[|entries|-1];
      BulletsAreLines(init);
      LinesSnoc(init, last);
      assert entries == init + [last];
      BelowConcat(Bullets(init), ["- " + last]);
      assert Below(["- " + last]) == "\n" + ("- " + last) by { BelowCons(["- " + last]); }
    }
  }

  lemma {:induction false} DescribedSnoc(properties: seq<(string, string)>, p: (string, string))
    ensures DescribedLines(properties + [p])
         == DescribedLines(properties) + if p.1 == "" then "" else "\n- " + p.0 + ": " + p.1
  {
    if properties == [] {
      assert (properties + [p])[1..] == [];
    } else {
      assert (properties + [p])[1..] == properties[1..] + [p];
      DescribedSnoc(properties[1..], p);
    }
  }

  lemma {:induction false} ParametersAreLines(properties: seq<(string, string)>)
    ensures Below(Parameters(properties)) == DescribedLines(properties)
  {
    if properties != [] {
      var init, last := properties[..|properties|-1], properties[|properties|-1];
      ParametersAreLines(init);
      DescribedSnoc(init, last);
      assert properties == init + [last];
      if last.1 != "" {
        var line := "- " + last.0 + ": " + last.1;
        BelowConcat(Parameters(init), [line]);
        OneLine(line);
        ParameterLine(last);
        assert Below(Parameters(properties)) == DescribedLines(init) + ("\n" + line);
      }
    }
  }

  lemma OneLine(line: string)
    ensures Below([line]) == "\n" + line
  {
    BelowCons([line]);
    assert [line][1..] == [];
  }

  lemma ParameterLine(p: (string, string))
    ensures "\n" + ("- " + p.0 + ": " + p.1) == "\n- " + p.0 + ": " + p.1
  {
    assert "\n" + "- " == "\n- ";
    Regroup("\n", "- ", p.0, ": ", p.1, "");
  }

  lemma {:induction false} CommasCons(words: seq<string>)
    requires |words| > 1
    ensures Commas(words) == words[0] + ", " + Commas(words[1..])
  {
    if |words| > 2 {
      var init := words[..|words|-1];
      CommasCons(init);
      assert words[1..][..|words|-2] == init[1..];
    } else {
      assert words[..1] == [words[0]] && words[1..] == [words[1]];
    }
  }

  lemma {:induction false} JoinIsCommas(words: seq<string>)
    ensures JoinComma(words) == Commas(words)
  {
    if |words| > 1 {
      JoinIsCommas(words[1..]);
      CommasCons(words);
    }
  }

  /** A part under a heading, which is there exactly when it has something to say. */
  function Headed(there: bool, heading: string, body: string): string {
    if there then heading + body else ""
  }

  function Top(m: Meta, p: string): string {
    "Capability: " + m.name + "\n" + ("Provider: " + p) + "\n" + ("Description: " + m.description)
  }

  /** The document, for a provider `p`. */
  function Written(m: Meta, p: string): string {
    Top(m, p)
    + Headed(m.useCases != [], "\n\nUseful for:", Lines(m.useCases))
    + Headed(m.schema.properties != [], "\n\nParameters:", DescribedLines(m.schema.properties))
    + Headed(m.tags != [], "\n\nTags: ", Commas(m.tags))
    + Headed(m.aliases != [], "\nAliases: ", Commas(m.aliases))
  }

  /**
   * The document has, in this order, the name, the provider, the description, a line for each use case, a line for each
   * described parameter, the tags and the aliases.
   */
  lemma DocumentExactly(m: Meta)
    ensures Document(m) == Written(m, Provider(m)) && IsProvider(Provider(m), m)
  {
    ProviderExactly(m);
    var p := Provider(m);
    var first, head := "Capability: " + m.name, ["Provider: " + p, "Description: " + m.description];
    PartsAre(m, p);
    JoinIsBelow(first, head + Used(m) + Described(m) + Tagged(m) + Aliased(m));
    BelowFive(head, Used(m), Described(m), Tagged(m), Aliased(m));
    Regroup(first, Below(head), Below(Used(m)), Below(Described(m)), Below(Tagged(m)), Below(Aliased(m)));
    FirstLines(m, p);
    UsedBelow(m);
    DescribedBelow(m);
    TaggedBelow(m);
  }

  lemma FirstLines(m: Meta, p: string)
    ensures "Capability: " + m.name + Below(["Provider: " + p, "Description: " + m.description]) == Top(m, p)
  {
    HeadBelow("Provider: " + p, "Description: " + m.description);
    Regroup("Capability: " + m.name, "\n", "Provider: " + p, "\n", "Description: " + m.description, "");
  }

  function Used(m: Meta): seq<string> {
    if m.useCases != [] then ["\nUseful for:"] + Bullets(m.useCases) else []
  }

  function Described(m: Meta): seq<string> {
    if m.schema.properties != [] then ["\nParameters:"] + Parameters(m.schema.properties) else []
  }

  function Tagged(m: Meta): seq<string> {
    if m.tags != [] then ["\nTags: " + JoinComma(m.tags)] else []
  }

  function Aliased(m: Meta): seq<string> {
    if m.aliases != [] then ["Aliases: " + JoinComma(m.aliases)] else []
  }

  lemma PartsAre(m: Meta, p: string)
    ensures Parts(m, p) == ["Capability: " + m.name]
                           + (["Provider: " + p, "Description: " + m.description]
                              + Used(m) + Described(m) + Tagged(m) + Aliased(m))
  {
    var first, head := ["Capability: " + m.name], ["Provider: " + p, "Description: " + m.description];
    assert first + head == ["Capability: " + m.name, "Provider: " + p, "Description: " + m.description];
    Regroup(first, head, Used(m), Described(m), Tagged(m), Aliased(m));
  }

  lemma Regroup<T>(a: seq<T>, b: seq<T>, c: seq<T>, d: seq<T>, e: seq<T>, f: seq<T>)
    ensures a + (b + c + d + e + f) == a + b + c + d + e + f
  {
  }

  lemma BelowFive(a: seq<string>, b: seq<string>, c: seq<string>, d: seq<string>, e: seq<string>)
    ensures Below(a + b + c + d + e) == Below(a) + Below(b) + Below(c) + Below(d) + Below(e)
  {
    BelowConcat(a + b + c + d, e);
    BelowConcat(a + b + c, d);
    BelowConcat(a + b, c);
    BelowConcat(a, b);
  }

  lemma UsedBelow(m: Meta)
    ensures Below(Used(m)) == Headed(m.useCases != [], "\n\nUseful for:", Lines(m.useCases))
  {
    SectionBelow("\nUseful for:", Bullets(m.useCases));
    BulletsAreLines(m.useCases);
    assert "\n" + "\nUseful for:" == "\n\nUseful for:";
  }

  lemma DescribedBelow(m: Meta)
    ensures Below(Described(m)) == Headed(m.schema.properties != [], "\n\nParameters:",
                                          DescribedLines(m.schema.properties))
  {
    SectionBelow("\nParameters:", Parameters(m.schema.properties));
    ParametersAreLines(m.schema.properties);
    assert "\n" + "\nParameters:" == "\n\nParameters:";
  }

  lemma TaggedBelow(m: Meta)
    ensures Below(Tagged(m)) == Headed(m.tags != [], "\n\nTags: ", Commas(m.tags))
    ensures Below(Aliased(m)) == Headed(m.aliases != [], "\nAliases: ", Commas(m.aliases))
  {
    JoinIsCommas(m.tags);
    JoinIsCommas(m.aliases);
    BelowCons(["\nTags: " + Commas(m.tags)]);
    BelowCons(["Aliases: " + Commas(m.aliases)]);
    assert "\n" + ("\nTags: " + Commas(m.tags)) == "\n\nTags: " + Commas(m.tags);
    assert "\n" + ("Aliases: " + Commas(m.aliases)) == "\nAliases: " + Commas(m.aliases);
  }

  lemma HeadBelow(a: string, b: string)
    ensures Below([a, b]) == "\n" + a + "\n" + b
  {
    BelowCons([a, b]);
    BelowCons([b]);
    assert [a, b][1..] == [b] && [b][1..] == [];
  }

  lemma SectionBelow(heading: string, parts: seq<string>)
    ensures Below([heading] + parts) == "\n" + heading + Below(parts)
  {
    BelowCons([heading] + parts);
    assert ([heading] + parts)[1..] == parts;
  }

  // ---------------------------------------------------------------------------------------------
  // Saving.

  predicate Listed(f: Field, fields: Option<set<Field>>) {
    fields.Some? ==> f in fields.value
  }

  /** A save always writes the document of the instance, its version, raised if the document is new, and the flag. */
  lemma SavedDocument(row: Row, instance: Row, fields: Option<set<Field>>)
    ensures var r, m := Saved(row, instance, fields), instance.meta;
            && r.document == Written(m, Provider(m)) && IsProvider(Provider(m), m)
            && r.version == (if r.document == instance.document then instance.version else instance.version + 1)
            && (r.needsReEmbedding <==> r.version > instance.embeddingVersion)
  {
    DocumentExactly(instance.meta);
  }

  /** And the listed columns, or all, from the instance with its provider filled in. */
  lemma SaveMetaExactly(row: Row, instance: Row, fields: Option<set<Field>>)
    ensures var r, m := Saved(row, instance, fields), instance.meta;
            && r.meta.name == (if Listed(FName, fields) then m.name else row.meta.name)
            && r.meta.provider == (if Listed(FProvider, fields) then Provider(m) else row.meta.provider)
            && r.meta.description == (if Listed(FDescription, fields) then m.description else row.meta.description)
            && r.meta.schema == (if Listed(FSchema, fields) then m.schema else row.meta.schema)
            && r.meta.useCases == (if Listed(FUseCases, fields) then m.useCases else row.meta.useCases)
            && r.meta.aliases == (if Listed(FAliases, fields) then m.aliases else row.meta.aliases)
            && r.meta.tags == (if Listed(FTags, fields) then m.tags else row.meta.tags)
  {
  }

  lemma SaveRestExactly(row: Row, instance: Row, fields: Option<set<Field>>)
    ensures var r := Saved(row, instance, fields);
            && r.enabled == (if Listed(FEnabled, fields) then instance.enabled else row.enabled)
            && r.embedding == (if Listed(FEmbedding, fields) then instance.embedding else row.embedding)
            && r.embeddingModel == (if Listed(FModel, fields) then instance.embeddingModel else row.embeddingModel)
            && r.embeddingVersion == (if Listed(FEmbeddingVersion, fields) then instance.embeddingVersion
                                      else row.embeddingVersion)
  {
  }

  /** A finished embedding writes the vector, the model and the instance's version, and no column of the metadata. */
  lemma EmbeddingExactly(row: Row, instance: Row, vector: Vector, model: string)
    ensures var r := EmbeddingSaved(row, instance, vector, model);
            && r.embedding == Some(vector) && r.embeddingModel == model && r.embeddingVersion == instance.version
            && r.meta == row.meta && r.enabled == row.enabled
  {
    SaveMetaExactly(row, Embedded(instance, vector, model), Some({FEmbedding, FModel, FEmbeddingVersion}));
    SaveRestExactly(row, Embedded(instance, vector, model), Some({FEmbedding, FModel, FEmbeddingVersion}));
  }
}
