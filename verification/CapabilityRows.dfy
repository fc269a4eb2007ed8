/**
 * Capability rows: the search document, saving with its version counter, and embedding
 * (apps/marvins/models.py, services/embeddings/generator.py).
 */
module CapabilityRows {
  import opened Basics
  import opened Text

  /** The described parameters of a JSON schema, and the rest of it, which no document shows. */
  datatype Schema = Schema(properties: seq<(string, string)>, rest: string)

  datatype Meta = Meta(
    name: string, provider: string, description: string, schema: Schema,
    useCases: seq<string>, aliases: seq<string>, tags: seq<string>)

  type Vector = seq<real>

  datatype Row = Row(
    meta: Meta, enabled: bool, document: string, version: nat,
    embedding: Option<Vector>, embeddingModel: string, embeddingVersion: nat, needsReEmbedding: bool)

  // ---------------------------------------------------------------------------------------------
  // The document.

  /** The provider is the prefix of a dotted name unless one is given. */
  function Provider(m: Meta): string {
    if m.name != "" && m.provider == "" then
      match Cut(m.name, '.') case Some((head, _)) => head case None => ""
    else m.provider
  }

  function Bullets(lines: seq<string>): seq<string> {
    if lines == [] then [] else Bullets(lines[..|lines|-1]) + ["- " + lines[|lines|-1]]
  }

  function Parameters(properties: seq<(string, string)>): seq<string> {
    if properties == [] then []
    else
      var rest, p := Parameters(properties[..|properties|-1]), properties[|properties|-1];
      if p.1 != "" then rest + ["- " + p.0 + ": " + p.1] else rest
  }

  function JoinComma(words: seq<string>): string {
    if words == [] then "" else if |words| == 1 then words[0] else words[0] + ", " + JoinComma(words[1..])
  }

  function Parts(m: Meta, provider: string): seq<string> {
    var head := ["Capability: " + m.name, "Provider: " + provider, "Description: " + m.description];
    var used := if m.useCases != [] then head + (["\nUseful for:"] + Bullets(m.useCases)) else head;
    var described :=
      if m.schema.properties != [] then used + (["\nParameters:"] + Parameters(m.schema.properties)) else used;
    var tagged := if m.tags != [] then described + ["\nTags: " + JoinComma(m.tags)] else described;
    if m.aliases != [] then tagged + ["Aliases: " + JoinComma(m.aliases)] else tagged
  }

  function Document(m: Meta): string {
    Join(Parts(m, Provider(m)), '\n')
  }

  /** Builds the document of metadata whose provider has just been filled in. */
  method BuildSearchDocument(m: Meta, ghost before: Meta) returns (document: string)
    requires m == before.(provider := Provider(before))
    ensures document == Document(before)
  {
    ProviderOnce(before);
    var parts := ["Capability: " + m.name, "Provider: " + m.provider, "Description: " + m.description];
    if m.useCases != [] {
      var bullets := UseCaseParts(m.useCases);
      parts := parts + (["\nUseful for:"] + bullets);
    }
    if m.schema.properties != [] {
      var described := ParameterParts(m.schema.properties);
      parts := parts + (["\nParameters:"] + described);
    }
    if m.tags != [] {
      parts := parts + ["\nTags: " + JoinComma(m.tags)];
    }
    if m.aliases != [] {
      parts := parts + ["Aliases: " + JoinComma(m.aliases)];
    }
    document := Join(parts, '\n');
  }

  method UseCaseParts(useCases: seq<string>) returns (parts: seq<string>)
    ensures parts == Bullets(useCases)
  {
    parts := [];
    for n := 0 to |useCases|
      invariant parts == Bullets(useCases[..n])
    {
      assert useCases[..n+1][..n] == useCases[..n];
      parts := parts + ["- " + useCases[n]];
    }
    assert useCases[..|useCases|] == useCases;
  }

  method ParameterParts(properties: seq<(string, string)>) returns (parts: seq<string>)
    ensures parts == Parameters(properties)
  {
    parts := [];
    for n := 0 to |properties|
      invariant parts == Parameters(properties[..n])
    {
      var (name, description) := properties[n];
      assert properties[..n+1][..n] == properties[..n];
      if description != "" {
        parts := parts + ["- " + name + ": " + description];
      }
    }
    assert properties[..|properties|] == properties;
  }

  // ---------------------------------------------------------------------------------------------
  // Saving.

  datatype Field =
    | FName | FProvider | FDescription | FSchema | FUseCases | FAliases | FTags | FEnabled
    | FDocument | FVersion | FEmbedding | FModel | FEmbeddingVersion | FNeeds

  /** The in-memory instance just before it is written. */
  function Refresh(r: Row): Row {
    var document := Document(r.meta);
    var version := if r.document != document then r.version + 1 else r.version;
    r.(meta := r.meta.(provider := Provider(r.meta)), document := document, version := version,
       needsReEmbedding := version > r.embeddingVersion)
  }

  function WriteMeta(row: Meta, m: Meta, fields: set<Field>): Meta {
    Meta(if FName in fields then m.name else row.name,
         if FProvider in fields then m.provider else row.provider,
         if FDescription in fields then m.description else row.description,
         if FSchema in fields then m.schema else row.schema,
         if FUseCases in fields then m.useCases else row.useCases,
         if FAliases in fields then m.aliases else row.aliases,
         if FTags in fields then m.tags else row.tags)
  }

  function WriteFields(row: Row, r: Row, fields: set<Field>): Row {
    Row(WriteMeta(row.meta, r.meta, fields),
        if FEnabled in fields then r.enabled else row.enabled,
        if FDocument in fields then r.document else row.document,
        if FVersion in fields then r.version else row.version,
        if FEmbedding in fields then r.embedding else row.embedding,
        if FModel in fields then r.embeddingModel else row.embeddingModel,
        if FEmbeddingVersion in fields then r.embeddingVersion else row.embeddingVersion,
        if FNeeds in fields then r.needsReEmbedding else row.needsReEmbedding)
  }

  /** The row after an instance is saved: all of it, or the listed fields and the document's own. */
  function Saved(row: Row, instance: Row, fields: Option<set<Field>>): Row {
    if fields.None? then Refresh(instance)
    else WriteFields(row, Refresh(instance), fields.value + {FDocument, FVersion, FNeeds})
  }

  class CapabilityRow {
    var row: Row

    constructor (row: Row)
      ensures this.row == row
    {
      this.row := row;
    }
  }

  class Capability {
    var meta: Meta
    var enabled: bool
    var document: string
    var version: nat
    var embedding: Option<Vector>
    var embeddingModel: string
    var embeddingVersion: nat
    var needsReEmbedding: bool

    function Value(): Row
      reads this
    {
      Row(meta, enabled, document, version, embedding, embeddingModel, embeddingVersion, needsReEmbedding)
    }

    /** Loads the stored row. */
    constructor (stored: CapabilityRow)
      ensures Value() == stored.row
    {
      meta, enabled, document, version := stored.row.meta, stored.row.enabled, stored.row.document, stored.row.version;
      embedding, embeddingModel := stored.row.embedding, stored.row.embeddingModel;
      embeddingVersion, needsReEmbedding := stored.row.embeddingVersion, stored.row.needsReEmbedding;
    }

    method DeriveProvider()
      modifies this`meta
      ensures meta == old(meta).(provider := Provider(old(meta)))
    {
      if meta.name != "" && meta.provider == "" {
        var cut := Cut(meta.name, '.');
        meta := meta.(provider := if cut.Some? then cut.value.0 else "");
      }
    }

    method BringUpToDate()
      modifies this
      ensures Value() == Refresh(old(Value()))
    {
      DeriveProvider();
      var newDocument := BuildSearchDocument(meta, old(meta));
      if document != newDocument {
        document := newDocument;
        version := version + 1;
      }
      needsReEmbedding := version > embeddingVersion;
    }

    method Save(stored: CapabilityRow, updateFields: Option<set<Field>>)
      modifies this, stored
      ensures Value() == Refresh(old(Value()))
      ensures stored.row == Saved(old(stored.row), old(Value()), updateFields)
    {
      BringUpToDate();
      if updateFields.Some? {
        stored.row := WriteFields(stored.row, Value(), updateFields.value + {FDocument, FVersion, FNeeds});
      } else {
        stored.row := Value();
      }
    }

    method SaveEmbedding(stored: CapabilityRow, vector: Vector, model: string)
      modifies this, stored
      ensures stored.row == EmbeddingSaved(old(stored.row), old(Value()), vector, model)
      ensures Value() == Refresh(Embedded(old(Value()), vector, model))
    {
      embedding := Some(vector);
      embeddingModel := model;
      embeddingVersion := version;
      Save(stored, Some({FEmbedding, FModel, FEmbeddingVersion}));
    }

    /** A provider that fails changes nothing; so does a row without a document. */
    method GenerateEmbedding(stored: CapabilityRow, answer: Option<Vector>, model: string) returns (success: bool)
      modifies this, stored
      ensures success <==> old(document) != "" && answer.Some?
      ensures stored.row
           == if success then EmbeddingSaved(old(stored.row), old(Value()), answer.value, model) else old(stored.row)
      ensures Value() == if success then Refresh(Embedded(old(Value()), answer.value, model)) else old(Value())
    {
      if document == "" || answer.None? {
        return false;
      }
      SaveEmbedding(stored, answer.value, model);
      success := true;
    }
  }

  function Embedded(instance: Row, vector: Vector, model: string): Row {
    instance.(embedding := Some(vector), embeddingModel := model, embeddingVersion := instance.version)
  }

  function EmbeddingSaved(row: Row, instance: Row, vector: Vector, model: string): Row {
    Saved(row, Embedded(instance, vector, model), Some({FEmbedding, FModel, FEmbeddingVersion}))
  }

  /** Filling the provider in once does not change the document. */
  lemma ProviderOnce(m: Meta)
    ensures var m' := m.(provider := Provider(m)); Join(Parts(m', m'.provider), '\n') == Document(m') == Document(m)
  {
    var m' := m.(provider := Provider(m));
    assert Parts(m', Provider(m)) == Parts(m, Provider(m));
  }
}
