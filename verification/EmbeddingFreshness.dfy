/** When a stored embedding may be searched: metadata saves and embedding jobs interleaved on one row. */
module EmbeddingFreshness {
  import opened Basics
  import opened CapabilityRows

  /** The filter of the vector search (apps/marvins/discovery.py); an empty expected model accepts every model. */
  predicate Searchable(row: Row, expectedModel: string) {
    row.embedding.Some? && !row.needsReEmbedding && (expectedModel == "" || row.embeddingModel == expectedModel)
  }

  /** What providers return for a model and a document. */
  type Embed = (string, string) -> Vector

  /** The flag and the vector agree with the version counters, for the stored document. */
  ghost predicate Tracked(row: Row, embed: Embed) {
    && row.embeddingVersion <= row.version && 0 < row.version
    && (row.needsReEmbedding <==> row.embeddingVersion != row.version)
    && (row.embeddingVersion == row.version ==> row.embedding == Some(embed(row.embeddingModel, row.document)))
  }

  /** And the stored document is that of the stored metadata. */
  ghost predicate Fresh(row: Row, embed: Embed) {
    Tracked(row, embed) && row.document == Document(row.meta)
  }

  /** The filter passes just the rows embedded at their version, by the expected model if there is one. */
  lemma SearchableExactly(row: Row, embed: Embed, expectedModel: string)
    requires Tracked(row, embed)
    ensures Searchable(row, expectedModel)
       <==> row.embeddingVersion == row.version && (expectedModel != "" ==> row.embeddingModel == expectedModel)
  {
  }

  /** So a row that passes the filter holds the vector of the document of its current metadata. */
  lemma SearchedVectorsAreCurrent(row: Row, embed: Embed, expectedModel: string)
    requires Fresh(row, embed) && Searchable(row, expectedModel)
    ensures row.embedding == Some(embed(row.embeddingModel, Document(row.meta)))
    ensures expectedModel != "" ==> row.embedding == Some(embed(expectedModel, Document(row.meta)))
  {
  }

  // ---------------------------------------------------------------------------------------------
  // Metadata saves.

  /** The metadata fields in which two values differ. */
  function Changed(a: Meta, b: Meta): set<Field> {
    (if a.name != b.name then {FName} else {}) + (if a.provider != b.provider then {FProvider} else {})
    + (if a.description != b.description then {FDescription} else {}) + (if a.schema != b.schema then {FSchema} else {})
    + (if a.useCases != b.useCases then {FUseCases} else {}) + (if a.aliases != b.aliases then {FAliases} else {})
    + (if a.tags != b.tags then {FTags} else {})
  }

  /**
   * Loading, changing and saving a row, stale or not, makes it fresh exactly when the metadata to be written has the
   * document that is built, and never lowers its version.
   */
  lemma MetaSaveExactly(row: Row, m: Meta, fields: set<Field>, embed: Embed)
    requires Tracked(row, embed)
    ensures var row' := Saved(row, row.(meta := m), Some(fields));
            && Tracked(row', embed)
            && (Fresh(row', embed) <==>
                  Document(WriteMeta(row.meta, m.(provider := Provider(m)), fields)) == Document(m))
            && row'.version == (if Document(m) == row.document then row.version else row.version + 1)
            && row'.document == Document(m)
  {
    MetaSaved(row, m, fields);
  }

  lemma MetaSaved(row: Row, m: Meta, fields: set<Field>)
    ensures var row' := Saved(row, row.(meta := m), Some(fields));
            && row'.meta == WriteMeta(row.meta, m.(provider := Provider(m)), fields)
            && row'.document == Document(m)
            && row'.version == (if Document(m) == row.document then row.version else row.version + 1)
            && row'.embedding == row.embedding && row'.embeddingModel == row.embeddingModel
            && row'.embeddingVersion == row.embeddingVersion
            && (row'.needsReEmbedding <==> row'.version > row.embeddingVersion)
  {
  }

  /** Listing every changed field is enough, also to repair a stale row. */
  lemma ListedSaveIsFresh(row: Row, m: Meta, fields: set<Field>, embed: Embed)
    requires Tracked(row, embed) && Changed(row.meta, m) <= fields
    ensures var row' := Saved(row, row.(meta := m), Some(fields));
            Fresh(row', embed) && row'.document == Document(m) && row'.version >= row.version
  {
    ListedDocument(row.meta, m, fields);
    MetaSaveExactly(row, m, fields, embed);
  }

  /** A save without a list of fields writes the loaded and changed row, and always makes it fresh. */
  lemma WholeSaveIsFresh(row: Row, m: Meta, enabled: bool, embed: Embed)
    requires Tracked(row, embed)
    ensures var row' := Saved(row, row.(meta := m, enabled := enabled), None);
            && Fresh(row', embed) && row'.meta == m.(provider := Provider(m)) && row'.enabled == enabled
            && row'.document == Document(m)
            && row'.version == (if Document(m) == row.document then row.version else row.version + 1)
  {
    ProviderOnce(m);
  }

  lemma ListedDocument(row: Meta, m: Meta, fields: set<Field>)
    requires Changed(row, m) <= fields
    ensures Document(WriteMeta(row, m.(provider := Provider(m)), fields)) == Document(m)
  {
    ProviderOnce(m);
    assert row.name == m.name || FName in fields;
    assert row.provider == m.provider || FProvider in fields;
    assert row.description == m.description || FDescription in fields;
    assert row.schema == m.schema || FSchema in fields;
    assert row.useCases == m.useCases || FUseCases in fields;
    assert row.aliases == m.aliases || FAliases in fields;
    assert row.tags == m.tags || FTags in fields;
    var written := WriteMeta(row, m.(provider := Provider(m)), fields);
    assert written == m || written == m.(provider := Provider(m));
  }

  /** A first save makes version one. */
  lemma CreateIsFresh(m: Meta, enabled: bool, embed: Embed)
    ensures var row := Saved(Row(m, enabled, "", 0, None, "", 0, false),
                             Row(m, enabled, "", 0, None, "", 0, false), None);
            Fresh(row, embed) && row.version == 1 && row.needsReEmbedding
  {
    ProviderOnce(m);
    DocumentNotEmpty(m);
  }

  lemma DocumentNotEmpty(m: Meta)
    ensures Document(m) != ""
  {
    var parts := Parts(m, Provider(m));
    assert |parts| >= 3 && parts[0] == "Capability: " + m.name;
  }

  // ---------------------------------------------------------------------------------------------
  // Embedding jobs: the instance loaded when the job starts is saved when the provider has answered.

  /** The vector is that of the loaded document, saved with the loaded version. */
  function FinishJob(row: Row, instance: Row, embed: Embed, model: string): Row {
    EmbeddingSaved(row, instance, embed(model, instance.document), model)
  }

  /** What a job writes: the document of the loaded metadata, and the vector and version of the loaded document. */
  function JobRow(row: Row, instance: Row, embed: Embed, model: string): Row {
    var stale := instance.document != Document(instance.meta);
    row.(document := Document(instance.meta), version := if stale then instance.version + 1 else instance.version,
         needsReEmbedding := stale, embedding := Some(embed(model, instance.document)), embeddingModel := model,
         embeddingVersion := instance.version)
  }

  lemma FinishWrites(row: Row, instance: Row, embed: Embed, model: string)
    ensures FinishJob(row, instance, embed, model) == JobRow(row, instance, embed, model)
  {
  }

  /**
   * Whatever was stored and loaded, a job makes the row fresh exactly when the loaded metadata have the document of the
   * stored ones. The row then passes the filter exactly when the loaded document was that of the loaded metadata.
   */
  lemma JobExactly(row: Row, instance: Row, embed: Embed, model: string)
    requires 0 < instance.version
    ensures var row' := FinishJob(row, instance, embed, model);
            && Tracked(row', embed)
            && (Fresh(row', embed) <==> Document(instance.meta) == Document(row.meta))
            && (Searchable(row', model) <==> instance.document == Document(instance.meta))
            && row'.embeddingVersion == instance.version && row'.embedding == Some(embed(model, instance.document))
            && row'.document == Document(instance.meta)
            && row'.meta == row.meta && row'.enabled == row.enabled
  {
    FinishWrites(row, instance, embed, model);
  }

  // ---------------------------------------------------------------------------------------------
  // Runs.

  datatype Action =
    | SaveMeta(m: Meta, fields: set<Field>)
    | SaveWhole(m: Meta, enabled: bool)
    | StartJob(model: string)
    | FinishNext(job: nat)

  datatype Job = Job(instance: Row, model: string)

  datatype System = System(row: Row, jobs: seq<Job>)

  /** Saves write everything or list what they change; a job ends only if the version is still the loaded one. */
  predicate Guarded(s: System, a: Action) {
    match a
    case SaveMeta(m, fields) => Changed(s.row.meta, m) <= fields
    case SaveWhole(_, _) => true
    case StartJob(_) => true
    case FinishNext(j) => j < |s.jobs| && s.jobs[j].instance.version == s.row.version
  }

  function Act(s: System, a: Action, embed: Embed): System {
    match a
    case SaveMeta(m, fields) => s.(row := Saved(s.row, s.row.(meta := m), Some(fields)))
    case SaveWhole(m, enabled) => s.(row := Saved(s.row, s.row.(meta := m, enabled := enabled), None))
    case StartJob(model) => s.(jobs := s.jobs + [Job(s.row, model)])
    case FinishNext(j) =>
      if j < |s.jobs| then
        System(FinishJob(s.row, s.jobs[j].instance, embed, s.jobs[j].model), s.jobs[..j] + s.jobs[j+1..])
      else s
  }

  function Run(s: System, actions: seq<Action>, embed: Embed): System {
    if actions == [] then s else Act(Run(s, actions[..|actions|-1], embed), actions[|actions|-1], embed)
  }

  ghost predicate AllGuarded(s: System, actions: seq<Action>, embed: Embed) {
    forall i | 0 <= i < |actions| :: Guarded(Run(s, actions[..i], embed), actions[i])
  }

  /** Loaded instances were fresh, and one with the current version has the current document. */
  ghost predicate JobsTrack(s: System, embed: Embed) {
    forall j | 0 <= j < |s.jobs| ::
      Fresh(s.jobs[j].instance, embed) && s.jobs[j].instance.version <= s.row.version
      && (s.jobs[j].instance.version == s.row.version ==> s.jobs[j].instance.document == s.row.document)
  }

  lemma ActKeepsFresh(s: System, a: Action, embed: Embed)
    requires Fresh(s.row, embed) && JobsTrack(s, embed) && Guarded(s, a)
    ensures Fresh(Act(s, a, embed).row, embed) && JobsTrack(Act(s, a, embed), embed)
    ensures Act(s, a, embed).row.version >= s.row.version
  {
    match a {
      case SaveMeta(m, fields) =>
        ListedSaveIsFresh(s.row, m, fields, embed);
        MetaSaveExactly(s.row, m, fields, embed);
      case SaveWhole(m, enabled) => WholeSaveIsFresh(s.row, m, enabled, embed);
      case StartJob(model) =>
      case FinishNext(j) =>
        JobExactly(s.row, s.jobs[j].instance, embed, s.jobs[j].model);
    }
  }

  /** Over every guarded run the row stays fresh and its version never falls. */
  lemma {:induction false} FreshOverGuardedRuns(row: Row, actions: seq<Action>, embed: Embed)
    requires Fresh(row, embed) && AllGuarded(System(row, []), actions, embed)
    ensures var s := Run(System(row, []), actions, embed);
            Fresh(s.row, embed) && JobsTrack(s, embed) && s.row.version >= row.version
  {
    if actions != [] {
      var init := actions[..|actions|-1];
      forall i | 0 <= i < |init| ensures Guarded(Run(System(row, []), init[..i], embed), init[i]) {
        assert init[..i] == actions[..i];
      }
      FreshOverGuardedRuns(row, init, embed);
      ActKeepsFresh(Run(System(row, []), init, embed), actions[|actions|-1], embed);
    }
  }

  // Without the guard.

  ghost predicate AllTracked(s: System, embed: Embed) {
    Tracked(s.row, embed) && forall j | 0 <= j < |s.jobs| :: Tracked(s.jobs[j].instance, embed)
  }

  /** The action leaves a fresh row: by what it writes, or by writing nothing to one. */
  ghost predicate LeavesFresh(s: System, a: Action, embed: Embed) {
    match a
    case SaveMeta(m, fields) => Document(WriteMeta(s.row.meta, m.(provider := Provider(m)), fields)) == Document(m)
    case SaveWhole(_, _) => true
    case StartJob(_) => Fresh(s.row, embed)
    case FinishNext(j) =>
      if j < |s.jobs| then Document(s.jobs[j].instance.meta) == Document(s.row.meta) else Fresh(s.row, embed)
  }

  lemma ActExactly(s: System, a: Action, embed: Embed)
    requires AllTracked(s, embed)
    ensures AllTracked(Act(s, a, embed), embed)
    ensures Fresh(Act(s, a, embed).row, embed) <==> LeavesFresh(s, a, embed)
  {
    match a {
      case SaveMeta(m, fields) => MetaSaveExactly(s.row, m, fields, embed);
      case SaveWhole(m, enabled) => WholeSaveIsFresh(s.row, m, enabled, embed);
      case StartJob(model) =>
      case FinishNext(j) =>
        if j < |s.jobs| {
          JobExactly(s.row, s.jobs[j].instance, embed, s.jobs[j].model);
        }
    }
  }

  /**
   * Over every run, whatever is saved and however jobs end, the flag and the vector agree with the counters: a row that
   * passes the filter holds the vector of its own stored document.
   */
  lemma {:induction false} TrackedInEveryRun(row: Row, actions: seq<Action>, embed: Embed)
    requires Tracked(row, embed)
    ensures var row' := Run(System(row, []), actions, embed).row;
            && AllTracked(Run(System(row, []), actions, embed), embed)
            && row'.embeddingVersion <= row'.version
            && (row'.needsReEmbedding <==> row'.embeddingVersion != row'.version)
            && forall model: string | Searchable(row', model) ::
                 row'.embedding == Some(embed(row'.embeddingModel, row'.document))
  {
    if actions != [] {
      var init := actions[..|actions|-1];
      TrackedInEveryRun(row, init, embed);
      ActExactly(Run(System(row, []), init, embed), actions[|actions|-1], embed);
    }
  }

  /** The last action of a run that writes, if any, writes metadata and the document of the same metadata. */
  ghost predicate LastWriteMatches(row: Row, actions: seq<Action>, embed: Embed) {
    if actions == [] then row.document == Document(row.meta)
    else
      var init, a := actions[..|actions|-1], actions[|actions|-1];
      var s := Run(System(row, []), init, embed);
      match a
      case SaveMeta(m, fields) => Document(WriteMeta(s.row.meta, m.(provider := Provider(m)), fields)) == Document(m)
      case SaveWhole(_, _) => true
      case StartJob(_) => LastWriteMatches(row, init, embed)
      case FinishNext(j) =>
        if j < |s.jobs| then Document(s.jobs[j].instance.meta) == Document(s.row.meta)
        else LastWriteMatches(row, init, embed)
  }

  /** After any run the row is fresh exactly when its last write was such, whatever was stale before. */
  lemma {:induction false} FreshExactly(row: Row, actions: seq<Action>, embed: Embed)
    requires Tracked(row, embed)
    ensures Fresh(Run(System(row, []), actions, embed).row, embed) <==> LastWriteMatches(row, actions, embed)
  {
    if actions != [] {
      var init := actions[..|actions|-1];
      TrackedInEveryRun(row, init, embed);
      FreshExactly(row, init, embed);
      ActExactly(Run(System(row, []), init, embed), actions[|actions|-1], embed);
    }
  }

  predicate SaveLists(s: System, a: Action) {
    a.SaveMeta? ==> Changed(s.row.meta, a.m) <= a.fields
  }

  /** A job that ends finds metadata with the document of those it loaded. */
  predicate JobKeeps(s: System, a: Action) {
    a.FinishNext? && a.job < |s.jobs| ==> Document(s.jobs[a.job].instance.meta) == Document(s.row.meta)
  }

  lemma ActFreshExactly(s: System, a: Action, embed: Embed)
    requires AllTracked(s, embed) && Fresh(s.row, embed) && SaveLists(s, a)
    ensures Fresh(Act(s, a, embed).row, embed) <==> JobKeeps(s, a)
  {
    ActExactly(s, a, embed);
    if a.SaveMeta? {
      ListedDocument(s.row.meta, a.m, a.fields);
    }
  }

  /** The states a run goes through, from a row without jobs. */
  ghost predicate IsTrace(states: seq<System>, actions: seq<Action>, embed: Embed) {
    && |states| == |actions| + 1 && states[0].jobs == []
    && forall i | 0 <= i < |actions| :: IsStep(states, actions, embed, i)
  }

  ghost predicate IsStep(states: seq<System>, actions: seq<Action>, embed: Embed, i: nat)
    requires i < |actions| && |states| == |actions| + 1
  {
    states[i+1] == Act(states[i], actions[i], embed)
  }

  lemma {:induction false} TrackedUpTo(states: seq<System>, actions: seq<Action>, embed: Embed, n: nat)
    requires IsTrace(states, actions, embed) && Tracked(states[0].row, embed) && n <= |actions|
    ensures AllTracked(states[n], embed)
  {
    if n > 0 {
      TrackedUpTo(states, actions, embed, n - 1);
      assert IsStep(states, actions, embed, n - 1);
      ActExactly(states[n-1], actions[n-1], embed);
    }
  }

  lemma {:induction false} FreshUpTo(states: seq<System>, actions: seq<Action>, embed: Embed, n: nat)
    requires IsTrace(states, actions, embed) && Fresh(states[0].row, embed) && n <= |actions|
    requires forall i | 0 <= i < n :: SaveLists(states[i], actions[i]) && JobKeeps(states[i], actions[i])
    ensures Fresh(states[n].row, embed)
  {
    if n > 0 {
      FreshUpTo(states, actions, embed, n - 1);
      TrackedUpTo(states, actions, embed, n - 1);
      assert IsStep(states, actions, embed, n - 1);
      ActFreshExactly(states[n-1], actions[n-1], embed);
    }
  }

  /** If saves list what they change, a run is fresh throughout exactly when every job finds the document it loaded. */
  lemma FreshThroughoutExactly(states: seq<System>, actions: seq<Action>, embed: Embed)
    requires IsTrace(states, actions, embed) && Fresh(states[0].row, embed)
    requires forall i | 0 <= i < |actions| :: SaveLists(states[i], actions[i])
    ensures (forall n | 0 <= n <= |actions| :: Fresh(states[n].row, embed))
       <==> (forall i | 0 <= i < |actions| :: JobKeeps(states[i], actions[i]))
  {
    if forall i | 0 <= i < |actions| :: JobKeeps(states[i], actions[i]) {
      forall n | 0 <= n <= |actions| ensures Fresh(states[n].row, embed) {
        FreshUpTo(states, actions, embed, n);
      }
    } else {
      var i :| 0 <= i < |actions| && !JobKeeps(states[i], actions[i]);
      TrackedUpTo(states, actions, embed, i);
      assert IsStep(states, actions, embed, i);
      if Fresh(states[i].row, embed) {
        ActFreshExactly(states[i], actions[i], embed);
        assert !Fresh(states[i+1].row, embed);
      }
    }
  }

  /** The code has no such guard: a description edited while a job runs leaves a stale vector that passes the filter. */
  lemma EditDuringJobLeavesStaleVector(row: Row, description: string, embed: Embed, model: string)
    requires Fresh(row, embed) && Document(row.meta.(description := description)) != row.document
    ensures var s := Run(System(row, []), EditDuringJob(row, description, model), embed);
            && s.row.meta == row.meta.(description := description)
            && Searchable(s.row, model) && s.row.embedding == Some(embed(model, row.document))
            && s.row.document == row.document != Document(s.row.meta)
            && !Fresh(s.row, embed) && s.row.version == row.version
  {
    var m := row.meta.(description := description);
    RunThree(System(row, []), StartJob(model), SaveMeta(m, {FDescription}), FinishNext(0), embed);
    StaleFinish(row, m, embed, model);
  }

  lemma RunThree(s: System, a: Action, b: Action, c: Action, embed: Embed)
    ensures Run(s, [a, b, c], embed) == Act(Act(Act(s, a, embed), b, embed), c, embed)
  {
    RunSnoc(s, [], a, [a], embed);
    RunSnoc(s, [a], b, [a, b], embed);
    RunSnoc(s, [a, b], c, [a, b, c], embed);
  }

  function EditDuringJob(row: Row, description: string, model: string): seq<Action> {
    [StartJob(model), SaveMeta(row.meta.(description := description), {FDescription}), FinishNext(0)]
  }

  lemma StaleFinish(row: Row, m: Meta, embed: Embed, model: string)
    requires Fresh(row, embed) && Document(m) != row.document && m == row.meta.(description := m.description)
    ensures var edited := Saved(row, row.(meta := m), Some({FDescription}));
            var s := Act(System(edited, [Job(row, model)]), FinishNext(0), embed);
            && s.row.meta == m && Searchable(s.row, model) && s.row.embedding == Some(embed(model, row.document))
            && s.row.document == row.document && s.row.version == row.version && !Fresh(s.row, embed)
  {
    EditedRow(row, m, embed);
    StaleJob(Saved(row, row.(meta := m), Some({FDescription})), row, embed, model);
  }

  lemma EditedRow(row: Row, m: Meta, embed: Embed)
    requires Fresh(row, embed) && m == row.meta.(description := m.description)
    ensures var edited := Saved(row, row.(meta := m), Some({FDescription}));
            edited.meta == m && edited.document == Document(m) && Fresh(edited, embed)
  {
    ListedSaveIsFresh(row, m, {FDescription}, embed);
    MetaSaved(row, m, {FDescription});
  }

  /** A job whose document is no longer the row's writes the old one back. */
  lemma StaleJob(edited: Row, row: Row, embed: Embed, model: string)
    requires Fresh(edited, embed) && Fresh(row, embed) && edited.document != row.document
    ensures var s := Act(System(edited, [Job(row, model)]), FinishNext(0), embed);
            && s.row.meta == edited.meta && Searchable(s.row, model) &&
               s.row.embedding == Some(embed(model, row.document))
            && s.row.document == row.document && s.row.version == row.version && !Fresh(s.row, embed)
  {
    FinishWrites(edited, row, embed, model);
    JobExactly(edited, row, embed, model);
  }

  lemma RunSnoc(s: System, before: seq<Action>, a: Action, actions: seq<Action>, embed: Embed)
    requires actions == before + [a]
    ensures Run(s, actions, embed) == Act(Run(s, before, embed), a, embed)
  {
    assert actions[..|actions|-1] == before;
  }
}
