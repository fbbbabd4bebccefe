/**
 * Cross-checking of an LRGASP submission ("entry"): the transcript models
 * against the read-model map, the expression matrix against the models, the
 * libraries of each experiment against the samples of the entry's challenge,
 * and the dispatch over the experiments of an entry.
 *
 * Every check either passes or fails with the first error it meets; an
 * exception of the source is an `Outcome.Fail` here, and a re-raise
 * `from ex` is an error that keeps the inner error as its `cause`.
 */
module EntryValidate {
  import opened Wrappers

  /** The two kinds of experiment of `lrgasp.defs.ExperimentType`. */
  datatype ExperimentType = Model | Expression

  /** The data files of an experiment directory (MODELS_GTF, READ_MODEL_MAP_TSV, EXPRESSION_TSV). */
  datatype DataFile = ModelsGtf | ReadModelMapTsv | ExpressionTsv

  /** What a data-file loader produced: the parsed table, or the failure it raised. */
  datatype Loaded<+T> = Parsed(value: T) | Unparsable(reason: string)

  /**
   * The loaded contents of one experiment directory.
   * `models`: the transcript ids of the model set, in file order.
   * `readModelMap`: the transcript id of each (read, transcript) pair, in file
   *   order; `None` is the wildcard `*` (read assigned to no model).
   * `expression`: the ID of each row of the expression matrix, in row order.
   */
  datatype ExperimentData = ExperimentData(
    models: Loaded<seq<string>>,
    readModelMap: Loaded<seq<Option<string>>>,
    expression: Loaded<seq<string>>)

  /** The metadata of one experiment together with its loaded data files. */
  datatype Experiment = Experiment(
    experimentId: string,
    experimentType: ExperimentType,
    libraries: seq<string>,
    data: ExperimentData)

  /** An entry: its id, its challenge and its experiments in metadata order. */
  datatype Entry = Entry(entryId: string, challengeId: string, experiments: seq<Experiment>)

  /**
   * The lookups the core consults but does not define:
   * `experimentTypeOf` is `challenge_to_experiment_type`,
   * `challengeSamples` is `get_challenge_samples`, and
   * `runSampleOf` maps a library (file accession) to the sample of its run
   * in the reference RNA-seq catalog.
   */
  datatype Reference = Reference(
    experimentTypeOf: string -> ExperimentType,
    challengeSamples: string -> set<string>,
    runSampleOf: string -> string)

  /** The validation failures raised by the core, by kind and offending ids. */
  datatype Error =
    | TranscriptNotInReadModelMap(transcriptId: string)
    | TranscriptNotInModels(transcriptId: string)
    | ExpressionIdNotInModels(id: string)
    | LibrarySampleNotValid(library: string, sample: string, challengeId: string, validSamples: set<string>)
    | ExperimentTypeMismatch(entryId: string, challengeId: string, experimentId: string, expectedType: ExperimentType)
    | LoadFailed(file: DataFile, reason: string)
    | ExperimentValidationFailed(entryId: string, experimentId: string, first: DataFile, second: DataFile, cause: Error)
    | ExperimentNotInEntry(entryId: string, experimentId: string)

  /** The result of a check: it passes, or it raises `error`. */
  datatype Outcome = Pass | Fail(error: Error)

  /**
   * The loop "for x in xs: check(x)" where each check may raise: the first
   * failing check's outcome, or `Pass` when every element passes.
   */
  function CheckEach<T>(xs: seq<T>, check: T -> Outcome): (r: Outcome)
    ensures r.Pass? <==> forall i :: 0 <= i < |xs| ==> check(xs[i]).Pass?
    ensures r.Fail? ==>
      exists i :: 0 <= i < |xs| && check(xs[i]) == r && forall j :: 0 <= j < i ==> check(xs[j]).Pass?
    decreases |xs|
  {
    if |xs| == 0 then Pass
    else if check(xs[0]).Fail? then check(xs[0])
    else
      var rest := CheckEach(xs[1..], check);
      assert forall j :: 1 <= j < |xs| ==> xs[j] == xs[1..][j - 1];
      rest
  }

  // ---------------------------------------------------------------------
  // Models against the read-model map

  /** The model transcript ids, as the set `models.by_transcript_id` is keyed by. */
  function ModelIds(models: seq<string>): set<string> {
    set t | t in models
  }

  /** The transcript ids of the read-model map with the wildcards left out. */
  function MapTranscriptIds(readModelMap: seq<Option<string>>): set<string> {
    set p | p in readModelMap && p.Some? :: p.value
  }

  /** `_validate_read_mapping_trans`: a map transcript id must name a model. */
  function ValidateReadMappingTrans(transcriptId: string, modelIds: set<string>): (r: Outcome)
    ensures r.Pass? <==> transcriptId in modelIds
    ensures r.Fail? ==> r.error == TranscriptNotInModels(transcriptId)
  {
    if transcriptId !in modelIds then Fail(TranscriptNotInModels(transcriptId)) else Pass
  }

  /** `_validate_trans_and_read_mapping`: a model transcript must be named by some pair of the map. */
  function ValidateTransAndReadMapping(transcriptId: string, readModelMap: seq<Option<string>>): (r: Outcome)
    ensures r.Pass? <==> transcriptId in MapTranscriptIds(readModelMap)
    ensures r.Fail? ==> r.error == TranscriptNotInReadModelMap(transcriptId)
  {
    if Some(transcriptId) !in readModelMap then Fail(TranscriptNotInReadModelMap(transcriptId)) else Pass
  }

  /** The check applied to one map entry: the wildcard `None` is skipped. */
  function MapEntryInModels(p: Option<string>, modelIds: set<string>): (r: Outcome)
    ensures r.Pass? <==> (p.Some? ==> p.value in modelIds)
    ensures r.Fail? ==> r.error == TranscriptNotInModels(p.value)
  {
    if p.None? then Pass else ValidateReadMappingTrans(p.value, modelIds)
  }

  /**
   * The first loop of `validate_model_and_read_mapping`: every map transcript
   * id, in the enumeration order `order`, must name a model.
   */
  function MapCheck(order: seq<Option<string>>, modelIds: set<string>): (r: Outcome)
    ensures r.Pass? <==> MapTranscriptIds(order) <= modelIds
    ensures r.Fail? ==>
      r.error.TranscriptNotInModels? && r.error.transcriptId in MapTranscriptIds(order) - modelIds
  {
    var r := CheckEach(order, p => MapEntryInModels(p, modelIds));
    assert r.Pass? ==> MapTranscriptIds(order) <= modelIds by {
      if r.Pass? {
        forall t | t in MapTranscriptIds(order) ensures t in modelIds {
          var i :| 0 <= i < |order| && order[i] == Some(t);
          assert MapEntryInModels(order[i], modelIds).Pass?;
        }
      }
    }
    r
  }

  /** The second loop of `validate_model_and_read_mapping`: every model, in model order, must be in the map. */
  function ModelsCheck(models: seq<string>, readModelMap: seq<Option<string>>): (r: Outcome)
    ensures r.Pass? <==> ModelIds(models) <= MapTranscriptIds(readModelMap)
    ensures r.Fail? ==>
      exists i :: 0 <= i < |models| && r.error == TranscriptNotInReadModelMap(models[i])
        && models[i] !in MapTranscriptIds(readModelMap)
        && forall j :: 0 <= j < i ==> models[j] in MapTranscriptIds(readModelMap)
  {
    CheckEach(models, t => ValidateTransAndReadMapping(t, readModelMap))
  }

  /**
   * `validate_model_and_read_mapping`: the map's transcript ids (wildcards
   * excluded) and the model transcript ids must be the same set.  The
   * map-to-models direction is checked first, so its error wins when both
   * directions fail; a model missing from the map is reported as the first
   * such model in model order.
   */
  function ValidateModelAndReadMapping(models: seq<string>, readModelMap: seq<Option<string>>): (r: Outcome)
    ensures r.Pass? <==> MapTranscriptIds(readModelMap) == ModelIds(models)
    ensures !(MapTranscriptIds(readModelMap) <= ModelIds(models)) ==>
      r.Fail? && r.error.TranscriptNotInModels?
      && r.error.transcriptId in MapTranscriptIds(readModelMap) - ModelIds(models)
    ensures MapTranscriptIds(readModelMap) <= ModelIds(models) && r.Fail? ==>
      exists i :: 0 <= i < |models| && r.error == TranscriptNotInReadModelMap(models[i])
        && models[i] !in MapTranscriptIds(readModelMap)
        && forall j :: 0 <= j < i ==> models[j] in MapTranscriptIds(readModelMap)
  {
    var toModels := MapCheck(readModelMap, ModelIds(models));
    if toModels.Fail? then toModels else ModelsCheck(models, readModelMap)
  }

  // ---------------------------------------------------------------------
  // Expression matrix against the models

  /** The check applied to one expression-matrix row. */
  function ExpressionIdInModels(id: string, modelIds: set<string>): (r: Outcome)
    ensures r.Pass? <==> id in modelIds
    ensures r.Fail? ==> r.error == ExpressionIdNotInModels(id)
  {
    if id !in modelIds then Fail(ExpressionIdNotInModels(id)) else Pass
  }

  /**
   * `validate_expression_and_model`: every row ID must be a model transcript
   * id; models without a row are allowed.  The error names the first
   * offending row in row order.
   */
  function ValidateExpressionAndModel(models: seq<string>, expression: seq<string>): (r: Outcome)
    ensures r.Pass? <==> (set id | id in expression) <= ModelIds(models)
    ensures r.Fail? ==>
      exists i :: 0 <= i < |expression| && r.error == ExpressionIdNotInModels(expression[i])
        && expression[i] !in ModelIds(models)
        && forall j :: 0 <= j < i ==> expression[j] in ModelIds(models)
  {
    CheckEach(expression, id => ExpressionIdInModels(id, ModelIds(models)))
  }

  // ---------------------------------------------------------------------
  // Experiment validators with their error wrapping

  /** The body of the `try` block of `_validate_model_experiment`: load the models, then the map, then reconcile. */
  function ModelExperimentChecks(data: ExperimentData): (r: Outcome)
    ensures r.Pass? <==>
      data.models.Parsed? && data.readModelMap.Parsed?
      && MapTranscriptIds(data.readModelMap.value) == ModelIds(data.models.value)
    ensures data.models.Unparsable? ==> r == Fail(LoadFailed(ModelsGtf, data.models.reason))
    ensures data.models.Parsed? && data.readModelMap.Unparsable? ==>
      r == Fail(LoadFailed(ReadModelMapTsv, data.readModelMap.reason))
    ensures data.models.Parsed? && data.readModelMap.Parsed? ==>
      r == ValidateModelAndReadMapping(data.models.value, data.readModelMap.value)
  {
    match data.models
    case Unparsable(why) => Fail(LoadFailed(ModelsGtf, why))
    case Parsed(models) =>
      match data.readModelMap
      case Unparsable(why) => Fail(LoadFailed(ReadModelMapTsv, why))
      case Parsed(readModelMap) => ValidateModelAndReadMapping(models, readModelMap)
  }

  /** The body of the `try` block of `_validate_expression_experiment`: load the models, then the matrix, then check. */
  function ExpressionExperimentChecks(data: ExperimentData): (r: Outcome)
    ensures r.Pass? <==>
      data.models.Parsed? && data.expression.Parsed?
      && (set id | id in data.expression.value) <= ModelIds(data.models.value)
    ensures data.models.Unparsable? ==> r == Fail(LoadFailed(ModelsGtf, data.models.reason))
    ensures data.models.Parsed? && data.expression.Unparsable? ==>
      r == Fail(LoadFailed(ExpressionTsv, data.expression.reason))
    ensures data.models.Parsed? && data.expression.Parsed? ==>
      r == ValidateExpressionAndModel(data.models.value, data.expression.value)
  {
    match data.models
    case Unparsable(why) => Fail(LoadFailed(ModelsGtf, why))
    case Parsed(models) =>
      match data.expression
      case Unparsable(why) => Fail(LoadFailed(ExpressionTsv, why))
      case Parsed(expression) => ValidateExpressionAndModel(models, expression)
  }

  /** The catch-all handler that re-raises a failure with the entry, the experiment and the two files, keeping the failure as its cause. */
  function Wrap(entry: Entry, experiment: Experiment, first: DataFile, second: DataFile, inner: Outcome): (r: Outcome)
    ensures r.Pass? <==> inner.Pass?
    ensures inner.Fail? ==>
      r.error.ExperimentValidationFailed? && r.error.cause == inner.error
      && r.error.entryId == entry.entryId && r.error.experimentId == experiment.experimentId
  {
    match inner
    case Pass => Pass
    case Fail(ex) => Fail(ExperimentValidationFailed(entry.entryId, experiment.experimentId, first, second, ex))
  }

  /** `_validate_model_experiment`: any failure of the model/map checks, loading included, comes back wrapped. */
  function ValidateModelExperiment(entry: Entry, experiment: Experiment): (r: Outcome)
    ensures r.Pass? <==> ModelExperimentChecks(experiment.data).Pass?
    ensures r.Fail? ==>
      r.error == ExperimentValidationFailed(entry.entryId, experiment.experimentId,
                   ModelsGtf, ReadModelMapTsv, ModelExperimentChecks(experiment.data).error)
  {
    Wrap(entry, experiment, ModelsGtf, ReadModelMapTsv, ModelExperimentChecks(experiment.data))
  }

  /** `_validate_expression_experiment`: any failure of the expression checks, loading included, comes back wrapped. */
  function ValidateExpressionExperiment(entry: Entry, experiment: Experiment): (r: Outcome)
    ensures r.Pass? <==> ExpressionExperimentChecks(experiment.data).Pass?
    ensures r.Fail? ==>
      r.error == ExperimentValidationFailed(entry.entryId, experiment.experimentId,
                   ModelsGtf, ExpressionTsv, ExpressionExperimentChecks(experiment.data).error)
  {
    Wrap(entry, experiment, ModelsGtf, ExpressionTsv, ExpressionExperimentChecks(experiment.data))
  }

  // ---------------------------------------------------------------------
  // Libraries against the challenge's samples

  /** `_validate_experiment_library`: the sample of the library's run must be one of the challenge's samples. */
  function ValidateExperimentLibrary(entry: Entry, ref: Reference, library: string): (r: Outcome)
    ensures r.Pass? <==> ref.runSampleOf(library) in ref.challengeSamples(entry.challengeId)
    ensures r.Fail? ==>
      r.error == LibrarySampleNotValid(library, ref.runSampleOf(library), entry.challengeId,
                                       ref.challengeSamples(entry.challengeId))
  {
    var sample := ref.runSampleOf(library);
    var validSamples := ref.challengeSamples(entry.challengeId);
    if sample !in validSamples then Fail(LibrarySampleNotValid(library, sample, entry.challengeId, validSamples))
    else Pass
  }

  /** Every library of `libraries` belongs to a sample of the entry's challenge. */
  predicate LibrariesCompatible(entry: Entry, ref: Reference, libraries: seq<string>) {
    forall library :: library in libraries ==> ref.runSampleOf(library) in ref.challengeSamples(entry.challengeId)
  }

  /** `_validate_experiment_libraries`: all libraries pass; otherwise the first failing one in list order is reported. */
  function ValidateExperimentLibraries(entry: Entry, experiment: Experiment, ref: Reference): (r: Outcome)
    ensures r.Pass? <==> LibrariesCompatible(entry, ref, experiment.libraries)
    ensures r.Fail? ==>
      exists i :: 0 <= i < |experiment.libraries| && r == ValidateExperimentLibrary(entry, ref, experiment.libraries[i])
        && r.error.library == experiment.libraries[i]
        && forall j :: 0 <= j < i ==>
             ref.runSampleOf(experiment.libraries[j]) in ref.challengeSamples(entry.challengeId)
  {
    var r := CheckEach(experiment.libraries, library => ValidateExperimentLibrary(entry, ref, library));
    assert r.Pass? ==> LibrariesCompatible(entry, ref, experiment.libraries) by {
      if r.Pass? {
        forall library | library in experiment.libraries
          ensures ref.runSampleOf(library) in ref.challengeSamples(entry.challengeId)
        {
          var i :| 0 <= i < |experiment.libraries| && experiment.libraries[i] == library;
          assert ValidateExperimentLibrary(entry, ref, experiment.libraries[i]).Pass?;
        }
      }
    }
    r
  }

  // ---------------------------------------------------------------------
  // One experiment, and the whole entry

  /** The data of an experiment is consistent for its type: models equal the map, or the matrix is within the models. */
  predicate DataConsistent(experimentType: ExperimentType, data: ExperimentData) {
    data.models.Parsed?
    && if experimentType == Model then
         data.readModelMap.Parsed? && MapTranscriptIds(data.readModelMap.value) == ModelIds(data.models.value)
       else
         data.expression.Parsed? && (set id | id in data.expression.value) <= ModelIds(data.models.value)
  }

  /** An experiment passes validation: right type for the challenge, compatible libraries, consistent data. */
  predicate ExperimentValid(entry: Entry, experiment: Experiment, ref: Reference) {
    && experiment.experimentType == ref.experimentTypeOf(entry.challengeId)
    && LibrariesCompatible(entry, ref, experiment.libraries)
    && DataConsistent(experiment.experimentType, experiment.data)
  }

  /**
   * `_validate_experiment` once the experiment's metadata is loaded: the
   * type check comes first, then the libraries, then the data check chosen
   * by the challenge's experiment type (model, or every other type: expression).
   */
  function ValidateExperiment(entry: Entry, experiment: Experiment, ref: Reference): (r: Outcome)
    ensures r.Pass? <==> ExperimentValid(entry, experiment, ref)
    ensures experiment.experimentType != ref.experimentTypeOf(entry.challengeId) ==>
      r == Fail(ExperimentTypeMismatch(entry.entryId, entry.challengeId, experiment.experimentId,
                                       ref.experimentTypeOf(entry.challengeId)))
    ensures experiment.experimentType == ref.experimentTypeOf(entry.challengeId)
            && !LibrariesCompatible(entry, ref, experiment.libraries) ==>
      r == ValidateExperimentLibraries(entry, experiment, ref) && r.error.LibrarySampleNotValid?
    ensures experiment.experimentType == ref.experimentTypeOf(entry.challengeId)
            && LibrariesCompatible(entry, ref, experiment.libraries) && r.Fail? ==>
      r.error.ExperimentValidationFailed? && r.error.entryId == entry.entryId
      && r.error.experimentId == experiment.experimentId
      && r.error.second == (if experiment.experimentType == Model then ReadModelMapTsv else ExpressionTsv)
    ensures experiment.experimentType == ref.experimentTypeOf(entry.challengeId)
            && LibrariesCompatible(entry, ref, experiment.libraries) ==>
      r == if experiment.experimentType == Model then ValidateModelExperiment(entry, experiment)
           else ValidateExpressionExperiment(entry, experiment)
  {
    var experimentType := ref.experimentTypeOf(entry.challengeId);
    if experiment.experimentType != experimentType then
      Fail(ExperimentTypeMismatch(entry.entryId, entry.challengeId, experiment.experimentId, experimentType))
    else
      var libraries := ValidateExperimentLibraries(entry, experiment, ref);
      if libraries.Fail? then libraries
      else if experimentType == Model then ValidateModelExperiment(entry, experiment)
      else ValidateExpressionExperiment(entry, experiment)
  }

  /** `entry.experiment_ids`: the ids of the entry's experiments, in order. */
  function ExperimentIds(experiments: seq<Experiment>): (ids: seq<string>)
    ensures |ids| == |experiments|
    ensures forall i :: 0 <= i < |experiments| ==> ids[i] == experiments[i].experimentId
  {
    if experiments == [] then [] else [experiments[0].experimentId] + ExperimentIds(experiments[1..])
  }

  /** The position of the first occurrence of `id` in `ids`. */
  function FirstIndexOf(ids: seq<string>, id: string): (i: nat)
    requires id in ids
    ensures i < |ids| && ids[i] == id
    ensures forall j :: 0 <= j < i ==> ids[j] != id
  {
    if ids[0] == id then 0 else 1 + FirstIndexOf(ids[1..], id)
  }

  /** `experiment_metadata.load_from_entry`: the (first) experiment of the entry with the given id. */
  function FindExperiment(experiments: seq<Experiment>, experimentId: string): (e: Experiment)
    requires experimentId in ExperimentIds(experiments)
    ensures e in experiments && e.experimentId == experimentId
    ensures exists i :: 0 <= i < |experiments| && experiments[i] == e
                        && forall j :: 0 <= j < i ==> experiments[j].experimentId != experimentId
  {
    var i := FirstIndexOf(ExperimentIds(experiments), experimentId);
    experiments[i]
  }

  /**
   * `_validate_experiment(entry, experiment_id)`: load the experiment with
   * that id from the entry, then validate it.
   */
  function ValidateExperimentById(entry: Entry, experimentId: string, ref: Reference): (r: Outcome)
    requires experimentId in ExperimentIds(entry.experiments)
    ensures r.Pass? <==> ExperimentValid(entry, FindExperiment(entry.experiments, experimentId), ref)
    ensures r.Fail? && !r.error.LibrarySampleNotValid? ==>
      r.error.ExperimentTypeMismatch? || r.error.ExperimentValidationFailed?
    ensures r.Fail? && (r.error.ExperimentTypeMismatch? || r.error.ExperimentValidationFailed?) ==>
      r.error.experimentId == experimentId
  {
    ValidateExperiment(entry, FindExperiment(entry.experiments, experimentId), ref)
  }

  /** The `experiment_ids` that `entry_data_validate` goes through: the restricting one, or all of the entry's. */
  function ExperimentIdsInScope(entry: Entry, restrictExperimentId: Option<string>): (scope: seq<string>)
    requires restrictExperimentId.Some? ==> restrictExperimentId.value in ExperimentIds(entry.experiments)
    ensures forall i :: 0 <= i < |scope| ==> scope[i] in ExperimentIds(entry.experiments)
    ensures restrictExperimentId.Some? ==> scope == [restrictExperimentId.value]
    ensures restrictExperimentId.None? ==> scope == ExperimentIds(entry.experiments)
  {
    if restrictExperimentId.Some? then [restrictExperimentId.value] else ExperimentIds(entry.experiments)
  }

  /**
   * The loop over the ids in scope, validating the experiment loaded for each.
   * Every scanned id is an id of the entry, so the `Pass` arm of the
   * membership guard is never taken.
   */
  function ValidateEachExperimentId(entry: Entry, scope: seq<string>, ref: Reference): (r: Outcome)
    requires forall i :: 0 <= i < |scope| ==> scope[i] in ExperimentIds(entry.experiments)
    ensures r.Pass? <==>
      forall i :: 0 <= i < |scope| ==> ExperimentValid(entry, FindExperiment(entry.experiments, scope[i]), ref)
    ensures r.Fail? ==>
      exists i :: 0 <= i < |scope| && r == ValidateExperimentById(entry, scope[i], ref)
        && forall j :: 0 <= j < i ==> ExperimentValid(entry, FindExperiment(entry.experiments, scope[j]), ref)
  {
    var ids := ExperimentIds(entry.experiments);
    CheckEach(scope, experimentId => if experimentId in ids then ValidateExperimentById(entry, experimentId, ref) else Pass)
  }

  /**
   * `entry_data_validate` once the entry's metadata is loaded.  A restricting
   * id must name an experiment of the entry, and then exactly that experiment
   * is validated; without one every experiment id is validated in order and
   * the first failure is the result.
   */
  function EntryDataValidate(entry: Entry, restrictExperimentId: Option<string>, ref: Reference): (r: Outcome)
    ensures restrictExperimentId.Some? && restrictExperimentId.value !in ExperimentIds(entry.experiments) ==>
      r == Fail(ExperimentNotInEntry(entry.entryId, restrictExperimentId.value))
    ensures restrictExperimentId.Some? && restrictExperimentId.value in ExperimentIds(entry.experiments) ==>
      r == ValidateExperiment(entry, FindExperiment(entry.experiments, restrictExperimentId.value), ref)
    ensures restrictExperimentId.None? ==>
      (r.Pass? <==> forall i :: 0 <= i < |entry.experiments| ==>
                      ExperimentValid(entry, FindExperiment(entry.experiments, ExperimentIds(entry.experiments)[i]), ref))
    ensures restrictExperimentId.None? && r.Fail? ==>
      exists i :: 0 <= i < |entry.experiments|
        && r == ValidateExperimentById(entry, ExperimentIds(entry.experiments)[i], ref)
        && forall j :: 0 <= j < i ==>
             ExperimentValid(entry, FindExperiment(entry.experiments, ExperimentIds(entry.experiments)[j]), ref)
  {
    if restrictExperimentId.Some? && restrictExperimentId.value !in ExperimentIds(entry.experiments) then
      Fail(ExperimentNotInEntry(entry.entryId, restrictExperimentId.value))
    else
      var scope := ExperimentIdsInScope(entry, restrictExperimentId);
      var r := ValidateEachExperimentId(entry, scope, ref);
      assert restrictExperimentId.None? ==> |scope| == |entry.experiments| && scope == ExperimentIds(entry.experiments);
      assert restrictExperimentId.Some? ==>
        r == ValidateExperiment(entry, FindExperiment(entry.experiments, restrictExperimentId.value), ref) by {
        if restrictExperimentId.Some? {
          assert r.Fail? ==> r == ValidateExperimentById(entry, scope[0], ref);
        }
      }
      r
  }
}
