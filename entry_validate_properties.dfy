/**
 * Properties of the entry validation checks that relate several calls:
 * wildcards in the read-model map, the enumeration order of the map's ids,
 * extra models, the restricted mode against the full run, and the cause
 * chain of wrapped errors.
 */
module EntryValidateProperties {
  import opened Wrappers
  import opened EntryValidate

  /** Inserting an element that passes its check does not change a scan. */
  lemma {:induction false} CheckEachSkipsPassing<T>(a: seq<T>, x: T, b: seq<T>, check: T -> Outcome)
    requires check(x).Pass?
    ensures CheckEach(a + [x] + b, check) == CheckEach(a + b, check)
    decreases |a|
  {
    if a == [] {
      assert a + [x] + b == [x] + b && a + b == b;
      assert ([x] + b)[1..] == b;
    } else {
      assert (a + [x] + b)[0] == a[0] && (a + b)[0] == a[0];
      assert (a + [x] + b)[1..] == a[1..] + [x] + b;
      assert (a + b)[1..] == a[1..] + b;
      CheckEachSkipsPassing(a[1..], x, b, check);
    }
  }

  /** The models-to-map loop only sees the map through its set of non-wildcard transcript ids. */
  lemma ModelsCheckSeesOnlyIds(models: seq<string>, m1: seq<Option<string>>, m2: seq<Option<string>>)
    requires MapTranscriptIds(m1) == MapTranscriptIds(m2)
    ensures ModelsCheck(models, m1) == ModelsCheck(models, m2)
  {
  }

  /**
   * A wildcard `*` pair, wherever it stands in the read-model map, changes
   * nothing: not whether the check passes, nor (with the map scanned in
   * file order) the error it reports.
   */
  lemma WildcardChangesNothing(models: seq<string>, a: seq<Option<string>>, b: seq<Option<string>>)
    ensures ValidateModelAndReadMapping(models, a + [None] + b) == ValidateModelAndReadMapping(models, a + b)
  {
    CheckEachSkipsPassing(a, None, b, p => MapEntryInModels(p, ModelIds(models)));
    assert MapTranscriptIds(a + [None] + b) == MapTranscriptIds(a + b) by {
      forall t ensures t in MapTranscriptIds(a + [None] + b) <==> t in MapTranscriptIds(a + b) {
        assert Some(t) in a + [None] + b <==> Some(t) in a + b;
      }
    }
    ModelsCheckSeesOnlyIds(models, a + [None] + b, a + b);
  }

  /**
   * Python walks the map's ids as a `set`, in hash order.  Any enumeration
   * of the same ids gives the same verdict, and a failure is always the
   * "not in models" kind naming an id of the map that is not a model.
   */
  lemma MapCheckIndependentOfOrder(o1: seq<Option<string>>, o2: seq<Option<string>>, modelIds: set<string>)
    requires forall p :: p in o1 <==> p in o2
    ensures MapCheck(o1, modelIds).Pass? == MapCheck(o2, modelIds).Pass?
    ensures MapCheck(o1, modelIds).Fail? ==>
      MapCheck(o1, modelIds).error.TranscriptNotInModels?
      && MapCheck(o1, modelIds).error.transcriptId in MapTranscriptIds(o2) - modelIds
  {
    assert MapTranscriptIds(o1) == MapTranscriptIds(o2) by {
      forall t ensures t in MapTranscriptIds(o1) <==> t in MapTranscriptIds(o2) {
        assert Some(t) in o1 <==> Some(t) in o2;
      }
    }
  }

  /** Models that no expression row names never make the expression check fail. */
  lemma ExtraModelsKeepExpressionValid(models: seq<string>, extra: seq<string>, expression: seq<string>)
    requires ValidateExpressionAndModel(models, expression).Pass?
    ensures ValidateExpressionAndModel(models + extra, expression).Pass?
  {
    assert ModelIds(models) <= ModelIds(models + extra) by {
      forall t | t in ModelIds(models) ensures t in ModelIds(models + extra) {
        var i :| 0 <= i < |models| && models[i] == t;
        assert (models + extra)[i] == t;
      }
    }
  }

  /** An expression row absent from the models always makes the expression check fail. */
  lemma MissingExpressionIdFails(models: seq<string>, expression: seq<string>, i: nat)
    requires i < |expression| && expression[i] !in models
    ensures ValidateExpressionAndModel(models, expression).Fail?
    ensures ValidateExpressionAndModel(models, expression).error.id !in models
  {
    assert expression[i] in (set id | id in expression);
  }

  /** The experiment that the `i`-th iteration of the full run loads by id. */
  function ExperimentAt(entry: Entry, i: nat): Experiment
    requires i < |entry.experiments|
  {
    FindExperiment(entry.experiments, ExperimentIds(entry.experiments)[i])
  }

  /** A full run that passes implies that every restricted run passes. */
  lemma FullRunCoversRestricted(entry: Entry, ref: Reference, experimentId: string)
    requires EntryDataValidate(entry, None, ref).Pass?
    ensures EntryDataValidate(entry, Some(experimentId), ref).Pass? <==> experimentId in ExperimentIds(entry.experiments)
  {
    if experimentId in ExperimentIds(entry.experiments) {
      var ids := ExperimentIds(entry.experiments);
      var i :| 0 <= i < |ids| && ids[i] == experimentId;
      assert ExperimentValid(entry, ExperimentAt(entry, i), ref);
    }
  }

  /** The full run passes exactly when the run restricted to each of the entry's experiment ids passes. */
  lemma FullRunIsEveryRestrictedRun(entry: Entry, ref: Reference)
    ensures EntryDataValidate(entry, None, ref).Pass? <==>
      forall i :: 0 <= i < |entry.experiments| ==>
        EntryDataValidate(entry, Some(entry.experiments[i].experimentId), ref).Pass?
  {
    var ids := ExperimentIds(entry.experiments);
    forall i | 0 <= i < |entry.experiments|
      ensures EntryDataValidate(entry, Some(entry.experiments[i].experimentId), ref)
              == ValidateExperiment(entry, ExperimentAt(entry, i), ref)
    {
      assert ids[i] == entry.experiments[i].experimentId;
    }
  }

  /** The checks inside the `try` block that `_validate_experiment` dispatches to for this experiment. */
  function DataChecks(experiment: Experiment): Outcome {
    if experiment.experimentType == Model then ModelExperimentChecks(experiment.data)
    else ExpressionExperimentChecks(experiment.data)
  }

  /**
   * Within one experiment whose type and libraries pass, a data failure,
   * model or expression, is the experiment's result wrapped with the entry,
   * the experiment and the two files, and with that failure as its cause.
   */
  lemma DataFailureWrapped(entry: Entry, experiment: Experiment, ref: Reference)
    requires experiment.experimentType == ref.experimentTypeOf(entry.challengeId)
    requires LibrariesCompatible(entry, ref, experiment.libraries)
    requires DataChecks(experiment).Fail?
    ensures ValidateExperiment(entry, experiment, ref) ==
      Fail(ExperimentValidationFailed(
             entry.entryId, experiment.experimentId, ModelsGtf,
             if experiment.experimentType == Model then ReadModelMapTsv else ExpressionTsv,
             DataChecks(experiment).error))
  {
  }

  /** The full run's result is that of the first experiment, in id order, that is not valid. */
  lemma FullRunStopsAtFirstInvalid(entry: Entry, ref: Reference, i: nat)
    requires i < |entry.experiments|
    requires forall j :: 0 <= j < i ==> ExperimentValid(entry, ExperimentAt(entry, j), ref)
    requires !ExperimentValid(entry, ExperimentAt(entry, i), ref)
    ensures EntryDataValidate(entry, None, ref) == ValidateExperiment(entry, ExperimentAt(entry, i), ref)
  {
    var r := EntryDataValidate(entry, None, ref);
    var k :| 0 <= k < |entry.experiments| && r == ValidateExperimentById(entry, ExperimentIds(entry.experiments)[k], ref)
             && forall j :: 0 <= j < k ==> ExperimentValid(entry, ExperimentAt(entry, j), ref);
    assert !ExperimentValid(entry, ExperimentAt(entry, k), ref);
    assert k == i;
  }

  /**
   * A data failure of an experiment is never swallowed: if every earlier
   * experiment is valid, the full run fails with this experiment's wrapped
   * error, whose cause is the data failure.
   */
  lemma DataFailureReachesEntry(entry: Entry, ref: Reference, i: nat)
    requires i < |entry.experiments|
    requires forall j :: 0 <= j < i ==> ExperimentValid(entry, ExperimentAt(entry, j), ref)
    requires ExperimentAt(entry, i).experimentType == ref.experimentTypeOf(entry.challengeId)
    requires LibrariesCompatible(entry, ref, ExperimentAt(entry, i).libraries)
    requires DataChecks(ExperimentAt(entry, i)).Fail?
    ensures EntryDataValidate(entry, None, ref) ==
      Fail(ExperimentValidationFailed(
             entry.entryId, ExperimentAt(entry, i).experimentId, ModelsGtf,
             if ExperimentAt(entry, i).experimentType == Model then ReadModelMapTsv else ExpressionTsv,
             DataChecks(ExperimentAt(entry, i)).error))
  {
    DataFailureWrapped(entry, ExperimentAt(entry, i), ref);
    FullRunStopsAtFirstInvalid(entry, ref, i);
  }
}
