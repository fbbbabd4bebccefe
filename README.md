# LRGASP entry validation, modelled in Dafny

This project models the cross-checks that the LRGASP submission tools run on an
entry. An entry is a submission to the Long-read RNA-Seq Genome Annotation
Assessment Project. The checks are:

- The transcript models and the read-model map must name the same transcripts.
  The wildcard `*` in the map is not a transcript.
- Every row of an expression matrix must name a model transcript.
- Every library an experiment uses must come from a sample that the entry's
  challenge allows.
- Each experiment's type must match the challenge, and the data check is
  chosen by that type.
- The entry is checked experiment by experiment. It can be restricted to one
  experiment, which must exist.

The model is pure, like the source. Each check is a function that returns an
`Outcome`: `Pass`, or `Fail(error)` with the first error the source would raise.
Each "check every element, raise at the first failure" loop is the recursive
function `CheckEach`. Errors are an `Error` datatype holding the error's kind
and the offending ids. A re-raise `from ex` becomes `ExperimentValidationFailed`,
which keeps the inner error in its `cause` field.

Files:

- `wrappers.dfy`: `Option`. `None` stands for Python's `None`, which is how the
  map's wildcard arrives.
- `entry_validate.dfy`: module `EntryValidate`, which is the data model, the
  checks and their contracts.
- `entry_validate_properties.dfy`: module `EntryValidateProperties`, with lemmas
  that relate several calls. They cover wildcards, the order in which map ids
  are enumerated, extra models, restricted runs versus full runs, and cause
  preservation.
- `entry_validate_scenarios.dfy`: module `EntryValidateScenarios`, with
  concrete inputs and the exact verdicts they get.

Inputs that the source loads from disk or looks up elsewhere are parameters here:

- `ExperimentData` holds each data file's contents as `Loaded<T>`: either the
  parsed table or the failure its loader raised.
- The model set is a `seq<string>` of transcript ids.
- The read-model map is a `seq<Option<string>>`, one transcript id per
  (read, transcript) pair.
- The expression matrix is a `seq<string>` of row IDs.
- `Reference` gathers the three lookups the core does not define:
  - `challenge_to_experiment_type`
  - `get_challenge_samples`
  - the catalog lookup from a library accession to its run's sample.

  Each is a total function.

The code in `lib/lrgasp/entry_validate.py` checks only the experiment type
against the challenge's type. It does not compare an experiment's challenge
or data category with the entry's. It raises the experiment's own error from
`entry_data_validate` without wrapping it again at the entry level.

## Model

| member | source | states |
|---|---|---|
| `EntryValidate.CheckEach` | lib/lrgasp/entry_validate.py:70-71 | A check-each-and-raise loop passes iff every element's check passes; otherwise it returns the failing outcome of the first failing element in order |
| `EntryValidate.ValidateReadMappingTrans` | lib/lrgasp/entry_validate.py:20-22 | A map transcript id passes iff it is a model id; otherwise the error is "not in models" naming that id |
| `EntryValidate.ValidateTransAndReadMapping` | lib/lrgasp/entry_validate.py:16-18 | A model transcript passes iff some map pair names it; otherwise the error is "not in read-model_map" naming it |
| `EntryValidate.MapEntryInModels` | lib/lrgasp/entry_validate.py:26-29 | A wildcard map entry always passes; a named one passes iff it is a model id |
| `EntryValidate.MapCheck` | lib/lrgasp/entry_validate.py:25-29 | The map-to-models loop passes iff the non-wildcard map ids are a subset of the model ids; a failure is "not in models" for an id in the map and not in the models |
| `EntryValidate.ModelsCheck` | lib/lrgasp/entry_validate.py:30-32 | The models-to-map loop passes iff every model id is a mapped id; a failure names the first model, in model order, that the map lacks |
| `EntryValidate.ValidateModelAndReadMapping` | lib/lrgasp/entry_validate.py:24-32 | Passes iff the non-wildcard map ids equal the model ids; any map id outside the models gives a "not in models" error even when models are also unmapped; if the map is within the models, a failure names the first unmapped model |
| `EntryValidate.ExpressionIdInModels` | lib/lrgasp/entry_validate.py:47-48 | One expression row passes iff its ID is a model id; otherwise "not found in models" naming it |
| `EntryValidate.ValidateExpressionAndModel` | lib/lrgasp/entry_validate.py:44-48 | Passes iff the set of row IDs is a subset of the model ids (one direction only); a failure names the first offending row in row order |
| `EntryValidate.ModelExperimentChecks` | lib/lrgasp/entry_validate.py:37-40 | The try block passes iff both files load and the ids reconcile; it fails first on an unloadable models file, then on an unloadable map, then with the reconciliation's own error |
| `EntryValidate.ExpressionExperimentChecks` | lib/lrgasp/entry_validate.py:53-56 | The try block passes iff both files load and every row ID is a model; it fails first on the models file, then on the matrix file, then with the row check's error |
| `EntryValidate.Wrap` | lib/lrgasp/entry_validate.py:41-42 | A failure is re-raised as an experiment-validation error naming the entry and experiment, with the inner error as its cause; a pass stays a pass |
| `EntryValidate.ValidateModelExperiment` | lib/lrgasp/entry_validate.py:34-42 | Fails iff the model/map checks (loading included) fail, and then always with the wrapped error for the models and map files whose cause is the inner error |
| `EntryValidate.ValidateExpressionExperiment` | lib/lrgasp/entry_validate.py:50-58 | Fails iff the model/expression checks (loading included) fail, and then always with the wrapped error for the models and expression files whose cause is the inner error |
| `EntryValidate.ValidateExperimentLibrary` | lib/lrgasp/entry_validate.py:60-65 | Passes iff the sample of the library's run is among the challenge's samples; otherwise the error names the library, its sample, the challenge and the valid samples |
| `EntryValidate.ValidateExperimentLibraries` | lib/lrgasp/entry_validate.py:67-71 | Passes iff every library's sample is valid for the challenge; a failure is the first invalid library's error, in list order |
| `EntryValidate.ValidateExperiment` | lib/lrgasp/entry_validate.py:73-82 | Passes iff the type matches the challenge, all libraries are compatible and the data are consistent for the type. A type mismatch is reported before anything else, and an incompatible library before any data check. Otherwise the result is exactly the model experiment's outcome for a model type, or the expression experiment's outcome for any other type |
| `EntryValidate.ExperimentIds` | lib/lrgasp/entry_validate.py:90 | `entry.experiment_ids` lists the experiments' ids, one per experiment in entry order |
| `EntryValidate.FindExperiment` | lib/lrgasp/entry_validate.py:74 | Loading an experiment by id gives the first experiment of the entry with that id |
| `EntryValidate.ExperimentIdsInScope` | lib/lrgasp/entry_validate.py:89-94 | With a (valid) restricting id the ids to validate are exactly that id; without one they are all of the entry's `experiment_ids`, in order; every one is an id of the entry |
| `EntryValidate.ValidateExperimentById` | lib/lrgasp/entry_validate.py:73-74 | Validating by id passes iff the experiment loaded for that id is valid; a type or data error names that id |
| `EntryValidate.ValidateEachExperimentId` | lib/lrgasp/entry_validate.py:96-97 | The by-id loop passes iff the experiment loaded for every id is valid; otherwise it returns the first failing id's result, with all earlier ones valid |
| `EntryValidate.EntryDataValidate` | lib/lrgasp/entry_validate.py:84-97 | A restricting id that is not an experiment of the entry fails at once; a valid one gives exactly that experiment's verdict; without one, the entry passes iff the experiment loaded for each of the entry's `experiment_ids` is valid, and a failure is the first failing id's error |
| `EntryValidateProperties.WildcardChangesNothing` | lib/lrgasp/entry_validate.py:26-29 | Adding a wildcard pair anywhere in the read-model map never changes the verdict; with the map scanned in file order it does not change the error either |
| `EntryValidateProperties.ModelsCheckSeesOnlyIds` | lib/lrgasp/entry_validate.py:30-32 | The models-to-map loop depends on the map only through its set of non-wildcard transcript ids |
| `EntryValidateProperties.MapCheckIndependentOfOrder` | lib/lrgasp/entry_validate.py:26 | Enumerating the map's ids in any order gives the same verdict, and a failure is always "not in models" for a map id that is not a model |
| `EntryValidateProperties.ExtraModelsKeepExpressionValid` | lib/lrgasp/entry_validate.py:44-48 | A passing expression check still passes when models are added |
| `EntryValidateProperties.MissingExpressionIdFails` | lib/lrgasp/entry_validate.py:46-48 | A row ID absent from the models always makes the expression check fail, with an error naming a non-model ID |
| `EntryValidateProperties.FullRunCoversRestricted` | lib/lrgasp/entry_validate.py:89-97 | If the full run passes, a run restricted to an id passes iff the id is an experiment of the entry |
| `EntryValidateProperties.FullRunIsEveryRestrictedRun` | lib/lrgasp/entry_validate.py:89-97 | The full run passes iff the run restricted to each of the entry's experiment ids passes |
| `EntryValidateProperties.FullRunStopsAtFirstInvalid` | lib/lrgasp/entry_validate.py:96-97 | The full run's result is that of the first invalid experiment in id order |
| `EntryValidateProperties.DataFailureWrapped` | lib/lrgasp/entry_validate.py:79-82 | For an experiment whose type and libraries pass, a failure of its model or expression data checks is its result, wrapped with entry, experiment and both files, the failure kept as cause |
| `EntryValidateProperties.DataFailureReachesEntry` | lib/lrgasp/entry_validate.py:34-58 | A model or expression data failure of an experiment whose predecessors are valid is the entry's result, wrapped with entry and experiment and keeping the data failure as its cause |
| `EntryValidateScenarios.MatchingMapPasses` | lib/lrgasp/entry_validate.py:24-32 | Models {T1,T2} with map (r1,T1),(r2,T2) pass |
| `EntryValidateScenarios.WildcardLeavesModelUnmapped` | lib/lrgasp/entry_validate.py:30-32 | Models {T1,T2} with map (r1,T1),(r2,*) fail with "T2 not in read-model_map" |
| `EntryValidateScenarios.MapDirectionReportedFirst` | lib/lrgasp/entry_validate.py:25-29 | With T3 unknown to the models and T2 unmapped, the "T3 not in models" error is reported |
| `EntryValidateScenarios.ExpressionRowNotInModels` | lib/lrgasp/entry_validate.py:44-48 | Rows {T1,T3} against models {T1,T2} fail on T3; T2's missing row is no error |
| `EntryValidateScenarios.RestrictToUnknownExperiment` | lib/lrgasp/entry_validate.py:89-91 | Restricting to an experiment the entry lacks fails with that error, whatever the experiments' data |
| `EntryValidateScenarios.TypeMismatchBeforeLibraries` | lib/lrgasp/entry_validate.py:75-77 | A type mismatch is reported although the library check and the data would also fail |
| `EntryValidateScenarios.InvalidLibrarySample` | lib/lrgasp/entry_validate.py:60-65 | A library whose sample is outside the challenge is reported before the (unreadable) data files |
| `EntryValidateScenarios.UnreadableModelsWrapped` | lib/lrgasp/entry_validate.py:37-42 | An unloadable models file comes back as the experiment-validation error with the load failure as its cause |
| `EntryValidateScenarios.RepeatedIdLoadsFirstExperiment` | lib/lrgasp/entry_validate.py:92-97 | With two records sharing an id, both the full run and the restricted run load the first record for that id, and both pass |

## Left out

- Paths and loaders: `osp.join` paths and the loaders `model_data.load`, `read_model_map_data.load`, `expression_data.load` and `entry_metadata.load_dir` are I/O. Their results are inputs. A failure of one of the three data loaders is an `Unparsable` value.
- `entry_metadata.load_dir`'s result is the `Entry` argument of `EntryDataValidate`; its failure is not modelled.
- `experiment_metadata.load_from_entry` is modelled as a lookup of the entry's experiments by id, which returns the first record with that id. Failures to load experiment metadata are not modelled. The loop over ids guards each lookup by membership; its `Pass` arm is never taken, because every scanned id is an id of the entry.
- The reference catalog (`get_lrgasp_rna_seq_metadata`, `get_run_by_file_acc`) is the total function `Reference.runSampleOf`. What the catalog does with an unknown accession is not part of this model.
- `get_challenge_samples` and `challenge_to_experiment_type` come from `lrgasp.defs`, which is not part of this model. They are the total functions `challengeSamples` and `experimentTypeOf`, with no contents assumed. The model therefore assumes that neither lookup raises for the entry's challenge id; what they do with an unknown challenge id is not part of this model.
- The pandas `iterrows` mechanics: the expression matrix is its sequence of row IDs.
- Message text and `set_to_str` formatting: an error is its kind plus the ids it reports. The two file paths in a wrapped error are the `DataFile` names.
- `except Exception` also catches exceptions other than loader and validation failures (for example programming errors). Only loader failures and the core's own failures are modelled.
- MapCheck: scans the map's transcript ids in file order. The source scans a Python `set`, so which offending id it reports depends on hash order. `MapCheckIndependentOfOrder` shows that the verdict and the error kind are the same for every enumeration.
- `ExperimentType` has two values, `Model` and `Expression`. The source's `else` branch, which covers every non-model type, is the `Expression` case.
- Not in this code, so not modelled: a de-novo validator, cross-experiment sample-coverage checks, library-prep and platform uniformity checks, the freestyle exemption, an `allow_partial` flag, and entry-level wrapping of errors.
