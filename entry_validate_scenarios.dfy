/** Concrete inputs and the verdicts the checks give them. */
module EntryValidateScenarios {
  import opened Wrappers
  import opened EntryValidate

  /** Models {T1, T2} and a map naming both: the reconciliation passes. */
  lemma MatchingMapPasses()
    ensures ValidateModelAndReadMapping(["T1", "T2"], [Some("T1"), Some("T2")]) == Pass
  {
  }

  /** Models {T1, T2} and a map (r1, T1), (r2, *): T2 is not in the read-model map. */
  lemma WildcardLeavesModelUnmapped()
    ensures ValidateModelAndReadMapping(["T1", "T2"], [Some("T1"), None]) == Fail(TranscriptNotInReadModelMap("T2"))
  {
  }

  /** Both directions fail (T3 is not a model, T2 is not mapped): the map-to-models error wins. */
  lemma MapDirectionReportedFirst()
    ensures ValidateModelAndReadMapping(["T1", "T2"], [Some("T1"), Some("T3")]) == Fail(TranscriptNotInModels("T3"))
  {
  }

  /** Rows {T1, T3} against models {T1, T2}: T3 is not found; T2 having no row is no error. */
  lemma ExpressionRowNotInModels()
    ensures ValidateExpressionAndModel(["T1", "T2"], ["T1", "T3"]) == Fail(ExpressionIdNotInModels("T3"))
  {
  }

  /** An entry with one experiment "e1" whose data are all unparsable (to show they are never read). */
  function OneExperimentEntry(): Entry {
    var broken := ExperimentData(Unparsable("gtf"), Unparsable("tsv"), Unparsable("tsv"));
    Entry("entry1", "iso_detect_ref", [Experiment("e1", Model, ["LIB1"], broken)])
  }

  /** Restricting to an experiment the entry lacks fails before any experiment is looked at. */
  lemma RestrictToUnknownExperiment(ref: Reference)
    ensures EntryDataValidate(OneExperimentEntry(), Some("e2"), ref) == Fail(ExperimentNotInEntry("entry1", "e2"))
  {
  }

  /** A challenge expecting expression data rejects a model experiment before its libraries are checked. */
  lemma TypeMismatchBeforeLibraries()
    ensures var ref := Reference(c => Expression, c => {}, lib => "unknown");
      EntryDataValidate(OneExperimentEntry(), None, ref)
      == Fail(ExperimentTypeMismatch("entry1", "iso_detect_ref", "e1", Expression))
  {
  }

  /** With the type right but the library's sample outside the challenge, the library is reported. */
  lemma InvalidLibrarySample()
    ensures var ref := Reference(c => Model, c => {"H1"}, lib => "WTC11");
      EntryDataValidate(OneExperimentEntry(), None, ref)
      == Fail(LibrarySampleNotValid("LIB1", "WTC11", "iso_detect_ref", {"H1"}))
  {
  }

  /** With type and libraries right, the unreadable models file is reported, wrapped with entry and experiment. */
  lemma UnreadableModelsWrapped()
    ensures var ref := Reference(c => Model, c => {"H1"}, lib => "H1");
      EntryDataValidate(OneExperimentEntry(), Some("e1"), ref)
      == Fail(ExperimentValidationFailed("entry1", "e1", ModelsGtf, ReadModelMapTsv, LoadFailed(ModelsGtf, "gtf")))
  {
  }

  /** Two experiment records sharing the id "e1"; only the first one's map names the model. */
  function RepeatedIdEntry(): Entry {
    var good := ExperimentData(Parsed(["T1"]), Parsed([Some("T1")]), Unparsable("tsv"));
    var bad := ExperimentData(Parsed(["T1"]), Parsed([]), Unparsable("tsv"));
    Entry("entry1", "iso_detect_ref", [Experiment("e1", Model, [], good), Experiment("e1", Model, [], bad)])
  }

  /**
   * The full run goes by id, so it loads the first "e1" twice and passes,
   * as does the run restricted to "e1".
   */
  lemma RepeatedIdLoadsFirstExperiment()
    ensures var ref := Reference(c => Model, c => {"H1"}, lib => "H1");
      EntryDataValidate(RepeatedIdEntry(), None, ref) == Pass && EntryDataValidate(RepeatedIdEntry(), Some("e1"), ref) == Pass
  {
    var ref := Reference(c => Model, c => {"H1"}, lib => "H1");
    var entry := RepeatedIdEntry();
    assert ExperimentIds(entry.experiments) == ["e1", "e1"];
    var first := FindExperiment(entry.experiments, "e1");
    assert first == entry.experiments[0];
    assert MapTranscriptIds([Some("T1")]) == ModelIds(["T1"]);
    assert ExperimentValid(entry, first, ref);
  }
}
