/**
 * One cell extraction: locate the cell, check the assumptions on it, parse it,
 * validate the parsed value. Every stage that fails ends the run with a result
 * that carries the fallback instead of raising.
 *
 * The locator, the parser, the assumptions and the validators are the
 * task's components; their behaviour is given as functions.
 */
module CellExtraction {
  import opened Base
  import opened Grid
  import opened Results
  import opened SpecData

  /** `CellFullPath`: the located cell together with the workbook it lives in. */
  datatype CellFullPath = CellFullPath(location: CellLocation, workbook: Workbook)

  /** Every verdict in `results` is a pass (`all(r.is_ok for r in results.values())`). */
  predicate AllOk(results: map<string, CheckResult>)
  {
    forall k :: k in results ==> results[k].isOk
  }

  /** `CellExtractionTaskResult`. */
  datatype CellExtractionTaskResult<T> = CellExtractionTaskResult(
    key: string,
    locatingResult: LocatingResult,
    parsingResult: ParsingResult<T>,
    metadata: map<string, Data>,
    validationResults: map<string, ValidationResult>,
    assumptionResults: map<string, AssumptionResult>)
  {
    /** `get_value()`: the parsed value, or the fallback. */
    function GetValue(): (v: T)
      ensures parsingResult.IsOk() ==> v == parsingResult.value
      ensures !parsingResult.IsOk() ==> v == parsingResult.fallback
    {
      parsingResult.GetValue()
    }

    /** `is_ok`: parsing succeeded and every assumption and validation passed. */
    predicate IsOk()
      ensures IsOk() ==> parsingResult.Parsed? && GetValue() == parsingResult.value
      ensures forall k :: k in assumptionResults && !assumptionResults[k].isOk ==> !IsOk()
      ensures forall k :: k in validationResults && !validationResults[k].isOk ==> !IsOk()
      ensures (&& parsingResult.Parsed?
               && (forall k :: k in assumptionResults ==> assumptionResults[k].isOk)
               && (forall k :: k in validationResults ==> validationResults[k].isOk)) ==> IsOk()
    {
      parsingResult.IsOk() && AllOk(assumptionResults) && AllOk(validationResults)
    }
  }

  /** `fail_locating`: the result of a run whose locator found no cell. */
  function FailLocating<T>(key: string, locatingResult: LocatingResult, fallback: T, metadata: map<string, Data>)
    : (r: CellExtractionTaskResult<T>)
    requires !locatingResult.IsOk()
    ensures !r.IsOk() && r.GetValue() == fallback
    ensures r.key == key && r.locatingResult == locatingResult && r.metadata == metadata
    ensures r.assumptionResults == map[] && r.validationResults == map[]
  {
    CellExtractionTaskResult(key, locatingResult, ParseFailed("Fail Locating", fallback), metadata, map[], map[])
  }

  /** `fail_assumptions`: the result of a run stopped by a failed assumption. */
  function FailAssumptions<T>(key: string, locatingResult: LocatingResult, assumptionResults: map<string, AssumptionResult>,
                              fallback: T, metadata: map<string, Data>): (r: CellExtractionTaskResult<T>)
    requires !AllOk(assumptionResults)
    ensures !r.IsOk() && r.GetValue() == fallback
    ensures r.key == key && r.locatingResult == locatingResult && r.metadata == metadata
    ensures r.assumptionResults == assumptionResults && r.validationResults == map[]
  {
    CellExtractionTaskResult(key, locatingResult, ParseFailed("Fail Assumption", fallback), metadata, map[], assumptionResults)
  }

  /** `CellExtractionTask`: a key, the four kinds of component, the fallback and free-form metadata. */
  datatype CellExtractionTask<!T> = CellExtractionTask(
    key: string,
    locator: (CellLocation, Workbook) -> LocatingResult,
    parser: (CellFullPath, T) -> ParsingResult<T>,
    validators: map<string, T -> ValidationResult>,
    assumptions: map<string, CellFullPath -> AssumptionResult>,
    fallback: T,
    metadata: map<string, Data>)
  {
    /** Every assumption's verdict on the located cell. */
    function Assume(cfp: CellFullPath): map<string, AssumptionResult>
    {
      map k | k in assumptions :: assumptions[k](cfp)
    }

    /** Every validator's verdict on the parsed value. */
    function Validate(value: T): map<string, ValidationResult>
    {
      map k | k in validators :: validators[k](value)
    }

    /** `process`: locate, assume, parse, validate, stopping at the first stage that fails. */
    function Process(anchor: CellLocation, workbook: Workbook): (r: CellExtractionTaskResult<T>)
      ensures r.key == key && r.metadata == metadata
      ensures r.locatingResult == locator(anchor, workbook)
      ensures r.IsOk() ==> r.locatingResult.IsOk()
    {
      var lr := locator(anchor, workbook);
      if !lr.IsOk() then FailLocating(key, lr, fallback, metadata)
      else
        var cfp := CellFullPath(lr.location, workbook);
        var ar := Assume(cfp);
        if !AllOk(ar) then FailAssumptions(key, lr, ar, fallback, metadata)
        else
          var pr := parser(cfp, fallback);
          if !pr.IsOk() then CellExtractionTaskResult(key, lr, pr, metadata, map[], ar)
          else CellExtractionTaskResult(key, lr, pr, metadata, Validate(pr.value), ar)
    }
  }

  /** A run is ok exactly when the cell is found, passes every assumption, parses, and its value passes every validator. */
  lemma ProcessIsOk<T>(task: CellExtractionTask<T>, anchor: CellLocation, workbook: Workbook)
    ensures var r := task.Process(anchor, workbook);
      var lr := task.locator(anchor, workbook);
      r.IsOk() <==>
        && lr.IsOk()
        && (forall k :: k in task.assumptions ==> task.assumptions[k](CellFullPath(lr.location, workbook)).isOk)
        && task.parser(CellFullPath(lr.location, workbook), task.fallback).IsOk()
        && (forall k :: k in task.validators ==>
              task.validators[k](task.parser(CellFullPath(lr.location, workbook), task.fallback).value).isOk)
  {
    var r := task.Process(anchor, workbook);
    var lr := task.locator(anchor, workbook);
    if lr.IsOk() {
      var cfp := CellFullPath(lr.location, workbook);
      var ar := task.Assume(cfp);
      assert AllOk(ar) <==> forall k :: k in task.assumptions ==> task.assumptions[k](cfp).isOk by {
        assert forall k :: k in task.assumptions ==> ar[k] == task.assumptions[k](cfp);
      }
      var pr := task.parser(cfp, task.fallback);
      if AllOk(ar) && pr.IsOk() {
        var vr := task.Validate(pr.value);
        assert forall k :: k in task.validators ==> vr[k] == task.validators[k](pr.value);
      }
    }
  }

  /** A cell that is not found gives the fallback, and no assumption, parser or validator is consulted. */
  lemma ProcessNotLocated<T>(task: CellExtractionTask<T>, anchor: CellLocation, workbook: Workbook)
    requires !task.locator(anchor, workbook).IsOk()
    ensures var r := task.Process(anchor, workbook);
      && !r.IsOk() && r.GetValue() == task.fallback
      && r.parsingResult == ParseFailed("Fail Locating", task.fallback)
      && r.assumptionResults == map[] && r.validationResults == map[]
  {
  }

  /** A failed assumption gives the fallback: every assumption is reported, the parser and validators are not consulted. */
  lemma ProcessAssumptionFails<T>(task: CellExtractionTask<T>, anchor: CellLocation, workbook: Workbook, k: string)
    requires task.locator(anchor, workbook).IsOk()
    requires k in task.assumptions
    requires !task.assumptions[k](CellFullPath(task.locator(anchor, workbook).location, workbook)).isOk
    ensures var r := task.Process(anchor, workbook);
      var cfp := CellFullPath(task.locator(anchor, workbook).location, workbook);
      && !r.IsOk() && r.GetValue() == task.fallback
      && r.parsingResult == ParseFailed("Fail Assumption", task.fallback)
      && r.assumptionResults.Keys == task.assumptions.Keys
      && (forall j :: j in task.assumptions ==> r.assumptionResults[j] == task.assumptions[j](cfp))
      && r.validationResults == map[]
  {
    var cfp := CellFullPath(task.locator(anchor, workbook).location, workbook);
    var ar := task.Assume(cfp);
    assert ar[k] == task.assumptions[k](cfp);
    assert !AllOk(ar);
  }

  /** With the cell found and every assumption passed, the parser's own result is reported; a failed parse skips validation. */
  lemma ProcessParseFails<T>(task: CellExtractionTask<T>, anchor: CellLocation, workbook: Workbook)
    requires task.locator(anchor, workbook).IsOk()
    requires forall k :: k in task.assumptions ==> task.assumptions[k](CellFullPath(task.locator(anchor, workbook).location, workbook)).isOk
    requires !task.parser(CellFullPath(task.locator(anchor, workbook).location, workbook), task.fallback).IsOk()
    ensures var r := task.Process(anchor, workbook);
      var cfp := CellFullPath(task.locator(anchor, workbook).location, workbook);
      && !r.IsOk()
      && r.parsingResult == task.parser(cfp, task.fallback)
      && r.GetValue() == task.parser(cfp, task.fallback).fallback
      && r.assumptionResults.Keys == task.assumptions.Keys
      && (forall k :: k in task.assumptions ==> r.assumptionResults[k] == task.assumptions[k](cfp))
      && r.validationResults == map[]
  {
    var cfp := CellFullPath(task.locator(anchor, workbook).location, workbook);
    var ar := task.Assume(cfp);
    assert forall k :: k in ar ==> ar[k] == task.assumptions[k](cfp);
    assert AllOk(ar);
  }

  /** A parsed value is the result's value, and every validator's verdict on it is reported. */
  lemma ProcessParsed<T>(task: CellExtractionTask<T>, anchor: CellLocation, workbook: Workbook)
    requires task.locator(anchor, workbook).IsOk()
    requires forall k :: k in task.assumptions ==> task.assumptions[k](CellFullPath(task.locator(anchor, workbook).location, workbook)).isOk
    requires task.parser(CellFullPath(task.locator(anchor, workbook).location, workbook), task.fallback).IsOk()
    ensures var r := task.Process(anchor, workbook);
      var pr := task.parser(CellFullPath(task.locator(anchor, workbook).location, workbook), task.fallback);
      && r.parsingResult == pr
      && r.GetValue() == pr.value
      && r.validationResults.Keys == task.validators.Keys
      && (forall k :: k in task.validators ==> r.validationResults[k] == task.validators[k](pr.value))
      && (r.IsOk() <==> AllOk(r.validationResults))
  {
    var cfp := CellFullPath(task.locator(anchor, workbook).location, workbook);
    var ar := task.Assume(cfp);
    assert forall k :: k in ar ==> ar[k] == task.assumptions[k](cfp);
    assert AllOk(ar);
  }

  /** `AtCommentCellLocator`: the anchor itself. */
  function AtCommentCell(anchor: CellLocation, workbook: Workbook): LocatingResult
  {
    Good(anchor)
  }

  /** `simple`: a task that parses the anchor cell, with no validator, no assumption, fallback `None` and no metadata. */
  function Simple<T>(key: string, parser: (CellFullPath, Option<T>) -> ParsingResult<Option<T>>)
    : (t: CellExtractionTask<Option<T>>)
    ensures t.key == key && t.parser == parser && t.fallback == None
    ensures t.validators == map[] && t.assumptions == map[] && t.metadata == map[]
    ensures forall anchor, workbook :: t.locator(anchor, workbook) == Good(anchor)
  {
    CellExtractionTask(key, AtCommentCell, parser, map[], map[], None, map[])
  }

  /** A simple task's run is the parse of the anchor cell: ok exactly when that parse is. */
  lemma SimpleProcess<T>(key: string, parser: (CellFullPath, Option<T>) -> ParsingResult<Option<T>>,
                         anchor: CellLocation, workbook: Workbook)
    ensures var r := Simple(key, parser).Process(anchor, workbook);
      && r.key == key && r.metadata == map[]
      && r.locatingResult == Good(anchor)
      && r.parsingResult == parser(CellFullPath(anchor, workbook), None)
      && r.assumptionResults == map[] && r.validationResults == map[]
      && (r.IsOk() <==> parser(CellFullPath(anchor, workbook), None).IsOk())
  {
    var task := Simple(key, parser);
    var cfp := CellFullPath(anchor, workbook);
    assert task.Assume(cfp) == map[];
    if parser(cfp, None).IsOk() {
      assert task.Validate(parser(cfp, None).value) == map[];
    }
  }
}
