/**
 * The result records of the extraction stages. Each is built once and never
 * changed; a failure carries a message instead of raising.
 */
module Results {
  import opened Grid

  /** `LocatingResult`: the located cell, or why none was found. */
  datatype LocatingResult = Good(location: CellLocation) | Bad(msg: string)
  {
    predicate IsOk()
    {
      Good?
    }
  }

  /** `ParsingResult`: the parsed value, or a message and the fallback the parser was given. */
  datatype ParsingResult<T> = Parsed(value: T) | ParseFailed(msg: string, fallback: T)
  {
    predicate IsOk()
    {
      Parsed?
    }

    /** `get_value()`: the parsed value, or the fallback when parsing failed. */
    function GetValue(): T
    {
      if Parsed? then value else fallback
    }
  }

  /** `AssumptionResult` and `ValidationResult`: a verdict with its explanation. */
  datatype CheckResult = CheckResult(isOk: bool, msg: string)

  type AssumptionResult = CheckResult

  type ValidationResult = CheckResult
}
