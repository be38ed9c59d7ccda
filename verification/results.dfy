/** Failure values of the translator and the result set: the SRU diagnostics the
    source raises as exceptions, and the one Python runtime error it can reach. */
module Results {

  datatype Option<+T> = None | Some(value: T)

  /** The SRU / FCS diagnostic codes the core raises. */
  datatype DiagnosticCode =
    | UnsupportedBooleanOperator      // SRUDiagnostics.UNSUPPORTED_BOOLEAN_OPERATOR
    | CannotProcessQueryReasonUnknown // SRUDiagnostics.CANNOT_PROCESS_QUERY_REASON_UNKNOWN
    | QuerySyntaxError                // SRUDiagnostics.QUERY_SYNTAX_ERROR
    | QueryTooComplex                 // FCSDiagnostics.GENERAL_QUERY_TOO_COMPLEX_CANNOT_PERFORM_QUERY
    | RecordNotAvailableInThisSchema  // SRUDiagnostics.RECORD_NOT_AVAILABLE_IN_THIS_SCHEMA

  datatype Failure =
    /** An SRUException (or SRUDiagnostic): its code, its details argument and its
        message argument, each `None` where the source does not pass it. */
    | Diagnostic(code: DiagnosticCode, details: Option<string>, message: Option<string>)
    /** A Python runtime error that is not an SRU diagnostic: an And/Or operand
        that is not a simple expression has no `identifier` attribute. */
    | InternalError

  datatype Result<+T> = Ok(value: T) | Err(failure: Failure) {
    predicate IsFailure() { Err? }
    function PropagateFailure<U>(): Result<U>
      requires Err?
    {
      Err(failure)
    }
    function Extract(): T
      requires Ok?
    {
      value
    }
  }
}
