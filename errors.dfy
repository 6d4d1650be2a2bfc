/** Error values of the client: the RestraintError codes of src/errors.h and the
    GError values that travel through the metadata parser and the streams. */
module Errors {
  /** The RestraintError enumeration, in declaration order. */
  datatype RestraintError =
    | ParseErrorBadSyntax
    | MissingFile
    | Open
    | AlreadyRunningRecipeError
    | TaskRunnerWatchdogError
    | TaskRunnerStderrError
    | TaskRunnerForkError
    | TaskRunnerChdirError
    | TaskRunnerExecError
    | TaskRunnerRcError
    | TaskRunnerResultError
    | TaskRunnerFetchError
    | TaskRunnerSchemaError
    | TaskRunnerAborted

  datatype Error =
    /** A GError carrying a RestraintError code (the domain is not modelled). */
    | Coded(code: RestraintError, message: string)
    /** A GError reported by a GIO stream or channel, or by a collaborator outside the model. */
    | Io(message: string)
    /** A metadata line whose key needs a value but which has no ':'; the C code then hands
        a NULL value on, which this model does not follow: it stops the parse here. */
    | NullValue(key: string)
}
