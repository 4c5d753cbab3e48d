/** The statement error record (error.go). */
module Errors {

  /** A statement argument as the driver receives it: Go's `nil` or a string. */
  datatype Param = Nil | Str(s: string)

  /** An error a collaborator (the database driver) returns; only its message is visible. */
  datatype Failure = Failure(message: string)

  /** `dbError`: the statement that failed, its parameters, and the driver's error. */
  datatype DbError = DbError(query: string, parameters: seq<Param>, err: Failure) {

    /** `Error()` reports the cause's message and nothing of the statement. */
    function Error(): (msg: string)
      ensures msg == err.message
    {
      err.message
    }
  }

  /** `newDbError` keeps the query, the parameters (same length, same order) and the cause verbatim. */
  function NewDbError(err: Failure, query: string, parameters: seq<Param>): (e: DbError)
    ensures e.query == query && e.parameters == parameters && e.err == err
    ensures e.Error() == err.message
  {
    DbError(query, parameters, err)
  }
}
