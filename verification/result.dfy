/** The library's error-reporting value (`ipclib::Result`): a C `int` error
    code and a human-readable description. Code 0 means success; every other
    code is the `errno` of the call that failed (or -1 for the library's own
    "attribute could not be read" error). */
module Results {

  /** `Result::SUCCESS` */
  const SUCCESS: int := 0

  datatype Result = Result(error: int, description: string)

  /** The constructor with its default arguments `(SUCCESS, "")`. */
  function NewResult(theError: int := SUCCESS, theDescription: string := ""): (r: Result)
    ensures GetError(r) == theError
    ensures GetDescription(r) == theDescription
  {
    Result(theError, theDescription)
  }

  function GetError(r: Result): int { r.error }

  function GetDescription(r: Result): string { r.description }

  /** `!error` in C: a zero code is success. */
  predicate IsSuccessful(r: Result) { r.error == SUCCESS }

  /** `operator bool`, the conversion used by `if (result)` in the library. */
  predicate ToBool(r: Result) { IsSuccessful(r) }

  /** `set`: both fields are replaced. */
  function Set(r: Result, theError: int, theDescription: string): (s: Result)
    ensures GetError(s) == theError && GetDescription(s) == theDescription
  {
    Result(theError, theDescription)
  }

  /** `setError`: only the code changes. */
  function SetError(r: Result, theError: int): (s: Result)
    ensures GetError(s) == theError
    ensures GetDescription(s) == GetDescription(r)
  {
    r.(error := theError)
  }

  /** `setDescription`: only the description changes. */
  function SetDescription(r: Result, theDescription: string): (s: Result)
    ensures GetDescription(s) == theDescription
    ensures GetError(s) == GetError(r)
  {
    r.(description := theDescription)
  }

  /** A default-constructed result is a success with an empty description. */
  lemma DefaultIsSuccess()
    ensures IsSuccessful(NewResult()) && ToBool(NewResult())
    ensures GetDescription(NewResult()) == ""
  {
  }

  /** The success predicate and the boolean conversion agree on every value,
      and both hold exactly for code 0. */
  lemma SuccessIsZeroCode(r: Result)
    ensures IsSuccessful(r) <==> GetError(r) == 0
    ensures ToBool(r) == IsSuccessful(r)
  {
  }

  /** `set` forgets the previous value entirely, and is the same as
      `setError` followed by `setDescription` (in either order). */
  lemma SetIsBothSetters(r: Result, e: int, d: string)
    ensures Set(r, e, d) == NewResult(e, d)
    ensures Set(r, e, d) == SetDescription(SetError(r, e), d)
    ensures Set(r, e, d) == SetError(SetDescription(r, d), e)
  {
  }

  /** Only the code decides success: `setError` decides it, `setDescription`
      never changes it. */
  lemma SuccessFollowsCode(r: Result, e: int, d: string)
    ensures IsSuccessful(SetError(r, e)) <==> e == SUCCESS
    ensures IsSuccessful(SetDescription(r, d)) == IsSuccessful(r)
  {
  }
}
