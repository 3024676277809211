/** The station's exception hierarchy (app/lib/errors.py). */
module Errors {
  import opened Results

  /** The module's base class `Error`; its one subclass, `StartupError`,
      carries the explanatory `message` it was raised with. */
  datatype Error = StartupError(message: string)

  /** `startup_error_if(test, msg)`: raise `StartupError(msg)` when `test`
      holds, and do nothing otherwise. */
  function StartupErrorIf(test: bool, msg: string): (r: Outcome<Error>)
    ensures r.Pass? <==> !test
    ensures r.Fail? ==> r.error.StartupError? && r.error.message == msg
  {
    if test then Fail(StartupError(msg)) else Pass
  }
}
