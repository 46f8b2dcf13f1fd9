/*
 * The exit codes of error.h and the two ways a call of the draft program and
 * of the command-line front end can end: it returns, or the `error` macro
 * (error.h:13) prints a message and exits the process with a code.
 */
module ErrorCodes {

  const IncorrectUsage: nat := 1
  const IllegalArgument: nat := 2
  const OperandReadFailed: nat := 3
  const OperandUnderflow: nat := 4
  const OperandNotSeekable: nat := 5

  /** How a procedure without a result ends. */
  datatype Status = Returned | Exited(code: nat)

  /** How a procedure with a result ends. */
  datatype Outcome<T> = Done(value: T) | Abort(code: nat)
}
