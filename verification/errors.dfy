/** Shared vocabulary for the whole model: the exception classes the client
    raises, a Result type that carries them, an Option type, and the byte type.
    A Python call that raises is modelled as a function returning `Err(kind)`. */
module Errors {

  /** The exception classes raised by the modelled code paths. */
  datatype Error =
    | InvalidError          // modal.exception.InvalidError
    | ExecutionError        // modal.exception.ExecutionError
    | UsageError            // click.UsageError in the CLI
    | RuntimeError
    | TypeError
    | ValueError
    | KeyError
    | IndexError
    | AttributeError
    | AssertionError
    | ZeroDivisionError
    | NotImplementedError
    | FileNotFoundError
    | NotADirectoryError
    | SandboxTimeoutError
    | SandboxTerminatedError
    | DecodeError           // bytes that do not parse in the expected format
    | GenericException      // a bare `Exception(...)`

  datatype Option<+T> = None | Some(value: T) {
    function GetOr(default: T): (r: T)
      ensures Some? ==> r == value
      ensures None? ==> r == default
    {
      match this
      case Some(v) => v
      case None => default
    }
  }

  datatype Result<+T> = Ok(value: T) | Err(error: Error) {
    predicate IsFailure() { Err? }

    function PropagateFailure<U>(): Result<U>
      requires Err?
    {
      Err(error)
    }

    function Extract(): T
      requires Ok?
    {
      value
    }
  }

  newtype byte = b: int | 0 <= b < 256
  type Bytes = seq<byte>

  /** `t` occurs as a contiguous piece of `s` (Python's `t in s` on strings). */
  predicate Contains(s: string, t: string)
  {
    exists i :: 0 <= i <= |s| - |t| && OccursAt(s, t, i)
  }

  predicate OccursAt(s: string, t: string, i: int)
  {
    0 <= i <= |s| - |t| && s[i..i + |t|] == t
  }

  predicate StartsWith(s: string, p: string)
  {
    |p| <= |s| && s[..|p|] == p
  }

  predicate EndsWith(s: string, p: string)
  {
    |p| <= |s| && s[|s| - |p|..] == p
  }
}
