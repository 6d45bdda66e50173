/** The errors the cache reader returns, and the result type that carries them
    (Go's `(value, error)` pairs). Two run-time panics the reader can hit are
    carried the same way and told apart by `IsPanic`. */
module Errors {

  datatype Error =
    | UnsupportedCacheVersion       // ErrUnsupportCacheVersion
    | InvalidLevelRowCol            // ErrInvalidLevelRowCol
    | FileNotFound(path: string)    // os.Open / ioutil.ReadFile of an absent file
    | Unparsable(path: string)      // a conf.xml or conf.cdi that is absent or does not unmarshal
    | InvalidSeek                   // Seek to a negative offset
    | EndOfFile                     // Read with the position at or past the end of the file
    | DivideByZero                  // run-time panic: a packet size of 0 divides a row or column
    | IndexOutOfRange               // run-time panic: the first LOD of an empty LOD table

  /** The two outcomes that are Go run-time panics rather than returned errors. */
  predicate IsPanic(e: Error) {
    e == DivideByZero || e == IndexOutOfRange
  }

  datatype Result<+T> = Ok(value: T) | Err(error: Error) {
    predicate IsFailure() {
      Err?
    }

    function PropagateFailure<U>(): Result<U>
      requires Err?
    {
      Err(error)
    }

    function Extract(): T
      requires Ok?
    {
      value
    }
  }
}
