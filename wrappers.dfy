// Error results for the exceptions the codec and the loaders throw.
module Wrappers {

  datatype Option<T> = None | Some(value: T)

  /** The exception classes the codec raises, with the payload a caller can observe. */
  datatype Error =
    | BadFormat(expected: int, read: int)   // BadFormatException from a tag check
    | InvalidData                           // InvalidDataException from an integrity check
    | IOFailure                             // IOException (unsupported method, empty read)
    | EndOfStream                           // EndOfStreamException from BinaryReader
    | Argument                              // ArgumentException / ArgumentOutOfRangeException
    | IndexOutOfRange                       // IndexOutOfRangeException from an array access
    | NullReference                         // NullReferenceException from a null field
    | Overflow                              // OverflowException from a negative array size
    | AlreadyDecoded                        // second call of a reader's decode
    | NotDecoded                            // comment asked for before decoding
    | General                               // System.Exception raised with a message only
    | CorruptData                           // an exception from the LZMA decoder
    | DivideByZero                          // DivideByZeroException from an int division

  datatype Result<T> = Success(value: T) | Failure(error: Error)
  {
    predicate IsFailure() { Failure? }

    function PropagateFailure<U>(): Result<U>
      requires Failure?
    {
      Failure(error)
    }

    function Extract(): T
      requires Success?
    {
      value
    }
  }

  /** The outcome of an operation that returns nothing but may throw. */
  datatype Outcome = Pass | Fail(error: Error)
  {
    predicate IsFailure() { Fail? }

    function PropagateFailure(): Outcome
      requires Fail?
    {
      this
    }
  }

  /** In a run of results, each one after a failure is that same failure. */
  ghost predicate FailuresPersist<T>(rs: seq<Result<T>>)
  {
    forall i :: 0 < i < |rs| && rs[i - 1].Failure? ==> rs[i] == Failure(rs[i - 1].error)
  }

  /** So the first failure reaches every later result of the run. */
  lemma {:induction false} FailurePersists<T>(rs: seq<Result<T>>, j: nat, k: nat)
    requires FailuresPersist(rs) && j <= k < |rs| && rs[j].Failure?
    ensures rs[k] == Failure(rs[j].error)
    decreases k - j
  {
    if j < k {
      FailurePersists(rs, j + 1, k);
    }
  }
}
