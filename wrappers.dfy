/** Option and Result values standing in for the source's nulls and exceptions. */
module Wrappers {

  datatype Option<+T> = None | Some(value: T)

  /** `Err` carries the message the source would have thrown. */
  datatype Result<+T> = Ok(value: T) | Err(msg: string)

  /** A void method that either returns or throws `msg`. */
  datatype Outcome = Pass | Fail(msg: string)

  /** The message of the KeyNotFoundException a missing dictionary key raises. */
  function KeyNotFound(key: string): string
  {
    "The given key '" + key + "' was not present in the dictionary."
  }

  /** What a void method that may throw reports for the result of its specification. */
  function OutcomeOf<T>(r: Result<T>): (o: Outcome)
    ensures o.Pass? <==> r.Ok?
    ensures o.Fail? ==> o.msg == r.msg
  {
    if r.Ok? then Pass else Fail(r.msg)
  }
}
