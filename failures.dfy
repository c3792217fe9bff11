/** Optional values, the extractor's failure kinds and a failure-compatible result type. */
module Failures {

  datatype Option<+T> = None | Some(value: T)

  /** Why an extraction stops. Every failure aborts the whole page: nothing partial is returned. */
  datatype Error =
    | PageNotFound     // the explicit "404" raised when the page has no infobox
    | NoNationalTeam   // the explicit raise when no national-team candidate survives the filters
    | IndexOutOfRange  // an index past the end of a list or a string
    | MissingElement   // a lookup that found nothing (None) and was then used
    | NotAnInteger     // int() applied to text that is not a decimal integer
    | UnknownMonth     // a month name that is not one of the twelve genitive names
    | Unpacking        // `day, month = ...split()` on a text that is not exactly two words
    | InvalidDate      // the date constructor rejects the year or the day of the month

  datatype Result<+T> = Ok(value: T) | Err(error: Error) {
    predicate IsFailure() { Err? }

    function PropagateFailure<U>(): Result<U>
      requires Err?
    {
      Err(error)
    }

    function Extract(): T
      requires Ok?
    {
      value
    }
  }

  /** The result of a stage that changes state and returns nothing else. */
  datatype Outcome = Pass | Fail(error: Error)

  /** The outcome a result stands for, dropping its value. */
  function Status<T>(r: Result<T>): Outcome {
    if r.Ok? then Pass else Fail(r.error)
  }

  /** Sequential concatenation of two partial lists: the first failure wins. */
  function Concat<T>(a: Result<seq<T>>, b: Result<seq<T>>): Result<seq<T>> {
    if a.Err? then Err(a.error)
    else if b.Err? then Err(b.error)
    else Ok(a.value + b.value)
  }

  /** Concatenation of partial lists is associative. */
  lemma ConcatAssociative<T>(a: Result<seq<T>>, b: Result<seq<T>>, c: Result<seq<T>>)
    ensures Concat(a, Concat(b, c)) == Concat(Concat(a, b), c)
  {
    if a.Ok? && b.Ok? && c.Ok? {
      assert a.value + (b.value + c.value) == (a.value + b.value) + c.value;
    }
  }

  /** An empty successful list is a left unit of concatenation. */
  lemma ConcatUnit<T>(a: Result<seq<T>>)
    ensures Concat(Ok([]), a) == a
  {
    if a.Ok? {
      assert [] + a.value == a.value;
    }
  }
}
