/** Outcomes of the question engine: every `throw` of the source becomes an `Err`
    carrying the reason, and every undefined value becomes `None`. */
module Results {

  /** Why an attempt failed; one constructor per distinct `throw` of the engine. */
  datatype Failure =
    | NoQuotes            // the target episode has no quote groups at all
    | NoSeasonQuotes      // no usable quote group among the season siblings
    | NoSeasonSpeakers    // no speaker among those groups
    | NoColdOpens         // the target episode has no cold opens
    | NoSeasonColdOpens   // the season siblings have no cold opens
    | TooFewStorylines    // the target episode has fewer than two storylines
    | NoSeasonStorylines  // the season siblings have no storylines
    | TooFewWrongSpeakers // fewer than three speakers outside the chosen quote group
    | FalsyAnswer         // an answer string is empty
    | TypeError           // a property of `undefined`, or `reduce` of an empty array
    | Exhausted           // every supplied attempt failed (bounded retry)

  datatype Option<+T> = None | Some(value: T)

  datatype Result<+T> = Ok(value: T) | Err(error: Failure) {
    predicate IsFailure() {
      Err?
    }

    function PropagateFailure<U>(): Result<U>
      requires Err?
    {
      Err(error)
    }

    function Extract(): T
      requires Ok?
    {
      value
    }
  }
}
