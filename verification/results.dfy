/** Failure-carrying values for the vegetation-health pipeline. Every
    failure this model keeps becomes one constructor of `Error`; a
    computation that may raise returns a `Result`. */
module Results {

  datatype Option<+T> = None | Some(value: T)

  datatype Error =
    /** `.loc[0, 'Year']` found no row labelled 0 (KeyError). */
    | MissingLabel0
    /** `.index[-1]` on a frame with no rows (IndexError). */
    | EmptyFrame
    /** A Year text that `int` cannot convert (ValueError). */
    | BadYear(text: string)
    /** A Week text that `int` cannot convert (ValueError). */
    | BadWeek(text: string)
    /** The preamble holds no `Province = <digits>` (AttributeError on None). */
    | NoProvince
    /** A province id outside the remapping table (KeyError). */
    | UnknownProvince(id: int)
    /** `pd.concat` of an empty list of frames (ValueError). */
    | NothingToConcat
    /** A range text that is not two integers around one hyphen (ValueError). */
    | BadRange(text: string)
    /** An area selector that `int` cannot convert (ValueError). */
    | BadArea(text: string)

  datatype Result<+T> = Ok(value: T) | Err(error: Error) {

    predicate IsFailure() {
      Err?
    }

    function PropagateFailure<U>(): Result<U>
      requires Err?
    {
      Err(error)
    }

    function Extract(): T
      requires Ok?
    {
      value
    }
  }
}
