/** Value wrappers shared by the whole model: a nullable value, the two
    exception kinds the service throws, and results that carry either. */
module Common {

  /** A Java reference that may be null: `None` stands for `null`. */
  datatype Option<T> = None | Some(value: T) {
    /** The value when present, `default` when null. */
    function GetOr(default: T): T {
      if Some? then value else default
    }
  }

  /** Why a request was refused; one tag per message of `RequestException`. */
  datatype Reason =
    | ParamIsNull          // "Some param is null"
    | NameIncorrect        // "Name is incorrect"
    | TitleIncorrect       // "Title is incorrect"
    | ExperienceIncorrect  // "Experience is incorrect"
    | DateIncorrect        // "Date is incorrect"
    | IdIncorrect          // "Id is incorrect"

  /** The two exceptions of the service: `RequestException` and `NotFoundException`. */
  datatype Error = RequestError(reason: Reason) | NotFound

  /** A value, or the exception that was thrown instead. */
  datatype Result<T> = Ok(value: T) | Err(error: Error)

  /** Completion of a `void` operation: normal return, or the exception thrown. */
  datatype Outcome = Pass | Fail(error: Error)
}
