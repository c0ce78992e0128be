/** Shapes of the remote voting API's answers, as the pages consume them.
    Every HTTP call of the front end is modelled by its outcome alone: the
    response body, or a failure with the server's `message` field if the
    error response carried one. */
module Api {

  datatype Option<T> = None | Some(value: T)

  /** The outcome of one request. `Fail(message)` holds
      `error.response?.data?.message`; `None` stands for a transport failure or
      an error body without a message. */
  datatype Response<T> = Ok(data: T) | Fail(message: Option<string>)

  /** `error.response?.data?.message || fallback`: a missing or empty message
      (both falsy in JavaScript) gives the fallback text. */
  function MessageOr<T>(r: Response<T>, fallback: string): (m: string)
    requires r.Fail?
    ensures m == fallback || (r.message == Some(m) && m != "")
    ensures (r.message.None? || r.message == Some("")) ==> m == fallback
    ensures r.message.Some? && r.message.value != "" ==> m == r.message.value
  {
    if r.message.Some? && r.message.value != "" then r.message.value else fallback
  }

  /** A candidate record (`_id`, names, the position it runs for). */
  datatype Candidate = Candidate(id: string, firstName: string, lastName: string, position: string)

  /** An election record; only `_id` and `title` matter to the logic modelled here. */
  datatype Election = Election(id: string, title: string)
}
