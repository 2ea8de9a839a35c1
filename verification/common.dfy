/** Shared vocabulary of the scraper model: optional values, the errors the
    client raises, and the (state, outcome) pair every stateful operation
    returns. */
module Common {

  /** A message identifier: the URL fragment of one `.EML` link. */
  type Id = string

  datatype Option<T> = None | Some(value: T)

  /** The exceptions that escape the client. */
  datatype Error =
    | InvalidLogin       // the page after logging on carries the failure text
    | RetrievalError     // the first link after logging on has no base URL
    | MissingElement     // an element the client indexes into is absent: no logon
                         // form, no link at all, or no "Next Page" link
    | MissingKey(key: Id) // `del` of a message id that is not in the message cache

  datatype Result<T> = Success(value: T) | Failure(error: Error)

  /** What an operation on an object leaves behind: the object's state after
      the call (also when the call raised, since Python mutates in place) and
      the value returned or the error raised. */
  datatype Reply<S, T> = Reply(state: S, result: Result<T>)

  /** The two copies of the client differ only in how later folder pages and
      deleted ids are normalised: `Packaged` is weboutlook/scraper.py, which
      strips the base href from later pages and `?Cmd=open` from deleted ids;
      `TopLevel` is scraper.py, which strips neither. */
  datatype Variant = Packaged | TopLevel
}
