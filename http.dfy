/**
 * The HTTP answers the controllers and the authentication middleware produce: a status
 * code and the JSON object sent with it.
 */
module Http {
  import opened Wrappers

  /** The JSON bodies sent by the handlers. */
  datatype Body<T> =
    | Json(value: T)                                  // the result itself
    | Message(message: string)                        // `{ message }`
    | WithMessage(message: string, value: T)          // `{ message, record }` or `{ message, asset }`
    | Error(error: string, details: Option<string>)   // `{ error }` or `{ error, details }`

  datatype Reply<T> = Reply(status: int, body: Body<T>)

  /** `res.status(status).json({ error })`. */
  function Refuse<T>(status: int, error: string): Reply<T>
  {
    Reply(status, Error(error, None))
  }

  /** `res.status(500).json({ error, details })`: a fixed text, with the caught message as details. */
  function Internal<T>(error: string, details: string): Reply<T>
  {
    Reply(500, Error(error, Some(details)))
  }
}
