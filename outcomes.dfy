/** Option and Result, and the errors the program's operations report. */
module Outcomes {

  datatype Option<+T> = None | Some(value: T)

  /** The kinds of `Box<dyn Error>` the provider operations return. */
  datatype Error =
    | Message(text: string)        // a string error: `ok_or("...")` or `format!(...).into()`
    | Transport(reason: string)    // reqwest could not send a request or read its body
    | Undecodable(reason: string)  // serde_json could not decode a body
    | BadTimestamp(input: string)  // chrono rejected a string as an RFC 3339 date-time
    | TokenUnset                   // `env::var("GITHUB_TOKEN")` failed

  datatype Result<+T> = Ok(value: T) | Err(error: Error)
}
