/** Option, and a Result whose error side names the Java exception that would
    have ended the harvest run. */
module Outcomes {

  datatype Option<+T> = None | Some(value: T)

  /** The kinds of exception the harvest core can raise: org.json's
      JSONException (text that is not a JSON array, an array element that is
      not an object, a missing or mistyped key), java.time's
      DateTimeParseException (a timestamp that is not an ISO local date-time),
      and an unchecked exception out of the HTTP client (a RuntimeException
      such as IllegalArgumentException for a malformed URL). None of them is
      caught anywhere in the harvest run. */
  datatype Error = JsonException | DateTimeParseException | FetchRuntimeException

  datatype Result<+T> = Ok(value: T) | Err(error: Error)
}
