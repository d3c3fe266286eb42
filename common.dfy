/** Values shared by the server and client models: optional values, the HTTP
    error classes the handlers answer with, and chat messages as both the
    browser and the server store them. */
module Common {

  datatype Option<T> = None | Some(value: T) {
    function GetOr(default: T): T {
      match this
      case Some(v) => v
      case None => default
    }
  }

  /** The error statuses the handlers answer with. */
  datatype HttpError =
    | BadRequest          // 400: a required field is missing or empty
    | Forbidden           // 403: admin credential missing, wrong or expired
    | NotFound            // 404: no stored record for the session id
    | ServiceUnavailable  // 503: the AI client was never initialised
    | InternalError       // 500: an exception escaped the handler's logic

  datatype Result<T> = Ok(value: T) | Err(error: HttpError)

  datatype Outcome = Success | Failure(error: HttpError)

  /** `role` of a message; no system role is ever stored. */
  datatype Role = User | Model

  datatype Part = Part(text: string)

  /** One turn: `{role, parts: [{text}], timestamp?}`. The server-side
      transcript carries no timestamp; the browser adds an ISO string. */
  datatype Message = Message(role: Role, parts: seq<Part>, timestamp: Option<string>)

  /** The shape every producer in the system emits: exactly one part. */
  function TextMessage(role: Role, text: string, timestamp: Option<string>): Message {
    Message(role, [Part(text)], timestamp)
  }

  /** JavaScript `s.substring(0, n)` for `n >= 0`: at most the first `n` characters. */
  function Prefix(s: string, n: nat): (r: string)
    ensures |r| <= n && r <= s
    ensures |s| <= n ==> r == s
    ensures n <= |s| ==> |r| == n
  {
    if |s| <= n then s else s[..n]
  }
}
