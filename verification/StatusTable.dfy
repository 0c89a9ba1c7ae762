/**
 The status table of get_status_string.
 */
module StatusTable {
  import opened HttpTypes

  predicate NoLineEnd(w: string) {
    forall i :: 0 <= i < |w| ==> w[i] != CR && w[i] != LF
  }

  /** Text that fits on one line. */
  type OneLine = w: string | NoLineEnd(w)

  /** The phrase of a status; None for a status that is not in the table. */
  function Phrase(status: nat): Option<OneLine> {
    if status / 100 == 1 then Informational(status)
    else if status / 100 == 2 then Success(status)
    else if status / 100 == 3 then Redirection(status)
    else if status / 100 == 4 then ClientError(status)
    else if status / 100 == 5 then ServerError(status)
    else None
  }

  function Informational(status: nat): Option<OneLine> {
    match status
    case 100 => Some("Continue")
    case 101 => Some("Switching Protocols")
    case _ => None
  }

  function Success(status: nat): Option<OneLine> {
    match status
    case 200 => Some("OK")
    case 201 => Some("Created")
    case 202 => Some("Accepted")
    case 203 => Some("Non-Authoritative Information")
    case 204 => Some("No Content")
    case 205 => Some("Reset Content")
    case 206 => Some("Partial Content")
    case _ => None
  }

  function Redirection(status: nat): Option<OneLine> {
    match status
    case 300 => Some("Multiple Choices")
    case 301 => Some("Moved Permanently")
    case 302 => Some("Found")
    case 303 => Some("See Other")
    case 304 => Some("Not Modified")
    case 305 => Some("Use Proxy")
    case 307 => Some("Temporary Redirect")
    case _ => None
  }

  function ClientError(status: nat): Option<OneLine> {
    match status
    case 400 => Some("Bad Request")
    case 401 => Some("Unauthorized")
    case 402 => Some("Payment Required")
    case 403 => Some("Forbidden")
    case 404 => Some("Not Found")
    case 405 => Some("Method Not Allowed")
    case _ => ClientErrorFrom406(status)
  }

  function ClientErrorFrom406(status: nat): Option<OneLine> {
    match status
    case 406 => Some("Not Acceptable")
    case 407 => Some("Proxy Authentication Required")
    case 408 => Some("Request Timeout")
    case 409 => Some("Conflict")
    case 410 => Some("Gone")
    case 411 => Some("Length Required")
    case _ => ClientErrorFrom412(status)
  }

  function ClientErrorFrom412(status: nat): Option<OneLine> {
    match status
    case 412 => Some("Precondition Failed")
    case 413 => Some("Request Entity Too Large")
    case 414 => Some("Request-URI Too Long")
    case _ => ClientErrorFrom415(status)
  }

  function ClientErrorFrom415(status: nat): Option<OneLine> {
    match status
    case 415 => Some("Unsupported Media Type")
    case 416 => Some("Requested Range Not Satisfiable")
    case 417 => Some("Expectation Failed")
    case _ => None
  }

  function ServerError(status: nat): Option<OneLine> {
    match status
    case 500 => Some("Internal Server Error")
    case 501 => Some("Not Implemented")
    case 502 => Some("Bad Gateway")
    case 503 => Some("Service Unavailable")
    case 504 => Some("Gateway Timeout")
    case 505 => Some("HTTP Version Not Supported")
    case _ => None
  }

  /** The statuses in the table. */
  predicate KnownStatus(status: nat) {
    100 <= status <= 101 || 200 <= status <= 206 || 300 <= status <= 305 || status == 307
    || 400 <= status <= 417 || 500 <= status <= 505
  }

  lemma TableKnows(status: nat)
    ensures KnownStatus(status) <==> Phrase(status).Some?
  {
  }

  /** No phrase has a line end. */
  lemma PhraseIsLine(status: nat)
    requires Phrase(status).Some?
    ensures NoLineEnd(Phrase(status).value)
  {
    hide Informational, Success, Redirection, ClientError, ServerError;
  }
}
