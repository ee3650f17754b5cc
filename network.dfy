/** What the HTTP client (axios) gives back, seen from its callers: the
    transport itself is not modelled, only the three kinds of outcome and
    how the client turns them into a resolved or rejected call. */
module Network {
  import opened Wrappers
  import opened Text
  import opened Json

  /** The outcome of one request: a response with a status, a request
      that got no response (a network error or the 30-second timeout), or
      a request that could not be set up. */
  datatype Reply =
    | Answered(status: int, statusText: string, data: Json, headers: seq<Field>)
    | NoResponse(message: string)
    | SetupFailed(message: string)

  /** The client's default status check: the call resolves only for 2xx. */
  predicate Accepted(status: int)
  {
    200 <= status < 300
  }

  /** The message of the error the call rejects with. */
  function RejectionMessage(r: Reply): string
  {
    match r
    case Answered(status, _, _, _) => "Request failed with status code " + IntToString(status)
    case NoResponse(m) => m
    case SetupFailed(m) => m
  }

  /** The response object a resolved call returns. */
  function ResponseObject(status: int, statusText: string, data: Json, headers: seq<Field>): (r: Json)
    ensures r.JObj? && Lookup(r.fields, "data") == Some(data) && Lookup(r.fields, "status") == Some(JNum(status))
  {
    var f := [Field("status", JNum(status)), Field("statusText", JStr(statusText)),
              Field("data", data), Field("headers", JObj(headers))];
    assert Lookup(f, "data") == Lookup(f[1..], "data") == Lookup(f[2..], "data");
    JObj(f)
  }
}
