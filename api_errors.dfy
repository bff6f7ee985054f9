/** `dmutils/apiclient/errors.py`: the message and status code an API error
    reports, with fallbacks when there is no usable response. */
module ApiErrors {

  import opened Results
  import opened Values

  const RequestErrorStatusCode := 503
  const RequestErrorMessage := "Request failed"

  /** The parts of a `requests` response that the error reads:
      its status code and what `response.json()` gives or raises. */
  datatype ApiResponse = ApiResponse(statusCode: int, json: Result<Value>)

  /** `APIError` and its two subclasses, which add nothing to it. */
  datatype ErrorClass = APIError | HTTPError | InvalidResponse

  /** An error built from an optional response and an optional message. */
  datatype ApiError = ApiError(cls: ErrorClass, response: Option<ApiResponse>, message: Value)
  {
    /** The exceptions the `message` property falls back on. */
    static predicate Caught(e: Exception) {
      e.TypeError? || e.ValueError? || e.AttributeError? || e.KeyError?
    }

    /** `message`: the `error` entry of the response's JSON body; failing
      that, the given message when it is truthy, else `"Request failed"`.
      Exceptions other than the four caught ones escape. */
    function Message(): (r: Result<Value>)
    {
      var fallback := if Truthy(message) then message else Str(RequestErrorMessage);
      match response
      case None => Ok(fallback)
      case Some(resp) =>
        match resp.json
        case Raise(e) => if Caught(e) then Ok(fallback) else Raise(e)
        case Ok(body) =>
          match Getitem(body, "error")
          case Ok(m) => Ok(m)
          case Raise(_) => Ok(fallback)
    }

    /** `status_code`: the response's, or 503 without a response. */
    function StatusCode(): (r: int)
      ensures response.None? ==> r == RequestErrorStatusCode
      ensures response.Some? ==> r == response.value.statusCode
    {
      if response.Some? then response.value.statusCode else RequestErrorStatusCode
    }
  }

  /** The message is the body's `error` whenever the body is a dictionary
      that has one; otherwise the given message, or the default when that
      is falsy. */
  lemma {:induction false} MessageFallbacks(e: ApiError)
    ensures (e.response.Some? && e.response.value.json.Ok? && e.response.value.json.value.Dict?
             && "error" in e.response.value.json.value.entries)
            ==> e.Message() == Ok(e.response.value.json.value.entries["error"])
    ensures e.response.None? ==> e.Message() == Ok(if Truthy(e.message) then e.message else Str("Request failed"))
    ensures (e.response.Some? && e.response.value.json.Ok?
             && !(e.response.value.json.value.Dict? && "error" in e.response.value.json.value.entries))
            ==> e.Message() == Ok(if Truthy(e.message) then e.message else Str("Request failed"))
    ensures e.Message().Raise? <==> e.response.Some? && e.response.value.json.Raise? && !ApiError.Caught(e.response.value.json.error)
  {
  }

  /** The subclasses report exactly what `APIError` reports. */
  lemma {:induction false} SubclassesAlike(response: Option<ApiResponse>, message: Value, c: ErrorClass)
    ensures ApiError(c, response, message).Message() == ApiError(APIError, response, message).Message()
    ensures ApiError(c, response, message).StatusCode() == ApiError(APIError, response, message).StatusCode()
  {
  }
}
