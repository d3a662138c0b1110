/**
 * The plain client wrapper without refresh: its response interceptor turns
 * a non-zero business code into an error and `unwrapData` yields the
 * envelope's data.
 */
module ThinClient {
  import opened Wrappers
  import opened Envelope
  import opened ClientSession

  /** An axios response: the HTTP status and the envelope body. */
  datatype Response<D> = Response(status: int, body: ApiResponse<D>)

  /**
   * An `AxiosError`: the envelope message of its response body ("" when
   * there is no response or no message) and its own message.
   */
  datatype TransportError = TransportError(dataMessage: string, message: string)

  /** What the error branch rejects with: a fresh `Error`, or the original error object. */
  datatype Rejection = Replaced(error: ClientError) | Original(original: TransportError)

  /**
   * The fulfilled branch: code 0 passes the response through unchanged; any
   * other code throws an error carrying that code, with message fallback
   * "request failed".
   */
  function OnFulfilled<D>(response: Response<D>): (r: Result<Response<D>, ClientError>)
    ensures r.Ok? <==> response.body.code == 0
    ensures r.Ok? ==> r.value == response
    ensures r.Err? ==> r.error.code == Some(response.body.code)
    ensures r.Err? ==> r.error.message == (if response.body.message == "" then "request failed" else response.body.message)
  {
    if response.body.code != 0 then
      Err(ClientError(OrElse(response.body.message, "request failed"), Some(response.body.code)))
    else Ok(response)
  }

  /** The rejected branch: `Error(message)` when the response carried one, else the error unchanged. */
  function OnRejected(error: TransportError): (r: Rejection)
    ensures error.dataMessage != "" <==> r.Replaced?
    ensures r.Replaced? ==> r.error == ClientError(error.dataMessage, None)
    ensures r.Original? ==> r.original == error
  {
    if error.dataMessage != "" then Replaced(ClientError(error.dataMessage, None)) else Original(error)
  }

  /** `unwrapData`: the envelope's `data` of a delivered response; errors pass through. */
  function UnwrapData<D, E>(r: Result<Response<D>, E>): (d: Result<D, E>)
    ensures r.Ok? <==> d.Ok?
    ensures r.Ok? ==> d.value == r.value.body.data
    ensures r.Err? ==> d.error == r.error
  {
    match r
    case Ok(response) => Ok(response.body.data)
    case Err(e) => Err(e)
  }

  /**
   * What the server's success interceptor wraps, this client unwraps:
   * `request.get` resolves to exactly the handler's result.
   */
  lemma SuccessEnvelopeRoundTrip<D>(status: int, data: D)
    ensures UnwrapData(OnFulfilled(Response(status, Success(data)))) == Ok(data)
  {
  }

  /** A failing envelope never reaches the caller as data. */
  lemma FailureNeverUnwraps<D>(response: Response<D>)
    requires response.body.code != 0
    ensures UnwrapData(OnFulfilled(response)).Err?
    ensures UnwrapData(OnFulfilled(response)).error.code == Some(response.body.code)
  {
  }
}
