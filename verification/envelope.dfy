/** The uniform `{code, message, data}` envelope every endpoint answers with. */
module Envelope {

  datatype ApiResponse<D> = ApiResponse(code: int, message: string, data: D)

  const OkMessage: string := "ok"

  /** The global response interceptor's wrapping of a handler's result. */
  function Success<D>(data: D): (r: ApiResponse<D>)
    ensures r.code == 0 && r.message == OkMessage && r.data == data
  {
    ApiResponse(0, OkMessage, data)
  }
}
