/**
 * The response envelopes of the API server (apps/api/src/utilities/apiResponse.ts):
 * `{status, message, data?, error?}`.
 */
module ApiResponse {
  import opened Wrappers

  /** An envelope; `data` and `error` are absent unless a constructor sets them. */
  datatype ApiResponse<D> = ApiResponse(status: int, message: string, data: Option<D>, error: Option<string>)

  /** A thrown JavaScript `Error`; only its message is used. */
  datatype Error = Error(message: string)

  const DefaultSuccessMessage: string := "Operación exitosa"
  const RequestErrorMessage: string := "Error en la solicitud"
  const ServerErrorMessage: string := "Error interno del servidor"

  /**
   * `successResponse(data, message?)`: status 200 and `data` as given; an
   * omitted message (`undefined`) becomes the default one, any other is kept.
   */
  function SuccessResponse<D>(data: D, message: Option<string>): (r: ApiResponse<D>)
    ensures r.status == 200 && r.data == Some(data) && r.error == None
    ensures message.Some? ==> r.message == message.value
    ensures message.None? ==> r.message == DefaultSuccessMessage
  {
    ApiResponse(200, message.GetOr(DefaultSuccessMessage), Some(data), None)
  }

  /** `errorResponse(status, error)`: the given status and error, a fixed message and no data. */
  function ErrorResponse<D>(status: int, error: string): (r: ApiResponse<D>)
    ensures r.status == status && r.error == Some(error) && r.data == None
    ensures r.message == RequestErrorMessage
  {
    ApiResponse(status, RequestErrorMessage, None, Some(error))
  }

  /** `serverErrorResponse(e)`: status 500, the exception's message as `error`, a fixed message. */
  function ServerErrorResponse<D>(e: Error): (r: ApiResponse<D>)
    ensures r.status == 500 && r.error == Some(e.message) && r.data == None
    ensures r.message == ServerErrorMessage
  {
    ApiResponse(500, ServerErrorMessage, None, Some(e.message))
  }

  /**
   * The three constructors are told apart by their fields: only a success
   * carries data, only an error carries an error string, and no two of
   * them share a message unless the caller of `successResponse` chose it.
   */
  lemma EnvelopesDisjoint<D>(d: D, m: Option<string>, status: int, error: string, e: Error)
    requires m.Some? ==> m.value != RequestErrorMessage && m.value != ServerErrorMessage
    ensures SuccessResponse(d, m) != ErrorResponse(status, error)
    ensures SuccessResponse(d, m) != ServerErrorResponse(e)
    ensures SuccessResponse(d, m).message != ErrorResponse<D>(status, error).message
    ensures SuccessResponse(d, m).message != ServerErrorResponse<D>(e).message
    ensures ErrorResponse<D>(status, error).message != ServerErrorResponse<D>(e).message
  {
    assert DefaultSuccessMessage[0] == 'O' && RequestErrorMessage[0] == 'E';
    assert DefaultSuccessMessage != ServerErrorMessage by { assert ServerErrorMessage[0] == 'E'; }
    assert RequestErrorMessage[9] != ServerErrorMessage[9];
  }
}
