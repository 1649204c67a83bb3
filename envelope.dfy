/** ApiResponse<T>: the envelope every controller action returns (GridHub.API/Configuration/APIResponse.cs). */
module Envelope {
  import opened Wrappers

  const DefaultSuccessMessage := "Operação realizada com sucesso."
  const DefaultErrorMessage := "Operação mal sucedida."

  /** `message` is None only for an envelope built by the parameterless constructor. */
  datatype ApiResponse<+T> = ApiResponse(
    success: bool,
    message: Option<string>,
    data: Option<T>,
    errors: seq<string>)

  /** `new ApiResponse<T>()`: every property at its default, except an empty Errors list. */
  function Empty<T>(): (r: ApiResponse<T>)
    ensures !r.success && r.message.None? && r.data.None? && r.errors == []
  {
    ApiResponse(false, None, None, [])
  }

  /** `SuccessResponse(data, message)`: a success carrying `data`, the message defaulting when null. */
  function SuccessResponse<T>(data: T, message: Option<string>): (r: ApiResponse<T>)
    ensures r.success && r.data == Some(data) && r.errors == []
    ensures message.Some? ==> r.message == message
    ensures message.None? ==> r.message == Some(DefaultSuccessMessage)
  {
    Empty().(success := true, message := Some(message.GetOr(DefaultSuccessMessage)), data := Some(data))
  }

  /** `ErrorResponse(message, errors)`: a failure with no data, both arguments defaulting when null. */
  function ErrorResponse<T>(message: Option<string>, errors: Option<seq<string>>): (r: ApiResponse<T>)
    ensures !r.success && r.data.None?
    ensures message.Some? ==> r.message == message
    ensures message.None? ==> r.message == Some(DefaultErrorMessage)
    ensures errors.Some? ==> r.errors == errors.value
    ensures errors.None? ==> r.errors == []
  {
    Empty().(message := Some(message.GetOr(DefaultErrorMessage)), errors := errors.GetOr([]))
  }
}
