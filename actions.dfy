/** The ASP.NET action results the controllers return, with the envelope they carry. */
module Actions {
  import opened Envelope
  import Store
  import opened Entities

  datatype ActionResult<+T> =
    | Ok(response: ApiResponse<T>)                        // 200
    | Created(routeId: Int32, response: ApiResponse<T>)     // 201, CreatedAtAction(nameof(Get), new { id })
    | BadRequest(response: ApiResponse<T>)                // 400
    | NotFound(response: ApiResponse<T>)                  // 404
    | NoContent                                           // 204, no body
    | Fault(error: Store.RepoError)                       // an exception the controller does not catch

  /** The messages every controller shares. */
  const InvalidData := "Dados inválidos."
}
