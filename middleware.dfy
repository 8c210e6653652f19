/** `handleInputErrors` (src/middleware/index.ts): the gate between the validators and the handler. */
module Middleware {
  import opened Validator
  import opened Http

  /** Either the request goes on to the handler, or it is answered here. */
  datatype Gate = Next | Reject(response: Response)

  /**
   * An empty error list lets the request through; any error answers 400 with the whole list,
   * in the order it was collected, and the handler is not reached.
   */
  function HandleInputErrors(errors: seq<ValidationError>): (g: Gate)
    ensures g.Next? <==> errors == []
    ensures g.Reject? ==> g.response.status == 400
    ensures g.Reject? ==> g.response.payload.Errors? && g.response.payload.errors == errors
  {
    if errors != [] then Reject(Response(400, Errors(errors))) else Next
  }
}
