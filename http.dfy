/** The JSON responses the handlers and the validation gate send, with their status codes. */
module Http {
  import opened ProductModel
  import opened Validator

  /**
   * The JSON body: `{data: product}`, `{data: [products]}`, `{data: "Producto Eliminado"}`,
   * `{error: "..."}`, `{errors: [...]}`, or the fault a refused write raises.
   */
  datatype Payload =
    | Record(product: Product)
    | Records(products: seq<Product>)
    | Confirmation(text: string)
    | NotFoundError(error: string)
    | Errors(errors: seq<ValidationError>)
    | StorageFault

  datatype Response = Response(status: int, payload: Payload)

  const NotFoundMessage := "Producto no encontrado"
  const DeletedMessage := "Producto Eliminado"

  /** The answer of every handler whose id has no row. */
  const NotFound := Response(404, NotFoundError(NotFoundMessage))

  /** The answer when the table refuses a write (a value that does not fit its column). */
  const Fault := Response(500, StorageFault)
}
