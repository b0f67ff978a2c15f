/** The HTTP failures the server core raises (FastAPI's `HTTPException`). */
module Http {

  const BadRequest: int := 400
  const Unauthorized: int := 401
  const Forbidden: int := 403
  const NotFound: int := 404
  const InternalServerError: int := 500

  /** The `detail` of each exception the core raises, one constructor per message. */
  datatype Detail =
    | ProductMissing                 // "Product not found" (cart service)
    | ProductNotFound                // "Product not found!" (product service)
    | QuantityNotPositive            // "Quantity must be greater than zero"
    | StockExceeded(available: int)  // "Quantity exceeds available stock. Available: {stock}"
    | MergedStockExceeded(available: int, inCart: int, requested: int)
                                     // "... Available: {stock}, In cart: {q}, Requested: {r}"
    | CartItemNotOwned               // "Cart item not found or does not belong to you"
    | DuplicateProductName           // "Product with this name already exists!"
    | ErrorUpdatingProduct           // "Error updating product" (the commit was rejected)
    | InvalidCredentials             // response_messages.INVALID_CREDENTIALS
    | AdminPrivilegesRequired        // response_messages.ADMIN_PRIVILEGES_REQUIRED
    | UnhandledException             // an uncaught Python exception, rendered as a bare 500

  datatype HttpError = HttpError(status: int, detail: Detail, headers: map<string, string>)

  /** An exception raised with a status code and a detail and no extra headers. */
  function Raise(status: int, detail: Detail): HttpError {
    HttpError(status, detail, map[])
  }
}
