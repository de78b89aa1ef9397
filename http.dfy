/** The `res.status(...).json(...)` replies of the handlers. */
module Http {
  import opened Fields

  /** The JSON body: an error `{success: false, message}`, one row (with a message on writes),
      a listing `{success: true, count, rows}`, or a bare confirmation message. */
  datatype Body<T> =
    | Failure(message: string)
    | Single(note: Option<string>, item: T)
    | Listing(count: nat, items: seq<T>)
    | Done(message: string)

  datatype Response<T> = Response(status: nat, body: Body<T>) {
    /** The `success` flag the body carries. */
    predicate Success() {
      !body.Failure?
    }
  }

  function Fail<T>(status: nat, message: string): Response<T> {
    Response(status, Failure(message))
  }

  /** The 500 reply of every handler's `catch`: here, the storage engine refused a write. */
  const ServerError: string := "Internal server error"
}
