/**
 * Outcomes of the request handlers: the error codes the routers raise through
 * `TRPCError`, the database faults a write can surface, and the result types
 * every query and mutation returns.
 */
module Trpc {

  /** The `TRPCError` codes that occur in the routers. */
  datatype Code = BadRequest | NotFound

  /** A fault raised by the relational store on a write. */
  datatype Fault =
    | DuplicateEntry       // a primary-key value already present
    | DataTooLong          // a varchar value wider than its column (strict SQL mode)
    | ForeignKeyViolation  // a reference to a missing parent row

  datatype ApiError =
    | Trpc(code: Code, message: string)
    | Database(fault: Fault)

  /** Result of a query. */
  datatype Result<+T> = Ok(value: T) | Err(error: ApiError)

  /** Result of a mutation; the driver's result header is not modelled. */
  datatype Outcome = Done | Failed(error: ApiError)

  /** A `TRPCError` built without a message carries its code as the message. */
  const NotFoundError := Trpc(NotFound, "NOT_FOUND")
}
