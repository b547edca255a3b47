/** What the REST handlers share: error replies, and how they read an
    optional string field of a request body. */
module Http {
  import opened Wrappers

  /** An error reply: HTTP status and JSON message. */
  datatype HttpError = HttpError(status: nat, message: string)

  /** What every handler's catch block sends. */
  const ServerError := HttpError(500, "Server error")

  /** JavaScript truthiness of a body field: supplied (not `undefined`) and not the empty string. */
  predicate Truthy(field: Option<string>)
  {
    field.Some? && field.value != ""
  }
}
