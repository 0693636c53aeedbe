/** What a handler sends back: the status set with `res.status(...)` and the
    JSON body passed to `.json(...)`. */
module Http {

  /** A JSON body: an entity or a list of entities, or a `{ message }` object. */
  datatype Body<+T> = Json(value: T) | Message(text: string)

  datatype Response<+T> = Response(status: int, body: Body<T>)

  /** The response of a handler that only ever answers with a message. */
  type Reply = Response<()>
}
