/** Values exchanged with the cloud control-plane client: errors, outcomes of
    calls that return data, and the snapshot a Get returns. The client itself
    is not part of this model; its replies are inputs of the operations. */
module Remote {

  datatype Option<+T> = None | Some(value: T)

  /** The error values the provider sees or produces. */
  datatype Error =
      /** An api.APIError from the client, with its HTTP status code. */
    | ApiError(statusCode: int)
      /** Any other error value the client returns (transport, decoding, ...). */
    | OtherError(message: string)
      /** "Error waiting for <kind> (<handle>) to <goal>: <cause>" after a failed wait. */
    | Waiting(kind: string, handle: string, goal: string, cause: Error)
      /** "<field>: required field is not set" from the project lookup. */
    | MissingField(field: string)
      /** uuid.FromString rejected the text. */
    | BadUuid(text: string)
      /** strings.Split(id, "/")[index] outside the parts: a runtime panic in the source. */
    | IndexOutOfRange(id: string, index: nat)
      /** d.Get(field).([]interface{}) on an attribute the schema does not
          declare: d.Get yields nil and the type assertion is a runtime panic
          in the source. */
    | UndeclaredField(field: string)

  /** The client's IsNotFound(): an API error with status 404. */
  predicate IsNotFound(e: Error) {
    e.ApiError? && e.statusCode == 404
  }

  /** The reply to a call that returns data. */
  datatype Outcome<+T> = Ok(value: T) | Err(error: Error)

  /** One binding of an IAM policy (api.PolicyBinding): a role and its
      members, in order. */
  datatype Binding = Binding(role: string, members: seq<string>)

  /** A UUID as the provider uses it for a volume's attachment; NilUuid is uuid.UUID{}. */
  datatype Uuid = NilUuid | Uuid(text: string)

  /** What a Get (or a Create) returns about one remote resource. Each resource
      kind uses the fields it has: `state` for all, `task`, `size` and
      `attachedTo` for volumes, `schedulable` for regions, `email` for
      service accounts. `handle` is the resource's ID or name. */
  datatype Snapshot = Snapshot(
    handle: string,
    state: string,
    task: string,
    size: int,
    attachedTo: Uuid,
    schedulable: bool,
    email: string)
}
