/**
 * The create-task edge function: a fixed chain of guards that stops at the
 * first failure, followed by a single insert into the tasks table.
 *
 * Timestamps are integer milliseconds since the epoch. Parsing the `due_at`
 * string (JavaScript's `new Date(s)`) is a parameter `parse`, `None` standing
 * for an invalid date; the store's insert is a parameter `insert`.
 */
module CreateTask {
  import opened Wrappers

  /** The accepted task types, in the order the error payload lists them. */
  const ValidTypes: seq<string> := ["call", "email", "review"]

  /** The field names reported when a required field is missing. */
  const RequiredFields: seq<string> := ["application_id", "task_type", "due_at"]

  const OpenStatus: string := "open"

  /**
   * The destructured JSON body. `None` is a field that is absent
   * (`undefined` after destructuring).
   */
  datatype Body = Body(applicationId: Option<string>, taskType: Option<string>, dueAt: Option<string>)

  /** JavaScript truthiness of a string field: absent and "" are both falsy. */
  predicate Truthy(field: Option<string>) {
    field.Some? && field.value != ""
  }

  predicate AllPresent(body: Body) {
    Truthy(body.applicationId) && Truthy(body.taskType) && Truthy(body.dueAt)
  }

  /** The row handed to the insert; `dueAt` is the caller's string, not the parsed instant. */
  datatype Draft = Draft(applicationId: string, taskType: string, dueAt: string, status: string)

  /** Why the handler refuses a request before touching the store. */
  datatype Rejection = MethodNotAllowed | MissingFields | InvalidTaskType | InvalidDueAt | DueAtNotFuture

  /**
   * The guard chain: request method, presence, type, parse, future. Each error is
   * reported exactly when every earlier check passed and its own check fails.
   */
  function Validate(verb: string, body: Body, parse: string -> Option<int>, now: int): (r: Result<Draft, Rejection>)
    ensures r == Err(MethodNotAllowed) <==> verb != "POST"
    ensures r == Err(MissingFields) <==> verb == "POST" && !AllPresent(body)
    ensures r == Err(InvalidTaskType) <==>
      verb == "POST" && AllPresent(body) && body.taskType.value !in ValidTypes
    ensures r == Err(InvalidDueAt) <==>
      verb == "POST" && AllPresent(body) && body.taskType.value in ValidTypes
      && parse(body.dueAt.value).None?
    ensures r == Err(DueAtNotFuture) <==>
      verb == "POST" && AllPresent(body) && body.taskType.value in ValidTypes
      && parse(body.dueAt.value).Some? && parse(body.dueAt.value).value <= now
    ensures r.Ok? <==>
      verb == "POST" && AllPresent(body) && body.taskType.value in ValidTypes
      && parse(body.dueAt.value).Some? && parse(body.dueAt.value).value > now
    ensures r.Ok? ==>
      r.value == Draft(body.applicationId.value, body.taskType.value, body.dueAt.value, OpenStatus)
  {
    if verb != "POST" then Err(MethodNotAllowed)
    else if !AllPresent(body) then Err(MissingFields)
    else if body.taskType.value !in ValidTypes then Err(InvalidTaskType)
    else
      match parse(body.dueAt.value)
      case None => Err(InvalidDueAt)
      case Some(due) =>
        if due <= now then Err(DueAtNotFuture)
        else Ok(Draft(body.applicationId.value, body.taskType.value, body.dueAt.value, OpenStatus))
  }

  /** The JSON payloads the handler answers with. `Created(id)` is `{success: true, task_id: id}`. */
  datatype Payload =
    | ErrorOnly(error: string)
    | ErrorWithRequired(error: string, required: seq<string>)
    | ErrorWithAllowed(error: string, allowed: seq<string>)
    | ErrorWithDetails(error: string, details: string)
    | Created(taskId: string)

  datatype Response = Response(status: int, payload: Payload)

  /** The response table for the guard failures. */
  function RejectionResponse(e: Rejection): (r: Response)
    ensures r.status == 405 <==> e == MethodNotAllowed
    ensures r.status == 400 <==> e != MethodNotAllowed
    ensures r.payload.ErrorWithRequired? <==> e == MissingFields
    ensures r.payload.ErrorWithAllowed? <==> e == InvalidTaskType
    ensures r.payload.ErrorWithRequired? ==> r.payload.required == RequiredFields
    ensures r.payload.ErrorWithAllowed? ==> r.payload.allowed == ValidTypes
    ensures !r.payload.Created? && !r.payload.ErrorWithDetails?
    ensures e == MethodNotAllowed ==> r == Response(405, ErrorOnly("Method not allowed"))
    ensures e == MissingFields ==>
      r == Response(400, ErrorWithRequired("Missing required fields", RequiredFields))
    ensures e == InvalidTaskType ==> r == Response(400, ErrorWithAllowed("Invalid task_type", ValidTypes))
    ensures e == InvalidDueAt ==> r == Response(400, ErrorOnly("Invalid due_at timestamp"))
    ensures e == DueAtNotFuture ==> r == Response(400, ErrorOnly("due_at must be in the future"))
  {
    match e
    case MethodNotAllowed => Response(405, ErrorOnly("Method not allowed"))
    case MissingFields => Response(400, ErrorWithRequired("Missing required fields", RequiredFields))
    case InvalidTaskType => Response(400, ErrorWithAllowed("Invalid task_type", ValidTypes))
    case InvalidDueAt => Response(400, ErrorOnly("Invalid due_at timestamp"))
    case DueAtNotFuture => Response(400, ErrorOnly("due_at must be in the future"))
  }

  /**
   * What the store's insert (with `.select().single()`) gives back: the new
   * row's id, an error object with a message, or an exception.
   */
  datatype InsertResult = Inserted(id: string) | InsertFailed(message: string) | InsertThrew

  /** One request: the draft sent to the store, if any, and the response. */
  datatype Exchange = Exchange(inserted: Option<Draft>, response: Response)

  const InternalError: Response := Response(500, ErrorOnly("Internal server error"))

  /**
   * The whole handler. `body` is `None` when reading the request body as
   * JSON throws, or yields `null` so that destructuring it throws; the
   * exception is caught and answered with a 500.
   */
  function Handle(verb: string, body: Option<Body>, parse: string -> Option<int>, now: int,
                  insert: Draft -> InsertResult): (x: Exchange)
    // the request method is checked before the body is read
    ensures verb != "POST" ==> x == Exchange(None, Response(405, ErrorOnly("Method not allowed")))
    ensures verb == "POST" && body.None? ==> x == Exchange(None, InternalError)
    // the store is reached exactly when every guard passes, and with the validated draft
    ensures x.inserted.Some? <==> body.Some? && Validate(verb, body.value, parse, now).Ok?
    ensures x.inserted.Some? ==> x.inserted.value == Validate(verb, body.value, parse, now).value
    ensures body.Some? && Validate(verb, body.value, parse, now).Err? ==>
      x.response == RejectionResponse(Validate(verb, body.value, parse, now).error)
    // success is reported exactly when the insert returned a row, and carries its id
    ensures x.response.payload.Created? <==> x.inserted.Some? && insert(x.inserted.value).Inserted?
    ensures x.response.payload.Created? ==>
      x.response.status == 200 && x.response.payload.taskId == insert(x.inserted.value).id
    ensures x.inserted.Some? && insert(x.inserted.value).InsertFailed? ==>
      x.response == Response(500, ErrorWithDetails("Failed to create task", insert(x.inserted.value).message))
    ensures x.inserted.Some? && insert(x.inserted.value).InsertThrew? ==> x.response == InternalError
  {
    if verb != "POST" then Exchange(None, RejectionResponse(MethodNotAllowed))
    else if body.None? then Exchange(None, InternalError)
    else
      match Validate(verb, body.value, parse, now)
      case Err(e) => Exchange(None, RejectionResponse(e))
      case Ok(draft) =>
        var response :=
          match insert(draft)
          case Inserted(id) => Response(200, Created(id))
          case InsertFailed(message) => Response(500, ErrorWithDetails("Failed to create task", message))
          case InsertThrew => InternalError;
        Exchange(Some(draft), response)
  }

  /**
   * The future check is strict: with every other check passing, a due time
   * equal to now is refused and one a millisecond later is accepted.
   */
  lemma FutureBoundary(body: Body, parse: string -> Option<int>, now: int)
    requires AllPresent(body) && body.taskType.value in ValidTypes
    ensures parse(body.dueAt.value) == Some(now) ==>
      Validate("POST", body, parse, now) == Err(DueAtNotFuture)
    ensures parse(body.dueAt.value) == Some(now + 1) ==>
      Validate("POST", body, parse, now).Ok?
  {
  }
}
