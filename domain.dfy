/**
 * The rows of the four tables, the errors the database reports, and the
 * `{success, errorMessage, httpCode, payload}` envelope the actions return.
 */
module Domain {
  import opened Wrappers
  import opened JsValues

  /** Row identifiers (UUID strings in the database). */
  type Id = string

  /** Timestamps, abstracted to integers (milliseconds since the epoch). */
  type Time = int

  /** A row of `members`. */
  datatype Member = Member(
    id: Id,
    name: string,
    createdAt: Time,
    updatedAt: Option<Time>,
    deletedAt: Option<Time>,
    authUserId: Id)

  /** A row of `groups`; `isClosed` blocks new joins. */
  datatype Group = Group(
    id: Id,
    name: string,
    password: Option<string>,
    creatorMemberId: Id,
    createdAt: Time,
    updatedAt: Time,
    deletedAt: Option<Time>,
    isClosed: bool)

  /** A row of the `members_groups` join table. */
  datatype MemberGroup = MemberGroup(id: Id, memberId: Id, groupId: Id)

  /** A row of `orders`. */
  datatype Order = Order(
    id: Id,
    groupId: Id,
    creatorMemberId: Id,
    title: string,
    description: Option<string>,
    price: Number,
    numberOfParticipants: int,
    createdAt: Time,
    deletedAt: Option<Time>)

  /** The `id` and `name` of a Member, as order listings carry them. */
  datatype MemberSummary = MemberSummary(id: Id, name: string)

  /** An Order with its creator and its participants. */
  datatype OrderWithMembers = OrderWithMembers(
    order: Order,
    creatorMember: MemberSummary,
    participantMembers: seq<MemberSummary>)

  /** The categories of errors raised by the database's own procedures. */
  datatype DatabaseErrorType =
    | CustomValidationError
    | CustomResourceNotFoundError
    | InternalServerErrorType

  /** An error reported by a stored procedure; `clientMessage` is safe to show. */
  datatype DatabaseError = DatabaseError(
    clientMessage: string,
    errorType: DatabaseErrorType,
    details: string,
    code: Option<string>)

  /** What a stored-procedure call returns to the application. */
  datatype ProcResult<T> = ProcResult(success: bool, payload: Option<T>, databaseError: Option<DatabaseError>)

  /** The `{ data?, error? }` object the Orders model returns. */
  datatype DataOrError<T> = DataOrError(data: Option<T>, error: Option<DatabaseError>)

  /** The anonymous sign-in of the auth provider: an error, or data whose user may be missing. */
  datatype SignInResult = SignInError | SignedIn(user: Option<Id>)

  /**
   * HTTP codes. `Okay` stands for `HTTP_CODES.OK` and `ForDatabaseError(t)`
   * for `getHttpCodeFromCustomDatabaseError(t)`, whose values are not part
   * of this model.
   */
  datatype HttpCode = Status(code: nat) | Okay | ForDatabaseError(errorType: DatabaseErrorType)

  const CREATED: HttpCode := Status(201)
  const BAD_REQUEST: HttpCode := Status(400)
  const INTERNAL_SERVER_ERROR: HttpCode := Status(500)

  const INTERNAL_SERVER_ERROR_MESSAGE: string := "Looks like an error on our side. Sorry about that!"

  /**
   * Error messages. `ResourceNotFound(kind, id)` stands for
   * `ERROR_MESSAGE_FUNCTIONS.RESOURCE_WITH_ID_NOT_FOUND(kind, id)` and
   * `UnverifiableRequester` for `HTTP_ERROR_MESSAGES.UNVERIFIABLE_REQUESTER`,
   * whose texts are not part of this model.
   */
  datatype Message = Text(text: string) | ResourceNotFound(resource: string, id: string) | UnverifiableRequester

  const InternalError: Message := Text(INTERNAL_SERVER_ERROR_MESSAGE)

  /** The envelope every action returns. */
  datatype ActionResult<T> = ActionResult(
    success: bool,
    errorMessage: Option<Message>,
    httpCode: Option<HttpCode>,
    payload: Option<T>)

  /** `{ success: false, errorMessage, httpCode }` */
  function Fail<T>(message: Message, code: HttpCode): ActionResult<T> {
    ActionResult(false, Some(message), Some(code), None)
  }

  /** `{ success: true, httpCode, payload }` */
  function Succeed<T>(code: HttpCode, payload: T): ActionResult<T> {
    ActionResult(true, None, Some(code), Some(payload))
  }
}
