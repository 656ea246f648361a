/**
 * `createNewOrderAction`: a request for a new Order is validated field by
 * field and then handed to the order-creating procedure.
 */
module CreateNewOrder {
  import opened Wrappers
  import opened JsValues
  import opened Domain
  import opened Database
  import opened Validators
  import Orders

  const CREATOR_MEMBER_ID_INVALID: string := "'creator_member_id' field is invalid."
  const GROUP_ID_INVALID: string := "'group_id' field is invalid."
  const TITLE_INVALID: string := "'title' field is invalid."
  const DESCRIPTION_INVALID: string := "'description' field is invalid."
  const PRICE_INVALID: string := "'price' field is invalid."
  const PARTICIPANTS_INVALID: string := "'participant_member_ids' field contains an invalid value."

  /** `isNaN(price) || price <= 0`. */
  predicate PriceRejected(price: Number) {
    IsNaN(price) || price.value <= 0.0
  }

  /** Some participant id fails `isString`. */
  predicate SomeParticipantInvalid(ids: Option<seq<JsValue>>) {
    ids.Some? && exists i :: 0 <= i < |ids.value| && !IsString(ids.value[i])
  }

  /**
   * The message `validateNewOrderDTO` answers with: the checks run in the
   * order creator id, Group id, title, description (only when truthy),
   * price, participant ids, and the first failing one decides.
   */
  function NewOrderError(dto: Orders.NewOrderDTO): Option<Message> {
    if !IsString(dto.creatorMemberId) then Some(Text(CREATOR_MEMBER_ID_INVALID))
    else if !IsString(dto.groupId) then Some(Text(GROUP_ID_INVALID))
    else if !IsString(dto.title) then Some(Text(TITLE_INVALID))
    else if Truthy(dto.description) && !IsString(dto.description) then Some(Text(DESCRIPTION_INVALID))
    else if PriceRejected(dto.price) then Some(Text(PRICE_INVALID))
    else if SomeParticipantInvalid(dto.participantMemberIds) then Some(Text(PARTICIPANTS_INVALID))
    else None
  }

  /**
   * `validateNewOrderDTO`, with its loop over the participant ids, answers
   * the first failing check's message, or null when every check passes.
   */
  method ValidateNewOrderDTO(dto: Orders.NewOrderDTO) returns (err: Option<Message>)
    ensures err == NewOrderError(dto)
  {
    if !IsString(dto.creatorMemberId) {
      return Some(Text(CREATOR_MEMBER_ID_INVALID));
    }
    if !IsString(dto.groupId) {
      return Some(Text(GROUP_ID_INVALID));
    }
    if !IsString(dto.title) {
      return Some(Text(TITLE_INVALID));
    }
    if Truthy(dto.description) && !IsString(dto.description) {
      return Some(Text(DESCRIPTION_INVALID));
    }
    if IsNaN(dto.price) || dto.price.value <= 0.0 {
      return Some(Text(PRICE_INVALID));
    }

    if dto.participantMemberIds.Some? && |dto.participantMemberIds.value| > 0 {
      var ids := dto.participantMemberIds.value;
      var k := 0;
      while k < |ids|
        invariant 0 <= k <= |ids|
        invariant forall i :: 0 <= i < k ==> IsString(ids[i])
      {
        if !IsString(ids[k]) {
          return Some(Text(PARTICIPANTS_INVALID));
        }
        k := k + 1;
      }
    }
    return None;
  }

  /**
   * A request passes validation exactly when the ids and the title are
   * non-empty strings, the description is falsy or a non-empty string, the
   * price is a number above zero, and every participant id is a non-empty
   * string. An absent or empty participant list is accepted.
   */
  lemma NewOrderValidIff(dto: Orders.NewOrderDTO)
    ensures NewOrderError(dto).None? <==>
      && dto.creatorMemberId.JsString? && dto.creatorMemberId.s != ""
      && dto.groupId.JsString? && dto.groupId.s != ""
      && dto.title.JsString? && dto.title.s != ""
      && (Truthy(dto.description) ==> dto.description.JsString?)
      && dto.price.Num? && dto.price.value > 0.0
      && (dto.participantMemberIds.Some? ==>
            forall i :: 0 <= i < |dto.participantMemberIds.value| ==>
              dto.participantMemberIds.value[i].JsString? && dto.participantMemberIds.value[i].s != "")
  {
  }

  /**
   * Once the ids, the title and the description pass, the request is
   * refused for its price exactly when the price is NaN, zero or negative;
   * a positive price never draws the price message, whatever follows.
   */
  lemma PriceRule(dto: Orders.NewOrderDTO)
    requires IsString(dto.creatorMemberId) && IsString(dto.groupId) && IsString(dto.title)
    requires !Truthy(dto.description) || IsString(dto.description)
    ensures NewOrderError(dto) == Some(Text(PRICE_INVALID)) <==> dto.price.NaN? || dto.price.value <= 0.0
    ensures dto.price.Num? && dto.price.value > 0.0 ==>
      NewOrderError(dto) == None || NewOrderError(dto) == Some(Text(PARTICIPANTS_INVALID))
  {
  }

  /** A request that passes validation has the types `createOrder` relies on, given a string or absent description. */
  lemma ValidRequestIsTyped(dto: Orders.NewOrderDTO)
    requires NewOrderError(dto).None?
    requires IsOptionalString(dto.description)
    ensures Orders.IsTypedForCreate(dto)
  {
  }

  /**
   * `createNewOrderAction`. A validation failure answers 400 and the
   * procedure is not invoked. Otherwise the procedure runs on the trimmed
   * parameters: its error answers the error's client message with the code
   * for its error type, and its Order answers 201.
   */
  method CreateNewOrderAction(store: Store, dto: Orders.NewOrderDTO,
                              proc: ProcCreateOrderParameters -> Result<Order, DatabaseError>)
    returns (r: ActionResult<Order>)
    requires NewOrderError(dto).Some? || IsOptionalString(dto.description)
    modifies store
    ensures NewOrderError(dto).Some? ==>
      r == Fail(NewOrderError(dto).value, BAD_REQUEST) && store.Snapshot() == old(store.Snapshot())
    ensures NewOrderError(dto).None? ==>
      var answer := proc(Orders.CreateOrderParameters(dto));
      && (answer.Failure? ==>
            r == Fail(Text(answer.error.clientMessage), ForDatabaseError(answer.error.errorType))
            && store.Snapshot() == old(store.Snapshot()))
      && (answer.Success? ==>
            r == Succeed(CREATED, answer.value)
            && store.Snapshot() == old(store.Snapshot()).(orders := old(store.orders) + [answer.value]))
  {
    var validationError := ValidateNewOrderDTO(dto);
    if validationError.Some? {
      return Fail(validationError.value, BAD_REQUEST);
    }

    ValidRequestIsTyped(dto);
    var result := Orders.CreateOrder(store, dto, proc);
    if result.error.Some? {
      return Fail(Text(result.error.value.clientMessage), ForDatabaseError(result.error.value.errorType));
    }
    return Succeed(CREATED, result.data.value);
  }
}
