/**
 * `updateOrderAction`: the creator of an Order changes its title,
 * description or price. The Order, the requester and the requester's Member
 * are checked in turn before the update is built and applied.
 */
module UpdateOrder {
  import opened Wrappers
  import opened JsValues
  import opened Domain
  import opened Database
  import opened Validators
  import Members
  import Orders

  const NOT_THE_CREATOR: string := "Users can only updated Orders they created."

  /** The request body: each field may be absent. */
  datatype UpdateOrderDTO = UpdateOrderDTO(title: JsValue, description: JsValue, price: Option<Number>)

  /** Where an update attempt stops: the first check it fails, or `Permitted`. */
  datatype UpdateGate =
    | OrderUnknown
    | OrderDeleted
    | RequesterUnknown
    | RequesterMemberMissing
    | RequesterMemberDeleted
    | NotTheCreator
    | Permitted

  /**
   * The checks in the order the action runs them: the Order exists, it is not
   * soft-deleted, the request has a signed-in user, that user has a Member,
   * the Member is not soft-deleted, and the Member created the Order.
   */
  function UpdateGateOf(t: Tables, orderId: Id, userId: Option<Id>): UpdateGate {
    var order := Orders.FetchOrder(t, orderId);
    if order.None? then OrderUnknown
    else if order.value.deletedAt.Some? then OrderDeleted
    else if userId.None? then RequesterUnknown
    else
      var member := Members.FetchMemberByAuthUserId(t, userId.value);
      if member.None? then RequesterMemberMissing
      else if member.value.deletedAt.Some? then RequesterMemberDeleted
      else if member.value.id != order.value.creatorMemberId then NotTheCreator
      else Permitted
  }

  /** The reply of each failed check: 500 for a user without a Member, 400 for the rest. */
  function UpdateRejection(gate: UpdateGate, orderId: Id): (r: ActionResult<Order>)
    requires gate != Permitted
    ensures !r.success && r.payload.None?
    ensures r.httpCode == Some(if gate == RequesterMemberMissing then INTERNAL_SERVER_ERROR else BAD_REQUEST)
  {
    match gate
    case OrderUnknown => Fail(ResourceNotFound("Order", orderId), BAD_REQUEST)
    case OrderDeleted => Fail(Text("Order with ID \"" + orderId + "\" has been deleted."), BAD_REQUEST)
    case RequesterUnknown => Fail(UnverifiableRequester, BAD_REQUEST)
    case RequesterMemberMissing => Fail(InternalError, INTERNAL_SERVER_ERROR)
    case RequesterMemberDeleted =>
      Fail(Text("Member who created Order with ID \"" + orderId + "\" does not exist anymore."), BAD_REQUEST)
    case NotTheCreator => Fail(Text(NOT_THE_CREATOR), BAD_REQUEST)
  }

  /**
   * The partial update the action builds: the title and the description,
   * trimmed, when each is truthy and passes `isString`; the price when it is
   * truthy and not NaN. Nothing else is ever part of it.
   */
  function OrderUpdatesFor(dto: UpdateOrderDTO): (u: OrderUpdates)
    ensures u.title.Some? <==> dto.title.JsString? && dto.title.s != ""
    ensures u.title.Some? ==> u.title.value == Trim(dto.title.s)
    ensures u.description.Some? <==> dto.description.JsString? && dto.description.s != ""
    ensures u.description.Some? ==> u.description.value == Trim(dto.description.s)
    ensures u.price.Some? <==> dto.price.Some? && dto.price.value.Num? && dto.price.value.value != 0.0
    ensures u.price.Some? ==> u.price == dto.price
  {
    OrderUpdates(
      if Truthy(dto.title) && IsString(dto.title) then Some(Trim(dto.title.s)) else None,
      if Truthy(dto.description) && IsString(dto.description) then Some(Trim(dto.description.s)) else None,
      if dto.price.Some? && NumberTruthy(dto.price.value) && !IsNaN(dto.price.value) then dto.price else None)
  }

  /**
   * The price rule of the update: zero and NaN are dropped, and a negative
   * price is kept, unlike on creation.
   */
  lemma UpdatePriceRule(dto: UpdateOrderDTO, v: real)
    ensures OrderUpdatesFor(dto.(price := Some(Num(0.0)))).price.None?
    ensures OrderUpdatesFor(dto.(price := Some(NaN))).price.None?
    ensures v < 0.0 ==> OrderUpdatesFor(dto.(price := Some(Num(v)))).price == Some(Num(v))
  {
  }

  /**
   * Applying the update changes at most the title, the description and the
   * price; the id, the Group, the creator, the participant count and the
   * timestamps stay as they were.
   */
  lemma UpdateTouchesOnlyThreeFields(o: Order, dto: UpdateOrderDTO)
    ensures var o' := ApplyUpdates(o, OrderUpdatesFor(dto));
      && o'.id == o.id && o'.groupId == o.groupId && o'.creatorMemberId == o.creatorMemberId
      && o'.numberOfParticipants == o.numberOfParticipants
      && o'.createdAt == o.createdAt && o'.deletedAt == o.deletedAt
  {
  }

  /**
   * `updateOrderAction`. A failed check answers its rejection and changes
   * nothing. Otherwise the update is built field by field and applied to the
   * Order: the answer carries the updated Order with OK, or 500 when the
   * database refuses, in which case nothing changes.
   */
  method UpdateOrderAction(store: Store, dto: UpdateOrderDTO, orderId: Id, userId: Option<Id>, accepted: bool)
    returns (r: ActionResult<Order>)
    modifies store
    ensures UpdateGateOf(old(store.Snapshot()), orderId, userId) != Permitted ==>
      r == UpdateRejection(UpdateGateOf(old(store.Snapshot()), orderId, userId), orderId)
      && store.Snapshot() == old(store.Snapshot())
    ensures UpdateGateOf(old(store.Snapshot()), orderId, userId) == Permitted ==>
      var updated := ApplyUpdates(Orders.FetchOrder(old(store.Snapshot()), orderId).value, OrderUpdatesFor(dto));
      var i := FirstIndex(old(store.orders), OrderIdIs(orderId));
      && (accepted ==>
            r == Succeed(Okay, updated)
            && store.Snapshot() == old(store.Snapshot()).(orders := old(store.orders)[i := updated]))
      && (!accepted ==>
            r == Fail(InternalError, INTERNAL_SERVER_ERROR) && store.Snapshot() == old(store.Snapshot()))
  {
    var order := Orders.FetchOrder(store.Snapshot(), orderId);
    if order.None? {
      return Fail(ResourceNotFound("Order", orderId), BAD_REQUEST);
    }
    if order.value.deletedAt.Some? {
      return Fail(Text("Order with ID \"" + orderId + "\" has been deleted."), BAD_REQUEST);
    }

    if userId.None? {
      return Fail(UnverifiableRequester, BAD_REQUEST);
    }

    var member := Members.FetchMemberByAuthUserId(store.Snapshot(), userId.value);
    if member.None? {
      return Fail(InternalError, INTERNAL_SERVER_ERROR);
    }
    if member.value.deletedAt.Some? {
      return Fail(Text("Member who created Order with ID \"" + orderId + "\" does not exist anymore."), BAD_REQUEST);
    }
    if member.value.id != order.value.creatorMemberId {
      return Fail(Text(NOT_THE_CREATOR), BAD_REQUEST);
    }

    var orderUpdates := OrderUpdates(None, None, None);
    if Truthy(dto.title) && IsString(dto.title) {
      orderUpdates := orderUpdates.(title := Some(Trim(dto.title.s)));
    }
    if Truthy(dto.description) && IsString(dto.description) {
      orderUpdates := orderUpdates.(description := Some(Trim(dto.description.s)));
    }
    if dto.price.Some? && NumberTruthy(dto.price.value) && !IsNaN(dto.price.value) {
      orderUpdates := orderUpdates.(price := dto.price);
    }

    var updatedOrder := store.UpdateOrderById(orderId, orderUpdates, accepted);
    if updatedOrder.None? {
      return Fail(InternalError, INTERNAL_SERVER_ERROR);
    }
    return Succeed(Okay, updatedOrder.value);
  }

  /**
   * Only the creator may update: a requester whose active Member did not
   * create the active Order is turned away, whatever the request holds.
   */
  lemma {:induction false} OnlyTheCreatorMayUpdate(t: Tables, orderId: Id, userId: Id, o: Order, m: Member)
    requires IsFirstMatch(t.orders, OrderIdIs(orderId), o) && o.deletedAt.None?
    requires IsFirstMatch(t.members, AuthUserIdIs(userId), m) && m.deletedAt.None?
    ensures UpdateGateOf(t, orderId, Some(userId)) == Permitted <==> m.id == o.creatorMemberId
    ensures m.id != o.creatorMemberId ==>
      UpdateRejection(UpdateGateOf(t, orderId, Some(userId)), orderId) == Fail(Text(NOT_THE_CREATOR), BAD_REQUEST)
  {
    var order := Orders.FetchOrder(t, orderId);
    var member := Members.FetchMemberByAuthUserId(t, userId);
    FirstMatchUnique(t.orders, OrderIdIs(orderId), o, order.value);
    FirstMatchUnique(t.members, AuthUserIdIs(userId), m, member.value);
  }
}
