/** The Orders model: building the procedure parameters and shaping the procedures' answers. */
module Orders {
  import opened Wrappers
  import opened JsValues
  import opened Domain
  import opened Database

  /** The request body for a new Order. An absent participant list is `None`. */
  datatype NewOrderDTO = NewOrderDTO(
    creatorMemberId: JsValue,
    groupId: JsValue,
    title: JsValue,
    description: JsValue,
    price: Number,
    participantMemberIds: Option<seq<JsValue>>)

  /** Every element is a string. */
  predicate AllStrings(vs: seq<JsValue>) {
    forall i :: 0 <= i < |vs| ==> vs[i].JsString?
  }

  /**
   * The declared types of the fields `createOrder` calls `trim` on: the ids
   * and the title are strings, the description is a string or absent, and
   * every participant id is a string.
   */
  predicate IsTypedForCreate(dto: NewOrderDTO) {
    && dto.creatorMemberId.JsString? && dto.groupId.JsString? && dto.title.JsString?
    && IsOptionalString(dto.description)
    && (dto.participantMemberIds.Some? ==> AllStrings(dto.participantMemberIds.value))
  }

  /** The strings inside a list of string values. */
  function StringsOf(vs: seq<JsValue>): (r: seq<string>)
    requires AllStrings(vs)
    ensures |r| == |vs|
    ensures forall i :: 0 <= i < |vs| ==> r[i] == vs[i].s
  {
    if vs == [] then [] else [vs[0].s] + StringsOf(vs[1..])
  }

  /** The participant ids `createOrder` sends: each one trimmed, order kept, `[]` when absent. */
  function ParticipantIds(ids: Option<seq<JsValue>>): (r: seq<Id>)
    requires ids.Some? ==> AllStrings(ids.value)
    ensures ids.None? ==> r == []
    ensures ids.Some? ==> |r| == |ids.value| && forall i :: 0 <= i < |r| ==> r[i] == Trim(ids.value[i].s)
  {
    if ids.None? then [] else TrimEach(StringsOf(ids.value))
  }

  /** The description `createOrder` sends: trimmed when it is a string, null otherwise. */
  function Description(description: JsValue): (r: Option<string>)
    requires IsOptionalString(description)
    ensures r.Some? <==> description.JsString?
    ensures r.Some? ==> r.value == Trim(description.s)
  {
    if description.JsString? then Some(Trim(description.s)) else None
  }

  /** The parameters `createOrder` hands to the order-creating procedure. */
  function CreateOrderParameters(dto: NewOrderDTO): (p: ProcCreateOrderParameters)
    requires IsTypedForCreate(dto)
  {
    ProcCreateOrderParameters(
      Trim(dto.creatorMemberId.s),
      Trim(dto.groupId.s),
      Trim(dto.title.s),
      dto.price,
      Description(dto.description),
      ParticipantIds(dto.participantMemberIds))
  }

  /** Every string a parameter record carries is free of surrounding whitespace. */
  predicate ParametersTrimmed(p: ProcCreateOrderParameters) {
    && IsTrimmed(p.creatorMemberId) && IsTrimmed(p.targetGroupId) && IsTrimmed(p.targetTitle)
    && (p.targetDescription.Some? ==> IsTrimmed(p.targetDescription.value))
    && forall i :: 0 <= i < |p.targetParticipantMemberIds| ==> IsTrimmed(p.targetParticipantMemberIds[i])
  }

  /** The given strings as string values. */
  function StringValues(ids: seq<string>): (vs: seq<JsValue>)
    ensures AllStrings(vs) && |vs| == |ids|
    ensures forall i :: 0 <= i < |ids| ==> vs[i].s == ids[i]
  {
    if ids == [] then [] else [JsString(ids[0])] + StringValues(ids[1..])
  }

  /** A request body carrying exactly the given parameters. */
  function RequestFor(p: ProcCreateOrderParameters): (dto: NewOrderDTO)
    ensures IsTypedForCreate(dto)
  {
    var ids := StringValues(p.targetParticipantMemberIds);
    NewOrderDTO(
      JsString(p.creatorMemberId), JsString(p.targetGroupId), JsString(p.targetTitle),
      if p.targetDescription.Some? then JsString(p.targetDescription.value) else JsNull,
      p.targetPrice,
      Some(ids))
  }

  /**
   * The parameters `createOrder` builds: every string trimmed, the price
   * untouched, and the participant list as long as the request's (empty when
   * absent).
   */
  lemma CreateOrderParametersShape(dto: NewOrderDTO)
    requires IsTypedForCreate(dto)
    ensures ParametersTrimmed(CreateOrderParameters(dto))
    ensures CreateOrderParameters(dto).targetPrice == dto.price
    ensures CreateOrderParameters(dto).targetDescription.None? <==> !dto.description.JsString?
    ensures |CreateOrderParameters(dto).targetParticipantMemberIds|
            == if dto.participantMemberIds.Some? then |dto.participantMemberIds.value| else 0
  {
  }

  /** Wrapping trimmed ids as string values and sending them gives back the same ids. */
  lemma {:induction false} ParticipantIdsOfTrimmed(ids: seq<Id>)
    requires forall i :: 0 <= i < |ids| ==> IsTrimmed(ids[i])
    ensures ParticipantIds(Some(StringValues(ids))) == ids
  {
    var vs := StringValues(ids);
    var r := ParticipantIds(Some(vs));
    forall i | 0 <= i < |ids| ensures r[i] == ids[i] {
      assert vs[i].s == ids[i];
      TrimOfTrimmed(ids[i]);
    }
  }

  /**
   * Building the parameters a second time changes nothing: parameters that
   * are already trimmed come back as they are.
   */
  lemma {:induction false} CreateOrderParametersFixpoint(p: ProcCreateOrderParameters)
    requires ParametersTrimmed(p)
    ensures CreateOrderParameters(RequestFor(p)) == p
  {
    var dto := RequestFor(p);
    var q := CreateOrderParameters(dto);
    assert q.creatorMemberId == p.creatorMemberId by { TrimOfTrimmed(p.creatorMemberId); }
    assert q.targetGroupId == p.targetGroupId by { TrimOfTrimmed(p.targetGroupId); }
    assert q.targetTitle == p.targetTitle by { TrimOfTrimmed(p.targetTitle); }
    assert q.targetDescription == p.targetDescription by {
      if p.targetDescription.Some? { TrimOfTrimmed(p.targetDescription.value); }
    }
    assert q.targetParticipantMemberIds == p.targetParticipantMemberIds by {
      ParticipantIdsOfTrimmed(p.targetParticipantMemberIds);
    }
  }

  /**
   * `fetchOrder`: the first order with that id, or null when there is none;
   * that is the row `updateOrderById` changes.
   */
  function FetchOrder(t: Tables, id: Id): (r: Option<Order>)
    ensures r.None? <==> NoMatch(t.orders, OrderIdIs(id))
    ensures r.Some? ==> r.value.id == id && IsFirstMatch(t.orders, OrderIdIs(id), r.value)
    ensures var i := FirstIndex(t.orders, OrderIdIs(id));
            r == if i < |t.orders| then Some(t.orders[i]) else None
  {
    var r := FirstWhere(t.orders, OrderIdIs(id));
    var i := FirstIndex(t.orders, OrderIdIs(id));
    assert i < |t.orders| ==> r == Some(t.orders[i]) by {
      if i < |t.orders| {
        assert IsFirstMatch(t.orders, OrderIdIs(id), t.orders[i]);
        FirstMatchUnique(t.orders, OrderIdIs(id), t.orders[i], r.value);
      }
    }
    r
  }

  /**
   * The `{ data?, error? }` shaping of a procedure's reply: only `error`
   * on failure, only `data` on success.
   */
  function DataOrErrorOf<T>(res: ProcResult<T>): (r: DataOrError<T>)
    ensures !res.success ==> r.data.None? && r.error == res.databaseError
    ensures res.success ==> r.error.None? && r.data == res.payload
  {
    if !res.success then DataOrError(None, res.databaseError)
    else DataOrError(res.payload, None)
  }

  /** For every reply the client reports, exactly one of `data` and `error` is present. */
  lemma DataOrErrorExclusive<T>(answer: Result<T, DatabaseError>)
    ensures var r := DataOrErrorOf(Invoke(answer));
            (r.data.Some? <==> r.error.None?) && (r.data.Some? <==> answer.Success?)
  {
  }

  /**
   * `createOrder`: invokes the procedure with the built parameters and
   * answers with its order as `data`, or with its error as `error`.
   */
  method CreateOrder(store: Store, dto: NewOrderDTO, proc: ProcCreateOrderParameters -> Result<Order, DatabaseError>)
    returns (r: DataOrError<Order>)
    requires IsTypedForCreate(dto)
    modifies store
    ensures var answer := proc(CreateOrderParameters(dto));
            && r == DataOrErrorOf(Invoke(answer))
            && store.Snapshot() == if answer.Success? then old(store.Snapshot()).(orders := old(store.orders) + [answer.value])
                                   else old(store.Snapshot())
  {
    var procParams := CreateOrderParameters(dto);
    var storedProcResults := store.ProcCreateNewOrder(procParams, proc);
    if !storedProcResults.success {
      return DataOrError(None, storedProcResults.databaseError);
    }
    return DataOrError(storedProcResults.payload, None);
  }

  /**
   * `getOrders`: hands both filters, unchanged, to the order-listing
   * procedure `proc` and shapes its reply.
   */
  function GetOrders(targetGroupId: Option<Id>, targetCreatorMemberId: Option<Id>,
                     proc: ProcGetOrdersParameters -> Result<seq<OrderWithMembers>, DatabaseError>)
    : (r: DataOrError<seq<OrderWithMembers>>)
  {
    DataOrErrorOf(Invoke(proc(ProcGetOrdersParameters(targetGroupId, targetCreatorMemberId))))
  }

  /**
   * The filters reach the procedure unchanged: two procedures that answer
   * alike on exactly these filters give the same result, whatever they answer
   * elsewhere; and that result holds exactly one of `data` and `error`.
   */
  lemma GetOrdersForwardsFilters(g: Option<Id>, c: Option<Id>,
                                 proc1: ProcGetOrdersParameters -> Result<seq<OrderWithMembers>, DatabaseError>,
                                 proc2: ProcGetOrdersParameters -> Result<seq<OrderWithMembers>, DatabaseError>)
    requires proc1(ProcGetOrdersParameters(g, c)) == proc2(ProcGetOrdersParameters(g, c))
    ensures GetOrders(g, c, proc1) == GetOrders(g, c, proc2)
    ensures GetOrders(g, c, proc1).data.Some? <==> GetOrders(g, c, proc1).error.None?
  {
  }
}
