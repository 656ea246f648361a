/**
 * `fetchOrdersAction`: lists the Orders of a Group, or of a creator, and
 * wraps the listing or the database's error in the action envelope.
 */
module GetOrdersAction {
  import opened Wrappers
  import opened Domain
  import opened Database
  import Orders

  /** The order-listing procedure, supplied by the database. */
  type ListOrders = ProcGetOrdersParameters -> Result<seq<OrderWithMembers>, DatabaseError>

  /**
   * `fetchOrdersAction`, both filters defaulting to null. A database error
   * answers its client message with the code for its error type; otherwise
   * the listing is the payload, with OK.
   */
  function FetchOrdersAction(proc: ListOrders, targetGroupId: Option<Id> := None,
                             targetCreatorMemberId: Option<Id> := None): (r: ActionResult<seq<OrderWithMembers>>)
    ensures var answer := proc(ProcGetOrdersParameters(targetGroupId, targetCreatorMemberId));
      && (r.success <==> answer.Success?)
      && (answer.Failure? ==>
            r == Fail(Text(answer.error.clientMessage), ForDatabaseError(answer.error.errorType)))
      && (answer.Success? ==> r == Succeed(Okay, answer.value))
  {
    var result := Orders.GetOrders(targetGroupId, targetCreatorMemberId, proc);
    if result.error.Some? then
      Fail(Text(result.error.value.clientMessage), ForDatabaseError(result.error.value.errorType))
    else
      Succeed(Okay, result.data.value)
  }

  /** Without arguments, neither filter is set: the procedure is asked for every Order. */
  lemma DefaultsAskForEveryOrder(proc: ListOrders)
    ensures FetchOrdersAction(proc) == FetchOrdersAction(proc, None, None)
    ensures proc(ProcGetOrdersParameters(None, None)).Success? ==>
      FetchOrdersAction(proc).payload == Some(proc(ProcGetOrdersParameters(None, None)).value)
  {
  }
}
