/**
 * An in-memory stand-in for the hosted database: the four tables as a value
 * (`Tables`), the filtered reads the models issue, and a `Store` object whose
 * insert, update and stored-procedure methods change the tables in place.
 *
 * Reads of the in-memory tables never fail; the models' handling of a failed
 * (null) read is modelled by the shaping functions that take an
 * `Option<seq<T>>`. Whether the database accepts a write is not decided here:
 * each write takes the database's verdict as a parameter, and so do the ids
 * and timestamps the database generates.
 */
module Database {
  import opened Wrappers
  import opened JsValues
  import opened Domain

  /** The rows of `rows` satisfying `p`, in table order. */
  function Select<T>(rows: seq<T>, p: T -> bool): (r: seq<T>)
    ensures |r| <= |rows|
    ensures forall i :: 0 <= i < |r| ==> p(r[i])
  {
    if rows == [] then []
    else if p(rows[0]) then [rows[0]] + Select(rows[1..], p)
    else Select(rows[1..], p)
  }

  /** `x` is the first row of `rows` satisfying `p`. */
  ghost predicate IsFirstMatch<T>(rows: seq<T>, p: T -> bool, x: T) {
    exists i :: 0 <= i < |rows| && rows[i] == x && p(x) && forall j :: 0 <= j < i ==> !p(rows[j])
  }

  /** No row of `rows` satisfies `p`. */
  ghost predicate NoMatch<T>(rows: seq<T>, p: T -> bool) {
    forall i :: 0 <= i < |rows| ==> !p(rows[i])
  }

  /**
   * The shaping every single-row lookup applies to a query result: null
   * when the result is null or empty, else its first row.
   */
  function FirstRow<T>(result: Option<seq<T>>): (r: Option<T>)
    ensures r.None? <==> result.None? || result.value == []
    ensures r.Some? ==> r.value == result.value[0]
  {
    if result.None? then None
    else if |result.value| == 0 then None
    else Some(result.value[0])
  }

  /** A selection is empty exactly when nothing matches, and otherwise starts with the first match. */
  lemma {:induction false} SelectFirst<T>(rows: seq<T>, p: T -> bool)
    ensures Select(rows, p) == [] <==> NoMatch(rows, p)
    ensures Select(rows, p) != [] ==> IsFirstMatch(rows, p, Select(rows, p)[0])
  {
    if rows != [] {
      SelectFirst(rows[1..], p);
      if !p(rows[0]) && Select(rows[1..], p) != [] {
        var x := Select(rows[1..], p)[0];
        var i :| 0 <= i < |rows[1..]| && rows[1..][i] == x && p(x) && forall j :: 0 <= j < i ==> !p(rows[1..][j]);
        assert rows[i + 1] == x;
        forall j | 0 <= j < i + 1 ensures !p(rows[j]) {
          if j > 0 { assert rows[j] == rows[1..][j - 1]; }
        }
      }
      if NoMatch(rows[1..], p) && !p(rows[0]) {
        forall i | 0 <= i < |rows| ensures !p(rows[i]) {
          if i > 0 { assert rows[i] == rows[1..][i - 1]; }
        }
      }
    }
  }

  /** A table has at most one first match. */
  lemma FirstMatchUnique<T>(rows: seq<T>, p: T -> bool, x: T, y: T)
    requires IsFirstMatch(rows, p, x) && IsFirstMatch(rows, p, y)
    ensures x == y
  {
    var i :| 0 <= i < |rows| && rows[i] == x && p(x) && forall j :: 0 <= j < i ==> !p(rows[j]);
    var k :| 0 <= k < |rows| && rows[k] == y && p(y) && forall j :: 0 <= j < k ==> !p(rows[j]);
    if i < k { assert false; } else if k < i { assert false; }
  }

  /** The position of the first row satisfying `p`; `|rows|` when there is none. */
  function FirstIndex<T>(rows: seq<T>, p: T -> bool): (i: nat)
    ensures i <= |rows|
    ensures forall j :: 0 <= j < i ==> !p(rows[j])
    ensures i < |rows| ==> p(rows[i])
  {
    if rows == [] || p(rows[0]) then 0 else 1 + FirstIndex(rows[1..], p)
  }

  /** The first row satisfying `p`, or null when there is none. */
  function FirstWhere<T>(rows: seq<T>, p: T -> bool): (r: Option<T>)
    ensures r.None? <==> NoMatch(rows, p)
    ensures r.Some? ==> IsFirstMatch(rows, p, r.value)
  {
    SelectFirst(rows, p);
    FirstRow(Some(Select(rows, p)))
  }

  /**
   * How the database client reports a procedure's answer: success with the
   * payload, or failure with the database's error.
   */
  function Invoke<T>(answer: Result<T, DatabaseError>): (res: ProcResult<T>)
    ensures res.success <==> answer.Success?
    ensures res.success ==> res.payload == Some(answer.value) && res.databaseError.None?
    ensures !res.success ==> res.payload.None? && res.databaseError == Some(answer.error)
  {
    match answer
    case Success(v) => ProcResult(true, Some(v), None)
    case Failure(e) => ProcResult(false, None, Some(e))
  }

  /** The columns `createGroup` sends: `name`, `password`, `creator_member_id`. */
  datatype GroupInsert = GroupInsert(name: string, password: Option<string>, creatorMemberId: Id)

  /** Parameters of the procedure that creates a Member and links it to a Group. */
  datatype ProcCreateMemberParameters = ProcCreateMemberParameters(memberName: string, groupId: Id, authUserId: Id)

  /** Parameters of the procedure that creates a Member, a Group and their link. */
  datatype ProcCreateMemberAndGroupParameters = ProcCreateMemberAndGroupParameters(
    newMemberName: string,
    newGroupName: string,
    newGroupPassword: Option<string>,
    authUserId: Id)

  /** The row that procedure answers with. */
  datatype ProcCreateMemberAndGroupRow = ProcCreateMemberAndGroupRow(
    memberId: Id,
    memberName: string,
    memberCreatedAt: Time,
    groupId: Id,
    groupName: string,
    groupCreatedAt: Time)

  /** Parameters of the order-creating procedure. */
  datatype ProcCreateOrderParameters = ProcCreateOrderParameters(
    creatorMemberId: Id,
    targetGroupId: Id,
    targetTitle: string,
    targetPrice: Number,
    targetDescription: Option<string>,
    targetParticipantMemberIds: seq<Id>)

  /** Parameters of the order-listing procedure. */
  datatype ProcGetOrdersParameters = ProcGetOrdersParameters(targetGroupId: Option<Id>, targetCreatorMemberId: Option<Id>)

  /** The fields an order update may set; an absent field is left as it is. */
  datatype OrderUpdates = OrderUpdates(title: Option<string>, description: Option<string>, price: Option<Number>)

  /** An order row after an update. */
  function ApplyUpdates(o: Order, u: OrderUpdates): (r: Order)
    ensures r.title == u.title.GetOr(o.title) && r.price == u.price.GetOr(o.price)
    ensures r.description == (if u.description.Some? then u.description else o.description)
    ensures r.(title := o.title, description := o.description, price := o.price) == o
  {
    o.(title := u.title.GetOr(o.title),
       description := if u.description.Some? then u.description else o.description,
       price := u.price.GetOr(o.price))
  }

  /** The row the database makes of a group insert: columns not sent take their defaults. */
  function NewGroupRow(fields: GroupInsert, id: Id, now: Time): Group {
    Group(id, fields.name, fields.password, fields.creatorMemberId, now, now, None, false)
  }

  /** A freshly created Member row. */
  function NewMemberRow(id: Id, name: string, authUserId: Id, now: Time): Member {
    Member(id, name, now, None, None, authUserId)
  }

  /** The row filters the models use, one per query. */
  function MemberIdIs(id: Id): Member -> bool { (m: Member) => m.id == id }
  function AuthUserIdIs(authUserId: Id): Member -> bool { (m: Member) => m.authUserId == authUserId }
  function GroupIdIs(id: Id): Group -> bool { (g: Group) => g.id == id }
  function LinkIs(memberId: Id, groupId: Id): MemberGroup -> bool {
    (l: MemberGroup) => l.memberId == memberId && l.groupId == groupId
  }
  function OrderIdIs(id: Id): Order -> bool { (o: Order) => o.id == id }

  /** The four tables. */
  datatype Tables = Tables(
    members: seq<Member>,
    groups: seq<Group>,
    membersGroups: seq<MemberGroup>,
    orders: seq<Order>)
  {
    /** `select * from members where id = ...` */
    function MembersWithId(id: Id): seq<Member> {
      Select(members, MemberIdIs(id))
    }

    /** `select * from members where auth_user_id = ...` */
    function MembersWithAuthUserId(authUserId: Id): seq<Member> {
      Select(members, AuthUserIdIs(authUserId))
    }

    /** `select * from groups where id = ...` */
    function GroupsWithId(id: Id): seq<Group> {
      Select(groups, GroupIdIs(id))
    }

    /** `select * from members_groups where member_id = ... and group_id = ...` */
    function LinksOf(memberId: Id, groupId: Id): seq<MemberGroup> {
      Select(membersGroups, LinkIs(memberId, groupId))
    }

    /** `select * from orders where id = ...` */
    function OrdersWithId(id: Id): seq<Order> {
      Select(orders, OrderIdIs(id))
    }
  }

  /** No (member_id, group_id) pair occurs twice in the join table. */
  ghost predicate UniqueLinks(links: seq<MemberGroup>) {
    forall i, j :: 0 <= i < j < |links| ==>
      !(links[i].memberId == links[j].memberId && links[i].groupId == links[j].groupId)
  }

  /** The hosted database, as an object whose tables its methods change. */
  class Store {
    var members: seq<Member>
    var groups: seq<Group>
    var membersGroups: seq<MemberGroup>
    var orders: seq<Order>

    /** An empty database. */
    constructor ()
      ensures Snapshot() == Tables([], [], [], [])
    {
      members, groups, membersGroups, orders := [], [], [], [];
    }

    /** The current contents of the four tables. */
    function Snapshot(): Tables
      reads this
    {
      Tables(members, groups, membersGroups, orders)
    }

    /** `createEntity('groups', fields)`: the new row, or null when the database refuses it. */
    method InsertGroup(fields: GroupInsert, newId: Id, now: Time, accepted: bool) returns (row: Option<Group>)
      modifies this
      ensures row == (if accepted then Some(NewGroupRow(fields, newId, now)) else None)
      ensures Snapshot() == if accepted then old(Snapshot()).(groups := old(groups) + [row.value])
                            else old(Snapshot())
    {
      if accepted {
        var g := NewGroupRow(fields, newId, now);
        groups := groups + [g];
        row := Some(g);
      } else {
        row := None;
      }
    }

    /** `createEntity('members_groups', { member_id, group_id })`. */
    method InsertMemberGroup(memberId: Id, groupId: Id, newId: Id, accepted: bool) returns (row: Option<MemberGroup>)
      modifies this
      ensures row == (if accepted then Some(MemberGroup(newId, memberId, groupId)) else None)
      ensures Snapshot() == if accepted then old(Snapshot()).(membersGroups := old(membersGroups) + [row.value])
                            else old(Snapshot())
    {
      if accepted {
        var l := MemberGroup(newId, memberId, groupId);
        membersGroups := membersGroups + [l];
        row := Some(l);
      } else {
        row := None;
      }
    }

    /**
     * The procedure that creates a Member and its join row in one
     * transaction: both rows are added, or (when the database reports
     * `refusal`) neither.
     */
    method ProcCreateNewMemberAndLink(params: ProcCreateMemberParameters, memberId: Id, linkId: Id, now: Time,
                                      refusal: Option<DatabaseError>)
      returns (res: ProcResult<Member>)
      modifies this
      ensures refusal.Some? ==> res == ProcResult(false, None, refusal) && Snapshot() == old(Snapshot())
      ensures refusal.None? ==>
        var m := NewMemberRow(memberId, params.memberName, params.authUserId, now);
        && res == ProcResult(true, Some(m), None)
        && Snapshot() == old(Snapshot()).(members := old(members) + [m],
                                          membersGroups := old(membersGroups) + [MemberGroup(linkId, memberId, params.groupId)])
    {
      if refusal.Some? {
        res := ProcResult(false, None, refusal);
      } else {
        var m := NewMemberRow(memberId, params.memberName, params.authUserId, now);
        members := members + [m];
        membersGroups := membersGroups + [MemberGroup(linkId, memberId, params.groupId)];
        res := ProcResult(true, Some(m), None);
      }
    }

    /**
     * The procedure that creates a Member, a Group created by that Member
     * and their join row in one transaction. It answers with one row, or with
     * null when the database refuses, in which case nothing is written.
     */
    method ProcCreateNewMemberAndGroup(params: ProcCreateMemberAndGroupParameters, memberId: Id, groupId: Id,
                                       linkId: Id, now: Time, accepted: bool)
      returns (res: Option<seq<ProcCreateMemberAndGroupRow>>)
      modifies this
      ensures !accepted ==> res.None? && Snapshot() == old(Snapshot())
      ensures accepted ==>
        var m := NewMemberRow(memberId, params.newMemberName, params.authUserId, now);
        var g := NewGroupRow(GroupInsert(params.newGroupName, params.newGroupPassword, memberId), groupId, now);
        && res == Some([ProcCreateMemberAndGroupRow(memberId, params.newMemberName, now, groupId, params.newGroupName, now)])
        && Snapshot() == Tables(old(members) + [m], old(groups) + [g],
                                old(membersGroups) + [MemberGroup(linkId, memberId, groupId)], old(orders))
    {
      if !accepted {
        res := None;
      } else {
        var m := NewMemberRow(memberId, params.newMemberName, params.authUserId, now);
        var g := NewGroupRow(GroupInsert(params.newGroupName, params.newGroupPassword, memberId), groupId, now);
        members := members + [m];
        groups := groups + [g];
        membersGroups := membersGroups + [MemberGroup(linkId, memberId, groupId)];
        res := Some([ProcCreateMemberAndGroupRow(memberId, params.newMemberName, now, groupId, params.newGroupName, now)]);
      }
    }

    /**
     * The order-creating procedure. Its checks and the row it builds live in
     * the database, so its answer is the parameter `proc`: on success the
     * answered order is added to `orders`.
     */
    method ProcCreateNewOrder(params: ProcCreateOrderParameters,
                              proc: ProcCreateOrderParameters -> Result<Order, DatabaseError>)
      returns (res: ProcResult<Order>)
      modifies this
      ensures res == Invoke(proc(params))
      ensures proc(params).Failure? ==> Snapshot() == old(Snapshot())
      ensures proc(params).Success? ==> Snapshot() == old(Snapshot()).(orders := old(orders) + [proc(params).value])
    {
      var answer := proc(params);
      if answer.Success? {
        orders := orders + [answer.value];
      }
      res := Invoke(answer);
    }

    /**
     * `updateOrderById`: applies `updates` to the first order with that id
     * and answers with the updated row; null, with nothing changed, when no
     * order has that id or the database refuses.
     */
    method UpdateOrderById(id: Id, updates: OrderUpdates, accepted: bool) returns (res: Option<Order>)
      modifies this
      ensures var i := FirstIndex(old(orders), OrderIdIs(id));
        && (res.None? <==> !accepted || i == |old(orders)|)
        && (res.None? ==> Snapshot() == old(Snapshot()))
        && (res.Some? ==>
              && res.value == ApplyUpdates(old(orders)[i], updates)
              && Snapshot() == old(Snapshot()).(orders := old(orders)[i := res.value]))
    {
      var i := FirstIndex(orders, OrderIdIs(id));
      if !accepted || i == |orders| {
        res := None;
      } else {
        var updated := ApplyUpdates(orders[i], updates);
        orders := orders[i := updated];
        res := Some(updated);
      }
    }
  }
}
