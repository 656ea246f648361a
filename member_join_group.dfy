/**
 * `memberJoinGroupAction`: an existing Member joins an existing Group. The
 * attempt passes five gates in a fixed order (Member, Group, closed,
 * password, duplicate) and only then inserts one join row.
 */
module MemberJoinGroup {
  import opened Wrappers
  import opened JsValues
  import opened Domain
  import opened Database
  import Groups
  import Members

  const ERROR_MESSAGE_CLOSED_GROUP: string :=
    "This Group is marked as 'closed' meaning no new Members are able to join at this time."
  const ERROR_MESSAGE_INCORRECT_GROUP_PASSWORD: string := "Group password is incorrect, unable to join Group."
  const ERROR_MESSAGE_MEMBER_ALREADY_IN_GROUP: string := "Member already belongs to Group."

  /** The request: the Member, the Group and the password offered (a string, or undefined). */
  datatype JoinGroupDTO = JoinGroupDTO(memberId: Id, groupId: Id, groupPassword: JsValue)

  /** Where a join attempt stops: the first gate it fails, or `Link` when it passes them all. */
  datatype Gate = MemberUnknown | GroupUnknown | GroupClosed | PasswordMismatch | AlreadyMember | Link

  /** A looked-up Member that exists and is not soft-deleted. */
  predicate IsActiveMember(m: Option<Member>) {
    m.Some? && m.value.deletedAt.None?
  }

  /** A looked-up Group that exists and is not soft-deleted. */
  predicate IsActiveGroup(g: Option<Group>) {
    g.Some? && g.value.deletedAt.None?
  }

  /**
   * The password gate: a Group with a password turns away every offer that
   * is not exactly that string; a Group without one turns away nothing.
   */
  predicate PasswordRejects(stored: Option<string>, offered: JsValue) {
    stored.Some? && offered != JsString(stored.value)
  }

  /**
   * The three Group gates, in order: the Group exists and is active, is not
   * closed, and takes the offered password. `Link` when all three pass.
   */
  function GroupGate(t: Tables, groupId: Id, offered: JsValue): (gate: Gate)
    ensures gate == GroupUnknown || gate == GroupClosed || gate == PasswordMismatch || gate == Link
    ensures var g := Groups.FetchGroupById(t, groupId, false);
      && (gate == GroupUnknown <==> !IsActiveGroup(g))
      && (gate == GroupClosed <==> IsActiveGroup(g) && g.value.isClosed)
      && (gate == PasswordMismatch <==> IsActiveGroup(g) && !g.value.isClosed && PasswordRejects(g.value.password, offered))
  {
    var group := Groups.FetchGroupById(t, groupId, false);
    if !IsActiveGroup(group) then GroupUnknown
    else if group.value.isClosed then GroupClosed
    else if PasswordRejects(group.value.password, offered) then PasswordMismatch
    else Link
  }

  /** The five gates, in the order the action runs them, against the tables as they are. */
  function JoinGate(t: Tables, dto: JoinGroupDTO): Gate {
    var member := Members.FetchMemberById(t, dto.memberId);
    if !IsActiveMember(member) then MemberUnknown
    else
      var groupGate := GroupGate(t, dto.groupId, dto.groupPassword);
      if groupGate != Link then groupGate
      else if Members.IsMemberInGroup(t.membersGroups, dto.memberId, dto.groupId) then AlreadyMember
      else Link
  }

  /** The message of a failed Group gate. */
  function GroupRejection(gate: Gate, groupId: Id): Message
    requires gate == GroupUnknown || gate == GroupClosed || gate == PasswordMismatch
  {
    match gate
    case GroupUnknown => ResourceNotFound("Group", groupId)
    case GroupClosed => Text(ERROR_MESSAGE_CLOSED_GROUP)
    case PasswordMismatch => Text(ERROR_MESSAGE_INCORRECT_GROUP_PASSWORD)
  }

  /** The message each failed gate answers with. */
  function RejectionMessage(gate: Gate, dto: JoinGroupDTO): Message
    requires gate != Link
  {
    match gate
    case MemberUnknown => ResourceNotFound("Member", dto.memberId)
    case AlreadyMember => Text(ERROR_MESSAGE_MEMBER_ALREADY_IN_GROUP)
    case GroupUnknown => GroupRejection(gate, dto.groupId)
    case GroupClosed => GroupRejection(gate, dto.groupId)
    case PasswordMismatch => GroupRejection(gate, dto.groupId)
  }

  /**
   * The reply when the insert's outcome is awaited: 400 with the gate's
   * message when a gate fails, 500 when the insert fails, and success only
   * when every gate passed and the row was inserted.
   */
  function JoinReply(gate: Gate, dto: JoinGroupDTO, linked: bool): (r: ActionResult<()>)
    ensures r.success <==> gate == Link && linked
    ensures gate != Link ==> r == Fail(RejectionMessage(gate, dto), BAD_REQUEST)
    ensures gate == Link && !linked ==> r == Fail(InternalError, INTERNAL_SERVER_ERROR)
    ensures r.success ==> r.errorMessage.None? && r.httpCode.None?
  {
    if gate != Link then Fail(RejectionMessage(gate, dto), BAD_REQUEST)
    else if !linked then Fail(InternalError, INTERNAL_SERVER_ERROR)
    else ActionResult(true, None, None, None)
  }

  /**
   * The reply as the action is written: `linkMemberToGroup` is called
   * without `await`, so `success` holds a Promise, an object, and is truthy
   * whatever the insert does.
   */
  function JoinReplyAsWritten(gate: Gate, dto: JoinGroupDTO, linked: bool): ActionResult<()> {
    if gate != Link then Fail(RejectionMessage(gate, dto), BAD_REQUEST)
    else
      var success := JsObject;
      if !Truthy(success) then Fail(InternalError, INTERNAL_SERVER_ERROR)
      else ActionResult(true, None, None, None)
  }

  /**
   * The discrepancy: when every gate passes but the insert fails, the action
   * as written still reports success, while no join row was added.
   */
  lemma AsWrittenReportsFailedInsertAsSuccess(dto: JoinGroupDTO)
    ensures JoinReplyAsWritten(Link, dto, false).success
    ensures !JoinReply(Link, dto, false).success
    ensures forall gate, linked :: gate != Link ==> JoinReplyAsWritten(gate, dto, linked) == JoinReply(gate, dto, linked)
  {
  }

  /**
   * `memberJoinGroupAction`, with the insert awaited: the reply is decided by
   * the first failing gate, and the join table gains exactly the row
   * `(member_id, group_id)` when the reply is a success, and nothing else
   * changes in any case.
   */
  method MemberJoinGroupAction(store: Store, dto: JoinGroupDTO, linkId: Id, accepted: bool)
    returns (r: ActionResult<()>)
    modifies store
    ensures r == JoinReply(JoinGate(old(store.Snapshot()), dto), dto, accepted)
    ensures store.Snapshot() ==
      if r.success then old(store.Snapshot()).(membersGroups := old(store.membersGroups) + [MemberGroup(linkId, dto.memberId, dto.groupId)])
      else old(store.Snapshot())
  {
    var t := store.Snapshot();
    var member := Members.FetchMemberById(t, dto.memberId);
    if member.None? || member.value.deletedAt.Some? {
      return Fail(ResourceNotFound("Member", dto.memberId), BAD_REQUEST);
    }

    var group := Groups.FetchGroupById(t, dto.groupId, false);
    if group.None? || group.value.deletedAt.Some? {
      return Fail(ResourceNotFound("Group", dto.groupId), BAD_REQUEST);
    }
    if group.value.isClosed {
      return Fail(Text(ERROR_MESSAGE_CLOSED_GROUP), BAD_REQUEST);
    }

    if group.value.password.Some? && dto.groupPassword != JsString(group.value.password.value) {
      return Fail(Text(ERROR_MESSAGE_INCORRECT_GROUP_PASSWORD), BAD_REQUEST);
    }

    var isMemberAlreadyInGroup := Members.IsMemberInGroup(store.membersGroups, dto.memberId, dto.groupId);
    if isMemberAlreadyInGroup {
      return Fail(Text(ERROR_MESSAGE_MEMBER_ALREADY_IN_GROUP), BAD_REQUEST);
    }

    var success := Groups.LinkMemberToGroup(store, dto.memberId, dto.groupId, linkId, accepted);
    if !success {
      return Fail(InternalError, INTERNAL_SERVER_ERROR);
    }
    return ActionResult(true, None, None, None);
  }

  /** The first row with that id is a Member that is not soft-deleted. */
  ghost predicate MemberActiveIn(t: Tables, id: Id) {
    exists m :: IsFirstMatch(t.members, MemberIdIs(id), m) && m.deletedAt.None?
  }

  /** The first row with that id is a Group that is active, open, and takes the offered password. */
  ghost predicate GroupAdmits(t: Tables, id: Id, offered: JsValue) {
    exists g :: IsFirstMatch(t.groups, GroupIdIs(id), g) && g.deletedAt.None? && !g.isClosed
                && !PasswordRejects(g.password, offered)
  }

  /** Some join row links that Member to that Group. */
  ghost predicate Linked(t: Tables, memberId: Id, groupId: Id) {
    exists i :: 0 <= i < |t.membersGroups| && t.membersGroups[i].memberId == memberId && t.membersGroups[i].groupId == groupId
  }

  /**
   * No join row is added unless every gate passes: the attempt reaches the
   * insert exactly when the Member is active, the Group is active, open and
   * takes the password, and the pair is not linked yet.
   */
  lemma {:induction false} LinkIffEveryGatePasses(t: Tables, dto: JoinGroupDTO)
    ensures JoinGate(t, dto) == Link <==>
      MemberActiveIn(t, dto.memberId) && GroupAdmits(t, dto.groupId, dto.groupPassword)
      && !Linked(t, dto.memberId, dto.groupId)
  {
    var member := Members.FetchMemberById(t, dto.memberId);
    var group := Groups.FetchGroupById(t, dto.groupId, false);
    if MemberActiveIn(t, dto.memberId) {
      var m :| IsFirstMatch(t.members, MemberIdIs(dto.memberId), m) && m.deletedAt.None?;
      FirstMatchUnique(t.members, MemberIdIs(dto.memberId), m, member.value);
    }
    if GroupAdmits(t, dto.groupId, dto.groupPassword) {
      var g :| IsFirstMatch(t.groups, GroupIdIs(dto.groupId), g) && g.deletedAt.None? && !g.isClosed
               && !PasswordRejects(g.password, dto.groupPassword);
      var row :| IsFirstMatch(t.groups, GroupIdIs(dto.groupId), row) && group.value == row;
      FirstMatchUnique(t.groups, GroupIdIs(dto.groupId), g, row);
    }
    if JoinGate(t, dto) == Link {
      var row :| IsFirstMatch(t.groups, GroupIdIs(dto.groupId), row) && group.value == row;
      assert GroupAdmits(t, dto.groupId, dto.groupPassword);
    }
  }

  /**
   * A Member who is not active is turned away whatever the Group and join
   * tables hold: the Group is never looked at.
   */
  lemma MemberGateComesFirst(t: Tables, dto: JoinGroupDTO, groups: seq<Group>, links: seq<MemberGroup>)
    requires !IsActiveMember(Members.FetchMemberById(t, dto.memberId))
    ensures JoinGate(t.(groups := groups, membersGroups := links), dto) == MemberUnknown
  {
    assert Members.FetchMemberById(t.(groups := groups, membersGroups := links), dto.memberId)
        == Members.FetchMemberById(t, dto.memberId);
  }

  /** A closed Group turns the attempt away whatever password is offered. */
  lemma ClosedGroupIgnoresPassword(t: Tables, dto: JoinGroupDTO, offered: JsValue)
    requires JoinGate(t, dto) == GroupClosed
    ensures JoinGate(t, dto.(groupPassword := offered)) == GroupClosed
  {
  }

  /**
   * An active Member asking to join a Group that has no row, or whose first
   * row is soft-deleted, is told the Group was not found.
   */
  lemma MissingGroupIsUnknown(t: Tables, dto: JoinGroupDTO)
    requires IsActiveMember(Members.FetchMemberById(t, dto.memberId))
    requires NoMatch(t.groups, GroupIdIs(dto.groupId))
             || exists g :: IsFirstMatch(t.groups, GroupIdIs(dto.groupId), g) && g.deletedAt.Some?
    ensures JoinGate(t, dto) == GroupUnknown
    ensures RejectionMessage(JoinGate(t, dto), dto) == ResourceNotFound("Group", dto.groupId)
  {
    var group := Groups.FetchGroupById(t, dto.groupId, false);
    if !NoMatch(t.groups, GroupIdIs(dto.groupId)) {
      var g :| IsFirstMatch(t.groups, GroupIdIs(dto.groupId), g) && g.deletedAt.Some?;
      var row :| IsFirstMatch(t.groups, GroupIdIs(dto.groupId), row) && group.value == row;
      FirstMatchUnique(t.groups, GroupIdIs(dto.groupId), g, row);
    }
  }

  /**
   * An active Member asking to join an active closed Group is refused with
   * the closed-Group message, whatever password is offered.
   */
  lemma ClosedGroupIsRefused(t: Tables, dto: JoinGroupDTO, g: Group, offered: JsValue)
    requires IsActiveMember(Members.FetchMemberById(t, dto.memberId))
    requires IsFirstMatch(t.groups, GroupIdIs(dto.groupId), g) && g.deletedAt.None? && g.isClosed
    ensures JoinGate(t, dto.(groupPassword := offered)) == GroupClosed
    ensures RejectionMessage(GroupClosed, dto) == Text(ERROR_MESSAGE_CLOSED_GROUP)
  {
    var group := Groups.FetchGroupById(t, dto.groupId, false);
    var row :| IsFirstMatch(t.groups, GroupIdIs(dto.groupId), row) && group.value == row;
    FirstMatchUnique(t.groups, GroupIdIs(dto.groupId), g, row);
  }

  /** A Group without a password admits any offer, even none. */
  lemma NullPasswordAdmitsAnyOffer(t: Tables, dto: JoinGroupDTO, offered: JsValue)
    requires JoinGate(t, dto) != MemberUnknown && JoinGate(t, dto) != GroupUnknown
    requires Groups.FetchGroupById(t, dto.groupId, false).value.password.None?
    ensures JoinGate(t, dto.(groupPassword := offered)) == JoinGate(t, dto)
    ensures JoinGate(t, dto) != PasswordMismatch
  {
  }

  /** The tables after the join row of a successful attempt is inserted. */
  function AfterLink(t: Tables, dto: JoinGroupDTO, linkId: Id): Tables {
    t.(membersGroups := t.membersGroups + [MemberGroup(linkId, dto.memberId, dto.groupId)])
  }

  /** After a successful join, the same request again stops at the duplicate gate. */
  lemma {:induction false} SecondJoinIsDuplicate(t: Tables, dto: JoinGroupDTO, linkId: Id)
    requires JoinGate(t, dto) == Link
    ensures JoinGate(AfterLink(t, dto, linkId), dto) == AlreadyMember
  {
    var t' := AfterLink(t, dto, linkId);
    assert Members.FetchMemberById(t', dto.memberId) == Members.FetchMemberById(t, dto.memberId);
    assert Groups.FetchGroupById(t', dto.groupId, false) == Groups.FetchGroupById(t, dto.groupId, false);
    var last := |t.membersGroups|;
    assert t'.membersGroups[last] == MemberGroup(linkId, dto.memberId, dto.groupId);
    assert Members.IsMemberInGroup(t'.membersGroups, dto.memberId, dto.groupId);
  }

  /**
   * The join flow keeps the join table free of duplicate pairs: if no pair
   * occurs twice before a successful join, none does after it.
   */
  lemma {:induction false} JoinKeepsLinksUnique(t: Tables, dto: JoinGroupDTO, linkId: Id)
    requires UniqueLinks(t.membersGroups)
    requires JoinGate(t, dto) == Link
    ensures UniqueLinks(AfterLink(t, dto, linkId).membersGroups)
  {
    var links := AfterLink(t, dto, linkId).membersGroups;
    assert !Members.IsMemberInGroup(t.membersGroups, dto.memberId, dto.groupId);
    forall i, j | 0 <= i < j < |links|
      ensures !(links[i].memberId == links[j].memberId && links[i].groupId == links[j].groupId)
    {
      if j == |links| - 1 {
        assert links[i] == t.membersGroups[i];
      } else {
        assert links[i] == t.membersGroups[i] && links[j] == t.membersGroups[j];
      }
    }
  }
}
