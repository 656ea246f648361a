/**
 * `createNewMemberAndGroupAction`: a new person creates a Group. After
 * validation and an anonymous sign-in, one procedure creates the Member, the
 * Group (with that Member as creator) and their join row together.
 */
module CreateNewMemberAndGroup {
  import opened Wrappers
  import opened JsValues
  import opened Domain
  import opened Database
  import opened Validators
  import CreateNewGroup
  import CreateNewMemberAndJoinGroup
  import Members

  const MEMBER_NAME_INVALID: string := "'name' field is invalid for Member."
  const GROUP_NAME_INVALID: string := "'name' field is invalid for Group."

  /** The Member fields the action answers with. */
  datatype NewMemberSummary = NewMemberSummary(id: Id, name: string, createdAt: Time)

  /** The Group fields the action answers with. */
  datatype NewGroupSummary = NewGroupSummary(id: Id, name: string, createdAt: Time, creatorMemberId: Id)

  /** The payload of a successful call. */
  datatype CreatedMemberAndGroup = CreatedMemberAndGroup(member: NewMemberSummary, group: NewGroupSummary)

  /**
   * The password is worth checking: truthy, and not empty once trimmed. A
   * password made of whitespace only is therefore never checked.
   */
  predicate PasswordGiven(password: JsValue)
    requires IsOptionalString(password)
  {
    Truthy(password) && Trim(password.s) != ""
  }

  /**
   * `validateNewMemberAndNewGroupDTO`: the Member's name, then the Group's
   * name, then the Group's password when one is given; the first failure
   * decides the message.
   */
  function ValidateNewMemberAndNewGroupDTO(member: CreateNewMemberAndJoinGroup.NewMemberDTO,
                                           group: CreateNewGroup.NewGroupDTO,
                                           isValidGroupPassword: CreateNewGroup.PasswordCheck): (r: Option<Message>)
    requires IsOptionalString(group.password)
    ensures !IsString(member.name) ==> r == Some(Text(MEMBER_NAME_INVALID))
    ensures IsString(member.name) && !IsString(group.name) ==> r == Some(Text(GROUP_NAME_INVALID))
    ensures r.None? <==>
      IsString(member.name) && IsString(group.name)
      && (PasswordGiven(group.password) ==> isValidGroupPassword(group.password).None?)
    ensures r.Some? && IsString(member.name) && IsString(group.name) ==>
      PasswordGiven(group.password) && r == Some(Text(isValidGroupPassword(group.password).value))
  {
    if !IsString(member.name) then Some(Text(MEMBER_NAME_INVALID))
    else if !IsString(group.name) then Some(Text(GROUP_NAME_INVALID))
    else if Truthy(group.password) && Trim(group.password.s) != "" && isValidGroupPassword(group.password).Some? then
      Some(Text(isValidGroupPassword(group.password).value))
    else None
  }

  /** A whitespace-only password passes validation whatever the password check says. */
  lemma WhitespacePasswordIsNotChecked(member: CreateNewMemberAndJoinGroup.NewMemberDTO,
                                       group: CreateNewGroup.NewGroupDTO, check: CreateNewGroup.PasswordCheck)
    requires IsString(member.name) && IsString(group.name)
    requires group.password.JsString? && AllWhitespace(group.password.s)
    ensures ValidateNewMemberAndNewGroupDTO(member, group, check).None?
  {
    TrimEmptyIffAllWhitespace(group.password.s);
  }

  /**
   * The procedure's parameters: both names trimmed, the password trimmed when
   * truthy and null otherwise, and the signed-in user's id.
   */
  function ProcParameters(member: CreateNewMemberAndJoinGroup.NewMemberDTO, group: CreateNewGroup.NewGroupDTO,
                          authUserId: Id): ProcCreateMemberAndGroupParameters
    requires member.name.JsString? && group.name.JsString? && IsOptionalString(group.password)
  {
    ProcCreateMemberAndGroupParameters(
      Trim(member.name.s),
      Trim(group.name.s),
      if Truthy(group.password) then Some(Trim(group.password.s)) else None,
      authUserId)
  }

  /**
   * The parameters carry no surrounding whitespace, and a password exactly
   * when the request gave a truthy one. A whitespace-only password passes
   * validation and is sent as the empty string, not as null.
   */
  lemma ProcParametersShape(member: CreateNewMemberAndJoinGroup.NewMemberDTO, group: CreateNewGroup.NewGroupDTO,
                            authUserId: Id)
    requires member.name.JsString? && group.name.JsString? && IsOptionalString(group.password)
    ensures var p := ProcParameters(member, group, authUserId);
      && IsTrimmed(p.newMemberName) && IsTrimmed(p.newGroupName)
      && (p.newGroupPassword.Some? <==> Truthy(group.password))
      && (p.newGroupPassword.Some? ==> IsTrimmed(p.newGroupPassword.value))
      && (Truthy(group.password) && AllWhitespace(group.password.s) ==> p.newGroupPassword == Some(""))
  {
    if Truthy(group.password) { TrimEmptyIffAllWhitespace(group.password.s); }
  }

  /** The payload built from the procedure's row: the new Group's creator is the new Member. */
  function PayloadOf(row: ProcCreateMemberAndGroupRow): (p: CreatedMemberAndGroup)
    ensures p.group.creatorMemberId == p.member.id
    ensures p.member.id == row.memberId && p.group.id == row.groupId
  {
    CreatedMemberAndGroup(
      NewMemberSummary(row.memberId, row.memberName, row.memberCreatedAt),
      NewGroupSummary(row.groupId, row.groupName, row.groupCreatedAt, row.memberId))
  }

  /** The tables after the procedure created a Member, a Group it created, and their join row. */
  function AfterBootstrap(t: Tables, p: ProcCreateMemberAndGroupParameters, memberId: Id, groupId: Id, linkId: Id, now: Time): Tables {
    Tables(
      t.members + [NewMemberRow(memberId, p.newMemberName, p.authUserId, now)],
      t.groups + [NewGroupRow(GroupInsert(p.newGroupName, p.newGroupPassword, memberId), groupId, now)],
      t.membersGroups + [MemberGroup(linkId, memberId, groupId)],
      t.orders)
  }

  /**
   * `createNewMemberAndGroupAction`. A validation failure answers 400 before
   * any sign-in. A sign-in error, a sign-in without a user, or a refused
   * procedure answers 500 and creates nothing. Otherwise the three rows are
   * added together and the answer is 201 with the new Member and Group,
   * the Group's creator being the Member.
   */
  method CreateNewMemberAndGroupAction(store: Store, member: CreateNewMemberAndJoinGroup.NewMemberDTO,
                                       group: CreateNewGroup.NewGroupDTO,
                                       isValidGroupPassword: CreateNewGroup.PasswordCheck, signIn: SignInResult,
                                       memberId: Id, groupId: Id, linkId: Id, now: Time, accepted: bool)
    returns (r: ActionResult<CreatedMemberAndGroup>)
    requires IsOptionalString(group.password)
    modifies store
    ensures ValidateNewMemberAndNewGroupDTO(member, group, isValidGroupPassword).Some? ==>
      r == Fail(ValidateNewMemberAndNewGroupDTO(member, group, isValidGroupPassword).value, BAD_REQUEST)
      && store.Snapshot() == old(store.Snapshot())
    ensures ValidateNewMemberAndNewGroupDTO(member, group, isValidGroupPassword).None? ==>
      && (CreateNewMemberAndJoinGroup.SignedInUser(signIn) && accepted ==>
            var p := ProcParameters(member, group, signIn.user.value);
            && r == Succeed(CREATED, PayloadOf(ProcCreateMemberAndGroupRow(memberId, p.newMemberName, now, groupId, p.newGroupName, now)))
            && store.Snapshot() == AfterBootstrap(old(store.Snapshot()), p, memberId, groupId, linkId, now))
      && (!(CreateNewMemberAndJoinGroup.SignedInUser(signIn) && accepted) ==>
            r == Fail(InternalError, INTERNAL_SERVER_ERROR) && store.Snapshot() == old(store.Snapshot()))
    ensures r.success ==> r.payload.value.group.creatorMemberId == r.payload.value.member.id
  {
    var validationError := ValidateNewMemberAndNewGroupDTO(member, group, isValidGroupPassword);
    if validationError.Some? {
      return Fail(validationError.value, BAD_REQUEST);
    }

    if signIn.SignInError? {
      return Fail(InternalError, INTERNAL_SERVER_ERROR);
    }

    if signIn.user.Some? {
      var procParams := ProcParameters(member, group, signIn.user.value);
      var resultQueryArr := store.ProcCreateNewMemberAndGroup(procParams, memberId, groupId, linkId, now, accepted);
      if resultQueryArr.Some? {
        var resultQuery := resultQueryArr.value[0];
        return Succeed(CREATED, PayloadOf(resultQuery));
      }
    }
    return Fail(InternalError, INTERNAL_SERVER_ERROR);
  }

  /**
   * After a successful bootstrap, the new Member is linked to the new Group
   * and is recorded as its creator.
   */
  lemma {:induction false} BootstrapLinksCreator(t: Tables, p: ProcCreateMemberAndGroupParameters,
                                                 memberId: Id, groupId: Id, linkId: Id, now: Time)
    ensures var t' := AfterBootstrap(t, p, memberId, groupId, linkId, now);
      && Members.IsMemberInGroup(t'.membersGroups, memberId, groupId)
      && t'.groups[|t'.groups| - 1].creatorMemberId == memberId
      && t'.members[|t'.members| - 1].id == memberId
  {
    var t' := AfterBootstrap(t, p, memberId, groupId, linkId, now);
    assert t'.membersGroups[|t.membersGroups|] == MemberGroup(linkId, memberId, groupId);
  }
}
