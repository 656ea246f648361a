/**
 * The older server-action variant `createNewMemberAndGroup`. It differs from
 * `createNewMemberAndGroupAction` in two ways: its validator always runs the
 * password check, even when no password is given, and its replies carry no
 * HTTP code.
 */
module AppCreateNewMemberAndGroup {
  import opened Wrappers
  import opened JsValues
  import opened Domain
  import opened Database
  import opened Validators
  import CreateNewGroup
  import CreateNewMemberAndJoinGroup
  import Bootstrap = CreateNewMemberAndGroup

  /** A reply of this variant: the message and nothing else. */
  function FailWithoutCode<T>(message: Message): ActionResult<T> {
    ActionResult(false, Some(message), None, None)
  }

  /**
   * `validateNewMemberAndNewGroupDTO` of this variant: the Member's name,
   * then the Group's name, then the password check, run unconditionally.
   */
  function ValidateNewMemberAndNewGroupDTO(member: CreateNewMemberAndJoinGroup.NewMemberDTO,
                                           group: CreateNewGroup.NewGroupDTO,
                                           isValidGroupPassword: CreateNewGroup.PasswordCheck): (r: Option<Message>)
    ensures !IsString(member.name) ==> r == Some(Text(Bootstrap.MEMBER_NAME_INVALID))
    ensures IsString(member.name) && !IsString(group.name) ==> r == Some(Text(Bootstrap.GROUP_NAME_INVALID))
    ensures r.None? <==> IsString(member.name) && IsString(group.name) && isValidGroupPassword(group.password).None?
    ensures IsString(member.name) && IsString(group.name) && isValidGroupPassword(group.password).Some? ==>
      r == Some(Text(isValidGroupPassword(group.password).value))
  {
    if !IsString(member.name) then Some(Text(Bootstrap.MEMBER_NAME_INVALID))
    else if !IsString(group.name) then Some(Text(Bootstrap.GROUP_NAME_INVALID))
    else if isValidGroupPassword(group.password).Some? then Some(Text(isValidGroupPassword(group.password).value))
    else None
  }

  /**
   * The two validators differ only in when the password is checked: where
   * a password is given they agree, and where none is given this variant
   * still asks the check, so a check that refuses a missing password refuses
   * the request here but not in the newer action.
   */
  lemma {:induction false} ValidatorsAgreeWhenPasswordGiven(member: CreateNewMemberAndJoinGroup.NewMemberDTO,
                                                           group: CreateNewGroup.NewGroupDTO,
                                                           check: CreateNewGroup.PasswordCheck)
    requires IsOptionalString(group.password)
    ensures Bootstrap.PasswordGiven(group.password) ==>
      ValidateNewMemberAndNewGroupDTO(member, group, check)
      == Bootstrap.ValidateNewMemberAndNewGroupDTO(member, group, check)
    ensures !Truthy(group.password) && IsString(member.name) && IsString(group.name) && check(group.password).Some? ==>
      ValidateNewMemberAndNewGroupDTO(member, group, check).Some?
      && Bootstrap.ValidateNewMemberAndNewGroupDTO(member, group, check).None?
  {
  }

  /**
   * `createNewMemberAndGroup`. A validation failure answers its message
   * without a code; a sign-in error, a sign-in without a user or a refused
   * procedure answers the internal-error message and creates nothing;
   * otherwise the three rows are added together and the reply carries the
   * new Member and Group, the Group's creator being the Member.
   */
  method CreateNewMemberAndGroup(store: Store, member: CreateNewMemberAndJoinGroup.NewMemberDTO,
                                 group: CreateNewGroup.NewGroupDTO,
                                 isValidGroupPassword: CreateNewGroup.PasswordCheck, signIn: SignInResult,
                                 memberId: Id, groupId: Id, linkId: Id, now: Time, accepted: bool)
    returns (r: ActionResult<Bootstrap.CreatedMemberAndGroup>)
    requires IsOptionalString(group.password)
    modifies store
    ensures r.httpCode.None?
    ensures ValidateNewMemberAndNewGroupDTO(member, group, isValidGroupPassword).Some? ==>
      r == FailWithoutCode(ValidateNewMemberAndNewGroupDTO(member, group, isValidGroupPassword).value)
      && store.Snapshot() == old(store.Snapshot())
    ensures ValidateNewMemberAndNewGroupDTO(member, group, isValidGroupPassword).None? ==>
      && (CreateNewMemberAndJoinGroup.SignedInUser(signIn) && accepted ==>
            var p := Bootstrap.ProcParameters(member, group, signIn.user.value);
            && r == ActionResult(true, None, None, Some(Bootstrap.PayloadOf(
                      ProcCreateMemberAndGroupRow(memberId, p.newMemberName, now, groupId, p.newGroupName, now))))
            && store.Snapshot() == Bootstrap.AfterBootstrap(old(store.Snapshot()), p, memberId, groupId, linkId, now))
      && (!(CreateNewMemberAndJoinGroup.SignedInUser(signIn) && accepted) ==>
            r == FailWithoutCode(InternalError) && store.Snapshot() == old(store.Snapshot()))
    ensures r.success ==> r.payload.value.group.creatorMemberId == r.payload.value.member.id
  {
    var validationError := ValidateNewMemberAndNewGroupDTO(member, group, isValidGroupPassword);
    if validationError.Some? {
      return FailWithoutCode(validationError.value);
    }

    if signIn.SignInError? {
      return FailWithoutCode(InternalError);
    }

    if signIn.user.Some? {
      var procParams := Bootstrap.ProcParameters(member, group, signIn.user.value);
      var resultQueryArr := store.ProcCreateNewMemberAndGroup(procParams, memberId, groupId, linkId, now, accepted);
      if resultQueryArr.Some? {
        var resultQuery := resultQueryArr.value[0];
        return ActionResult(true, None, None, Some(Bootstrap.PayloadOf(resultQuery)));
      }
    }
    return FailWithoutCode(InternalError);
  }
}
