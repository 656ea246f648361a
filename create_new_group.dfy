/**
 * `createNewGroupAction`: an active Member creates a Group. The request is
 * validated, the creator is looked up, and one Group row is inserted.
 */
module CreateNewGroup {
  import opened Wrappers
  import opened JsValues
  import opened Domain
  import opened Database
  import opened Validators
  import Groups
  import Members
  import MemberJoinGroup

  const NAME_INVALID: string := "'name' field is invalid."

  /** The request body: a name, an optional password and the creator's id. */
  datatype NewGroupDTO = NewGroupDTO(name: JsValue, password: JsValue, creatorMemberId: JsValue)

  /**
   * `isValidGroupPassword`: an error message for a password it refuses, null
   * for one it accepts. Its rules are not part of this model, so every
   * operation that uses it takes it as a parameter.
   */
  type PasswordCheck = JsValue -> Option<string>

  /**
   * `validateNewGroupDTO`: the name is checked first, then the creator id
   * (whose failure answers with the internal-error message), then the
   * password, and the password only when it is truthy.
   */
  function ValidateNewGroupDTO(dto: NewGroupDTO, isValidGroupPassword: PasswordCheck): (r: Option<Message>)
    ensures !IsString(dto.name) ==> r == Some(Text(NAME_INVALID))
    ensures IsString(dto.name) && !IsString(dto.creatorMemberId) ==> r == Some(InternalError)
    ensures r.None? <==>
      IsString(dto.name) && IsString(dto.creatorMemberId)
      && (Truthy(dto.password) ==> isValidGroupPassword(dto.password).None?)
    ensures r.Some? && IsString(dto.name) && IsString(dto.creatorMemberId) ==>
      Truthy(dto.password) && r == Some(Text(isValidGroupPassword(dto.password).value))
  {
    if !IsString(dto.name) then Some(Text(NAME_INVALID))
    else if !IsString(dto.creatorMemberId) then Some(InternalError)
    else if Truthy(dto.password) && isValidGroupPassword(dto.password).Some? then
      Some(Text(isValidGroupPassword(dto.password).value))
    else None
  }

  /**
   * An empty or absent password never causes an error: the password check is
   * not consulted, so any two checks give the same verdict.
   */
  lemma FalsyPasswordIsNeverChecked(dto: NewGroupDTO, check1: PasswordCheck, check2: PasswordCheck)
    requires !Truthy(dto.password)
    ensures ValidateNewGroupDTO(dto, check1) == ValidateNewGroupDTO(dto, check2)
    ensures ValidateNewGroupDTO(dto, check1).Some? ==> !IsString(dto.name) || !IsString(dto.creatorMemberId)
  {
  }

  /** The fields the action inserts: name and creator id trimmed, password trimmed when truthy, else null. */
  function NewGroupFields(dto: NewGroupDTO): GroupInsert
    requires dto.name.JsString? && dto.creatorMemberId.JsString? && IsOptionalString(dto.password)
  {
    GroupInsert(
      Trim(dto.name.s),
      if Truthy(dto.password) then Some(Trim(dto.password.s)) else None,
      Trim(dto.creatorMemberId.s))
  }

  /**
   * The inserted Group carries no surrounding whitespace in its name, its
   * password or its creator id, and has a password exactly when the request
   * gave a truthy one.
   */
  lemma NewGroupFieldsTrimmed(dto: NewGroupDTO)
    requires dto.name.JsString? && dto.creatorMemberId.JsString? && IsOptionalString(dto.password)
    ensures IsTrimmed(NewGroupFields(dto).name) && IsTrimmed(NewGroupFields(dto).creatorMemberId)
    ensures NewGroupFields(dto).password.Some? <==> Truthy(dto.password)
    ensures NewGroupFields(dto).password.Some? ==> IsTrimmed(NewGroupFields(dto).password.value)
  {
  }

  /**
   * `createNewGroupAction`. A validation failure answers 400 and touches
   * nothing; an unknown or soft-deleted creator answers 400 and inserts
   * nothing; otherwise the trimmed fields are inserted and the answer is 201
   * with the new Group, its password nulled, or 500 when the insert fails.
   */
  method CreateNewGroupAction(store: Store, dto: NewGroupDTO, isValidGroupPassword: PasswordCheck,
                              newId: Id, now: Time, accepted: bool)
    returns (r: ActionResult<Group>)
    requires IsOptionalString(dto.password)
    modifies store
    ensures ValidateNewGroupDTO(dto, isValidGroupPassword).Some? ==>
      r == Fail(ValidateNewGroupDTO(dto, isValidGroupPassword).value, BAD_REQUEST)
      && store.Snapshot() == old(store.Snapshot())
    ensures ValidateNewGroupDTO(dto, isValidGroupPassword).None? ==>
      var fields := NewGroupFields(dto);
      var creatorActive := MemberJoinGroup.IsActiveMember(Members.FetchMemberById(old(store.Snapshot()), fields.creatorMemberId));
      && (!creatorActive ==>
            r == Fail(ResourceNotFound("Member", fields.creatorMemberId), BAD_REQUEST)
            && store.Snapshot() == old(store.Snapshot()))
      && (creatorActive && accepted ==>
            r == Succeed(CREATED, Groups.Redact(NewGroupRow(fields, newId, now)))
            && store.Snapshot() == old(store.Snapshot()).(groups := old(store.groups) + [NewGroupRow(fields, newId, now)]))
      && (creatorActive && !accepted ==>
            r == Fail(InternalError, INTERNAL_SERVER_ERROR) && store.Snapshot() == old(store.Snapshot()))
  {
    var validationError := ValidateNewGroupDTO(dto, isValidGroupPassword);
    if validationError.Some? {
      return Fail(validationError.value, BAD_REQUEST);
    }

    var groupName := Trim(dto.name.s);
    var groupPassword := if Truthy(dto.password) then Some(Trim(dto.password.s)) else None;
    var creatorMemberId := Trim(dto.creatorMemberId.s);

    var member := Members.FetchMemberById(store.Snapshot(), creatorMemberId);
    if member.None? || member.value.deletedAt.Some? {
      return Fail(ResourceNotFound("Member", creatorMemberId), BAD_REQUEST);
    }

    var newGroup := Groups.CreateGroup(store, GroupInsert(groupName, groupPassword, creatorMemberId), newId, now, accepted);
    if newGroup.Some? {
      return Succeed(CREATED, newGroup.value);
    }
    return Fail(InternalError, INTERNAL_SERVER_ERROR);
  }
}
