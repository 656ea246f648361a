/**
 * `createNewMemberAndJoinGroupAction`: a new person joins an existing Group.
 * The request is validated, the Group gates run, an anonymous identity is
 * signed in, and one procedure creates the Member and its join row.
 */
module CreateNewMemberAndJoinGroup {
  import opened Wrappers
  import opened JsValues
  import opened Domain
  import opened Database
  import opened Validators
  import Groups
  import Members
  import MemberJoinGroup

  const NAME_INVALID: string := "'name' field is invalid."
  const GROUP_ID_INVALID: string := "'group_id' field is invalid."

  /** The request body: a name, the Group to join and the password offered. */
  datatype NewMemberDTO = NewMemberDTO(name: JsValue, groupId: JsValue, groupPassword: JsValue)

  /** `validateNewMemberDTO`: the name is checked before the Group id; the password is not checked. */
  function ValidateNewMemberDTO(dto: NewMemberDTO): (r: Option<Message>)
    ensures r.None? <==> IsString(dto.name) && IsString(dto.groupId)
    ensures !IsString(dto.name) ==> r == Some(Text(NAME_INVALID))
    ensures IsString(dto.name) && !IsString(dto.groupId) ==> r == Some(Text(GROUP_ID_INVALID))
  {
    if !IsString(dto.name) then Some(Text(NAME_INVALID))
    else if !IsString(dto.groupId) then Some(Text(GROUP_ID_INVALID))
    else None
  }

  /** The anonymous sign-in produced a user. */
  predicate SignedInUser(signIn: SignInResult) {
    signIn.SignedIn? && signIn.user.Some?
  }

  /** The tables after the procedure created Member `m` and linked it to `groupId`. */
  function AfterCreate(t: Tables, m: Member, groupId: Id, linkId: Id): Tables {
    t.(members := t.members + [m], membersGroups := t.membersGroups + [MemberGroup(linkId, m.id, groupId)])
  }

  /**
   * `createNewMemberAndJoinGroupAction`. A validation failure answers 400
   * before any lookup. The trimmed Group id then goes through the Group gates
   * (active, open, password), where the password offered is compared as sent,
   * untrimmed; a failure answers 400. A sign-in error, a sign-in without a
   * user, or a failed procedure answers 500 and creates nothing. Otherwise
   * the Member, with the trimmed name, and its join row are added and the
   * answer is 201 with the new Member.
   */
  method CreateNewMemberAndJoinGroupAction(store: Store, dto: NewMemberDTO, signIn: SignInResult,
                                           memberId: Id, linkId: Id, now: Time, refusal: Option<DatabaseError>)
    returns (r: ActionResult<Member>)
    requires IsOptionalString(dto.groupPassword)
    modifies store
    ensures ValidateNewMemberDTO(dto).Some? ==>
      r == Fail(ValidateNewMemberDTO(dto).value, BAD_REQUEST) && store.Snapshot() == old(store.Snapshot())
    ensures ValidateNewMemberDTO(dto).None? ==>
      var groupId := Trim(dto.groupId.s);
      var gate := MemberJoinGroup.GroupGate(old(store.Snapshot()), groupId, dto.groupPassword);
      && (gate != MemberJoinGroup.Link ==>
            r == Fail(MemberJoinGroup.GroupRejection(gate, groupId), BAD_REQUEST)
            && store.Snapshot() == old(store.Snapshot()))
      && (gate == MemberJoinGroup.Link && SignedInUser(signIn) && refusal.None? ==>
            var m := NewMemberRow(memberId, Trim(dto.name.s), signIn.user.value, now);
            r == Succeed(CREATED, m) && store.Snapshot() == AfterCreate(old(store.Snapshot()), m, groupId, linkId))
      && (gate == MemberJoinGroup.Link && !(SignedInUser(signIn) && refusal.None?) ==>
            r == Fail(InternalError, INTERNAL_SERVER_ERROR) && store.Snapshot() == old(store.Snapshot()))
  {
    var validationError := ValidateNewMemberDTO(dto);
    if validationError.Some? {
      return Fail(validationError.value, BAD_REQUEST);
    }

    var name := Trim(dto.name.s);
    var groupId := Trim(dto.groupId.s);

    var group := Groups.FetchGroupById(store.Snapshot(), groupId, false);
    if group.None? || group.value.deletedAt.Some? {
      return Fail(ResourceNotFound("Group", groupId), BAD_REQUEST);
    }
    if group.value.isClosed {
      return Fail(Text(MemberJoinGroup.ERROR_MESSAGE_CLOSED_GROUP), BAD_REQUEST);
    }
    if group.value.password.Some? && dto.groupPassword != JsString(group.value.password.value) {
      return Fail(Text(MemberJoinGroup.ERROR_MESSAGE_INCORRECT_GROUP_PASSWORD), BAD_REQUEST);
    }

    if signIn.SignInError? {
      return Fail(InternalError, INTERNAL_SERVER_ERROR);
    }

    if signIn.user.Some? {
      var member := Members.CreateMember(store, name, groupId, signIn.user.value, memberId, linkId, now, refusal);
      if member.Some? {
        return Succeed(CREATED, member.value);
      }
    }
    return Fail(InternalError, INTERNAL_SERVER_ERROR);
  }

  /**
   * A Member created this way is in the Group: when its id was not taken,
   * the join flow run afterwards for the same Member and Group, with a
   * password the Group takes, stops at the duplicate gate.
   */
  lemma {:induction false} CreatedMemberIsAlreadyInGroup(t: Tables, m: Member, groupId: Id, linkId: Id, offered: JsValue)
    requires NoMatch(t.members, MemberIdIs(m.id))
    requires m.deletedAt.None?
    requires MemberJoinGroup.GroupGate(t, groupId, offered) == MemberJoinGroup.Link
    ensures MemberJoinGroup.JoinGate(AfterCreate(t, m, groupId, linkId), MemberJoinGroup.JoinGroupDTO(m.id, groupId, offered))
            == MemberJoinGroup.AlreadyMember
  {
    var t' := AfterCreate(t, m, groupId, linkId);
    var found := Members.FetchMemberById(t', m.id);
    var last := |t.members|;
    assert t'.members[last] == m;
    assert found.Some?;
    var i :| 0 <= i < |t'.members| && t'.members[i] == found.value && MemberIdIs(m.id)(found.value)
             && forall j :: 0 <= j < i ==> !MemberIdIs(m.id)(t'.members[j]);
    assert found.value == m;
    assert MemberJoinGroup.GroupGate(t', groupId, offered) == MemberJoinGroup.GroupGate(t, groupId, offered) by {
      assert Groups.FetchGroupById(t', groupId, false) == Groups.FetchGroupById(t, groupId, false);
    }
    assert t'.membersGroups[|t.membersGroups|] == MemberGroup(linkId, m.id, groupId);
  }

  /**
   * The password offered is compared as sent, untrimmed. A Group is stored
   * with its password trimmed, so an active, open Group whose password is
   * `Trim(p)` turns away the offer `p` whenever `p` carries surrounding
   * whitespace, while it admits the trimmed offer.
   */
  lemma OfferedPasswordIsNotTrimmed(t: Tables, groupId: Id, p: string)
    requires Trim(p) != p
    requires var g := Groups.FetchGroupById(t, groupId, false);
      g.Some? && g.value.deletedAt.None? && !g.value.isClosed && g.value.password == Some(Trim(p))
    ensures MemberJoinGroup.GroupGate(t, groupId, JsString(p)) == MemberJoinGroup.PasswordMismatch
    ensures MemberJoinGroup.GroupGate(t, groupId, JsString(Trim(p))) == MemberJoinGroup.Link
  {
  }
}
