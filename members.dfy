/** The Members model: create, the single-row lookups, the join with Groups, and the membership test. */
module Members {
  import opened Wrappers
  import opened Domain
  import opened Database
  import Groups

  /**
   * `createMember`: runs the procedure that creates the Member and its join
   * row, and answers null exactly when the procedure reports failure,
   * otherwise the procedure's payload.
   */
  method CreateMember(store: Store, memberName: string, groupId: Id, authUserId: Id,
                      memberId: Id, linkId: Id, now: Time, refusal: Option<DatabaseError>)
    returns (r: Option<Member>)
    modifies store
    ensures r.None? <==> refusal.Some?
    ensures r.Some? ==> r.value == NewMemberRow(memberId, memberName, authUserId, now)
    ensures refusal.Some? ==> store.Snapshot() == old(store.Snapshot())
    ensures refusal.None? ==>
      store.Snapshot() == old(store.Snapshot()).(members := old(store.members) + [r.value],
                                                 membersGroups := old(store.membersGroups) + [MemberGroup(linkId, memberId, groupId)])
  {
    var results := store.ProcCreateNewMemberAndLink(ProcCreateMemberParameters(memberName, groupId, authUserId),
                                                    memberId, linkId, now, refusal);
    if !results.success {
      return None;
    }
    return results.payload;
  }

  /** `fetchMemberById`: the first row with that id, or null when there is none. */
  function FetchMemberById(t: Tables, id: Id): (r: Option<Member>)
    ensures r.None? <==> NoMatch(t.members, MemberIdIs(id))
    ensures r.Some? ==> r.value.id == id && IsFirstMatch(t.members, MemberIdIs(id), r.value)
  {
    SelectFirst(t.members, MemberIdIs(id));
    FirstRow(Some(t.MembersWithId(id)))
  }

  /** `fetchMemberByAuthUserId`: the first row with that auth user id, or null when there is none. */
  function FetchMemberByAuthUserId(t: Tables, authUserId: Id): (r: Option<Member>)
    ensures r.None? <==> NoMatch(t.members, AuthUserIdIs(authUserId))
    ensures r.Some? ==> r.value.authUserId == authUserId
                        && IsFirstMatch(t.members, AuthUserIdIs(authUserId), r.value)
  {
    SelectFirst(t.members, AuthUserIdIs(authUserId));
    FirstRow(Some(t.MembersWithAuthUserId(authUserId)))
  }

  /** `isMemberInGroup`'s shaping of the join-table query: false on a null or empty result. */
  function InGroupFromRows(rows: Option<seq<MemberGroup>>): (r: bool)
    ensures r <==> rows.Some? && |rows.value| > 0
  {
    if rows.None? then false
    else if |rows.value| == 0 then false
    else true
  }

  /**
   * `isMemberInGroup`: true exactly when some join row has both ids. Only the
   * join table is read, so whether the Member or the Group is active plays
   * no part.
   */
  function IsMemberInGroup(links: seq<MemberGroup>, memberId: Id, groupId: Id): (r: bool)
    ensures r <==> exists i :: 0 <= i < |links| && links[i].memberId == memberId && links[i].groupId == groupId
  {
    var p := LinkIs(memberId, groupId);
    SelectFirst(links, p);
    InGroupFromRows(Some(Select(links, p)))
  }

  /** The Member part of the one-to-many query's row: the Member's columns and whatever else it carries. */
  datatype RawMember = RawMember(
    id: Id,
    name: string,
    createdAt: Time,
    updatedAt: Option<Time>,
    deletedAt: Option<Time>,
    authUserId: Id,
    extra: map<string, string>)

  /** The result of the Members-to-Groups query. */
  datatype MemberAndGroupsRow = MemberAndGroupsRow(member: RawMember, groups: seq<Group>)

  /** What `fetchMemberAndGroups` answers with. */
  datatype MemberAndGroups = MemberAndGroups(member: Member, groups: seq<Group>)

  /** Nulls the password of every Group in the list. */
  function RedactAll(groups: seq<Group>): (r: seq<Group>)
    ensures |r| == |groups|
    ensures forall i :: 0 <= i < |groups| ==> r[i].password.None? && r[i].(password := groups[i].password) == groups[i]
  {
    if groups == [] then [] else [Groups.Redact(groups[0])] + RedactAll(groups[1..])
  }

  /**
   * `fetchMemberAndGroups`: null when the query result is null; otherwise the
   * Member reduced to its six fields, with `auth_user_id` the argument, and
   * every Group, in order, with its password nulled.
   */
  function FetchMemberAndGroups(authUserId: Id, result: Option<MemberAndGroupsRow>): (r: Option<MemberAndGroups>)
    ensures r.None? <==> result.None?
    ensures r.Some? ==>
      var raw := result.value.member;
      && r.value.member == Member(raw.id, raw.name, raw.createdAt, raw.updatedAt, raw.deletedAt, authUserId)
      && |r.value.groups| == |result.value.groups|
      && forall i :: 0 <= i < |r.value.groups| ==>
           r.value.groups[i].password.None? && r.value.groups[i].(password := result.value.groups[i].password) == result.value.groups[i]
  {
    if result.None? then None
    else
      var raw := result.value.member;
      var member := Member(raw.id, raw.name, raw.createdAt, raw.updatedAt, raw.deletedAt, authUserId);
      Some(MemberAndGroups(member, RedactAll(result.value.groups)))
  }
}
