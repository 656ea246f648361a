/** The Groups model: create, fetch (with password redaction) and link a Member. */
module Groups {
  import opened Wrappers
  import opened Domain
  import opened Database

  /** A copy of `g` with its password nulled. */
  function Redact(g: Group): (r: Group)
    ensures r.password.None?
    ensures r.(password := g.password) == g
  {
    g.(password := None)
  }

  /**
   * `fetchGroup`'s shaping of the lookup result: null when the result is
   * null or empty; otherwise its first row, with the password nulled when
   * `redactPassword` holds (the default) and untouched otherwise.
   */
  function FetchGroup(rows: Option<seq<Group>>, redactPassword: bool := true): (r: Option<Group>)
    ensures r.None? <==> rows.None? || rows.value == []
    ensures r.Some? ==> r.value.(password := rows.value[0].password) == rows.value[0]
    ensures r.Some? && redactPassword ==> r.value.password.None?
    ensures r.Some? && !redactPassword ==> r.value == rows.value[0]
  {
    if rows.None? then None
    else if |rows.value| == 0 then None
    else if redactPassword then Some(Redact(rows.value[0]))
    else Some(rows.value[0])
  }

  /**
   * `fetchGroup(id, redactPassword)` against the tables: null when no row
   * has that id, else the first such row (redacted or not).
   */
  function FetchGroupById(t: Tables, id: Id, redactPassword: bool := true): (r: Option<Group>)
    ensures r.None? <==> NoMatch(t.groups, GroupIdIs(id))
    ensures r.Some? ==> r.value.id == id
    ensures r.Some? ==> exists row :: IsFirstMatch(t.groups, GroupIdIs(id), row)
                                      && r.value == (if redactPassword then Redact(row) else row)
  {
    var rows := t.GroupsWithId(id);
    SelectFirst(t.groups, GroupIdIs(id));
    var r := FetchGroup(Some(rows), redactPassword);
    assert r.Some? ==> IsFirstMatch(t.groups, GroupIdIs(id), rows[0])
                       && r.value == (if redactPassword then Redact(rows[0]) else rows[0]);
    r
  }

  /**
   * `createGroup`: inserts a row built from exactly `name`, `password` and
   * `creator_member_id`, and answers with that row with its password nulled,
   * or null when the insert returned null. The stored row keeps its password.
   */
  method CreateGroup(store: Store, fields: GroupInsert, newId: Id, now: Time, accepted: bool)
    returns (r: Option<Group>)
    modifies store
    ensures r.None? <==> !accepted
    ensures r.Some? ==> r.value == Redact(NewGroupRow(fields, newId, now))
    ensures store.Snapshot() == if accepted then old(store.Snapshot()).(groups := old(store.groups) + [NewGroupRow(fields, newId, now)])
                                else old(store.Snapshot())
  {
    var newGroup := store.InsertGroup(fields, newId, now, accepted);
    if newGroup.Some? {
      return Some(Redact(newGroup.value));
    }
    return newGroup;
  }

  /**
   * `linkMemberToGroup`: inserts the join row `{member_id, group_id}` and
   * answers true exactly when the insert succeeded.
   */
  method LinkMemberToGroup(store: Store, memberId: Id, groupId: Id, linkId: Id, accepted: bool)
    returns (success: bool)
    modifies store
    ensures success == accepted
    ensures store.Snapshot() == if accepted then old(store.Snapshot()).(membersGroups := old(store.membersGroups) + [MemberGroup(linkId, memberId, groupId)])
                                else old(store.Snapshot())
  {
    var row := store.InsertMemberGroup(memberId, groupId, linkId, accepted);
    success := row.Some?;
  }
}
