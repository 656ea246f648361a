# you-owe: a verified model of the server-side core

you-owe is a bill-splitting web application. People form **Groups**; each
person in a Group is a **Member** (backed by an anonymous sign-in); Members
record shared **Orders** (a title, an optional description, a price and the
participating Members). The server side is a set of actions that validate a
request, run a fixed sequence of lookups and gates against the database, and
write rows, answering with a `{ success, errorMessage, httpCode, payload }`
envelope.

This project models that core in Dafny:

- `wrappers.dfy`, `js_values.dfy`: `Option`/`Result`; JavaScript values,
  truthiness, `NaN`-tagged numbers and `String.prototype.trim` over the
  ECMAScript whitespace set.
- `domain.dfy`: the rows of the four tables, database errors, HTTP codes,
  messages and the action envelope.
- `database.dfy`: the database as a `Store` class whose four `seq` tables its
  insert, update and procedure methods change in place; row filters and
  "first matching row" reasoning.
- `validators.dfy`: `isString`.
- `groups.dfy`, `members.dfy`, `orders.dfy`: the three models (lookups,
  redaction, parameter building, answer shaping, inserts).
- one file per action: `member_join_group.dfy`, `create_new_group.dfy`,
  `create_new_member_and_join_group.dfy`, `create_new_member_and_group.dfy`,
  `app_create_new_member_and_group.dfy` (the older variant),
  `create_new_order.dfy`, `update_order.dfy`, `get_orders.dfy`.
- `groups_grid.dfy`: the most-recent-first ordering of Groups.

What the database, the sign-in service or the clock decide is a parameter of
the operation that consults it: the verdict of an insert (`accepted`,
`refusal`), the answer of a stored procedure (`proc`), new ids and the time
(`newId`, `now`), the signed-in user (`SignInResult`, `userId`) and the
password policy (`PasswordCheck`). Each action is a method with `modifies
store` whose `ensures` give the answer and the new tables for every path, and
pure functions and lemmas state the gates, validators and shaping rules.

## Model

| member | source | states |
|---|---|---|
| `Validators.IsString` | src/api/utils/validators.ts:8-18 | true exactly for a string value of length at least one; the empty string and every non-string are false |
| `Validators.WhitespaceOnlyIsString` | src/api/utils/validators.ts:8-18 | a non-empty whitespace-only string passes although it trims to the empty string: there is no trimming |
| `Validators.IsStringImpliesTruthy` | src/api/utils/validators.ts:8-18 | whatever passes `isString` is a truthy string |
| `JsValues.TrimEmptyIffAllWhitespace` | src/actions/create-new-member-and-group-action.ts:94-94 | `trim()` yields the empty string exactly when every character is whitespace |
| `Groups.Redact` | src/models/Groups.ts:24-24 | a copy whose password is null and whose every other field is the original's |
| `Groups.FetchGroup` | src/models/Groups.ts:37-54 | null exactly for a null or empty result; otherwise the first row, password nulled when `redactPassword` (the default) holds and untouched otherwise |
| `Groups.FetchGroupById` | src/models/Groups.ts:37-54 | null exactly when no row has the id; otherwise the first row with that id, redacted or not |
| `Groups.CreateGroup` | src/models/Groups.ts:20-28 | inserts exactly the name, password and creator id; null exactly when the insert is refused; otherwise the stored row with its password nulled, while the stored row keeps it |
| `Groups.LinkMemberToGroup` | src/models/Groups.ts:63-67 | true exactly when the insert succeeded; the join table then gains the one row `(member_id, group_id)` |
| `Database.Store.InsertGroup` | src/models/Groups.ts:21-21 | the insert adds the row built from the three fields, or nothing when refused |
| `Database.Store.InsertMemberGroup` | src/models/Groups.ts:64-66 | the insert adds one join row, or nothing when refused |
| `Members.CreateMember` | src/models/Members.ts:25-38 | null exactly when the procedure fails, with nothing written; otherwise the new Member, and the Member and its join row are both added |
| `Database.Store.ProcCreateNewMemberAndLink` | src/models/Members.ts:32-32 | the procedure adds the Member and its join row together, or neither |
| `Members.FetchMemberById` | src/models/Members.ts:68-80 | null exactly when no row has the id; otherwise the first row with that id |
| `Members.FetchMemberByAuthUserId` | src/models/Members.ts:47-59 | null exactly when no row has the auth user id; otherwise the first such row |
| `Database.FirstRow` | src/models/Members.ts:50-58 | null for a null or empty result, else element 0 |
| `Members.InGroupFromRows` | src/models/Members.ts:137-145 | false on a null or empty result, true otherwise |
| `Members.IsMemberInGroup` | src/models/Members.ts:114-146 | true exactly when some join row carries both ids; only the join table is read, so deletion of the Member or Group plays no part |
| `Members.RedactAll` | src/models/Members.ts:110-110 | same length and order, every password null and every other field kept |
| `Members.FetchMemberAndGroups` | src/models/Members.ts:89-112 | null exactly for a null result; otherwise the Member reduced to its six fields with `auth_user_id` the argument, and every Group, in order, redacted |
| `Orders.Description` | src/models/Orders.ts:30-30 | the description trimmed when it is a string, null when absent |
| `Orders.ParticipantIds` | src/models/Orders.ts:31-31 | each participant id trimmed, length and order kept; `[]` when the list is absent |
| `Orders.CreateOrderParametersShape` | src/models/Orders.ts:25-32 | every string parameter is trimmed, the price is passed unchanged, the description is null exactly when absent, the participant list keeps its length |
| `Orders.ParticipantIdsOfTrimmed` | src/models/Orders.ts:31-31 | already trimmed ids come back unchanged |
| `Orders.CreateOrderParametersFixpoint` | src/models/Orders.ts:25-32 | building the parameters from already built parameters gives them back: the building is idempotent |
| `Database.Invoke` | src/models/Orders.ts:34-35 | the client reports success with the payload, or failure with the database error and no payload |
| `Orders.DataOrErrorOf` | src/models/Orders.ts:35-39 | on failure only `error` (the database error), on success only `data` (the payload) |
| `Orders.DataOrErrorExclusive` | src/models/Orders.ts:34-39 | exactly one of `data` and `error` is present, `data` exactly when the procedure succeeded |
| `Orders.CreateOrder` | src/models/Orders.ts:24-40 | invokes the procedure on the built parameters and shapes its answer; the order is stored exactly when the procedure succeeds |
| `Database.Store.ProcCreateNewOrder` | src/models/Orders.ts:34-34 | the order answered by a succeeding procedure is appended; a failing one writes nothing |
| `Orders.GetOrdersForwardsFilters` | src/models/Orders.ts:50-62 | both filters reach the procedure unchanged (two procedures that agree on them give the same result) and exactly one of `data` and `error` is present |
| `MemberJoinGroup.GroupGate` | src/actions/member-join-group-action.ts:33-49 | the Group gates end in unknown, closed, password mismatch or pass, and in nothing else: unknown exactly when the Group is missing or soft-deleted, closed exactly when it is active and closed, mismatch exactly when it is active, open and holds a password other than the offer |
| `MemberJoinGroup.JoinReply` | src/actions/member-join-group-action.ts:26-65 | success exactly when every gate passed and the row was inserted; a failed gate gives 400 with its message; a failed insert gives 500 |
| `MemberJoinGroup.MemberJoinGroupAction` | src/actions/member-join-group-action.ts:19-66 | the action with the join-row insert awaited (the corrected flow of the finding below): the reply is `JoinReply` of the first failing gate and the insert's outcome, and the join table gains exactly `(member_id, group_id)` when the reply is a success; nothing else changes |
| `MemberJoinGroup.LinkIffEveryGatePasses` | src/actions/member-join-group-action.ts:26-58 | the insert is reached exactly when the Member is active, the Group is active, open and takes the password, and the pair is not linked yet |
| `MemberJoinGroup.MemberGateComesFirst` | src/actions/member-join-group-action.ts:27-31 | an inactive Member is turned away whatever the Group and join tables hold |
| `MemberJoinGroup.ClosedGroupIgnoresPassword` | src/actions/member-join-group-action.ts:40-42 | a closed Group turns the attempt away whatever password is offered |
| `MemberJoinGroup.MissingGroupIsUnknown` | src/actions/member-join-group-action.ts:34-38 | an active Member meeting a Group with no row, or whose first row is soft-deleted, is refused with "Group not found" for that id |
| `MemberJoinGroup.ClosedGroupIsRefused` | src/actions/member-join-group-action.ts:40-42 | an active Member meeting an active closed Group is refused with the closed-Group message, whatever password is offered |
| `MemberJoinGroup.NullPasswordAdmitsAnyOffer` | src/actions/member-join-group-action.ts:46-49 | a Group without a password never fails the password gate, whatever is offered |
| `MemberJoinGroup.SecondJoinIsDuplicate` | src/actions/member-join-group-action.ts:52-65 | after a successful join the same request stops at the duplicate gate |
| `MemberJoinGroup.JoinKeepsLinksUnique` | src/actions/member-join-group-action.ts:52-65 | a successful join keeps the join table free of duplicate pairs |
| `MemberJoinGroup.AsWrittenReportsFailedInsertAsSuccess` | src/actions/member-join-group-action.ts:59-63 | as written, a failed insert is reported as success; elsewhere the written and the corrected replies agree |
| `CreateNewGroup.ValidateNewGroupDTO` | src/actions/create-new-group-action.ts:57-77 | a bad name is reported first, then a bad creator id with the internal-error message, then the password check's message, the password being checked only when truthy |
| `CreateNewGroup.FalsyPasswordIsNeverChecked` | src/actions/create-new-group-action.ts:69-74 | an empty or absent password never causes an error, whatever the password policy |
| `CreateNewGroup.NewGroupFieldsTrimmed` | src/actions/create-new-group-action.ts:26-28 | the inserted name, password and creator id are trimmed, and a password is stored exactly when a truthy one was given |
| `CreateNewGroup.CreateNewGroupAction` | src/actions/create-new-group-action.ts:19-47 | 400 with no lookup on a validation failure; 400 with nothing inserted for an unknown or deleted creator; otherwise 201 with the redacted new Group, or 500 with nothing inserted |
| `CreateNewMemberAndJoinGroup.ValidateNewMemberDTO` | src/actions/create-new-member-and-join-group-action.ts:72-83 | the name is checked before the Group id, the password not at all |
| `CreateNewMemberAndJoinGroup.CreateNewMemberAndJoinGroupAction` | src/actions/create-new-member-and-join-group-action.ts:16-62 | 400 before any lookup on a validation failure; 400 for an unknown, deleted or closed Group or a wrong password; 500 with nothing created on a sign-in error, a missing user or a failed procedure; otherwise 201 and the trimmed Member and its join row are added |
| `CreateNewMemberAndJoinGroup.CreatedMemberIsAlreadyInGroup` | src/actions/create-new-member-and-join-group-action.ts:52-58 | the created Member is in the Group: joining it again stops at the duplicate gate |
| `CreateNewMemberAndJoinGroup.OfferedPasswordIsNotTrimmed` | src/actions/create-new-member-and-join-group-action.ts:39-42 | the offered password is compared untrimmed: for every offer `p` with surrounding whitespace, an active, open Group whose password is `Trim(p)` refuses `p` and admits `Trim(p)` |
| `CreateNewMemberAndGroup.ValidateNewMemberAndNewGroupDTO` | src/actions/create-new-member-and-group-action.ts:81-102 | Member name, then Group name, then the password, checked only when truthy and not blank after trimming |
| `CreateNewMemberAndGroup.WhitespacePasswordIsNotChecked` | src/actions/create-new-member-and-group-action.ts:94-99 | a whitespace-only password passes whatever the password policy says |
| `CreateNewMemberAndGroup.ProcParametersShape` | src/actions/create-new-member-and-group-action.ts:53-58 | trimmed names; a trimmed password exactly when a truthy one was given, a whitespace-only one being sent as `""` |
| `CreateNewMemberAndGroup.PayloadOf` | src/actions/create-new-member-and-group-action.ts:62-64 | the payload Group's creator is the payload Member |
| `Database.Store.ProcCreateNewMemberAndGroup` | src/actions/create-new-member-and-group-action.ts:60-61 | the procedure adds the Member, the Group it created and their join row together, or nothing |
| `CreateNewMemberAndGroup.CreateNewMemberAndGroupAction` | src/actions/create-new-member-and-group-action.ts:35-72 | 400 before sign-in on a validation failure; 500 with nothing created on a sign-in error, a missing user or a refused procedure; otherwise 201 with the new Member and Group, the Group's creator being the Member |
| `CreateNewMemberAndGroup.BootstrapLinksCreator` | src/actions/create-new-member-and-group-action.ts:60-66 | afterwards the new Member is linked to the new Group and recorded as its creator |
| `AppCreateNewMemberAndGroup.ValidateNewMemberAndNewGroupDTO` | src/app/actions/create-new-member-and-group-action.tsx:63-82 | Member name before Group name; the password check always runs, and when it refuses after both names pass the reply is the check's own message |
| `AppCreateNewMemberAndGroup.ValidatorsAgreeWhenPasswordGiven` | src/app/actions/create-new-member-and-group-action.tsx:75-79 | the two validators agree when a password is given; with none, only this variant can refuse |
| `AppCreateNewMemberAndGroup.CreateNewMemberAndGroup` | src/app/actions/create-new-member-and-group-action.tsx:18-54 | the same paths as the newer action, every reply without an HTTP code, and on success the Group's creator is the Member |
| `CreateNewOrder.ValidateNewOrderDTO` | src/actions/create-new-order-action.ts:37-69 | creator id, Group id, title, description (only when truthy), price, participants; the first failure's message, or null |
| `CreateNewOrder.NewOrderValidIff` | src/actions/create-new-order-action.ts:37-69 | a request passes exactly when the ids and title are non-empty strings, a truthy description is a string, the price is above zero and every participant id is a non-empty string; an absent or empty list passes |
| `CreateNewOrder.PriceRule` | src/actions/create-new-order-action.ts:55-57 | once the ids, title and description pass, the price message is answered exactly when the price is NaN, zero or negative; a positive price leads to acceptance or to the participants message only |
| `CreateNewOrder.ValidRequestIsTyped` | src/actions/create-new-order-action.ts:17-23 | a request that passes has the shape `createOrder` trims |
| `CreateNewOrder.CreateNewOrderAction` | src/actions/create-new-order-action.ts:15-29 | 400 without invoking the procedure on a validation failure, whatever the description holds; a database error answers its client message with the code for its type; success answers 201 with the stored Order |
| `Orders.FetchOrder` | src/actions/update-order-action.ts:26-27 | null exactly when no Order has the id; otherwise the first Order with it |
| `UpdateOrder.UpdateRejection` | src/actions/update-order-action.ts:29-66 | every failed check answers failure without payload: 500 for a user without a Member, 400 otherwise |
| `UpdateOrder.OrderUpdatesFor` | src/actions/update-order-action.ts:69-78 | the title and description, trimmed, exactly when each is a non-empty string; the price exactly when it is a number other than zero |
| `UpdateOrder.UpdatePriceRule` | src/actions/update-order-action.ts:76-78 | zero and NaN prices are dropped from the update; negative prices are kept |
| `Database.ApplyUpdates` | src/actions/update-order-action.ts:69-80 | the updated Order takes each given field and keeps the rest |
| `UpdateOrder.UpdateTouchesOnlyThreeFields` | src/actions/update-order-action.ts:69-78 | an update never changes the id, Group, creator, participant count or timestamps |
| `Database.Store.UpdateOrderById` | src/actions/update-order-action.ts:80-80 | the first Order with the id is replaced by its updated copy and returned; null, with nothing changed, when there is none or the database refuses |
| `UpdateOrder.UpdateOrderAction` | src/actions/update-order-action.ts:24-87 | a failed check answers its rejection with nothing changed; otherwise the Order is updated in place and returned with OK, or 500 with nothing changed |
| `UpdateOrder.OnlyTheCreatorMayUpdate` | src/actions/update-order-action.ts:63-66 | for an active Order and an active requesting Member, the update goes ahead exactly when that Member created the Order; otherwise it is refused with 400 |
| `GetOrdersAction.FetchOrdersAction` | src/actions/get-orders-action.ts:14-22 | success exactly when the listing succeeds; a failure answers the client message with `ForDatabaseError` of its error type, so the code depends on the type alone; a success answers the listing with OK |
| `GetOrdersAction.DefaultsAskForEveryOrder` | src/actions/get-orders-action.ts:14-16 | both filters default to null and are passed on as they are |
| `DisplayGroupsGrid.CompareByDate` | src/components/DisplayGroupsGrid.tsx:19-30 | 1 exactly when `a` is older, -1 exactly when newer, 0 exactly when created at the same time |
| `DisplayGroupsGrid.CompareAntisymmetric` | src/components/DisplayGroupsGrid.tsx:19-30 | swapping the arguments negates the comparison |
| `DisplayGroupsGrid.CompareTransitive` | src/components/DisplayGroupsGrid.tsx:19-30 | the order the comparator defines is transitive |
| `DisplayGroupsGrid.InsertByDate` | src/components/DisplayGroupsGrid.tsx:19-30 | inserting into a most-recent-first list keeps it so and adds exactly one element |
| `DisplayGroupsGrid.SortGroupsByDate` | src/components/DisplayGroupsGrid.tsx:18-30 | the result holds the same Groups (same multiset) most recent first; the input list is a value and stays as it was |

## Left out

- The React/Mantine pages, forms and cards, the realtime Orders grid, the HTTP route handlers, the server-action wrappers (cache invalidation only) and logging: they are presentation or transport.
- The Supabase client and SDK: the database is the in-memory `Store`; its reads never fail, and the null-result branch of each lookup is modelled by the shaping functions that take an optional result (`FetchGroup`, `FirstRow`, `InGroupFromRows`, `FetchMemberAndGroups`).
- The database trigger that links a new Group's creator to it (src/models/Groups.ts:15): it lives in the database, so `CreateGroup` and `CreateNewGroupAction` add only the Group row.
- Stored-procedure bodies and the anonymous sign-in service: only their effects as the callers rely on them are modelled; their verdicts are parameters.
- `isValidGroupPassword`, `ERROR_MESSAGE_FUNCTIONS.RESOURCE_WITH_ID_NOT_FOUND`, `getHttpCodeFromCustomDatabaseError` and the `HTTP_ERROR_MESSAGES` texts are not part of this model: the first is the parameter `PasswordCheck`, the others are the symbolic `Message.ResourceNotFound`, `HttpCode.ForDatabaseError` and `UnverifiableRequester`. The internal-error text of `HTTP_ERROR_MESSAGES` (src/api/utils/HTTPStatusCodes.ts:9) is reproduced as `InternalError`; the other texts are symbolic.
- JavaScript numbers and dates: a price is a real number or NaN, with no coercion of non-numbers; `created_at` is an integer timestamp, so `new Date(...).getTime()` is not modelled.
- `Orders.fetchOrder`, `Orders.updateOrderById`, `Orders.fetchOrders` and `Users.getUserId` are called by the actions but not defined in the files modelled (src/models/Users.ts defines `getAuthUserId`); they are modelled as the first Order with the id (`Orders.FetchOrder`), an in-place update of that row (`Database.Store.UpdateOrderById`), the listing `Orders.GetOrders`, and a `userId` parameter.
- `isString` does not trim, so a whitespace-only string passes (`Validators.WhitespaceOnlyIsString`).
- Database.Invoke: a failed procedure always carries its database error; the client's `databaseError` is declared `DatabaseError | null` (src/types/promise-results-types.ts:31), and only the callers' `as DatabaseError` casts assume it is present, so a failure without an error object is not modelled (`Orders.DataOrErrorExclusive` and the actions' error branches rely on this).
- Concurrent requests: each action is one atomic step over the `Store`. The source checks membership and inserts the join row in separate round trips (src/actions/member-join-group-action.ts:52 and :59) and no uniqueness constraint on the join table is part of this model, so `MemberJoinGroup.JoinKeepsLinksUnique` and `CreateNewMemberAndJoinGroup.CreatedMemberIsAlreadyInGroup` hold only when requests do not interleave.
- Stability of the Groups sort is not stated, only order and permutation; the model's insertion keeps Groups created at the same time in their input order.
- CreateNewGroup.CreateNewGroupAction: the password is restricted to its declared type `string | null | undefined`; other values are not modelled.
- CreateNewMemberAndJoinGroup.CreateNewMemberAndJoinGroupAction: the offered password is restricted to its declared type `string | null | undefined`; other values are not modelled.
- CreateNewMemberAndGroup.CreateNewMemberAndGroupAction: the Group password is restricted to its declared type `string | null | undefined`; other values are not modelled.
- AppCreateNewMemberAndGroup.CreateNewMemberAndGroup: the Group password is restricted to its declared type `string | null | undefined`; other values are not modelled.
- CreateNewOrder.CreateNewOrderAction: a request that passes validation must carry a string or absent description; a falsy non-string description (0, false, NaN) passes validation and then makes `description?.trim()` throw (src/models/Orders.ts:30), which is not modelled. Any other description is covered, a truthy non-string one being answered with the description message.
- Database.Store.ProcCreateNewMemberAndGroup: the procedure's answer is taken as the callers at src/actions/create-new-member-and-group-action.ts:60-62 and src/app/actions/create-new-member-and-group-action.tsx:43-45 read it, an array (or null) whose first row is read, with exactly one row on acceptance. `Members.createMember` and `Orders.createOrder` (src/models/Members.ts:32-37, src/models/Orders.ts:34-39) read the same client method's answer as a `{success, payload, databaseError}` record; under that reading the `!== null` test never fails and reading `[0]` throws, as it does for an empty array. Neither of those outcomes is modelled.
- Infinite prices: a `JsValues.Number` is NaN or a finite real, so a price of `Infinity`, which passes both the creation rule (`CreateNewOrder.PriceRule`) and the update rule (`UpdateOrder.UpdatePriceRule`), is not modelled.
- CreateNewOrder.ValidateNewOrderDTO: `participant_member_ids` is restricted to its declared type, an array of values or absent; a truthy non-array (a string is iterated character by character at src/actions/create-new-order-action.ts:60-61) is not modelled.

## Findings

| source | as written | input that shows it | evidently intended | confidence | as-written member | corrected member |
|---|---|---|---|---|---|---|
| src/actions/member-join-group-action.ts:59-63 | `linkMemberToGroup` is called without `await`, so `success` is a Promise, always truthy, and the 500 branch cannot be reached | every gate passes and the join-row insert fails: the action answers success though no row was added | await the insert and answer 500 when it fails | not executed | `MemberJoinGroup.AsWrittenReportsFailedInsertAsSuccess` | `MemberJoinGroup.JoinReply`, `MemberJoinGroup.MemberJoinGroupAction` |
