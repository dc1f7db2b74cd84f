# Request-approval workflow: a Dafny model

The backend of this system lets employees file requests (a title and a
description) with their manager. A manager approves or rejects the request,
and after approval the employee closes it. This project models that
backend's decision logic as pure functions over an in-memory store:

- `text.dfy` (`Text`): the JavaScript string facts the validators depend on.
  These are the UTF-16 length that zod's `.min(n)` counts and
  `String.prototype.trim`.
- `domain.dfy` (`Domain`): users, requests and the store (two id-keyed
  tables with autoincrement counters).
  - It defines the HTTP-style replies, and the invariants a well-formed store
    keeps: a database invariant plus the rule that every employee links to a
    stored manager.
  - It holds the lookups the handlers share. These are `findUnique` by
    e-mail and `findFirst` of a manager by name.
- `validators.dfy` (`Validators`): the four zod schemas as total functions
  from a typed body to zod's flattened field-error map.
- `auth.dfy` (`Auth`): `POST /auth/signup` (manager resolution and account
  creation) and `POST /auth/login` (the credential decision and the token
  payload).
- `requests.dfy` (`Requests`): `POST /requests`, `GET /requests` and the
  approve, reject and close transitions.
- `lifecycle.dfy` (`Lifecycle`): properties that span handlers.
  - The four-state machine `PENDING_APPROVAL → APPROVED | REJECTED`,
    `APPROVED → CLOSED`.
  - Every store-changing operation keeps the store invariants, and any
    sequence of them moves requests only forward.
  - The error precedence approve and reject share.
  - A worked example.

Each handler takes the store, the already-authenticated caller
(`Caller(id, role)`), the parsed body and, where the code stamps a time,
`now`. The store-changing handlers (signup, create, approve, reject, close)
return a `Reply(store, result)`, and every failure hands back the store it
was given. Login returns a `Result<Session>` and the list a sequence of
requests; neither changes the store.

Foreign calls are parameters:

- the e-mail pattern behind zod's `.email()` (`emailOk`);
- `bcrypt.hash` (`hash`);
- `bcrypt.compare` (`verify`).

A JWT is represented by its payload only.

Where the code leaves a choice open (the first of several managers sharing a
name), the model takes the lowest id. The contracts about it hold whichever
manager is taken.

The model follows the code, including these choices a reader might not expect:

- A request in the wrong state is answered with 400, not a conflict status.
- Approve and reject check the status before the caller's role.
- Close checks role and ownership before the status.
- A manager id that names no manager is a 400 on `managerName` ("invalid
  manager reference"), not a not-found error.
- A create-request whose manager name is not the caller's own manager is
  refused with a 400 on `managerName`, not with a separate error kind.

## Model

| member | source | states |
|---|---|---|
| Text.TrimNonEmptyIff | backend/src/utils/validators.ts:15 | `trim()` leaves a non-empty string exactly when the string contains a character outside the JavaScript whitespace set |
| Text.Utf16LengthAppend | backend/src/utils/validators.ts:5-10 | the length zod's `.min` counts adds up under concatenation |
| Text.Utf16LengthOfCodePoint | backend/src/utils/validators.ts:5-10 | one code point counts 2 units exactly when it lies above the Basic Multilingual Plane and 1 otherwise, so an emoji alone already meets `.min(2)` |
| Domain.FindUserByEmail | backend/src/routes/auth.ts:15 | the lookup comes back empty exactly when no stored user has the e-mail; otherwise it returns a stored user with that e-mail |
| Domain.FindManagerByName | backend/src/routes/requests.ts:14 | the lookup comes back empty exactly when no stored MANAGER has the name; otherwise it returns some stored MANAGER with that name |
| Validators.SignupErrors | backend/src/utils/validators.ts:3-20 | for each signup field, the field carries an issue exactly when one of its rules fails. email needs ≥ 1 code unit and the e-mail pattern; name needs ≥ 2; password needs ≥ 6; role must be EMPLOYEE or MANAGER; managerId must be positive when present; managerName fails when present with fewer than 2 code units, or when it is an EMPLOYEE with no manager id and no non-blank name |
| Validators.SignupMessagesNonEmptyIff | backend/src/utils/validators.ts:5-19 | each signup field's own checks report something exactly when one of that field's rules fails |
| Validators.ManagerRequiredIssueIff | backend/src/utils/validators.ts:12-19 | "manager name is required" is among managerName's messages exactly for an EMPLOYEE with no manager id and no non-blank name, whatever the length check says |
| Validators.SignupAcceptedIff | backend/src/utils/validators.ts:3-20 | the signup schema accepts a body exactly when every field rule and the employee refinement hold |
| Validators.ManagerSignupNeedsNoManager | backend/src/utils/validators.ts:12-19 | a MANAGER body never draws the refinement's issue; its managerName fails only on length |
| Validators.ManagerNameMessageOrder | backend/src/utils/validators.ts:10-17 | an employee with no managerId and a blank managerName shorter than 2 gets both managerName messages, the length message first and the refinement's second |
| Validators.BlankNameIsNoReference | backend/src/utils/validators.ts:15 | a managerName made only of whitespace trims to nothing, so without a managerId it is no reference to a manager |
| Validators.UnreferencedShortNameMessages | backend/src/utils/validators.ts:10-17 | an employee with no manager reference and a managerName shorter than 2 gets exactly the length message followed by the refinement's message |
| Validators.BlankManagerNameIsAbsent | backend/src/utils/validators.ts:10-17 | a whitespace-only managerName long enough for the length rule still counts as absent: an employee with nothing else gets exactly the "manager name is required" issue |
| Validators.LoginErrors | backend/src/utils/validators.ts:22-25 | email has an issue exactly when it is empty or fails the pattern; password has one exactly when it is shorter than 6 |
| Validators.LoginAcceptedIff | backend/src/utils/validators.ts:22-25 | the login schema accepts exactly the bodies with a non-empty well-formed e-mail and a password of at least 6 code units |
| Validators.CreateRequestErrors | backend/src/utils/validators.ts:27-31 | title and description have an issue exactly when empty; managerName has one exactly when shorter than 2 |
| Validators.CreateRequestAcceptedIff | backend/src/utils/validators.ts:27-31 | the create schema accepts exactly the bodies with a non-empty title and description and a manager name of at least 2 code units |
| Validators.RejectErrors | backend/src/utils/validators.ts:33-35 | an absent reason is accepted; a present reason is refused exactly when it is empty |
| Auth.LinkEmployee | backend/src/routes/auth.ts:25-33 | a falsy resolved id gives "manager name is required"; an id that is not a stored MANAGER gives "invalid manager reference"; success exactly otherwise, adding one user linked to that manager |
| Auth.CreateAccount | backend/src/routes/auth.ts:13-40 | a taken e-mail gives 409 before any role handling. Failures change nothing; success adds one user with the hashed password and answers its public columns. A manager is always stored with no manager. A stored employee always points at a stored MANAGER. A truthy managerId decides alone; otherwise, on a well-formed store, a name some MANAGER carries succeeds and stores a link to a MANAGER of that name, a name with no MANAGER gives "manager not found", and no name gives "manager name is required" |
| Auth.Signup | backend/src/routes/auth.ts:10-45 | validation errors come first as a 400 with the field map. A taken e-mail then gives 409. Failures change nothing. Success means the body was acceptable; it adds exactly one user storing `hash(password)` and the parsed role, and answers only id, e-mail, name and role. The new row has id `nextUserId` and the body's e-mail and name. A manager is stored with no manager, and an employee who gave a managerId is linked to it. On a well-formed store an employee without one is linked to a stored MANAGER carrying the given managerName. On a well-formed store, an accepted body with a fresh e-mail succeeds exactly when it is a MANAGER's, or its managerId names a stored MANAGER, or it has no managerId and some MANAGER carries its managerName; it never draws "manager name is required" |
| Auth.AcceptedEmployeeNamesManager | backend/src/routes/auth.ts:20-25 | an employee body the schema accepted has a truthy managerId or a truthy managerName, and a truthy name whenever no id is given |
| Auth.Login | backend/src/routes/auth.ts:47-62 | validation errors give a 400. Every other failure is the one 401 "Invalid credentials". Success means a stored user has that e-mail and the password verifies against its hash, and the token payload is exactly that user's id and role. Conversely, on a store with unique e-mails, a stored user whose password verifies always logs in with that payload and public view |
| Auth.ManagerIdTakesPrecedence | backend/src/routes/auth.ts:19-20 | with a truthy managerId, changing managerName never changes the answer |
| Auth.RequiredBranchUnreachable | backend/src/routes/auth.ts:25 | on a well-formed store, a body the signup schema accepted never reaches the "manager name is required" branch |
| Auth.CreateAccountPreservesValid | backend/src/routes/auth.ts:18-40 | account creation keeps every store invariant, including every employee pointing at a stored MANAGER |
| Auth.SignupAddsExactlyOneUser | backend/src/routes/auth.ts:29-33 | a successful signup grows the user table by exactly one |
| Auth.LoginFailuresIndistinguishable | backend/src/routes/auth.ts:52-55 | an unknown e-mail and a wrong password draw the identical reply |
| Requests.Create | backend/src/routes/requests.ts:8-29 | validation comes first, then 403 for a non-employee, then "manager not found" when no MANAGER has the name, then "manager does not match your account" when the caller's manager is none of them. Failures change nothing. Success means the caller's stored manager is a MANAGER with that name; the new request is pending, authored by and assigned to the caller, with no decision fields, and is the only change |
| Requests.CreateSucceedsForOwnManager | backend/src/routes/requests.ts:13-29 | an employee naming the one manager with that name, who is their own, is always accepted |
| Requests.SortNewestFirst | backend/src/routes/requests.ts:44 | the result is a permutation of its input ordered by `createdAt` descending |
| Requests.List | backend/src/routes/requests.ts:36-54 | the list holds exactly the stored requests the caller may see, newest first. A MANAGER sees those whose assignee's manager is the caller; anyone else sees those they created or are assigned |
| Requests.DecisionGate | backend/src/routes/requests.ts:68-71 | the checks pass exactly for a pending request whose assignee's manager is the calling MANAGER. Otherwise the first failing check, in order: 404, 400 not pending, 403 role, 403 not the assignee's manager |
| Requests.Approve | backend/src/routes/requests.ts:61-81 | fails exactly as the shared checks say, changing nothing. Success writes APPROVED, approver = caller, approvedAt = now and no rejection reason; content, rejectedAt and closedAt are kept and no other row changes |
| Requests.Reject | backend/src/routes/requests.ts:83-106 | the body is validated before the request is looked up; then it fails exactly as the shared checks say, changing nothing. Success writes REJECTED, clears the approval, sets rejectedAt = now and the reason as given (or none); content and closedAt are kept |
| Requests.Close | backend/src/routes/requests.ts:108-122 | the checks run in order: 404, 403 non-employee, 403 not the assignee, 400 not approved. Success happens exactly for the approved request's assignee and changes only status to CLOSED and closedAt to now, keeping the approval |
| Lifecycle.ReachesIsClosureOfEdge | backend/src/routes/requests.ts:69-115 | reachability is exactly "same state, one edge, or two edges" of the three transitions, and a rejected or closed request reaches only itself |
| Lifecycle.ReachesTransitive | backend/src/routes/requests.ts:69-115 | reachability in the state machine composes |
| Lifecycle.SignupPreservesValid | backend/src/routes/auth.ts:10-45 | the signup handler keeps the store invariants whatever the body |
| Lifecycle.CreatePreservesValid | backend/src/routes/requests.ts:8-29 | the create handler keeps the store invariants |
| Lifecycle.UpdateInPlacePreservesValid | backend/src/routes/requests.ts:72-75 | rewriting one request in place with the same content and consistent lifecycle fields keeps the store invariants |
| Lifecycle.StepPreservesValid | backend/src/routes/requests.ts:8-122 | every store-changing operation keeps the store invariants |
| Lifecycle.SignupKeepsRequests | backend/src/routes/auth.ts:10-45 | signup never touches the request table |
| Lifecycle.CreateKeepsRequests | backend/src/routes/requests.ts:20-28 | create leaves every existing request as it was |
| Lifecycle.InPlaceFollowsEdges | backend/src/routes/requests.ts:72-75 | a transition that rewrites one request in place along one edge moves every request along at most that edge and leaves terminal ones untouched |
| Lifecycle.StepFollowsEdges | backend/src/routes/requests.ts:61-122 | one operation never removes a request or changes its content; it moves its status along at most one of the three edges and leaves terminal requests untouched |
| Lifecycle.RunPreservesValid | backend/src/routes/requests.ts:8-122 | any sequence of operations keeps the store invariants |
| Lifecycle.RunFollowsLifecycle | backend/src/routes/requests.ts:61-122 | over any sequence of operations a request survives with its content, its status only moves forward, and a rejected or closed request stays exactly as it was |
| Lifecycle.TerminalStatesRefuseTransitions | backend/src/routes/requests.ts:69-115 | approve and a valid reject of a rejected or closed request give 400 not pending to anyone; close fails |
| Lifecycle.ApproveAndRejectShareGate | backend/src/routes/requests.ts:68-96 | with a valid reject body, approve and reject succeed together, and fail with the same error except for the role check's wording |
| Lifecycle.NotPendingIsAnswered400ByAnyone | backend/src/routes/requests.ts:69 | a non-pending request gets the same 400 whoever approves it |
| Lifecycle.NoSecondDecision | backend/src/routes/requests.ts:69 | after an approval or a rejection, approving again gives 400 |
| Lifecycle.CreatedRequestIsVisible | backend/src/routes/requests.ts:40-53 | a new request is in its author's list and their manager's list, and in no other manager's |
| Lifecycle.ExampleDecisions | backend/src/routes/requests.ts:68-116 | on a two-team store with one pending request from an employee of the first team: another employee gets 403 on approval, the other team's manager gets 403, an early close gets 400, and approval then close succeed with the approval kept |

## Left out

- The salt of `bcrypt.hash(password, 10)` is not modelled. The real call draws a fresh salt each time, but `hash` is a deterministic function, so the stored `passwordHash == hash(password)` says more than the source does.
- Password hashing, its comparison and token signing are parameters (`hash`, `verify`); the token is its payload only. The signature, the secret and the seven-day expiry are not modelled.
- The e-mail pattern of zod's `.email()` is a parameter (`emailOk`).
- The bearer-token middleware is not modelled; the caller arrives as an authenticated id and role.
- Persistence is an in-memory store. The 500 "database error" / "Database not configured" replies have no counterpart.
- A non-numeric `:id` (`Number` giving `NaN`) has no counterpart; ids are integers.
- Bodies are typed. zod's type errors (a number where a string is expected, a fractional `managerId`, a missing required field) are not modelled.
- zod's default messages for the enum and `.positive()` checks are written out as zod 3 phrases them.
- Several managers sharing a name: the database's "first match" is unspecified, so the model takes the lowest id. Contracts about the lookup hold for any choice.
- The list's `include` of the creator's and assignee's name and e-mail is not modelled; the list answers the request rows.
- The order among requests with equal `createdAt` is whatever the sort yields; only the descending order is stated.
- Time is the `now` parameter; timestamps are integers.
- Concurrency between the read and the update of a transition is not modelled; each handler runs atomically.
- An assignee row that does not exist (the foreign key rules it out) is treated as having no manager, so approve and reject answer 403.
- The server wiring and the seed script are not modelled. The seed inserts a request whose assignee differs from its creator, which no handler can produce.
- The frontend pages and their client-side schema are not modelled.
