/** The persisted entities of the workflow (users and requests), the store
    that holds them, the HTTP-style replies the handlers return, and the
    read-only lookups the handlers share. */
module Domain {

  datatype Option<+T> = None | Some(value: T)

  datatype Role = Employee | Manager

  datatype Status = PendingApproval | Approved | Rejected | Closed

  /** A stored account. `managerId` links an employee to the manager who
      approves their requests. */
  datatype User = User(
    id: int,
    email: string,
    name: string,
    passwordHash: string,
    role: Role,
    managerId: Option<int>)

  /** A stored request. Timestamps are integers supplied by the caller of
      each operation. */
  datatype Request = Request(
    id: int,
    title: string,
    description: string,
    status: Status,
    createdById: int,
    assignedToId: int,
    approvedById: Option<int>,
    approvedAt: Option<int>,
    rejectedAt: Option<int>,
    rejectionReason: Option<string>,
    closedAt: Option<int>,
    createdAt: int)

  /** Both tables, keyed by id, with the next value of each autoincrement
      counter. */
  datatype Store = Store(
    users: map<int, User>,
    requests: map<int, Request>,
    nextUserId: int,
    nextRequestId: int)

  /** The identity an already-verified bearer token carries. */
  datatype Caller = Caller(id: int, role: Role)

  /** The user as the API shows it: never the password hash. */
  datatype PublicUser = PublicUser(id: int, email: string, name: string, role: Role)

  /** The request-body fields a validation message can be attached to. */
  datatype Field =
    | EmailField | NameField | PasswordField | RoleField | ManagerIdField | ManagerNameField
    | TitleField | DescriptionField | ReasonField

  /** A response body on failure: a plain message, or zod's flattened
      `fieldErrors` (the `formErrors` list is always empty here). */
  datatype ErrorBody = Message(text: string) | FieldErrors(fields: map<Field, seq<string>>)

  datatype HttpError = HttpError(code: int, body: ErrorBody)

  datatype Result<+T> = Ok(value: T) | Err(error: HttpError)

  /** What a handler leaves behind: the store after the call and its answer. */
  datatype Reply<+T> = Reply(store: Store, result: Result<T>)

  function Public(u: User): PublicUser {
    PublicUser(u.id, u.email, u.name, u.role)
  }

  /** A 400 reply carrying one message on one field, as the handlers write
      them by hand. */
  function FieldError(field: Field, message: string): HttpError {
    HttpError(400, FieldErrors(map[field := [message]]))
  }

  /** The 400 both signup and create send when no manager has the given name. */
  const ManagerNotFound := FieldError(ManagerNameField, "manager not found")

  // ---------------------------------------------------------------------
  // Invariants of a well-formed store
  // ---------------------------------------------------------------------

  /** The lifecycle fields set are exactly those the current status calls
      for: approval data while approved or closed, rejection data only
      while rejected, a close time only once closed. */
  predicate LifecycleFieldsMatch(r: Request) {
    match r.status
    case PendingApproval =>
      r.approvedById.None? && r.approvedAt.None? && r.rejectedAt.None?
      && r.rejectionReason.None? && r.closedAt.None?
    case Approved =>
      r.approvedById.Some? && r.approvedAt.Some? && r.rejectedAt.None?
      && r.rejectionReason.None? && r.closedAt.None?
    case Rejected =>
      r.approvedById.None? && r.approvedAt.None? && r.rejectedAt.Some? && r.closedAt.None?
    case Closed =>
      r.approvedById.Some? && r.approvedAt.Some? && r.rejectedAt.None?
      && r.rejectionReason.None? && r.closedAt.Some?
  }

  /** Every employee is linked to an existing manager; managers have no
      manager. */
  predicate ManagerLinksValid(users: map<int, User>) {
    forall k :: k in users ==> LinkValid(users, users[k])
  }

  /** `u`'s manager link as the role demands it. */
  predicate LinkValid(users: map<int, User>, u: User) {
    match u.role
    case Manager => u.managerId.None?
    case Employee => u.managerId.Some? && IsManagerId(users, u.managerId.value)
  }

  /** `id` names a stored manager. */
  predicate IsManagerId(users: map<int, User>, id: int) {
    id in users && users[id].role == Manager
  }

  predicate UsersValid(s: Store) {
    && 1 <= s.nextUserId
    && (forall k :: k in s.users ==> s.users[k].id == k && 1 <= k < s.nextUserId)
    && (forall a, b :: a in s.users && b in s.users && s.users[a].email == s.users[b].email ==> a == b)
    && ManagerLinksValid(s.users)
  }

  predicate RequestsValid(s: Store) {
    && 1 <= s.nextRequestId
    && forall k :: k in s.requests ==>
      && s.requests[k].id == k
      && 1 <= k < s.nextRequestId
      && s.requests[k].createdById in s.users
      && s.requests[k].assignedToId in s.users
      && LifecycleFieldsMatch(s.requests[k])
  }

  /** The database constraints and application invariants every handler
      keeps. */
  predicate Valid(s: Store) {
    UsersValid(s) && RequestsValid(s)
  }

  // ---------------------------------------------------------------------
  // Lookups
  // ---------------------------------------------------------------------

  lemma NonEmptyHasElement(ks: set<int>)
    requires ks != {}
    ensures exists k :: k in ks
  {
    if forall k :: k !in ks {
      assert false;
    }
  }

  lemma {:induction false} LeastExists(ks: set<int>)
    requires ks != {}
    ensures exists k :: k in ks && forall j :: j in ks ==> k <= j
  {
    NonEmptyHasElement(ks);
    var a :| a in ks;
    var rest := ks - {a};
    if rest == {} {
      assert ks == {a};
    } else {
      LeastExists(rest);
      var m :| m in rest && forall j :: j in rest ==> m <= j;
      var least := if a < m then a else m;
      forall j | j in ks
        ensures least <= j
      {
        if j != a {
          assert j in rest;
        }
      }
      assert least in ks;
    }
  }

  /** The smallest key of a non-empty set: a fixed representative for the
      database's "first match", whose order the source leaves unspecified. */
  function Least(ks: set<int>): (k: int)
    requires ks != {}
    ensures k in ks && forall j :: j in ks ==> k <= j
  {
    LeastExists(ks);
    var k :| k in ks && forall j :: j in ks ==> k <= j;
    k
  }

  /** `findUnique({ where: { email } })`. */
  function FindUserByEmail(users: map<int, User>, email: string): (r: Option<User>)
    ensures r.None? <==> forall k :: k in users ==> users[k].email != email
    ensures r.Some? ==> r.value in users.Values && r.value.email == email
  {
    var ks := set k | k in users && users[k].email == email;
    assert forall k :: k in users && users[k].email == email ==> k in ks;
    if ks == {} then None else Some(users[Least(ks)])
  }

  /** `findFirst({ where: { name, role: "MANAGER" } })`. Several managers
      may share a name; the model answers with one of them. */
  function FindManagerByName(users: map<int, User>, name: string): (r: Option<User>)
    ensures r.None? <==> forall k :: k in users ==> !(users[k].name == name && users[k].role == Manager)
    ensures r.Some? ==> exists k :: k in users && users[k] == r.value
    ensures r.Some? ==> r.value.name == name && r.value.role == Manager
  {
    var ks := set k | k in users && users[k].name == name && users[k].role == Manager;
    assert forall k :: k in users && users[k].name == name && users[k].role == Manager ==> k in ks;
    if ks == {} then None else Some(users[Least(ks)])
  }

  /** The `managerId` of the request's assignee: the only manager who may
      approve or reject it. `None` when the assignee has no manager. */
  function AssigneeManager(s: Store, r: Request): Option<int> {
    if r.assignedToId in s.users then s.users[r.assignedToId].managerId else None
  }
}
