/** The `/auth` routes: signup (account provisioning with manager
    resolution) and login (the credential decision and the token payload).
    Password hashing, its comparison and token signing are foreign calls,
    so they arrive as function parameters; only the payload of the token is
    modelled. */
module Auth {
  import opened Domain
  import opened Validators

  /** A signup body after `signupSchema` accepted it: the role is one of the
      two enum values. */
  datatype SignupData = SignupData(
    email: string,
    name: string,
    password: string,
    role: Role,
    managerId: Option<int>,
    managerName: Option<string>)

  /** What the token carries: exactly the user's id and role. */
  datatype TokenPayload = TokenPayload(id: int, role: Role)

  /** A successful login: the signed payload and the public view of the user. */
  datatype Session = Session(token: TokenPayload, user: PublicUser)

  const EmailInUse := HttpError(409, Message("Email already in use"))
  const ManagerRequired := FieldError(ManagerNameField, "manager name is required")
  const InvalidManagerReference := FieldError(ManagerNameField, "invalid manager reference")
  const InvalidCredentials := HttpError(401, Message("Invalid credentials"))

  /** The parsed role of an accepted body. */
  function Parse(b: SignupBody): SignupData {
    SignupData(b.email, b.name, b.password,
               if b.role == "EMPLOYEE" then Employee else Manager,
               b.managerId, b.managerName)
  }

  /** JavaScript truthiness of a `number | null`: zero counts as absent. */
  predicate IdTruthy(id: Option<int>) {
    id.Some? && id.value != 0
  }

  /** JavaScript truthiness of a `string | undefined`: "" counts as absent. */
  predicate NameTruthy(name: Option<string>) {
    name.Some? && name.value != []
  }

  /** Some stored account already uses `email`. */
  predicate EmailTaken(s: Store, email: string) {
    exists k :: k in s.users && s.users[k].email == email
  }

  /** `s2` is `s` with one user added under the next autoincrement id and
      nothing else changed. */
  predicate AddsOneUser(s: Store, s2: Store) {
    && s.nextUserId in s2.users
    && s2.users - {s.nextUserId} == s.users - {s.nextUserId}
    && s2.nextUserId == s.nextUserId + 1
    && s2.requests == s.requests
    && s2.nextRequestId == s.nextRequestId
  }

  /** `prisma.user.create`, answering with the selected public columns. */
  function InsertUser(s: Store, d: SignupData, managerId: Option<int>, hash: string -> string): (r: Reply<PublicUser>)
    ensures r.result.Ok? && AddsOneUser(s, r.store)
    ensures r.store.users[s.nextUserId] ==
      User(s.nextUserId, d.email, d.name, hash(d.password), d.role, managerId)
    ensures r.result.value == Public(r.store.users[s.nextUserId])
  {
    var u := User(s.nextUserId, d.email, d.name, hash(d.password), d.role, managerId);
    Reply(s.(users := s.users[s.nextUserId := u], nextUserId := s.nextUserId + 1), Ok(Public(u)))
  }

  /** The employee branch once a manager id has been settled on: it must be
      present and name a stored manager. */
  function LinkEmployee(s: Store, d: SignupData, resolved: Option<int>, hash: string -> string): (r: Reply<PublicUser>)
    ensures !IdTruthy(resolved) ==> r.result == Err(ManagerRequired)
    ensures IdTruthy(resolved) && !IsManagerId(s.users, resolved.value) ==> r.result == Err(InvalidManagerReference)
    ensures r.result.Ok? <==> IdTruthy(resolved) && IsManagerId(s.users, resolved.value)
    ensures r.result.Err? ==> r.store == s
    ensures r.result.Ok? ==> AddsOneUser(s, r.store) && r.store.users[s.nextUserId].managerId == resolved
  {
    if !IdTruthy(resolved) then Reply(s, Err(ManagerRequired))
    else if !IsManagerId(s.users, resolved.value) then Reply(s, Err(InvalidManagerReference))
    else InsertUser(s, d, resolved, hash)
  }

  /** The signup handler after validation. An employee's manager is taken
      from `managerId` when that is truthy, else looked up by
      `managerName`, and in both cases must be a stored manager; a manager
      is stored without one. */
  function CreateAccount(s: Store, d: SignupData, hash: string -> string): (r: Reply<PublicUser>)
    ensures EmailTaken(s, d.email) ==> r.result == Err(EmailInUse)
    ensures r.result.Err? ==> r.store == s
    ensures r.result.Ok? ==> AddsOneUser(s, r.store)
    ensures r.result.Ok? ==>
      var u := r.store.users[s.nextUserId];
      && u == User(s.nextUserId, d.email, d.name, hash(d.password), d.role, u.managerId)
      && r.result.value == Public(u)
    ensures !EmailTaken(s, d.email) && d.role == Manager ==>
      r.result.Ok? && r.store.users[s.nextUserId].managerId.None?
    ensures r.result.Ok? && d.role == Employee ==>
      var m := r.store.users[s.nextUserId].managerId;
      m.Some? && IsManagerId(s.users, m.value)
    ensures !EmailTaken(s, d.email) && d.role == Employee && IdTruthy(d.managerId) ==>
      && (r.result.Ok? <==> IsManagerId(s.users, d.managerId.value))
      && (r.result.Err? ==> r.result == Err(InvalidManagerReference))
      && (r.result.Ok? ==> r.store.users[s.nextUserId].managerId == d.managerId)
    ensures !EmailTaken(s, d.email) && d.role == Employee && !IdTruthy(d.managerId) ==>
      && (NameTruthy(d.managerName) && FindManagerByName(s.users, d.managerName.value).None?
          ==> r.result == Err(ManagerNotFound))
      && (!NameTruthy(d.managerName) ==> r.result == Err(ManagerRequired))
    ensures UsersValid(s) && !EmailTaken(s, d.email) && d.role == Employee && !IdTruthy(d.managerId)
            && NameTruthy(d.managerName) && FindManagerByName(s.users, d.managerName.value).Some? ==>
      && r.result.Ok?
      && var m := r.store.users[s.nextUserId].managerId;
         m.Some? && m.value in s.users
         && s.users[m.value].name == d.managerName.value && s.users[m.value].role == Manager
  {
    if FindUserByEmail(s.users, d.email).Some? then Reply(s, Err(EmailInUse))
    else if d.role == Employee then
      if !IdTruthy(d.managerId) && NameTruthy(d.managerName) then
        match FindManagerByName(s.users, d.managerName.value)
        case None => Reply(s, Err(ManagerNotFound))
        case Some(m) => LinkEmployee(s, d, Some(m.id), hash)
      else
        LinkEmployee(s, d, d.managerId, hash)
    else
      InsertUser(s, d, None, hash)
  }

  /** POST /auth/signup: the body is validated first (400 with zod's field
      errors), then the account is created. */
  function Signup(s: Store, b: SignupBody, emailOk: string -> bool, hash: string -> string): (r: Reply<PublicUser>)
    ensures SignupErrors(b, emailOk) != map[] ==>
      r == Reply(s, Err(HttpError(400, FieldErrors(SignupErrors(b, emailOk)))))
    ensures SignupErrors(b, emailOk) == map[] && EmailTaken(s, b.email) ==> r == Reply(s, Err(EmailInUse))
    ensures r.result.Err? ==> r.store == s
    ensures r.result.Ok? ==> SignupAcceptable(b, emailOk) && AddsOneUser(s, r.store)
    ensures r.result.Ok? ==>
      var u := r.store.users[s.nextUserId];
      && u.passwordHash == hash(b.password)
      && (u.role == Employee <==> b.role == "EMPLOYEE")
      && r.result.value == PublicUser(s.nextUserId, b.email, b.name, u.role)
    ensures r.result.Ok? ==>
      var u := r.store.users[s.nextUserId];
      && u.id == s.nextUserId && u.email == b.email && u.name == b.name
      && (b.role == "MANAGER" ==> u.managerId.None?)
      && (b.role == "EMPLOYEE" && b.managerId.Some? ==> u.managerId == b.managerId)
    ensures UsersValid(s) && r.result.Ok? && b.role == "EMPLOYEE" && b.managerId.None? ==>
      var m := r.store.users[s.nextUserId].managerId;
      m.Some? && IsManagerId(s.users, m.value) && s.users[m.value].name == b.managerName.value
    ensures UsersValid(s) && SignupErrors(b, emailOk) == map[] && !EmailTaken(s, b.email) ==>
      && (r.result.Ok? <==>
            || b.role == "MANAGER"
            || (b.managerId.Some? && IsManagerId(s.users, b.managerId.value))
            || (b.managerId.None? && b.managerName.Some?
                && exists k :: k in s.users && s.users[k].name == b.managerName.value && s.users[k].role == Manager))
      && r.result != Err(ManagerRequired)
  {
    var errs := SignupErrors(b, emailOk);
    SignupAcceptedIff(b, emailOk);
    if errs != map[] then Reply(s, Err(HttpError(400, FieldErrors(errs))))
    else
      AcceptedEmployeeNamesManager(b, emailOk);
      CreateAccount(s, Parse(b), hash)
  }

  /** An employee body the schema accepted carries a truthy manager id or a
      truthy manager name: the refinement's "non-blank" is stronger than
      JavaScript's "non-empty". */
  lemma AcceptedEmployeeNamesManager(b: SignupBody, emailOk: string -> bool)
    requires SignupErrors(b, emailOk) == map[]
    ensures b.role == "EMPLOYEE" ==> IdTruthy(b.managerId) || NameTruthy(b.managerName)
    ensures b.role == "EMPLOYEE" && b.managerId.None? ==> NameTruthy(b.managerName)
  {
    SignupAcceptedIff(b, emailOk);
    if b.role == "EMPLOYEE" && b.managerId.None? {
      Text.TrimNonEmptyIff(b.managerName.value);
    }
  }

  /** POST /auth/login: after validation, an unknown e-mail and a wrong
      password draw the same 401; otherwise the token carries the stored
      user's id and role. `verify` stands for `bcrypt.compare`. */
  function Login(s: Store, b: LoginBody, emailOk: string -> bool, verify: (string, string) -> bool): (r: Result<Session>)
    ensures LoginErrors(b, emailOk) != map[] ==> r == Err(HttpError(400, FieldErrors(LoginErrors(b, emailOk))))
    ensures r.Err? && LoginErrors(b, emailOk) == map[] ==> r == Err(InvalidCredentials)
    ensures r.Ok? ==>
      exists k :: k in s.users
        && s.users[k].email == b.email
        && verify(b.password, s.users[k].passwordHash)
        && r.value == Session(TokenPayload(s.users[k].id, s.users[k].role), Public(s.users[k]))
    ensures UsersValid(s) && LoginErrors(b, emailOk) == map[] ==>
      forall k :: k in s.users && s.users[k].email == b.email && verify(b.password, s.users[k].passwordHash) ==>
        r == Ok(Session(TokenPayload(k, s.users[k].role), Public(s.users[k])))
  {
    var errs := LoginErrors(b, emailOk);
    if errs != map[] then Err(HttpError(400, FieldErrors(errs)))
    else
      match FindUserByEmail(s.users, b.email)
      case None => Err(InvalidCredentials)
      case Some(u) =>
        if !verify(b.password, u.passwordHash) then Err(InvalidCredentials)
        else Ok(Session(TokenPayload(u.id, u.role), Public(u)))
  }

  // ---------------------------------------------------------------------
  // Properties across inputs
  // ---------------------------------------------------------------------

  /** With a truthy `managerId` the name is never consulted: any other
      `managerName` gives the same reply. */
  lemma ManagerIdTakesPrecedence(s: Store, d: SignupData, otherName: Option<string>, hash: string -> string)
    requires d.role == Employee && IdTruthy(d.managerId)
    ensures CreateAccount(s, d, hash).result == CreateAccount(s, d.(managerName := otherName), hash).result
  {
  }

  /** Once `signupSchema` has accepted a body, the handler's own "manager
      name is required" branch cannot be taken: the refinement already
      guarantees a positive id or a non-blank name, and stored ids are
      positive. */
  lemma RequiredBranchUnreachable(s: Store, b: SignupBody, emailOk: string -> bool, hash: string -> string)
    requires Valid(s)
    requires SignupErrors(b, emailOk) == map[]
    ensures CreateAccount(s, Parse(b), hash).result != Err(ManagerRequired)
  {
    AcceptedEmployeeNamesManager(b, emailOk);
  }

  /** Signup keeps every store invariant; in particular each stored
      employee still points at a stored manager. */
  lemma CreateAccountPreservesValid(s: Store, d: SignupData, hash: string -> string)
    requires Valid(s)
    ensures Valid(CreateAccount(s, d, hash).store)
  {
    var r := CreateAccount(s, d, hash);
    if r.result.Ok? {
      var s2 := r.store;
      var n := s.nextUserId;
      assert n !in s.users;
      assert s2.users == s.users[n := s2.users[n]];
      forall k | k in s2.users
        ensures LinkValid(s2.users, s2.users[k])
      {
        if k != n {
          assert LinkValid(s.users, s.users[k]);
        }
      }
    }
  }

  /** On success exactly one account is added. */
  lemma SignupAddsExactlyOneUser(s: Store, b: SignupBody, emailOk: string -> bool, hash: string -> string)
    requires Valid(s)
    requires Signup(s, b, emailOk, hash).result.Ok?
    ensures |Signup(s, b, emailOk, hash).store.users| == |s.users| + 1
  {
    AddsOneUserGrowsUsers(s, Signup(s, b, emailOk, hash).store);
  }

  lemma AddsOneUserGrowsUsers(s: Store, s2: Store)
    requires UsersValid(s) && AddsOneUser(s, s2)
    ensures |s2.users| == |s.users| + 1
  {
    var n := s.nextUserId;
    assert n !in s.users;
    forall k
      ensures k in s2.users <==> k in s.users || k == n
    {
      if k != n {
        assert k in s2.users <==> k in s2.users - {n};
        assert k in s.users <==> k in s.users - {n};
      }
    }
    assert s2.users.Keys == s.users.Keys + {n};
  }

  /** An unknown e-mail and a wrong password are indistinguishable to the
      caller. */
  lemma LoginFailuresIndistinguishable(
    s: Store, unknown: LoginBody, wrong: LoginBody,
    emailOk: string -> bool, verify: (string, string) -> bool)
    requires UsersValid(s)
    requires LoginErrors(unknown, emailOk) == map[] && LoginErrors(wrong, emailOk) == map[]
    requires !EmailTaken(s, unknown.email)
    requires exists k :: k in s.users && s.users[k].email == wrong.email
                         && !verify(wrong.password, s.users[k].passwordHash)
    ensures Login(s, unknown, emailOk, verify) == Login(s, wrong, emailOk, verify) == Err(InvalidCredentials)
  {
  }
}
