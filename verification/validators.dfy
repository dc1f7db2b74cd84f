/** The zod request-body schemas (signup, login, create-request, reject) as
    total functions from a typed body to zod's flattened field-error map.
    An empty map means the body parsed. Every string check of a field runs,
    so one field can collect several messages, in declaration order. */
module Validators {
  import opened Domain
  import opened Text

  /** Field to the messages of its failed checks; absent when the field
      passed. */
  type FieldErrors = map<Field, seq<string>>

  datatype SignupBody = SignupBody(
    email: string,
    name: string,
    password: string,
    role: string,
    managerId: Option<int>,
    managerName: Option<string>)

  datatype LoginBody = LoginBody(email: string, password: string)

  datatype CreateRequestBody = CreateRequestBody(title: string, description: string, managerName: string)

  datatype RejectBody = RejectBody(reason: Option<string>)

  /** The body fields of signup. */
  const SignupFields := {EmailField, NameField, PasswordField, RoleField, ManagerIdField, ManagerNameField}

  const EmailRequired := "email is required"
  const EmailInvalid := "email is invalid"
  const NameTooShort := "name must be at least 2 characters"
  const PasswordTooShort := "password must be at least 6 characters"
  const NotPositive := "Number must be greater than 0"
  const ManagerNameTooShort := "manager name must be at least 2 characters"
  const ManagerNameRequired := "manager name is required"
  const TitleRequired := "title is required"
  const DescriptionRequired := "description is required"
  const ReasonTooShort := "reason must be at least 1 character"

  /** zod's default message for a value outside `z.enum(["EMPLOYEE", "MANAGER"])`. */
  function InvalidRole(received: string): string {
    "Invalid enum value. Expected 'EMPLOYEE' | 'MANAGER', received '" + received + "'"
  }

  /** The messages recorded for `field`. */
  function Messages(errs: FieldErrors, field: Field): seq<string> {
    if field in errs then errs[field] else []
  }

  /** The issue one check contributes: its message when it fails. */
  function Failed(ok: bool, message: string): seq<string> {
    if ok then [] else [message]
  }

  /** `z.string().min(n)`: at least `n` UTF-16 code units. */
  predicate MinLength(s: string, n: nat) {
    Utf16Length(s) >= n
  }

  /** The employee branch of the signup refinement: a manager id of any
      value, or a manager name with a character `trim()` keeps. */
  predicate HasManagerReference(b: SignupBody) {
    b.managerId.Some? || (b.managerName.Some? && Trim(b.managerName.value) != [])
  }

  predicate IsRoleName(role: string) {
    role == "EMPLOYEE" || role == "MANAGER"
  }

  /** The issues `signupSchema` raises on field `f`, in the order zod
      reports them: the field's own checks in declaration order, then, on
      `managerName`, the `superRefine` rule that an employee names a
      manager. `emailOk` stands for zod's e-mail pattern. */
  function SignupMessages(b: SignupBody, emailOk: string -> bool, f: Field): seq<string> {
    match f
    case EmailField => Failed(MinLength(b.email, 1), EmailRequired) + Failed(emailOk(b.email), EmailInvalid)
    case NameField => Failed(MinLength(b.name, 2), NameTooShort)
    case PasswordField => Failed(MinLength(b.password, 6), PasswordTooShort)
    case RoleField => Failed(IsRoleName(b.role), InvalidRole(b.role))
    case ManagerIdField => Failed(b.managerId.None? || b.managerId.value > 0, NotPositive)
    case ManagerNameField =>
      Failed(b.managerName.None? || MinLength(b.managerName.value, 2), ManagerNameTooShort)
      + Failed(b.role != "EMPLOYEE" || HasManagerReference(b), ManagerNameRequired)
    case _ => []
  }

  /** `signupSchema.safeParse(...).error.flatten().fieldErrors`; empty when
      the body parses. */
  function SignupErrors(b: SignupBody, emailOk: string -> bool): (r: FieldErrors)
    ensures (EmailField in r) <==> !MinLength(b.email, 1) || !emailOk(b.email)
    ensures (NameField in r) <==> !MinLength(b.name, 2)
    ensures (PasswordField in r) <==> !MinLength(b.password, 6)
    ensures (RoleField in r) <==> !IsRoleName(b.role)
    ensures (ManagerIdField in r) <==> b.managerId.Some? && b.managerId.value <= 0
    ensures (ManagerNameField in r) <==>
      || (b.managerName.Some? && !MinLength(b.managerName.value, 2))
      || (b.role == "EMPLOYEE" && !HasManagerReference(b))
    ensures forall f :: f in r ==> f in SignupFields
  {
    SignupMessagesNonEmptyIff(b, emailOk);
    map f | f in SignupFields && SignupMessages(b, emailOk, f) != [] :: SignupMessages(b, emailOk, f)
  }

  /** Field by field, when some check of `signupSchema` fails. */
  lemma SignupMessagesNonEmptyIff(b: SignupBody, emailOk: string -> bool)
    ensures SignupMessages(b, emailOk, EmailField) != [] <==> !MinLength(b.email, 1) || !emailOk(b.email)
    ensures SignupMessages(b, emailOk, NameField) != [] <==> !MinLength(b.name, 2)
    ensures SignupMessages(b, emailOk, PasswordField) != [] <==> !MinLength(b.password, 6)
    ensures SignupMessages(b, emailOk, RoleField) != [] <==> !IsRoleName(b.role)
    ensures SignupMessages(b, emailOk, ManagerIdField) != [] <==> b.managerId.Some? && b.managerId.value <= 0
    ensures SignupMessages(b, emailOk, ManagerNameField) != [] <==>
      || (b.managerName.Some? && !MinLength(b.managerName.value, 2))
      || (b.role == "EMPLOYEE" && !HasManagerReference(b))
  {
  }

  /** The refinement's message is reported exactly when an employee names
      no manager, whatever else is wrong with `managerName`. */
  lemma ManagerRequiredIssueIff(b: SignupBody, emailOk: string -> bool)
    ensures (ManagerNameRequired in Messages(SignupErrors(b, emailOk), ManagerNameField)) <==>
      b.role == "EMPLOYEE" && !HasManagerReference(b)
  {
    var ms := SignupMessages(b, emailOk, ManagerNameField);
    assert Messages(SignupErrors(b, emailOk), ManagerNameField) == ms;
    assert |ManagerNameTooShort| != |ManagerNameRequired|;
  }

  /** The issues `loginSchema` raises on field `f`. */
  function LoginMessages(b: LoginBody, emailOk: string -> bool, f: Field): seq<string> {
    match f
    case EmailField => Failed(MinLength(b.email, 1), EmailRequired) + Failed(emailOk(b.email), EmailInvalid)
    case PasswordField => Failed(MinLength(b.password, 6), PasswordTooShort)
    case _ => []
  }

  /** `loginSchema`'s flattened field errors. */
  function LoginErrors(b: LoginBody, emailOk: string -> bool): (r: FieldErrors)
    ensures (EmailField in r) <==> !MinLength(b.email, 1) || !emailOk(b.email)
    ensures (PasswordField in r) <==> !MinLength(b.password, 6)
    ensures forall f :: f in r ==> f in {EmailField, PasswordField}
  {
    map f | f in {EmailField, PasswordField} && LoginMessages(b, emailOk, f) != [] :: LoginMessages(b, emailOk, f)
  }

  /** The issues `createRequestSchema` raises on field `f`. */
  function CreateRequestMessages(b: CreateRequestBody, f: Field): seq<string> {
    match f
    case TitleField => Failed(MinLength(b.title, 1), TitleRequired)
    case DescriptionField => Failed(MinLength(b.description, 1), DescriptionRequired)
    case ManagerNameField => Failed(MinLength(b.managerName, 2), ManagerNameTooShort)
    case _ => []
  }

  /** `createRequestSchema`'s flattened field errors. */
  function CreateRequestErrors(b: CreateRequestBody): (r: FieldErrors)
    ensures (TitleField in r) <==> b.title == []
    ensures (DescriptionField in r) <==> b.description == []
    ensures (ManagerNameField in r) <==> !MinLength(b.managerName, 2)
    ensures forall f :: f in r ==> f in {TitleField, DescriptionField, ManagerNameField}
  {
    map f | f in {TitleField, DescriptionField, ManagerNameField} && CreateRequestMessages(b, f) != []
      :: CreateRequestMessages(b, f)
  }

  /** `rejectSchema`: the reason is optional, but not empty when given. */
  function RejectErrors(b: RejectBody): (r: FieldErrors)
    ensures (ReasonField in r) <==> b.reason.Some? && b.reason.value == []
    ensures forall f :: f in r ==> f == ReasonField
  {
    var messages := Failed(b.reason.None? || MinLength(b.reason.value, 1), ReasonTooShort);
    if messages == [] then map[] else map[ReasonField := messages]
  }

  // ---------------------------------------------------------------------
  // What an accepted body guarantees
  // ---------------------------------------------------------------------

  /** The signup rules stated field by field, independently of the order in
      which the checks run. */
  predicate SignupAcceptable(b: SignupBody, emailOk: string -> bool) {
    && b.email != [] && emailOk(b.email)
    && MinLength(b.name, 2)
    && MinLength(b.password, 6)
    && IsRoleName(b.role)
    && (b.managerId.Some? ==> b.managerId.value > 0)
    && (b.managerName.Some? ==> MinLength(b.managerName.value, 2))
    && (b.role == "EMPLOYEE" ==> HasManagerReference(b))
  }

  lemma SignupAcceptedIff(b: SignupBody, emailOk: string -> bool)
    ensures SignupErrors(b, emailOk) == map[] <==> SignupAcceptable(b, emailOk)
  {
    var r := SignupErrors(b, emailOk);
    if r != map[] {
      var f :| f in r;
    }
  }

  /** A manager's signup never draws the "manager name is required" issue,
      whatever manager fields it carries. */
  lemma ManagerSignupNeedsNoManager(b: SignupBody, emailOk: string -> bool)
    requires b.role == "MANAGER"
    ensures ManagerNameRequired !in Messages(SignupErrors(b, emailOk), ManagerNameField)
    ensures ManagerNameField in SignupErrors(b, emailOk) <==>
      b.managerName.Some? && !MinLength(b.managerName.value, 2)
  {
  }

  /** Without an id, a manager name made only of white space is no manager
      reference. */
  lemma BlankNameIsNoReference(b: SignupBody)
    requires b.managerId.None? && b.managerName.Some?
    requires forall i :: 0 <= i < |b.managerName.value| ==> IsJsWhitespace(b.managerName.value[i])
    ensures !HasManagerReference(b)
  {
    TrimNonEmptyIff(b.managerName.value);
  }

  /** zod reports the length issue before the refinement's: a blank
      employee manager name that is also too short gets both messages, the
      length one first. */
  lemma ManagerNameMessageOrder(b: SignupBody, emailOk: string -> bool)
    requires b.role == "EMPLOYEE" && b.managerId.None?
    requires b.managerName.Some? && !MinLength(b.managerName.value, 2)
    requires forall i :: 0 <= i < |b.managerName.value| ==> IsJsWhitespace(b.managerName.value[i])
    ensures Messages(SignupErrors(b, emailOk), ManagerNameField) == [ManagerNameTooShort, ManagerNameRequired]
  {
    BlankNameIsNoReference(b);
    UnreferencedShortNameMessages(b, emailOk);
  }

  /** Both managerName checks fail, so both messages appear, in the order
      zod runs them: the field's own length rule, then the refinement. */
  lemma UnreferencedShortNameMessages(b: SignupBody, emailOk: string -> bool)
    requires b.role == "EMPLOYEE" && !HasManagerReference(b)
    requires b.managerName.Some? && !MinLength(b.managerName.value, 2)
    ensures Messages(SignupErrors(b, emailOk), ManagerNameField) == [ManagerNameTooShort, ManagerNameRequired]
  {
    SignupErrorsCarryMessages(b, emailOk, ManagerNameField);
  }

  /** The error map holds, under each field, exactly that field's messages. */
  lemma SignupErrorsCarryMessages(b: SignupBody, emailOk: string -> bool, f: Field)
    ensures Messages(SignupErrors(b, emailOk), f) == (if f in SignupFields then SignupMessages(b, emailOk, f) else [])
  {
  }

  /** A blank manager name long enough for the length check still counts as
      no manager: an employee sending only that is refused on `managerName`
      with the refinement's message alone. */
  lemma BlankManagerNameIsAbsent(b: SignupBody, emailOk: string -> bool)
    requires b.role == "EMPLOYEE" && b.managerId.None?
    requires b.managerName.Some? && MinLength(b.managerName.value, 2)
    requires forall i :: 0 <= i < |b.managerName.value| ==> IsJsWhitespace(b.managerName.value[i])
    ensures Messages(SignupErrors(b, emailOk), ManagerNameField) == [ManagerNameRequired]
  {
    TrimNonEmptyIff(b.managerName.value);
  }

  lemma LoginAcceptedIff(b: LoginBody, emailOk: string -> bool)
    ensures LoginErrors(b, emailOk) == map[] <==>
      b.email != [] && emailOk(b.email) && MinLength(b.password, 6)
  {
    var r := LoginErrors(b, emailOk);
    if r != map[] {
      var f :| f in r;
    }
  }

  lemma CreateRequestAcceptedIff(b: CreateRequestBody)
    ensures CreateRequestErrors(b) == map[] <==>
      b.title != [] && b.description != [] && MinLength(b.managerName, 2)
  {
    var r := CreateRequestErrors(b);
    if r != map[] {
      var f :| f in r;
    }
  }
}
