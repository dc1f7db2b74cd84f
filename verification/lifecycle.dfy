/** Properties that span the handlers: the shape of the request state
    machine, the store invariants every store-changing operation keeps, and
    the shared error precedence of approve and reject. */
module Lifecycle {
  import opened Domain
  import opened Validators
  import Auth
  import Requests

  /** The three transitions a request can take. */
  predicate Edge(from: Status, to: Status) {
    || (from == PendingApproval && to == Approved)
    || (from == PendingApproval && to == Rejected)
    || (from == Approved && to == Closed)
  }

  /** No edge leaves these states. */
  predicate Terminal(st: Status) {
    st == Rejected || st == Closed
  }

  /** `to` follows `from` after zero or more edges. No path in the machine
      is longer than two edges, so the reflexive-transitive closure of
      `Edge` is written out; `ReachesIsClosureOfEdge` states that it is. */
  predicate Reaches(from: Status, to: Status) {
    from == to || Edge(from, to) || (from == PendingApproval && to == Closed)
  }

  /** `Reaches` is exactly "equal, one edge, or two edges", and a terminal
      state reaches nothing but itself. */
  lemma ReachesIsClosureOfEdge(from: Status, to: Status)
    ensures Reaches(from, to) <==>
      from == to || Edge(from, to) || exists mid :: Edge(from, mid) && Edge(mid, to)
    ensures Terminal(from) ==> (Reaches(from, to) <==> to == from)
  {
    if from == PendingApproval && to == Closed {
      assert Edge(from, Approved) && Edge(Approved, to);
    }
  }

  lemma ReachesTransitive(a: Status, b: Status, c: Status)
    requires Reaches(a, b) && Reaches(b, c)
    ensures Reaches(a, c)
  {
  }

  /** The operations that write to the store. Login and the list only read. */
  datatype Op =
    | SignupOp(body: SignupBody)
    | CreateOp(caller: Caller, create: CreateRequestBody, now: int)
    | ApproveOp(caller: Caller, id: int, now: int)
    | RejectOp(caller: Caller, id: int, reject: RejectBody, now: int)
    | CloseOp(caller: Caller, id: int, now: int)

  /** The store after one operation, whatever its reply. */
  function Step(s: Store, op: Op, emailOk: string -> bool, hash: string -> string): Store {
    match op
    case SignupOp(b) => Auth.Signup(s, b, emailOk, hash).store
    case CreateOp(c, b, now) => Requests.Create(s, c, b, now).store
    case ApproveOp(c, id, now) => Requests.Approve(s, c, id, now).store
    case RejectOp(c, id, b, now) => Requests.Reject(s, c, id, b, now).store
    case CloseOp(c, id, now) => Requests.Close(s, c, id, now).store
  }

  /** The store after a sequence of operations, applied in order. */
  function Run(s: Store, ops: seq<Op>, emailOk: string -> bool, hash: string -> string): Store
    decreases |ops|
  {
    if ops == [] then s else Run(Step(s, ops[0], emailOk, hash), ops[1..], emailOk, hash)
  }

  // ---------------------------------------------------------------------
  // One operation
  // ---------------------------------------------------------------------

  lemma SignupPreservesValid(s: Store, b: SignupBody, emailOk: string -> bool, hash: string -> string)
    requires Valid(s)
    ensures Valid(Auth.Signup(s, b, emailOk, hash).store)
  {
    if SignupErrors(b, emailOk) == map[] {
      Auth.CreateAccountPreservesValid(s, Auth.Parse(b), hash);
    }
  }

  lemma CreatePreservesValid(s: Store, c: Caller, b: CreateRequestBody, now: int)
    requires Valid(s)
    ensures Valid(Requests.Create(s, c, b, now).store)
  {
    var r := Requests.Create(s, c, b, now);
    if r.result.Ok? {
      assert s.nextRequestId !in s.requests;
      assert LifecycleFieldsMatch(r.result.value);
    }
  }

  /** A transition that rewrites one request in place keeps the store valid
      as long as the new version keeps its key, its people and a consistent
      set of lifecycle fields. */
  lemma UpdateInPlacePreservesValid(s: Store, s2: Store, id: int, q: Request)
    requires Valid(s)
    requires Requests.UpdatesOnly(s, s2, id, q)
    requires Requests.SameContent(s.requests[id], q)
    requires LifecycleFieldsMatch(q)
    ensures Valid(s2)
  {
  }

  /** Every store-changing operation keeps the store invariants. */
  lemma StepPreservesValid(s: Store, op: Op, emailOk: string -> bool, hash: string -> string)
    requires Valid(s)
    ensures Valid(Step(s, op, emailOk, hash))
  {
    match op
    case SignupOp(b) => SignupPreservesValid(s, b, emailOk, hash);
    case CreateOp(c, b, now) => CreatePreservesValid(s, c, b, now);
    case ApproveOp(c, id, now) =>
      var r := Requests.Approve(s, c, id, now);
      if r.result.Ok? {
        UpdateInPlacePreservesValid(s, r.store, id, r.result.value);
      }
    case RejectOp(c, id, b, now) =>
      var r := Requests.Reject(s, c, id, b, now);
      if r.result.Ok? {
        UpdateInPlacePreservesValid(s, r.store, id, r.result.value);
      }
    case CloseOp(c, id, now) =>
      var r := Requests.Close(s, c, id, now);
      if r.result.Ok? {
        UpdateInPlacePreservesValid(s, r.store, id, r.result.value);
      }
  }

  /** A reply that either keeps the store or rewrites the request `id` in
      place along one edge moves every request `k` along at most that edge. */
  lemma InPlaceFollowsEdges(s: Store, r: Reply<Request>, id: int, k: int)
    requires k in s.requests
    requires r.result.Err? ==> r.store == s
    requires r.result.Ok? ==>
      && Requests.UpdatesOnly(s, r.store, id, r.result.value)
      && Requests.SameContent(s.requests[id], r.result.value)
      && Edge(s.requests[id].status, r.result.value.status)
    ensures k in r.store.requests
    ensures var before := s.requests[k];
            var after := r.store.requests[k];
            && Requests.SameContent(before, after)
            && (after.status == before.status || Edge(before.status, after.status))
            && (Terminal(before.status) ==> after == before)
  {
  }

  /** Signup leaves the request table alone. */
  lemma SignupKeepsRequests(s: Store, b: SignupBody, emailOk: string -> bool, hash: string -> string)
    ensures Auth.Signup(s, b, emailOk, hash).store.requests == s.requests
  {
  }

  /** Create only adds a request under a fresh key. */
  lemma CreateKeepsRequests(s: Store, c: Caller, b: CreateRequestBody, now: int, k: int)
    requires RequestsValid(s) && k in s.requests
    ensures k in Requests.Create(s, c, b, now).store.requests
    ensures Requests.Create(s, c, b, now).store.requests[k] == s.requests[k]
  {
    assert s.nextRequestId != k;
  }

  /** Every operation moves each existing request along at most one edge of
      the lifecycle, never changes its content, and leaves requests in a
      terminal state exactly as they were. */
  lemma StepFollowsEdges(s: Store, op: Op, emailOk: string -> bool, hash: string -> string, k: int)
    requires Valid(s)
    requires k in s.requests
    ensures k in Step(s, op, emailOk, hash).requests
    ensures var before := s.requests[k];
            var after := Step(s, op, emailOk, hash).requests[k];
            && Requests.SameContent(before, after)
            && (after.status == before.status || Edge(before.status, after.status))
            && (Terminal(before.status) ==> after == before)
  {
    match op
    case SignupOp(b) =>
      SignupKeepsRequests(s, b, emailOk, hash);
    case CreateOp(c, b, now) =>
      CreateKeepsRequests(s, c, b, now, k);
    case ApproveOp(c, id, now) =>
      InPlaceFollowsEdges(s, Requests.Approve(s, c, id, now), id, k);
    case RejectOp(c, id, b, now) =>
      InPlaceFollowsEdges(s, Requests.Reject(s, c, id, b, now), id, k);
    case CloseOp(c, id, now) =>
      InPlaceFollowsEdges(s, Requests.Close(s, c, id, now), id, k);
  }

  // ---------------------------------------------------------------------
  // Any sequence of operations
  // ---------------------------------------------------------------------

  lemma {:induction false} RunPreservesValid(s: Store, ops: seq<Op>, emailOk: string -> bool, hash: string -> string)
    requires Valid(s)
    ensures Valid(Run(s, ops, emailOk, hash))
    decreases |ops|
  {
    if ops != [] {
      StepPreservesValid(s, ops[0], emailOk, hash);
      RunPreservesValid(Step(s, ops[0], emailOk, hash), ops[1..], emailOk, hash);
    }
  }

  /** Requests are never deleted, their content never changes, their status
      only moves forward through the lifecycle, and once rejected or closed
      they stay as they are. */
  lemma {:induction false} RunFollowsLifecycle(s: Store, ops: seq<Op>, emailOk: string -> bool, hash: string -> string, k: int)
    requires Valid(s)
    requires k in s.requests
    ensures k in Run(s, ops, emailOk, hash).requests
    ensures var before := s.requests[k];
            var after := Run(s, ops, emailOk, hash).requests[k];
            && Requests.SameContent(before, after)
            && Reaches(before.status, after.status)
            && (Terminal(before.status) ==> after == before)
    decreases |ops|
  {
    if ops != [] {
      var s1 := Step(s, ops[0], emailOk, hash);
      StepFollowsEdges(s, ops[0], emailOk, hash, k);
      StepPreservesValid(s, ops[0], emailOk, hash);
      RunFollowsLifecycle(s1, ops[1..], emailOk, hash, k);
      ReachesTransitive(s.requests[k].status, s1.requests[k].status,
                        Run(s1, ops[1..], emailOk, hash).requests[k].status);
    }
  }

  // ---------------------------------------------------------------------
  // Approve and reject
  // ---------------------------------------------------------------------

  /** Rejected and closed requests are refused by every transition, whoever
      asks: approve and reject answer 400, close answers 400 or 403. */
  lemma TerminalStatesRefuseTransitions(s: Store, c: Caller, id: int, b: RejectBody, now: int)
    requires id in s.requests && Terminal(s.requests[id].status)
    ensures Requests.Approve(s, c, id, now).result == Err(Requests.NotPending)
    ensures RejectErrors(b) == map[] ==> Requests.Reject(s, c, id, b, now).result == Err(Requests.NotPending)
    ensures Requests.Close(s, c, id, now).result.Err?
  {
  }

  /** Approve and reject apply the same checks in the same order; given a
      valid reject body they fail together, with the same error except for
      the wording of the role check. */
  lemma ApproveAndRejectShareGate(s: Store, c: Caller, id: int, b: RejectBody, now: int)
    requires RejectErrors(b) == map[]
    ensures Requests.Approve(s, c, id, now).result.Ok? <==> Requests.Reject(s, c, id, b, now).result.Ok?
    ensures var a := Requests.Approve(s, c, id, now).result;
            var r := Requests.Reject(s, c, id, b, now).result;
            a.Err? && a.error != Requests.OnlyManagerApproves ==> a == r
  {
  }

  /** A request that is not pending draws 400 whoever asks, before any role
      or ownership check. */
  lemma NotPendingIsAnswered400ByAnyone(s: Store, c1: Caller, c2: Caller, id: int, now1: int, now2: int)
    requires id in s.requests && s.requests[id].status != PendingApproval
    ensures Requests.Approve(s, c1, id, now1).result == Requests.Approve(s, c2, id, now2).result
            == Err(Requests.NotPending)
  {
  }

  /** Approving twice fails the second time; so does approving a rejected
      request. */
  lemma NoSecondDecision(s: Store, m: Caller, c: Caller, id: int, b: RejectBody, now1: int, now2: int)
    ensures Requests.Approve(s, m, id, now1).result.Ok? ==>
      Requests.Approve(Requests.Approve(s, m, id, now1).store, c, id, now2).result == Err(Requests.NotPending)
    ensures Requests.Reject(s, m, id, b, now1).result.Ok? ==>
      Requests.Approve(Requests.Reject(s, m, id, b, now1).store, c, id, now2).result == Err(Requests.NotPending)
  {
  }

  // ---------------------------------------------------------------------
  // Create and list
  // ---------------------------------------------------------------------

  /** A newly created request shows up in its author's list and in the list
      of the manager the author is linked to, and in no other manager's. */
  lemma CreatedRequestIsVisible(s: Store, c: Caller, b: CreateRequestBody, now: int, other: Caller)
    requires Valid(s)
    requires Requests.Create(s, c, b, now).result.Ok?
    ensures var s2 := Requests.Create(s, c, b, now).store;
            var q := Requests.Create(s, c, b, now).result.value;
            && Requests.Visible(s2, c, q)
            && Requests.Visible(s2, Caller(s.users[c.id].managerId.value, Manager), q)
            && (other.role == Manager && Requests.Visible(s2, other, q) ==> other.id == s.users[c.id].managerId.value)
  {
  }

  // ---------------------------------------------------------------------
  // A worked example
  // ---------------------------------------------------------------------

  /** Two managers, each with one employee. */
  function ExampleStore(): Store {
    Store(
      map[
        1 := User(1, "one@example.com", "Manager One", "h1", Manager, None),
        2 := User(2, "a@example.com", "Employee A", "h2", Employee, Some(1)),
        3 := User(3, "two@example.com", "Second Manager", "h3", Manager, None),
        4 := User(4, "b@example.com", "Employee B", "h4", Employee, Some(3))],
      map[], 5, 1)
  }

  /** The pending request Employee A files to Manager One. */
  function ExampleRequest(): Request {
    Request(1, "Leave", "Two days off", PendingApproval, 2, 2, None, None, None, None, None, 10)
  }

  /** No two example accounts share an e-mail. */
  lemma ExampleEmailsDistinct()
    ensures forall a, b :: (a in ExampleStore().users && b in ExampleStore().users
                            && ExampleStore().users[a].email == ExampleStore().users[b].email) ==> a == b
  {
    var u := ExampleStore().users;
    forall a, b | a in u && b in u && u[a].email == u[b].email
      ensures a == b
    {
      assert u[a].email[0] == u[b].email[0];
    }
  }

  /** The example store is well formed. */
  lemma ExampleStoreValid()
    ensures Valid(ExampleStore())
  {
    ExampleEmailsDistinct();
    assert ManagerLinksValid(ExampleStore().users);
  }

  /** On A's pending request, Employee B and the second manager are refused
      with 403 and an early close with 400; Manager One approves, and then A
      closes it, keeping the approval. */
  lemma ExampleDecisions()
    ensures
      var s1 := ExampleStore().(requests := map[1 := ExampleRequest()], nextRequestId := 2);
      var a := Caller(2, Employee);
      var approved := Requests.Approve(s1, Caller(1, Manager), 1, 20);
      var closed := Requests.Close(approved.store, a, 1, 30);
      && Requests.Approve(s1, Caller(4, Employee), 1, 20).result == Err(Requests.OnlyManagerApproves)
      && Requests.Approve(s1, Caller(3, Manager), 1, 20).result == Err(Requests.NotAssigneesManager)
      && Requests.Close(s1, a, 1, 20).result == Err(Requests.NotApproved)
      && approved.result.Ok? && approved.result.value.status == Approved
      && closed.result.Ok? && closed.result.value.status == Closed
      && closed.result.value.approvedById == Some(1)
      && closed.result.value.closedAt == Some(30)
  {
  }
}
