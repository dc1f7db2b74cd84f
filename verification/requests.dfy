/** The `/requests` routes: create, the role-scoped list, and the approve,
    reject and close transitions of a request's lifecycle. Each handler is a
    pure function from the store, the authenticated caller and the input to
    the store afterwards and the reply; `now` stands for the wall clock. */
module Requests {
  import opened Domain
  import opened Validators

  const OnlyEmployeesCreate := HttpError(403, Message("Only employees can create requests"))
  const ManagerMismatch := FieldError(ManagerNameField, "manager does not match your account")
  const NotFound := HttpError(404, Message("Request not found"))
  const NotPending := HttpError(400, Message("Request not pending approval"))
  const OnlyManagerApproves := HttpError(403, Message("Only manager can approve"))
  const OnlyManagerRejects := HttpError(403, Message("Only manager can reject"))
  const NotAssigneesManager := HttpError(403, Message("Not manager of assigned employee"))
  const OnlyAssigneeCloses := HttpError(403, Message("Only assigned employee can close"))
  const NotAssignee := HttpError(403, Message("Not assigned employee"))
  const NotApproved := HttpError(400, Message("Request not approved"))

  /** The fields no transition touches: identity, content, authorship and
      creation time. */
  predicate SameContent(a: Request, b: Request) {
    && a.id == b.id
    && a.title == b.title
    && a.description == b.description
    && a.createdById == b.createdById
    && a.assignedToId == b.assignedToId
    && a.createdAt == b.createdAt
  }

  /** `s2` differs from `s` only in the request stored under `id`, which
      becomes `r`. */
  predicate UpdatesOnly(s: Store, s2: Store, id: int, r: Request) {
    && id in s.requests
    && s2.requests == s.requests[id := r]
    && s2.users == s.users
    && s2.nextUserId == s.nextUserId
    && s2.nextRequestId == s.nextRequestId
  }

  // ---------------------------------------------------------------------
  // POST /requests
  // ---------------------------------------------------------------------

  /** POST /requests: after validation, only an employee may file a request,
      and only to the manager their own account is linked to, found by
      name. The new request is pending and assigned to its author. */
  function Create(s: Store, caller: Caller, b: CreateRequestBody, now: int): (r: Reply<Request>)
    ensures r.result.Err? ==> r.store == s
    ensures CreateRequestErrors(b) != map[] ==>
      r.result == Err(HttpError(400, FieldErrors(CreateRequestErrors(b))))
    ensures CreateRequestErrors(b) == map[] && caller.role != Employee ==>
      r.result == Err(OnlyEmployeesCreate)
    ensures CreateRequestErrors(b) == map[] && caller.role == Employee
            && (forall k :: k in s.users ==> !(s.users[k].name == b.managerName && s.users[k].role == Manager)) ==>
      r.result == Err(ManagerNotFound)
    ensures CreateRequestErrors(b) == map[] && caller.role == Employee
            && (exists k :: k in s.users && s.users[k].name == b.managerName && s.users[k].role == Manager)
            && (caller.id !in s.users
                || forall k :: k in s.users && s.users[k].name == b.managerName && s.users[k].role == Manager
                               ==> s.users[caller.id].managerId != Some(s.users[k].id)) ==>
      r.result == Err(ManagerMismatch)
    ensures r.result.Ok? ==>
      && caller.role == Employee
      && caller.id in s.users
      && s.users[caller.id].managerId.Some?
      && var m := s.users[caller.id].managerId.value;
         exists k :: k in s.users && s.users[k].id == m
                     && s.users[k].name == b.managerName && s.users[k].role == Manager
    ensures r.result.Ok? ==>
      var q := r.result.value;
      && q.id == s.nextRequestId
      && q.status == PendingApproval
      && q.createdById == caller.id
      && q.assignedToId == s.users[caller.id].id
      && q.title == b.title && q.description == b.description
      && q.createdAt == now
      && q.approvedById.None? && q.approvedAt.None? && q.rejectedAt.None?
      && q.rejectionReason.None? && q.closedAt.None?
      && r.store == s.(requests := s.requests[s.nextRequestId := q], nextRequestId := s.nextRequestId + 1)
  {
    var errs := CreateRequestErrors(b);
    if errs != map[] then Reply(s, Err(HttpError(400, FieldErrors(errs))))
    else if caller.role != Employee then Reply(s, Err(OnlyEmployeesCreate))
    else
      match FindManagerByName(s.users, b.managerName)
      case None => Reply(s, Err(ManagerNotFound))
      case Some(mgr) =>
        if caller.id !in s.users || s.users[caller.id].managerId != Some(mgr.id) then
          Reply(s, Err(ManagerMismatch))
        else
          var me := s.users[caller.id];
          var q := Request(s.nextRequestId, b.title, b.description, PendingApproval,
                           caller.id, me.id, None, None, None, None, None, now);
          Reply(s.(requests := s.requests[s.nextRequestId := q], nextRequestId := s.nextRequestId + 1), Ok(q))
  }

  /** When the caller's manager is the only manager carrying that name, a
      valid body from an employee is always accepted. */
  lemma CreateSucceedsForOwnManager(s: Store, caller: Caller, b: CreateRequestBody, now: int, m: int)
    requires CreateRequestErrors(b) == map[]
    requires caller.role == Employee && caller.id in s.users
    requires s.users[caller.id].managerId == Some(m)
    requires m in s.users && s.users[m].id == m
    requires s.users[m].name == b.managerName && s.users[m].role == Manager
    requires forall k :: k in s.users && s.users[k].name == b.managerName && s.users[k].role == Manager ==> k == m
    ensures Create(s, caller, b, now).result.Ok?
  {
  }

  // ---------------------------------------------------------------------
  // GET /requests
  // ---------------------------------------------------------------------

  /** The role-scoped filter: a manager sees the requests of the employees
      they manage; anyone else sees what they wrote or were assigned. */
  predicate Visible(s: Store, caller: Caller, q: Request) {
    if caller.role == Manager then AssigneeManager(s, q) == Some(caller.id)
    else q.createdById == caller.id || q.assignedToId == caller.id
  }

  function VisibleIds(s: Store, caller: Caller): set<int> {
    set k | k in s.requests && Visible(s, caller, s.requests[k])
  }

  /** Newest first. */
  predicate NewestFirst(qs: seq<Request>) {
    forall i, j :: 0 <= i < j < |qs| ==> qs[i].createdAt >= qs[j].createdAt
  }

  /** Places `q` in front of the first entry not newer than it. */
  function InsertByCreated(q: Request, qs: seq<Request>): (r: seq<Request>)
    requires NewestFirst(qs)
    ensures NewestFirst(r)
    ensures multiset(r) == multiset(qs) + multiset{q}
    ensures |r| == |qs| + 1 && (r[0] == q || (qs != [] && r[0] == qs[0]))
  {
    if qs == [] || q.createdAt >= qs[0].createdAt then
      [q] + qs
    else
      assert qs == [qs[0]] + qs[1..];
      var rest := InsertByCreated(q, qs[1..]);
      assert qs[0].createdAt >= rest[0].createdAt;
      [qs[0]] + rest
  }

  /** `orderBy: { createdAt: "desc" }`: a permutation of `qs`, newest first. */
  function SortNewestFirst(qs: seq<Request>): (r: seq<Request>)
    ensures NewestFirst(r)
    ensures multiset(r) == multiset(qs)
  {
    if qs == [] then []
    else
      assert qs == [qs[0]] + qs[1..];
      InsertByCreated(qs[0], SortNewestFirst(qs[1..]))
  }

  /** The keys of `ks` in increasing order. */
  function Ascending(ks: set<int>): (r: seq<int>)
    ensures forall k :: k in r <==> k in ks
    ensures |r| == |ks|
    decreases |ks|
  {
    if ks == {} then []
    else
      var k := Least(ks);
      [k] + Ascending(ks - {k})
  }

  /** The requests stored under `ids`, in that order. */
  function Fetch(m: map<int, Request>, ids: seq<int>): (r: seq<Request>)
    requires forall i :: 0 <= i < |ids| ==> ids[i] in m
    ensures |r| == |ids|
    ensures forall i :: 0 <= i < |ids| ==> r[i] == m[ids[i]]
  {
    if ids == [] then [] else [m[ids[0]]] + Fetch(m, ids[1..])
  }

  /** The visible requests, one per visible key, in key order. */
  function VisibleRequests(s: Store, caller: Caller): (found: seq<Request>)
    ensures |found| == |VisibleIds(s, caller)|
    ensures forall q :: q in found ==> q in s.requests.Values && Visible(s, caller, q)
    ensures forall k :: k in VisibleIds(s, caller) ==> s.requests[k] in found
  {
    var ids := Ascending(VisibleIds(s, caller));
    assert forall i :: 0 <= i < |ids| ==> ids[i] in VisibleIds(s, caller);
    var found := Fetch(s.requests, ids);
    assert forall q :: q in found ==> q in s.requests.Values && Visible(s, caller, q) by {
      forall q | q in found
        ensures q in s.requests.Values && Visible(s, caller, q)
      {
        var i :| 0 <= i < |found| && found[i] == q;
        assert ids[i] in VisibleIds(s, caller);
      }
    }
    assert forall k :: k in VisibleIds(s, caller) ==> s.requests[k] in found by {
      forall k | k in VisibleIds(s, caller)
        ensures s.requests[k] in found
      {
        var i :| 0 <= i < |ids| && ids[i] == k;
        assert found[i] == s.requests[k];
      }
    }
    found
  }

  /** GET /requests: exactly the requests visible to the caller, newest
      first. */
  function List(s: Store, caller: Caller): (r: seq<Request>)
    ensures NewestFirst(r)
    ensures forall q :: q in r <==> q in s.requests.Values && Visible(s, caller, q)
    ensures |r| == |VisibleIds(s, caller)|
  {
    var found := VisibleRequests(s, caller);
    var r := SortNewestFirst(found);
    assert forall q :: q in r <==> q in multiset(found);
    assert forall q :: q in s.requests.Values && Visible(s, caller, q) ==> q in found by {
      forall q | q in s.requests.Values && Visible(s, caller, q)
        ensures q in found
      {
        var k :| k in s.requests && s.requests[k] == q;
        assert k in VisibleIds(s, caller);
      }
    }
    assert |r| == |multiset(r)| == |multiset(found)| == |found|;
    r
  }

  // ---------------------------------------------------------------------
  // POST /requests/:id/approve and /reject
  // ---------------------------------------------------------------------

  /** The checks approve and reject share, in the order they run: the
      request exists, it is pending, the caller is a manager, and the caller
      manages its assignee. `roleError` is the route's own 403 for a
      non-manager. */
  function DecisionGate(s: Store, caller: Caller, id: int, roleError: HttpError): (r: Option<HttpError>)
    ensures r.None? <==>
      && id in s.requests
      && s.requests[id].status == PendingApproval
      && caller.role == Manager
      && AssigneeManager(s, s.requests[id]) == Some(caller.id)
    ensures id !in s.requests ==> r == Some(NotFound)
    ensures id in s.requests && s.requests[id].status != PendingApproval ==> r == Some(NotPending)
    ensures id in s.requests && s.requests[id].status == PendingApproval && caller.role != Manager ==>
      r == Some(roleError)
    ensures id in s.requests && s.requests[id].status == PendingApproval && caller.role == Manager
            && AssigneeManager(s, s.requests[id]) != Some(caller.id) ==>
      r == Some(NotAssigneesManager)
  {
    if id !in s.requests then Some(NotFound)
    else if s.requests[id].status != PendingApproval then Some(NotPending)
    else if caller.role != Manager then Some(roleError)
    else if AssigneeManager(s, s.requests[id]) != Some(caller.id) then Some(NotAssigneesManager)
    else None
  }

  /** POST /requests/:id/approve. */
  function Approve(s: Store, caller: Caller, id: int, now: int): (r: Reply<Request>)
    ensures r.result.Err? ==> r.store == s
    ensures r.result.Err? ==> Some(r.result.error) == DecisionGate(s, caller, id, OnlyManagerApproves)
    ensures r.result.Ok? <==> DecisionGate(s, caller, id, OnlyManagerApproves).None?
    ensures r.result.Ok? ==>
      var old_ := s.requests[id];
      var q := r.result.value;
      && UpdatesOnly(s, r.store, id, q)
      && SameContent(old_, q)
      && q.status == Approved
      && q.approvedById == Some(caller.id)
      && q.approvedAt == Some(now)
      && q.rejectionReason.None?
      && q.rejectedAt == old_.rejectedAt
      && q.closedAt == old_.closedAt
  {
    match DecisionGate(s, caller, id, OnlyManagerApproves)
    case Some(e) => Reply(s, Err(e))
    case None =>
      var q := s.requests[id].(status := Approved, approvedById := Some(caller.id),
                               approvedAt := Some(now), rejectionReason := None);
      Reply(s.(requests := s.requests[id := q]), Ok(q))
  }

  /** POST /requests/:id/reject: the body is validated before the request
      is even looked up. */
  function Reject(s: Store, caller: Caller, id: int, b: RejectBody, now: int): (r: Reply<Request>)
    ensures r.result.Err? ==> r.store == s
    ensures RejectErrors(b) != map[] ==> r.result == Err(HttpError(400, FieldErrors(RejectErrors(b))))
    ensures RejectErrors(b) == map[] ==>
      && (r.result.Err? ==> Some(r.result.error) == DecisionGate(s, caller, id, OnlyManagerRejects))
      && (r.result.Ok? <==> DecisionGate(s, caller, id, OnlyManagerRejects).None?)
    ensures r.result.Ok? ==>
      var old_ := s.requests[id];
      var q := r.result.value;
      && UpdatesOnly(s, r.store, id, q)
      && SameContent(old_, q)
      && q.status == Rejected
      && q.approvedById.None? && q.approvedAt.None?
      && q.rejectedAt == Some(now)
      && q.rejectionReason == b.reason
      && q.closedAt == old_.closedAt
  {
    var errs := RejectErrors(b);
    if errs != map[] then Reply(s, Err(HttpError(400, FieldErrors(errs))))
    else
      match DecisionGate(s, caller, id, OnlyManagerRejects)
      case Some(e) => Reply(s, Err(e))
      case None =>
        var q := s.requests[id].(status := Rejected, approvedById := None, approvedAt := None,
                                 rejectedAt := Some(now), rejectionReason := b.reason);
        Reply(s.(requests := s.requests[id := q]), Ok(q))
  }

  // ---------------------------------------------------------------------
  // POST /requests/:id/close
  // ---------------------------------------------------------------------

  /** POST /requests/:id/close: existence, then the caller's role and
      ownership, and only then the status. */
  function Close(s: Store, caller: Caller, id: int, now: int): (r: Reply<Request>)
    ensures r.result.Err? ==> r.store == s
    ensures id !in s.requests ==> r.result == Err(NotFound)
    ensures id in s.requests && caller.role != Employee ==> r.result == Err(OnlyAssigneeCloses)
    ensures id in s.requests && caller.role == Employee && s.requests[id].assignedToId != caller.id ==>
      r.result == Err(NotAssignee)
    ensures id in s.requests && caller.role == Employee && s.requests[id].assignedToId == caller.id
            && s.requests[id].status != Approved ==>
      r.result == Err(NotApproved)
    ensures r.result.Ok? <==>
      && id in s.requests
      && caller.role == Employee
      && s.requests[id].assignedToId == caller.id
      && s.requests[id].status == Approved
    ensures r.result.Ok? ==>
      var old_ := s.requests[id];
      var q := r.result.value;
      && UpdatesOnly(s, r.store, id, q)
      && q == old_.(status := Closed, closedAt := Some(now))
  {
    if id !in s.requests then Reply(s, Err(NotFound))
    else if caller.role != Employee then Reply(s, Err(OnlyAssigneeCloses))
    else if s.requests[id].assignedToId != caller.id then Reply(s, Err(NotAssignee))
    else if s.requests[id].status != Approved then Reply(s, Err(NotApproved))
    else
      var q := s.requests[id].(status := Closed, closedAt := Some(now));
      Reply(s.(requests := s.requests[id := q]), Ok(q))
  }
}
