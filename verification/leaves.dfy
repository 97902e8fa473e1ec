/** Leave requests: submission, review by management, deletion by the owner
    (or admin/hr) while still pending, and the two list routes. The store is
    the table of requests keyed by id. */
module Leaves {
  import opened Common
  import Scope
  import Pagination
  import Auth

  type LeaveId = string

  /** One row of the leave-request table. `createdAt` orders the lists. */
  datatype LeaveRequest = LeaveRequest(
    userId: UserId,
    leaveType: string,
    startDate: int,
    endDate: int,
    reason: string,
    status: string,
    approvedBy: Option<UserId>,
    createdAt: int)

  type LeaveStore = map<LeaveId, LeaveRequest>

  /** The rejections of the leave routes. */
  datatype LeaveError =
    | MissingFields
    | InvalidStatus
    | LeaveNotFound
    | NotAuthorized
    | NotPending
    | SubmitFailed
    | UpdateFailed
  {
    function Status(): int {
      match this
      case MissingFields => 400
      case InvalidStatus => 400
      case LeaveNotFound => 404
      case NotAuthorized => 403
      case NotPending => 400
      case SubmitFailed => 500
      case UpdateFailed => 500
    }

    function Message(): string {
      match this
      case MissingFields => "All fields are required"
      case InvalidStatus => "Invalid status"
      case LeaveNotFound => "Leave request not found"
      case NotAuthorized => "Not authorized"
      case NotPending => "Can only delete pending requests"
      case SubmitFailed => "Failed to submit leave request"
      case UpdateFailed => "Failed to update leave request"
    }
  }

  /** The body of POST /: every field as sent, possibly missing. */
  datatype LeaveForm = LeaveForm(
    leaveType: Option<string>,
    startDate: Option<string>,
    endDate: Option<string>,
    reason: Option<string>)

  predicate Complete(form: LeaveForm) {
    Truthy(form.leaveType) && Truthy(form.startDate) && Truthy(form.endDate) && Truthy(form.reason)
  }

  /** POST /. `id` is the identifier the database assigns and `now` the
      creation time; `parseDate` is `new Date(...)`, absent for a date the
      database refuses. A taken id or an unparsable date makes the insert
      fail, which the route reports as a 500. */
  function Submit(store: LeaveStore, caller: Caller, form: LeaveForm, id: LeaveId, now: int,
                  parseDate: string -> Option<int>): (r: Result<LeaveStore, LeaveError>)
    ensures !Complete(form) ==> r == Failure(MissingFields)
    ensures r.Success? <==>
      Complete(form) && id !in store && parseDate(form.startDate.value).Some? && parseDate(form.endDate.value).Some?
    ensures r.Success? ==>
      && r.value.Keys == store.Keys + {id}
      && (forall k :: k in store ==> r.value[k] == store[k])
      && r.value[id].userId == caller.id
      && r.value[id].status == Pending
      && r.value[id].approvedBy.None?
      && r.value[id].leaveType == form.leaveType.value
      && r.value[id].reason == form.reason.value
      && r.value[id].startDate == parseDate(form.startDate.value).value
      && r.value[id].endDate == parseDate(form.endDate.value).value
  {
    if !Complete(form) then Failure(MissingFields)
    else if id in store then Failure(SubmitFailed)
    else
      match (parseDate(form.startDate.value), parseDate(form.endDate.value))
      case (Some(s), Some(e)) =>
        Success(store[id := LeaveRequest(caller.id, form.leaveType.value, s, e, form.reason.value, Pending, None, now)])
      case _ => Failure(SubmitFailed)
  }

  /** PUT /:id/status (behind `requireManagement`). The request's current
      status is not consulted: an approved request can be rejected later and
      the other way round. An unknown id makes the update fail with a 500. */
  function UpdateStatus(store: LeaveStore, caller: Caller, id: LeaveId, status: Option<string>): (r: Result<LeaveStore, LeaveError>)
    ensures !ValidReviewStatus(status) ==> r == Failure(InvalidStatus)
    ensures ValidReviewStatus(status) && id !in store ==> r == Failure(UpdateFailed)
    ensures r.Success? <==> ValidReviewStatus(status) && id in store
    ensures r.Success? ==>
      && r.value.Keys == store.Keys
      && r.value[id] == store[id].(status := status.value, approvedBy := Some(caller.id))
      && (forall k :: k in store && k != id ==> r.value[k] == store[k])
  {
    if !ValidReviewStatus(status) then Failure(InvalidStatus)
    else if id !in store then Failure(UpdateFailed)
    else Success(store[id := store[id].(status := status.value, approvedBy := Some(caller.id))])
  }

  /** Whether `caller` may delete a request owned by `owner`. */
  predicate MayDelete(caller: Caller, owner: UserId) {
    owner == caller.id || caller.role in Auth.AdminOrHRRoles
  }

  /** DELETE /:id: 404, then 403, then 400, in that order; otherwise exactly
      that one request is removed. */
  function Delete(store: LeaveStore, caller: Caller, id: LeaveId): (r: Result<LeaveStore, LeaveError>)
    ensures id !in store ==> r == Failure(LeaveNotFound)
    ensures id in store && !MayDelete(caller, store[id].userId) ==> r == Failure(NotAuthorized)
    ensures id in store && MayDelete(caller, store[id].userId) && store[id].status != Pending ==> r == Failure(NotPending)
    ensures r.Success? <==> id in store && MayDelete(caller, store[id].userId) && store[id].status == Pending
    ensures r.Success? ==>
      && r.value.Keys == store.Keys - {id}
      && (forall k :: k in r.value ==> r.value[k] == store[k])
  {
    if id !in store then Failure(LeaveNotFound)
    else if !MayDelete(caller, store[id].userId) then Failure(NotAuthorized)
    else if store[id].status != Pending then Failure(NotPending)
    else Success(store - {id})
  }

  /** Submitting and then deleting the new request as its owner restores the
      store exactly. */
  lemma SubmitThenDeleteRestores(store: LeaveStore, caller: Caller, form: LeaveForm, id: LeaveId, now: int,
                                 parseDate: string -> Option<int>)
    requires Submit(store, caller, form, id, now, parseDate).Success?
    ensures Delete(Submit(store, caller, form, id, now, parseDate).value, caller, id) == Success(store)
  {
    var s1 := Submit(store, caller, form, id, now, parseDate).value;
    var s2 := Delete(s1, caller, id).value;
    assert s2.Keys == store.Keys;
    assert forall k :: k in s2 ==> s2[k] == store[k];
    assert s2 == store;
  }

  /** Once reviewed, a request can no longer be deleted by anyone. */
  lemma ReviewedCannotBeDeleted(store: LeaveStore, reviewer: Caller, id: LeaveId, status: Option<string>, deleter: Caller)
    requires UpdateStatus(store, reviewer, id, status).Success?
    ensures var s1 := UpdateStatus(store, reviewer, id, status).value;
      Delete(s1, deleter, id) == Failure(if MayDelete(deleter, store[id].userId) then NotPending else NotAuthorized)
  {
  }

  /** Reviewing leaves every other request alone, and a second review of the
      same request overrides the first. */
  lemma SecondReviewOverrides(store: LeaveStore, first: Caller, second: Caller, id: LeaveId, s1: Option<string>, s2: Option<string>)
    requires UpdateStatus(store, first, id, s1).Success?
    requires ValidReviewStatus(s2)
    ensures var after := UpdateStatus(store, first, id, s1).value;
      UpdateStatus(after, second, id, s2) == UpdateStatus(store, second, id, s2)
  {
    var after := UpdateStatus(store, first, id, s1).value;
    var x := UpdateStatus(after, second, id, s2).value;
    var y := UpdateStatus(store, second, id, s2).value;
    assert x.Keys == y.Keys;
    assert x[id] == y[id];
    assert forall k :: k in x ==> x[k] == y[k];
    assert x == y;
  }

  /** GET /my: the caller's own requests, in the order the store lists them
      (`orderBy: { createdAt: 'desc' }`). */
  function MyLeaves(ordered: seq<LeaveRequest>, caller: Caller): (r: seq<LeaveRequest>)
    ensures forall x :: x in r <==> x in ordered && x.userId == caller.id
    ensures IsSubsequence(r, ordered)
    ensures forall x :: multiset(r)[x] == if x.userId == caller.id then multiset(ordered)[x] else 0
  {
    Filter(ordered, (x: LeaveRequest) => x.userId == caller.id)
  }

  /** Requests listed newest first. */
  predicate NewestFirst(s: seq<LeaveRequest>) {
    forall i, j :: 0 <= i < j < |s| ==> s[i].createdAt >= s[j].createdAt
  }

  /** Over requests listed newest first, `/my` lists the caller's newest first. */
  lemma MyLeavesNewestFirst(ordered: seq<LeaveRequest>, caller: Caller)
    requires NewestFirst(ordered)
    ensures NewestFirst(MyLeaves(ordered, caller))
  {
    SubsequenceKeepsOrder(MyLeaves(ordered, caller), ordered,
                          (x: LeaveRequest, y: LeaveRequest) => x.createdAt >= y.createdAt);
  }

  /** The query string of GET /. */
  datatype LeaveQuery = LeaveQuery(status: Option<string>, userId: Option<UserId>, page: Option<int>, limit: Option<int>)

  function LeaveFilter(q: LeaveQuery, scope: Scope.UserFilter): LeaveRequest -> bool {
    (x: LeaveRequest) => (Truthy(q.status) ==> x.status == q.status.value) && Scope.Admits(scope, x.userId)
  }

  /** GET / (behind `requireManagement`) over the requests listed newest first:
      the requested page of the matching requests, 20 to a page by default. */
  function ListLeaves(ordered: seq<LeaveRequest>, caller: Caller, q: LeaveQuery, employeeIds: set<UserId>): (p: Pagination.Page<LeaveRequest>)
    requires Pagination.InRange(q.page, q.limit)
    ensures var matching := Filter(ordered, LeaveFilter(q, Scope.ListScope(caller, q.userId, employeeIds)));
      var page := Pagination.PageOf(q.page);
      var limit := Pagination.LimitOf(q.limit);
      && p.rows == Pagination.PageRows(matching, page, limit)
      && p.info == Pagination.PageInfo(page, limit, |matching|, Pagination.PageCount(|matching|, limit))
    ensures |p.rows| <= Pagination.LimitOf(q.limit)
    ensures q.limit.None? ==> |p.rows| <= Pagination.DefaultLimit
    ensures forall x :: x in p.rows ==> x in ordered && (Truthy(q.status) ==> x.status == q.status.value)
    ensures caller.role == "manager" ==> forall x :: x in p.rows ==> x.userId in employeeIds
    ensures caller.role != "manager" && Truthy(q.userId) ==> forall x :: x in p.rows ==> x.userId == q.userId.value
  {
    var scope := Scope.ListScope(caller, q.userId, employeeIds);
    Pagination.PaginateQuery(Filter(ordered, LeaveFilter(q, scope)), q.page, q.limit)
  }

  /** A manager's list does not depend on the `userId` parameter. */
  lemma ManagerListIgnoresUserId(ordered: seq<LeaveRequest>, caller: Caller, q: LeaveQuery, employeeIds: set<UserId>)
    requires Pagination.InRange(q.page, q.limit)
    requires caller.role == "manager"
    ensures ListLeaves(ordered, caller, q, employeeIds) == ListLeaves(ordered, caller, q.(userId := None), employeeIds)
  {
    Scope.ManagerScopeIgnoresRequest(caller, q.userId, employeeIds, caller.id);
  }
}
