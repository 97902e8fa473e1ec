/** Task assignment: creation by management, status updates by the assignee
    or management, and the list routes. The store is the table of tasks keyed
    by id. */
module Tasks {
  import opened Common
  import Scope
  import Pagination
  import Auth

  type TaskId = string

  const DefaultPriority := "medium"
  const InitialStatus := "pending"

  /** The status values a status update accepts. */
  const TaskStatuses: seq<string> := ["pending", "in-progress", "completed"]

  /** One row of the task table. */
  datatype Task = Task(
    title: string,
    description: Option<string>,
    assigneeId: UserId,
    assignerId: UserId,
    priority: string,
    status: string,
    dueDate: Option<int>)

  type TaskStore = map<TaskId, Task>

  /** The rejections of the task routes. */
  datatype TaskError =
    | MissingTitleOrAssignee
    | InvalidStatus
    | TaskNotFound
    | NotAuthorized
    | CreateFailed
  {
    function Status(): int {
      match this
      case MissingTitleOrAssignee => 400
      case InvalidStatus => 400
      case TaskNotFound => 404
      case NotAuthorized => 403
      case CreateFailed => 500
    }

    function Message(): string {
      match this
      case MissingTitleOrAssignee => "Title and assignee are required"
      case InvalidStatus => "Invalid status"
      case TaskNotFound => "Task not found"
      case NotAuthorized => "Not authorized"
      case CreateFailed => "Failed to create task"
    }
  }

  /** The body of POST /. */
  datatype TaskForm = TaskForm(
    title: Option<string>,
    description: Option<string>,
    assigneeId: Option<UserId>,
    priority: Option<string>,
    dueDate: Option<string>)

  /** POST / (behind `requireManagement`). `id` is the identifier the database
      assigns; `parseDate` is `new Date(...)`, absent for a date the database
      refuses. A taken id or an unparsable due date makes the insert fail. */
  function CreateTask(store: TaskStore, caller: Caller, form: TaskForm, id: TaskId,
                      parseDate: string -> Option<int>): (r: Result<TaskStore, TaskError>)
    ensures !Truthy(form.title) || !Truthy(form.assigneeId) ==> r == Failure(MissingTitleOrAssignee)
    ensures r.Success? <==>
      && Truthy(form.title) && Truthy(form.assigneeId) && id !in store
      && (Truthy(form.dueDate) ==> parseDate(form.dueDate.value).Some?)
    ensures r.Success? ==> r.value.Keys == store.Keys + {id} && forall k :: k in store ==> r.value[k] == store[k]
    ensures r.Success? ==>
      var t := r.value[id];
      && t.title == form.title.value && t.description == form.description
      && t.assigneeId == form.assigneeId.value && t.assignerId == caller.id
      && t.priority == (if Truthy(form.priority) then form.priority.value else DefaultPriority)
      && t.dueDate == (if Truthy(form.dueDate) then parseDate(form.dueDate.value) else None)
      && t.status == InitialStatus
  {
    if !Truthy(form.title) || !Truthy(form.assigneeId) then Failure(MissingTitleOrAssignee)
    else if id in store then Failure(CreateFailed)
    else if Truthy(form.dueDate) && parseDate(form.dueDate.value).None? then Failure(CreateFailed)
    else
      var priority := if Truthy(form.priority) then form.priority.value else DefaultPriority;
      var due := if Truthy(form.dueDate) then parseDate(form.dueDate.value) else None;
      Success(store[id := Task(form.title.value, form.description, form.assigneeId.value, caller.id,
                               priority, InitialStatus, due)])
  }

  predicate ValidTaskStatus(status: Option<string>) {
    status.Some? && status.value in TaskStatuses
  }

  /** Whether `caller` may change the status of a task assigned to `assignee`. */
  predicate MayUpdate(caller: Caller, assignee: UserId) {
    assignee == caller.id || caller.role in Auth.ManagementRoles
  }

  /** PUT /:id/status: the status value is checked before the task is looked
      up, then 404, then 403; otherwise only the status changes. */
  function UpdateTaskStatus(store: TaskStore, caller: Caller, id: TaskId, status: Option<string>): (r: Result<TaskStore, TaskError>)
    ensures !ValidTaskStatus(status) ==> r == Failure(InvalidStatus)
    ensures ValidTaskStatus(status) && id !in store ==> r == Failure(TaskNotFound)
    ensures ValidTaskStatus(status) && id in store && !MayUpdate(caller, store[id].assigneeId) ==> r == Failure(NotAuthorized)
    ensures r.Success? <==> ValidTaskStatus(status) && id in store && MayUpdate(caller, store[id].assigneeId)
    ensures r.Success? ==>
      && r.value.Keys == store.Keys
      && r.value[id] == store[id].(status := status.value)
      && (forall k :: k in store && k != id ==> r.value[k] == store[k])
  {
    if !ValidTaskStatus(status) then Failure(InvalidStatus)
    else if id !in store then Failure(TaskNotFound)
    else if !MayUpdate(caller, store[id].assigneeId) then Failure(NotAuthorized)
    else Success(store[id := store[id].(status := status.value)])
  }

  /** A status update repeated with the same value changes nothing more. */
  lemma UpdateTaskStatusIdempotent(store: TaskStore, caller: Caller, id: TaskId, status: Option<string>)
    requires UpdateTaskStatus(store, caller, id, status).Success?
    ensures var s1 := UpdateTaskStatus(store, caller, id, status).value;
      UpdateTaskStatus(s1, caller, id, status) == Success(s1)
  {
    var s1 := UpdateTaskStatus(store, caller, id, status).value;
    var s2 := UpdateTaskStatus(s1, caller, id, status).value;
    assert forall k :: k in s2 ==> s2[k] == s1[k];
    assert s2 == s1;
  }

  /** Setting the status back to its previous (valid) value undoes an update:
      nothing but the status was touched. */
  lemma UpdateTaskStatusUndo(store: TaskStore, caller: Caller, id: TaskId, status: Option<string>)
    requires UpdateTaskStatus(store, caller, id, status).Success?
    requires store[id].status in TaskStatuses
    ensures var s1 := UpdateTaskStatus(store, caller, id, status).value;
      UpdateTaskStatus(s1, caller, id, Some(store[id].status)) == Success(store)
  {
    var s1 := UpdateTaskStatus(store, caller, id, status).value;
    var s2 := UpdateTaskStatus(s1, caller, id, Some(store[id].status)).value;
    assert forall k :: k in s2 ==> s2[k] == store[k];
    assert s2 == store;
  }

  /** The assignee of a newly created task can move it through every status. */
  lemma AssigneeCanUpdateNewTask(store: TaskStore, creator: Caller, form: TaskForm, id: TaskId,
                                 parseDate: string -> Option<int>, assignee: Caller, status: string)
    requires CreateTask(store, creator, form, id, parseDate).Success?
    requires assignee.id == form.assigneeId.value
    requires status in TaskStatuses
    ensures UpdateTaskStatus(CreateTask(store, creator, form, id, parseDate).value, assignee, id, Some(status)).Success?
  {
  }

  /** GET /my: the caller's assigned tasks, optionally of one status, in the
      order the store lists them (priority descending, then due date). */
  function MyTasks(ordered: seq<Task>, caller: Caller, status: Option<string>): (r: seq<Task>)
    ensures forall t :: t in r <==>
      t in ordered && t.assigneeId == caller.id && (Truthy(status) ==> t.status == status.value)
    ensures IsSubsequence(r, ordered)
    ensures forall t ::
      multiset(r)[t] == if t.assigneeId == caller.id && (Truthy(status) ==> t.status == status.value) then multiset(ordered)[t] else 0
  {
    Filter(ordered, (t: Task) => t.assigneeId == caller.id && (Truthy(status) ==> t.status == status.value))
  }

  /** GET /assigned: the tasks the caller assigned, optionally of one status,
      in the order the store lists them. */
  function AssignedTasks(ordered: seq<Task>, caller: Caller, status: Option<string>): (r: seq<Task>)
    ensures forall t :: t in r <==>
      t in ordered && t.assignerId == caller.id && (Truthy(status) ==> t.status == status.value)
    ensures IsSubsequence(r, ordered)
    ensures forall t ::
      multiset(r)[t] == if t.assignerId == caller.id && (Truthy(status) ==> t.status == status.value) then multiset(ordered)[t] else 0
  {
    Filter(ordered, (t: Task) => t.assignerId == caller.id && (Truthy(status) ==> t.status == status.value))
  }

  /** The query string of GET /. */
  datatype TaskQuery = TaskQuery(status: Option<string>, priority: Option<string>, assigneeId: Option<UserId>, page: Option<int>, limit: Option<int>)

  function TaskFilter(q: TaskQuery, scope: Scope.UserFilter): Task -> bool {
    (t: Task) =>
      && (Truthy(q.status) ==> t.status == q.status.value)
      && (Truthy(q.priority) ==> t.priority == q.priority.value)
      && Scope.Admits(scope, t.assigneeId)
  }

  /** GET / (behind `requireManagement`) over the tasks in the route's order:
      the requested page of the matching tasks, 20 to a page by default. */
  function ListTasks(ordered: seq<Task>, caller: Caller, q: TaskQuery, employeeIds: set<UserId>): (p: Pagination.Page<Task>)
    requires Pagination.InRange(q.page, q.limit)
    ensures var matching := Filter(ordered, TaskFilter(q, Scope.ListScope(caller, q.assigneeId, employeeIds)));
      var page := Pagination.PageOf(q.page);
      var limit := Pagination.LimitOf(q.limit);
      && p.rows == Pagination.PageRows(matching, page, limit)
      && p.info == Pagination.PageInfo(page, limit, |matching|, Pagination.PageCount(|matching|, limit))
    ensures |p.rows| <= Pagination.LimitOf(q.limit)
    ensures q.limit.None? ==> |p.rows| <= Pagination.DefaultLimit
    ensures forall t :: t in p.rows ==>
      && t in ordered
      && (Truthy(q.status) ==> t.status == q.status.value)
      && (Truthy(q.priority) ==> t.priority == q.priority.value)
    ensures caller.role == "manager" ==> forall t :: t in p.rows ==> t.assigneeId in employeeIds
    ensures caller.role != "manager" && Truthy(q.assigneeId) ==> forall t :: t in p.rows ==> t.assigneeId == q.assigneeId.value
  {
    var scope := Scope.ListScope(caller, q.assigneeId, employeeIds);
    Pagination.PaginateQuery(Filter(ordered, TaskFilter(q, scope)), q.page, q.limit)
  }

  /** A manager's list does not depend on the `assigneeId` parameter. */
  lemma ManagerListIgnoresAssignee(ordered: seq<Task>, caller: Caller, q: TaskQuery, employeeIds: set<UserId>)
    requires Pagination.InRange(q.page, q.limit)
    requires caller.role == "manager"
    ensures ListTasks(ordered, caller, q, employeeIds) == ListTasks(ordered, caller, q.(assigneeId := None), employeeIds)
  {
    Scope.ManagerScopeIgnoresRequest(caller, q.assigneeId, employeeIds, caller.id);
  }
}
