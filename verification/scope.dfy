/** The user filter of the management list routes (attendance, leave requests,
    tasks): a `userId` / `assigneeId` query parameter narrows the list, except
    that a manager's list is always the set of all 'employee' accounts. */
module Scope {
  import opened Common

  /** The shape `where.userId` takes: absent, one id, or `{ in: ids }`. */
  datatype UserFilter = AnyUser | OnlyUser(id: UserId) | AmongUsers(ids: set<UserId>)

  /** Whether a row owned by `id` passes the filter. */
  predicate Admits(f: UserFilter, id: UserId) {
    match f
    case AnyUser => true
    case OnlyUser(u) => id == u
    case AmongUsers(ids) => id in ids
  }

  /** The filter a list route builds for `caller`, given the query parameter
      `requested` and the ids of all accounts whose role is 'employee'. */
  function ListScope(caller: Caller, requested: Option<UserId>, employeeIds: set<UserId>): (f: UserFilter)
    ensures caller.role == "manager" ==> f == AmongUsers(employeeIds)
    ensures caller.role != "manager" && Truthy(requested) ==> f == OnlyUser(requested.value)
    ensures caller.role != "manager" && !Truthy(requested) ==> f == AnyUser
  {
    var base := if Truthy(requested) then OnlyUser(requested.value) else AnyUser;
    if caller.role == "manager" then AmongUsers(employeeIds) else base
  }

  /** A manager sees rows of employees and only those, whatever id was asked for. */
  lemma ManagerScopeIgnoresRequest(caller: Caller, requested: Option<UserId>, employeeIds: set<UserId>, id: UserId)
    requires caller.role == "manager"
    ensures Admits(ListScope(caller, requested, employeeIds), id) <==> id in employeeIds
    ensures ListScope(caller, requested, employeeIds) == ListScope(caller, None, employeeIds)
  {
  }
}
