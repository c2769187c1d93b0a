/** The task endpoints: each handler validates the request body (where it has
    one), applies its method-security role guard, calls the task service and
    wraps the result in an HTTP status.

    Request-body validation happens while the handler's arguments are
    resolved, before the guard around the handler runs, so a body that fails
    validation is rejected whatever the caller's roles are. */
module TaskController {
  import opened Entities
  import opened TaskRequests
  import opened TaskService
  import opened UserRepository

  const UserRole: string := "USER"
  const AdminRole: string := "ADMIN"

  const HttpOk: nat := 200
  const HttpCreated: nat := 201
  const HttpNoContent: nat := 204

  /** `hasRole(role)`: the caller holds the authority `ROLE_` + role. */
  predicate HasRole(auth: Authentication, role: string)
  {
    "ROLE_" + role in auth.authorities
  }

  /** `hasAnyRole(roles...)` */
  predicate HasAnyRole(auth: Authentication, roles: seq<string>)
  {
    exists i :: 0 <= i < |roles| && HasRole(auth, roles[i])
  }

  /** The guard on create, list and get-by-id. */
  predicate MayRead(auth: Authentication)
  {
    HasAnyRole(auth, [UserRole, AdminRole])
  }

  /** The guard on update and delete. */
  predicate MayWrite(auth: Authentication)
  {
    HasRole(auth, AdminRole)
  }

  /** A response with a status and an optional body, or the exception the
      handler lets escape (its HTTP status is chosen by an exception handler
      that is not part of this model). */
  datatype Reply<T> = Respond(status: nat, body: Option<T>) | Raise(failure: Failure)

  /** The reply together with the task table after the call. */
  datatype Exchange<T> = Exchange(reply: Reply<T>, tasks: map<TaskId, Task>)

  /** Wraps a service result in the given success status. */
  function WithStatus<T>(status: nat, outcome: Outcome<T>): Reply<T>
  {
    match outcome
    case Ok(v) => Respond(status, Some(v))
    case Fail(f) => Raise(f)
  }

  /** POST /tasks */
  function CreateTask(tasks: map<TaskId, Task>, users: seq<User>, newId: TaskId,
                      request: TaskRequest, auth: Authentication): Exchange<TaskResponse>
  {
    if !IsValid(request) then Exchange(Raise(BadRequest), tasks)
    else if !MayRead(auth) then Exchange(Raise(AccessDenied), tasks)
    else
      var s := Create(tasks, users, newId, request, auth);
      Exchange(WithStatus(HttpCreated, s.outcome), s.tasks)
  }

  /** GET /tasks */
  function GetAllTasks(tasks: map<TaskId, Task>, users: seq<User>, auth: Authentication)
    : Reply<set<TaskResponse>>
  {
    if !MayRead(auth) then Raise(AccessDenied)
    else WithStatus(HttpOk, AllTasks(tasks, users, auth))
  }

  /** GET /tasks/{id} */
  function GetTaskById(tasks: map<TaskId, Task>, users: seq<User>, id: TaskId, auth: Authentication)
    : Reply<TaskResponse>
  {
    if !MayRead(auth) then Raise(AccessDenied)
    else WithStatus(HttpOk, TaskById(tasks, users, id, auth))
  }

  /** PUT /tasks/{id} */
  function UpdateTask(tasks: map<TaskId, Task>, users: seq<User>, id: TaskId,
                      request: TaskRequest, auth: Authentication): Exchange<TaskResponse>
  {
    if !IsValid(request) then Exchange(Raise(BadRequest), tasks)
    else if !MayWrite(auth) then Exchange(Raise(AccessDenied), tasks)
    else
      var s := Update(tasks, users, id, request, auth);
      Exchange(WithStatus(HttpOk, s.outcome), s.tasks)
  }

  /** DELETE /tasks/{id}: no body on success. */
  function DeleteTask(tasks: map<TaskId, Task>, users: seq<User>, id: TaskId, auth: Authentication)
    : Exchange<()>
  {
    if !MayWrite(auth) then Exchange(Raise(AccessDenied), tasks)
    else
      var s := Delete(tasks, users, id, auth);
      match s.outcome
      case Ok(_) => Exchange(Respond(HttpNoContent, None), s.tasks)
      case Fail(f) => Exchange(Raise(f), s.tasks)
  }

  /** The controller's admin guard and the service's admin check test the same authority. */
  lemma AdminGuardIsServiceAdminCheck(auth: Authentication)
    ensures MayWrite(auth) <==> IsAdmin(auth)
  {
    assert "ROLE_" + AdminRole == AdminAuthority;
  }

  /** Through the controller, a caller without ADMIN never reaches the
      service's lookup for update or delete: it is refused (or its invalid body
      is), never told NotFound, and the table stays as it was. */
  lemma WritesRequireAdmin(
    tasks: map<TaskId, Task>, users: seq<User>, id: TaskId,
    request: TaskRequest, auth: Authentication)
    requires !HasRole(auth, AdminRole)
    ensures var e := UpdateTask(tasks, users, id, request, auth);
      && e.tasks == tasks
      && e.reply == Raise(if IsValid(request) then AccessDenied else BadRequest)
    ensures DeleteTask(tasks, users, id, auth) == Exchange(Raise(AccessDenied), tasks)
  {
  }

  /** Create, list and get-by-id are refused to callers holding neither USER
      nor ADMIN, and such a refusal changes nothing. */
  lemma ReadsRequireUserOrAdmin(
    tasks: map<TaskId, Task>, users: seq<User>, id: TaskId, newId: TaskId,
    request: TaskRequest, auth: Authentication)
    requires !HasRole(auth, UserRole) && !HasRole(auth, AdminRole)
    ensures CreateTask(tasks, users, newId, request, auth)
            == Exchange(Raise(if IsValid(request) then AccessDenied else BadRequest), tasks)
    ensures GetAllTasks(tasks, users, auth) == Raise(AccessDenied)
    ensures GetTaskById(tasks, users, id, auth) == Raise(AccessDenied)
  {
  }

  /** Because the guard already demands ADMIN, update and delete through the
      controller never end in the service's Unauthorized. */
  lemma GuardedWritesNeverUnauthorized(
    tasks: map<TaskId, Task>, users: seq<User>, id: TaskId,
    request: TaskRequest, auth: Authentication)
    ensures UpdateTask(tasks, users, id, request, auth).reply != Raise(Unauthorized)
    ensures DeleteTask(tasks, users, id, auth).reply != Raise(Unauthorized)
  {
    AdminGuardIsServiceAdminCheck(auth);
  }

  /** For a caller holding USER or ADMIN: a successful create (of a valid
      body) answers 201 and a successful list or get answers 200, each with
      the service's result as body; any other outcome is the service's
      exception. */
  lemma ReadStatuses(
    tasks: map<TaskId, Task>, users: seq<User>, id: TaskId, newId: TaskId,
    request: TaskRequest, auth: Authentication)
    requires MayRead(auth)
    ensures var s := Create(tasks, users, newId, request, auth);
      IsValid(request) ==>
        CreateTask(tasks, users, newId, request, auth)
          == Exchange(if s.outcome.Ok? then Respond(HttpCreated, Some(s.outcome.value)) else Raise(s.outcome.failure), s.tasks)
    ensures var r := AllTasks(tasks, users, auth);
      GetAllTasks(tasks, users, auth)
        == if r.Ok? then Respond(HttpOk, Some(r.value)) else Raise(r.failure)
    ensures var r := TaskById(tasks, users, id, auth);
      GetTaskById(tasks, users, id, auth)
        == if r.Ok? then Respond(HttpOk, Some(r.value)) else Raise(r.failure)
  {
  }

  /** For a caller holding ADMIN: a successful update (of a valid body)
      answers 200 with the service's result as body, and a successful delete
      answers 204 with no body; any other outcome is the service's exception. */
  lemma WriteStatuses(
    tasks: map<TaskId, Task>, users: seq<User>, id: TaskId,
    request: TaskRequest, auth: Authentication)
    requires MayWrite(auth)
    ensures var s := Update(tasks, users, id, request, auth);
      IsValid(request) ==>
        UpdateTask(tasks, users, id, request, auth)
          == Exchange(if s.outcome.Ok? then Respond(HttpOk, Some(s.outcome.value)) else Raise(s.outcome.failure), s.tasks)
    ensures var s := Delete(tasks, users, id, auth);
      DeleteTask(tasks, users, id, auth)
        == Exchange(if s.outcome.Ok? then Respond(HttpNoContent, None) else Raise(s.outcome.failure), s.tasks)
  {
  }

  /** The walk-through on a table of three users: a USER (alice) creates a
      task without status or priority and gets PENDING and MEDIUM and herself
      as owner; an ADMIN (root) sets it COMPLETED, which alice then reads;
      another USER (bob) can neither read nor update alice's task. */
  lemma OwnershipScenario(
    tasks: map<TaskId, Task>, users: seq<User>, newId: TaskId,
    alice: Authentication, bob: Authentication, root: Authentication, title: string)
    requires |users| == 3
    requires users[0].username == alice.name && users[1].username == bob.name
    requires users[2].username == root.name
    requires alice.name != bob.name && alice.name != root.name && bob.name != root.name
    requires users[0].id != users[1].id
    requires "ROLE_USER" in alice.authorities && "ROLE_ADMIN" !in alice.authorities
    requires "ROLE_USER" in bob.authorities && "ROLE_ADMIN" !in bob.authorities
    requires "ROLE_ADMIN" in root.authorities
    requires TitleMinLength <= |title| <= TitleMaxLength && title[0] > ' '
    requires newId !in tasks
    ensures
      var create := TaskRequest(Some(title), None, None, None, None);
      var complete := TaskRequest(Some(title), None, Some(Completed), None, None);
      var created := CreateTask(tasks, users, newId, create, alice);
      var updated := UpdateTask(created.tasks, users, newId, complete, root);
      && created.reply.Respond? && created.reply.status == HttpCreated
      && created.reply.body.value.status == Pending
      && created.reply.body.value.priority == Medium
      && created.reply.body.value.username == alice.name
      && updated.reply.Respond?
      && GetTaskById(updated.tasks, users, newId, alice).Respond?
      && GetTaskById(updated.tasks, users, newId, alice).body.value.status == Completed
      && GetTaskById(updated.tasks, users, newId, bob) == Raise(Unauthorized)
      && UpdateTask(updated.tasks, users, newId, complete, bob) == Exchange(Raise(AccessDenied), updated.tasks)
  {
    var create := TaskRequest(Some(title), None, None, None, None);
    var complete := TaskRequest(Some(title), None, Some(Completed), None, None);
    ValidRequest(create);
    ValidRequest(complete);
    assert "ROLE_" + UserRole == "ROLE_USER";
    assert HasRole(alice, [UserRole, AdminRole][0]);
    assert HasRole(bob, [UserRole, AdminRole][0]);
    assert users[1..][0] == users[1] && users[1..][1..][0] == users[2];
    assert FindByUsername(users, alice.name) == Some(users[0]);
    assert FindByUsername(users, bob.name) == Some(users[1]);
    assert FindByUsername(users, root.name) == Some(users[2]);
    AdminGuardIsServiceAdminCheck(alice);
    AdminGuardIsServiceAdminCheck(bob);
    AdminGuardIsServiceAdminCheck(root);
  }
}
