/** The authorization-aware task service: who may create, list, read, update
    and delete which tasks, and what each operation does to the task table.

    Each state-changing operation is given twice: as a transition function
    (`Create`, `Update`, `Delete`) from the tables before the call to the
    outcome and the task table after it, and as a method of `Service` that
    changes the task store step by step and is proved to follow that function.
    The lemmas below state the service's rules about the transition functions. */
module TaskService {
  import opened Entities
  import opened TaskRequests
  import opened TaskRepository
  import opened UserRepository

  const AdminAuthority: string := "ROLE_ADMIN"

  /** `isAdmin`: the principal holds the authority `ROLE_ADMIN`. */
  predicate IsAdmin(auth: Authentication)
  {
    AdminAuthority in auth.authorities
  }

  /** What the service returns for a task: the owner appears by username. */
  datatype TaskResponse = TaskResponse(
    id: TaskId,
    title: Option<string>,
    description: Option<string>,
    status: TaskStatus,
    priority: TaskPriority,
    username: string,
    dueDate: Option<Timestamp>)

  /** `mapToResponse` */
  function MapToResponse(task: Task): TaskResponse
  {
    TaskResponse(task.id, task.title, task.description, task.status, task.priority,
                 task.ownerName, task.dueDate)
  }

  /** `getUserFromAuthentication`: the stored user named by the principal. */
  function UserFromAuthentication(users: seq<User>, auth: Authentication): (r: Outcome<User>)
    ensures r.Ok? <==> ExistsByUsername(users, auth.name)
    ensures r.Ok? ==> r.value in users && r.value.username == auth.name
    ensures r.Fail? ==> r.failure == NotFound
  {
    match FindByUsername(users, auth.name)
    case Some(user) => Ok(user)
    case None => Fail(NotFound)
  }

  /** The outcome of an operation together with the task table after it. */
  datatype Step<T> = Step(outcome: Outcome<T>, tasks: map<TaskId, Task>)

  /** The task `createTask` builds: the caller owns it; an absent status
      becomes PENDING and an absent priority MEDIUM. */
  function NewTask(id: TaskId, request: TaskRequest, user: User): Task
  {
    Task(id, request.title, request.description,
         if request.status.Some? then request.status.value else Pending,
         if request.priority.Some? then request.priority.value else Medium,
         user.id, user.username, request.dueDate)
  }

  /** `createTask`, with `newId` the id the table assigns to the new row. */
  function Create(tasks: map<TaskId, Task>, users: seq<User>, newId: TaskId,
                  request: TaskRequest, auth: Authentication): (s: Step<TaskResponse>)
    ensures s.outcome.Fail? ==> s.tasks == tasks
    ensures s.outcome.Ok? ==> s.tasks.Keys == tasks.Keys + {newId}
  {
    match UserFromAuthentication(users, auth)
    case Fail(f) => Step(Fail(f), tasks)
    case Ok(user) =>
      var task := NewTask(newId, request, user);
      Step(Ok(MapToResponse(task)), tasks[newId := task])
  }

  /** `getAllTasks`: every task for an admin, the caller's own tasks otherwise. */
  function AllTasks(tasks: map<TaskId, Task>, users: seq<User>, auth: Authentication)
    : (r: Outcome<set<TaskResponse>>)
    ensures r.Fail? ==> r.failure == NotFound && !ExistsByUsername(users, auth.name)
  {
    match UserFromAuthentication(users, auth)
    case Fail(f) => Fail(f)
    case Ok(user) =>
      var rows := if IsAdmin(auth) then FindAll(tasks) else FindByUserId(tasks, user.id);
      Ok(set t | t in rows :: MapToResponse(t))
  }

  /** `getTaskById`: existence is checked before ownership. */
  function TaskById(tasks: map<TaskId, Task>, users: seq<User>, id: TaskId, auth: Authentication)
    : (r: Outcome<TaskResponse>)
    ensures r.Ok? ==> id in tasks && r.value == MapToResponse(tasks[id])
  {
    match UserFromAuthentication(users, auth)
    case Fail(f) => Fail(f)
    case Ok(user) =>
      if id !in tasks then Fail(NotFound)
      else if !IsAdmin(auth) && tasks[id].ownerId != user.id then Fail(Unauthorized)
      else Ok(MapToResponse(tasks[id]))
  }

  /** The setters `updateTask` applies: title and description always, the
      other fields only when the request carries a value. */
  function Patched(task: Task, request: TaskRequest): Task
  {
    task.(title := request.title,
          description := request.description,
          status := if request.status.Some? then request.status.value else task.status,
          priority := if request.priority.Some? then request.priority.value else task.priority,
          dueDate := if request.dueDate.Some? then request.dueDate else task.dueDate)
  }

  /** `updateTask`: existence first, then the admin check; ownership plays no part. */
  function Update(tasks: map<TaskId, Task>, users: seq<User>, id: TaskId,
                  request: TaskRequest, auth: Authentication): (s: Step<TaskResponse>)
    ensures s.tasks.Keys == tasks.Keys
    ensures s.outcome.Ok? ==> IsAdmin(auth)
    ensures s.outcome.Fail? ==> s.tasks == tasks
  {
    match UserFromAuthentication(users, auth)
    case Fail(f) => Step(Fail(f), tasks)
    case Ok(_) =>
      if id !in tasks then Step(Fail(NotFound), tasks)
      else if !IsAdmin(auth) then Step(Fail(Unauthorized), tasks)
      else
        var task := Patched(tasks[id], request);
        Step(Ok(MapToResponse(task)), tasks[id := task])
  }

  /** `deleteTask`: existence first, then the admin check. */
  function Delete(tasks: map<TaskId, Task>, users: seq<User>, id: TaskId, auth: Authentication)
    : (s: Step<()>)
    ensures s.outcome.Ok? ==> IsAdmin(auth) && id in tasks
    ensures s.outcome.Fail? ==> s.tasks == tasks
  {
    match UserFromAuthentication(users, auth)
    case Fail(f) => Step(Fail(f), tasks)
    case Ok(_) =>
      if id !in tasks then Step(Fail(NotFound), tasks)
      else if !IsAdmin(auth) then Step(Fail(Unauthorized), tasks)
      else Step(Ok(()), tasks - {id})
  }

  /** The service object: it changes the task table and only reads the user table. */
  class Service {
    const taskStore: TaskStore
    const userStore: UserStore

    constructor (taskStore: TaskStore, userStore: UserStore)
      ensures this.taskStore == taskStore && this.userStore == userStore
    {
      this.taskStore := taskStore;
      this.userStore := userStore;
    }

    method CreateTask(request: TaskRequest, auth: Authentication) returns (r: Outcome<TaskResponse>)
      requires taskStore.Valid()
      modifies taskStore
      ensures taskStore.Valid()
      ensures Step(r, taskStore.tasks)
              == Create(old(taskStore.tasks), userStore.users, old(taskStore.nextId), request, auth)
    {
      var found := FindByUsername(userStore.users, auth.name);
      if found.None? {
        return Fail(NotFound);
      }
      var user := found.value;
      var status := if request.status.Some? then request.status.value else Pending;
      var priority := if request.priority.Some? then request.priority.value else Medium;
      var id := taskStore.nextId;
      var task := Task(id, request.title, request.description, status, priority,
                       user.id, user.username, request.dueDate);
      taskStore.tasks := taskStore.tasks[id := task];
      taskStore.nextId := id + 1;
      r := Ok(MapToResponse(task));
    }

    method UpdateTask(id: TaskId, request: TaskRequest, auth: Authentication) returns (r: Outcome<TaskResponse>)
      requires taskStore.Valid()
      modifies taskStore`tasks
      ensures taskStore.Valid()
      ensures Step(r, taskStore.tasks) == Update(old(taskStore.tasks), userStore.users, id, request, auth)
    {
      var found := FindByUsername(userStore.users, auth.name);
      if found.None? {
        return Fail(NotFound);
      }
      if id !in taskStore.tasks {
        return Fail(NotFound);
      }
      var task := taskStore.tasks[id];
      if !IsAdmin(auth) {
        return Fail(Unauthorized);
      }
      task := task.(title := request.title);
      task := task.(description := request.description);
      if request.status.Some? {
        task := task.(status := request.status.value);
      }
      if request.priority.Some? {
        task := task.(priority := request.priority.value);
      }
      if request.dueDate.Some? {
        task := task.(dueDate := request.dueDate);
      }
      taskStore.tasks := taskStore.tasks[task.id := task];
      r := Ok(MapToResponse(task));
    }

    method DeleteTask(id: TaskId, auth: Authentication) returns (r: Outcome<()>)
      requires taskStore.Valid()
      modifies taskStore`tasks
      ensures taskStore.Valid()
      ensures Step(r, taskStore.tasks) == Delete(old(taskStore.tasks), userStore.users, id, auth)
    {
      var found := FindByUsername(userStore.users, auth.name);
      if found.None? {
        return Fail(NotFound);
      }
      if id !in taskStore.tasks {
        return Fail(NotFound);
      }
      var task := taskStore.tasks[id];
      if !IsAdmin(auth) {
        return Fail(Unauthorized);
      }
      taskStore.tasks := taskStore.tasks - {task.id};
      r := Ok(());
    }
  }

  /** A principal with no stored user gets NotFound from every operation,
      before any task lookup, and the table stays as it was. */
  lemma UnknownPrincipalIsNotFound(
    tasks: map<TaskId, Task>, users: seq<User>, id: TaskId, newId: TaskId,
    request: TaskRequest, auth: Authentication)
    requires !ExistsByUsername(users, auth.name)
    ensures Create(tasks, users, newId, request, auth) == Step(Fail(NotFound), tasks)
    ensures AllTasks(tasks, users, auth) == Fail(NotFound)
    ensures TaskById(tasks, users, id, auth) == Fail(NotFound)
    ensures Update(tasks, users, id, request, auth) == Step(Fail(NotFound), tasks)
    ensures Delete(tasks, users, id, auth) == Step(Fail(NotFound), tasks)
  {
  }

  /** A created task belongs to the authenticated user, keeps the supplied
      fields, takes PENDING and MEDIUM where status and priority are absent,
      and is added beside the existing rows without touching them. */
  lemma CreateAssignsOwnerAndDefaults(
    tasks: map<TaskId, Task>, users: seq<User>, newId: TaskId,
    request: TaskRequest, auth: Authentication)
    requires ExistsByUsername(users, auth.name)
    requires WellKeyed(tasks) && newId !in tasks
    ensures var s := Create(tasks, users, newId, request, auth);
      && s.outcome.Ok?
      && newId in s.tasks
      && var task := s.tasks[newId];
      && task.id == newId
      && task.ownerId == FindByUsername(users, auth.name).value.id
      && task.ownerName == auth.name
      && task.title == request.title
      && task.description == request.description
      && task.status == (if request.status.Some? then request.status.value else Pending)
      && task.priority == (if request.priority.Some? then request.priority.value else Medium)
      && task.dueDate == request.dueDate
      && s.outcome.value == MapToResponse(task)
      && s.outcome.value.username == auth.name
      && (forall k :: k in tasks ==> k in s.tasks && s.tasks[k] == tasks[k])
      && |s.tasks| == |tasks| + 1
      && WellKeyed(s.tasks)
  {
  }

  /** The creator can read back what the creation returned. */
  lemma CreatedTaskIsReadableByCreator(
    tasks: map<TaskId, Task>, users: seq<User>, newId: TaskId,
    request: TaskRequest, auth: Authentication)
    requires ExistsByUsername(users, auth.name)
    ensures var s := Create(tasks, users, newId, request, auth);
      TaskById(s.tasks, users, newId, auth) == s.outcome
  {
  }

  /** An admin's listing holds every stored task, one response per row. */
  lemma AdminListsEveryTask(tasks: map<TaskId, Task>, users: seq<User>, auth: Authentication)
    requires WellKeyed(tasks)
    requires ExistsByUsername(users, auth.name) && IsAdmin(auth)
    ensures var r := AllTasks(tasks, users, auth);
      && r.Ok?
      && (forall id :: id in tasks ==> MapToResponse(tasks[id]) in r.value)
      && (forall v :: v in r.value ==> v.id in tasks && v == MapToResponse(tasks[v.id]))
      && |r.value| == |tasks|
  {
    var rows := FindAll(tasks);
    FindAllSize(tasks);
    var r := AllTasks(tasks, users, auth);
    assert r.value == set t | t in rows :: MapToResponse(t);
    forall id | id in tasks ensures MapToResponse(tasks[id]) in r.value {
      assert tasks[id] in rows;
    }
    ResponseCount(rows);
  }

  /** A non-admin's listing holds exactly the tasks the caller owns: none
      missing and none extra. */
  lemma UserListsOwnTasks(tasks: map<TaskId, Task>, users: seq<User>, auth: Authentication)
    requires WellKeyed(tasks)
    requires ExistsByUsername(users, auth.name) && !IsAdmin(auth)
    ensures var r := AllTasks(tasks, users, auth);
      var me := FindByUsername(users, auth.name).value;
      && r.Ok?
      && (forall id :: id in tasks && tasks[id].ownerId == me.id ==> MapToResponse(tasks[id]) in r.value)
      && (forall v :: v in r.value ==>
            v.id in tasks && tasks[v.id].ownerId == me.id && v == MapToResponse(tasks[v.id]))
      && |r.value| == CountByUserId(tasks, me.id)
  {
    var me := FindByUsername(users, auth.name).value;
    var rows := FindByUserId(tasks, me.id);
    var r := AllTasks(tasks, users, auth);
    assert r.value == set t | t in rows :: MapToResponse(t);
    forall id | id in tasks && tasks[id].ownerId == me.id ensures MapToResponse(tasks[id]) in r.value {
      assert tasks[id] in rows;
    }
    ResponseCount(rows);
    CountMatchesFind(tasks, me.id);
  }

  /** Rows with distinct ids give distinct responses. */
  lemma {:induction false} ResponseCount(rows: set<Task>)
    requires forall t, u :: t in rows && u in rows && t.id == u.id ==> t == u
    ensures |set t | t in rows :: MapToResponse(t)| == |rows|
  {
    if rows != {} {
      var x :| x in rows;
      var rest := rows - {x};
      ResponseCount(rest);
      var all := set t | t in rows :: MapToResponse(t);
      var restResponses := set t | t in rest :: MapToResponse(t);
      assert all == restResponses + {MapToResponse(x)};
      assert MapToResponse(x) !in restResponses;
    }
  }

  /** A missing id is NotFound for every principal, admins included, and for
      reads, updates and deletes alike. */
  lemma MissingTaskIsNotFound(
    tasks: map<TaskId, Task>, users: seq<User>, id: TaskId,
    request: TaskRequest, auth: Authentication)
    requires id !in tasks
    ensures TaskById(tasks, users, id, auth) == Fail(NotFound)
    ensures Update(tasks, users, id, request, auth) == Step(Fail(NotFound), tasks)
    ensures Delete(tasks, users, id, auth) == Step(Fail(NotFound), tasks)
  {
  }

  /** The path id 0 names no row of a table filled by the identity column:
      read, update and delete all answer NotFound, for every principal. */
  lemma NonPositiveIdIsNotFound(
    tasks: map<TaskId, Task>, users: seq<User>, id: TaskId,
    request: TaskRequest, auth: Authentication)
    requires PositiveIds(tasks) && id < 1
    ensures TaskById(tasks, users, id, auth) == Fail(NotFound)
    ensures Update(tasks, users, id, request, auth) == Step(Fail(NotFound), tasks)
    ensures Delete(tasks, users, id, auth) == Step(Fail(NotFound), tasks)
  {
    MissingTaskIsNotFound(tasks, users, id, request, auth);
  }

  /** Reading an existing task succeeds exactly for an admin or the owner;
      anyone else gets Unauthorized. */
  lemma ReadRequiresAdminOrOwner(
    tasks: map<TaskId, Task>, users: seq<User>, id: TaskId, auth: Authentication)
    requires ExistsByUsername(users, auth.name) && id in tasks
    ensures var r := TaskById(tasks, users, id, auth);
      var me := FindByUsername(users, auth.name).value;
      && (r.Ok? <==> IsAdmin(auth) || tasks[id].ownerId == me.id)
      && (r.Ok? ==> r.value == MapToResponse(tasks[id]))
      && (r.Fail? ==> r.failure == Unauthorized)
  {
  }

  /** A non-admin cannot update, not even a task of their own, and the table
      stays as it was. */
  lemma NonAdminUpdateIsUnauthorized(
    tasks: map<TaskId, Task>, users: seq<User>, id: TaskId,
    request: TaskRequest, auth: Authentication)
    requires ExistsByUsername(users, auth.name) && id in tasks && !IsAdmin(auth)
    ensures Update(tasks, users, id, request, auth) == Step(Fail(Unauthorized), tasks)
  {
  }

  /** An admin's update overwrites title and description (with null too),
      overwrites status, priority and due date only where the request carries
      a value, keeps id and owner, and leaves every other row alone. */
  lemma AdminUpdatePatchesTask(
    tasks: map<TaskId, Task>, users: seq<User>, id: TaskId,
    request: TaskRequest, auth: Authentication)
    requires ExistsByUsername(users, auth.name) && id in tasks && IsAdmin(auth)
    requires WellKeyed(tasks)
    ensures var s := Update(tasks, users, id, request, auth);
      var before := tasks[id];
      var after := s.tasks[id];
      && s.outcome == Ok(MapToResponse(after))
      && after.title == request.title
      && after.description == request.description
      && after.status == (if request.status.Some? then request.status.value else before.status)
      && after.priority == (if request.priority.Some? then request.priority.value else before.priority)
      && after.dueDate == (if request.dueDate.Some? then request.dueDate else before.dueDate)
      && after.id == before.id
      && after.ownerId == before.ownerId && after.ownerName == before.ownerName
      && s.tasks.Keys == tasks.Keys
      && (forall k :: k in tasks && k != id ==> s.tasks[k] == tasks[k])
      && WellKeyed(s.tasks)
  {
  }

  /** Whoever could read a task before an update reads the updated task
      afterwards: exactly the response the update returned. */
  lemma UpdateThenRead(
    tasks: map<TaskId, Task>, users: seq<User>, id: TaskId,
    request: TaskRequest, auth: Authentication, reader: Authentication)
    requires TaskById(tasks, users, id, reader).Ok?
    ensures var s := Update(tasks, users, id, request, auth);
      s.outcome.Ok? ==> TaskById(s.tasks, users, id, reader) == s.outcome
  {
  }

  /** Repeating an update changes nothing more. */
  lemma UpdateIsIdempotent(
    tasks: map<TaskId, Task>, users: seq<User>, id: TaskId,
    request: TaskRequest, auth: Authentication)
    ensures var s := Update(tasks, users, id, request, auth);
      Update(s.tasks, users, id, request, auth) == s
  {
  }

  /** A delete by a non-admin is Unauthorized; an admin's delete removes
      exactly that row. */
  lemma DeleteRules(tasks: map<TaskId, Task>, users: seq<User>, id: TaskId, auth: Authentication)
    requires ExistsByUsername(users, auth.name) && id in tasks
    ensures var s := Delete(tasks, users, id, auth);
      && (!IsAdmin(auth) ==> s == Step(Fail(Unauthorized), tasks))
      && (IsAdmin(auth) ==> s.outcome.Ok? && s.tasks.Keys == tasks.Keys - {id}
                            && forall k :: k in s.tasks ==> s.tasks[k] == tasks[k])
  {
  }

  /** Deleting the same id twice: the second attempt finds nothing, whoever makes it. */
  lemma DeleteTwiceIsNotFound(
    tasks: map<TaskId, Task>, users: seq<User>, id: TaskId,
    auth: Authentication, again: Authentication)
    ensures var s := Delete(tasks, users, id, auth);
      s.outcome.Ok? ==> Delete(s.tasks, users, id, again) == Step(Fail(NotFound), s.tasks)
  {
  }
}
