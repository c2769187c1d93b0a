/** The entities of the task manager's persistent store and the outcomes of its
    operations, as the services and the controller see them. */
module Entities {

  /** A Java reference that may be null. */
  datatype Option<+T> = None | Some(value: T)

  type TaskId = nat
  type UserId = nat
  type RoleId = nat

  /** A `LocalDateTime`; the core only copies it from request to task. */
  type Timestamp = int

  datatype TaskStatus = Pending | InProgress | Completed

  datatype TaskPriority = Low | Medium | High

  datatype Role = Role(id: RoleId, name: string)

  datatype User = User(
    id: UserId,
    username: string,
    email: string,
    password: string,
    roles: set<Role>,
    enabled: bool)

  /** A task row. Its owner is the associated user, of which the core reads the
      id (for ownership checks) and the username (for responses). */
  datatype Task = Task(
    id: TaskId,
    title: Option<string>,
    description: Option<string>,
    status: TaskStatus,
    priority: TaskPriority,
    ownerId: UserId,
    ownerName: string,
    dueDate: Option<Timestamp>)

  /** The authenticated principal of a request: its name and its granted
      authorities (role names carry the `ROLE_` prefix, as in `ROLE_ADMIN`). */
  datatype Authentication = Authentication(name: string, authorities: set<string>)

  /** The exceptions that end an operation. */
  datatype Failure =
    | NotFound        // ResourceNotFoundException
    | Unauthorized    // UnauthorizedException, raised by the task service
    | BadRequest      // BadRequestException, or a request body that fails validation
    | AccessDenied    // a method-security guard of the controller rejects the caller
    | BadCredentials  // the authentication manager rejects a login

  /** What an operation returns: its value, or the exception it raises. */
  datatype Outcome<+T> = Ok(value: T) | Fail(failure: Failure)
}
