# Task manager: authorization-aware task store

This project is a Dafny model of the core of a Spring Boot task-management
REST API. Users authenticate with a JWT and hold the roles USER or ADMIN.

- **Tasks.** Any USER or ADMIN may create tasks and list or read them. A
  USER sees only the tasks they own; an ADMIN sees every task. Only an ADMIN
  may update or delete a task.
- **Request bodies.** Each body is validated against its record's
  constraints.
- **Accounts.** Registration refuses a taken username or email and any
  unknown role name.
- **Seeding.** At start-up the roles USER and ADMIN and the accounts "user"
  and "admin" are seeded, but only into empty tables.

The model is organised by the program's own layers:

| module | file | what it holds |
|---|---|---|
| `Entities` | Entities.dfy | task, user, role, principal, the failures that end an operation |
| `TaskRequests` | TaskRequest.dfy | the create/update body and its bean-validation constraints (`@NotBlank` via Java's `String.trim`, `@Size` accepting null) |
| `TaskRepository` | TaskRepository.dfy | the task table (`TaskStore`, a map keyed by id with an identity counter) and the derived queries as filters over it |
| `UserRepository` | UserRepository.dfy | the user and role tables (`UserStore`, `RoleStore`, rows in insertion order) and the lookups by username, email and role name |
| `TaskService` | TaskService.dfy | the five task operations |
| `TaskController` | TaskController.dfy | the five handlers: validation, then the `@PreAuthorize` guard, then the service, then the HTTP status |
| `AuthService` | AuthService.dfy | `register` and `login` |
| `DataInitializer` | DataInitializer.dfy | start-up seeding |

Each operation that changes a table is given twice:

- a pure transition function from the tables before the call to the outcome
  and the table after it (`TaskService.Create`, `TaskService.Update`,
  `TaskService.Delete`, `AuthService.Registered`, `DataInitializer.SeededUsers`
  and others);
- a method of a class that updates the store's fields step by step, as the
  Java code does, and whose postcondition ties its result and new state to
  that function.

The lemmas state the program's rules about the transition functions.

Two modelling choices come from how Spring runs a handler:

- A `@Valid @RequestBody` argument is validated while the handler's
  arguments are resolved. That happens before the method-security proxy
  evaluates `@PreAuthorize`. So a body that fails validation is rejected
  with BadRequest whatever the caller's roles are.
- A refusal by the guard is `AccessDenied`. It is kept apart from the
  service's own `Unauthorized` exception.

`hasRole('X')` holds exactly when the principal has the authority `ROLE_X`.
The service's `isAdmin` tests `ROLE_ADMIN`, so the two admin checks coincide
(`TaskController.AdminGuardIsServiceAdminCheck`). This takes the granted
authorities to be compared by name, as `SimpleGrantedAuthority` is.

Password encoding, token generation and the authentication manager are
parameters of the model, given as functions it knows nothing about.

## Model

| member | source | states |
|---|---|---|
| `TaskRequests.TrimLeading` | src/main/java/com/taskmanager/dto/TaskRequest.java:19 | the result is a suffix of the input; everything dropped is at or below U+0020; a non-empty result starts above U+0020 (first half of Java's `trim`, on which `@NotBlank` rests) |
| `TaskRequests.TrimTrailing` | src/main/java/com/taskmanager/dto/TaskRequest.java:19 | the result is a prefix of the input; everything dropped is at or below U+0020; a non-empty result ends above U+0020 |
| `TaskRequests.TrimEmptyIffBlank` | src/main/java/com/taskmanager/dto/TaskRequest.java:19 | a string is blank (trims to empty) exactly when every character is at or below U+0020 |
| `TaskRequests.ValidRequest` | src/main/java/com/taskmanager/dto/TaskRequest.java:19-24 | a request is valid iff its title is present, has a character above U+0020 and is 3 to 200 characters long, and its description is absent or at most 5000 characters long |
| `TaskRequests.OptionalFieldsUnconstrained` | src/main/java/com/taskmanager/dto/TaskRequest.java:26-28 | changing status, priority or due date (to any value, null included) never changes validity |
| `TaskRepository.TaskStore.constructor` | src/main/java/com/taskmanager/repository/TaskRepository.java:14 | a new task table is empty and well keyed |
| `TaskRepository.FindByUser` | src/main/java/com/taskmanager/repository/TaskRepository.java:15 | returns exactly the stored tasks whose owner is the given user's id |
| `TaskRepository.FindByUserId` | src/main/java/com/taskmanager/repository/TaskRepository.java:16 | returns exactly the stored tasks whose owner id is the given one |
| `TaskRepository.FindByUserIdAndStatus` | src/main/java/com/taskmanager/repository/TaskRepository.java:18-19 | returns exactly the stored tasks with the given owner and the given status |
| `TaskRepository.FindByUserIdAndPriority` | src/main/java/com/taskmanager/repository/TaskRepository.java:21-22 | returns exactly the stored tasks with the given owner and the given priority |
| `TaskRepository.FindByIdAndUserId` | src/main/java/com/taskmanager/repository/TaskRepository.java:24 | finds a task iff a task with that id is among the user's tasks, and then returns that task; empty otherwise |
| `TaskRepository.RowCount` | src/main/java/com/taskmanager/repository/TaskRepository.java:16 | distinct ids select distinct rows, so a set of ids and the rows it selects have the same size |
| `TaskRepository.CountMatchesFind` | src/main/java/com/taskmanager/repository/TaskRepository.java:16-26 | `countByUserId(u)` equals the size of `findByUserId(u)` |
| `TaskRepository.FindAllSize` | src/main/java/com/taskmanager/repository/TaskRepository.java:14 | `findAll` returns every stored task and nothing else, one per stored id |
| `TaskRepository.StatusQueriesPartition` | src/main/java/com/taskmanager/repository/TaskRepository.java:16-19 | the three status queries are pairwise disjoint and together give exactly `findByUserId` |
| `TaskRepository.PriorityQueriesPartition` | src/main/java/com/taskmanager/repository/TaskRepository.java:16-22 | the three priority queries are pairwise disjoint and together give exactly `findByUserId` |
| `UserRepository.UserStore.constructor` | src/main/java/com/taskmanager/service/AuthService.java:25 | a new user table is empty and satisfies the table invariant (ids follow rows, unique usernames and emails) |
| `UserRepository.RoleStore.constructor` | src/main/java/com/taskmanager/service/AuthService.java:26 | a new role table is empty and its ids follow its rows |
| `UserRepository.FindByUsername` | src/main/java/com/taskmanager/service/TaskService.java:128 | finds a user iff some stored user has that username, and then returns a stored user with that username |
| `UserRepository.FindRoleByName` | src/main/java/com/taskmanager/service/AuthService.java:42 | finds a role iff some stored role has that name, and then returns a stored role with that name |
| `UserRepository.FindByUsernameUnique` | src/main/java/com/taskmanager/service/AuthService.java:76 | while usernames are unique, looking up a stored user's name returns exactly that user |
| `UserRepository.FindAppended` | src/main/java/com/taskmanager/service/AuthService.java:54-76 | a user appended under a username not yet taken is what a later lookup of that username finds |
| `TaskService.UserFromAuthentication` | src/main/java/com/taskmanager/service/TaskService.java:126-130 | succeeds iff a stored user has the principal's name, and returns a stored user with that name; fails with NotFound otherwise |
| `TaskService.Create` | src/main/java/com/taskmanager/service/TaskService.java:30-46 | a failed create leaves the table as it was; a successful one adds exactly the new id |
| `TaskService.AllTasks` | src/main/java/com/taskmanager/service/TaskService.java:49-60 | fails only with NotFound, and only for a principal with no stored user |
| `TaskService.TaskById` | src/main/java/com/taskmanager/service/TaskService.java:63-75 | success implies that the id is stored and that the result is that task's response |
| `TaskService.Update` | src/main/java/com/taskmanager/service/TaskService.java:78-108 | never adds or removes an id; succeeds only for an admin; a failure leaves the table as it was |
| `TaskService.Delete` | src/main/java/com/taskmanager/service/TaskService.java:111-124 | succeeds only for an admin on a stored id; a failure leaves the table as it was |
| `TaskService.Service.constructor` | src/main/java/com/taskmanager/service/TaskService.java:26-27 | the service works on the given task and user tables |
| `TaskService.Service.CreateTask` | src/main/java/com/taskmanager/service/TaskService.java:30-46 | the returned outcome and the new table are those of `Create` with the table's next identity value; the table invariant is kept |
| `TaskService.Service.UpdateTask` | src/main/java/com/taskmanager/service/TaskService.java:78-108 | applying the setters one by one gives the outcome and table of `Update`; the table invariant is kept |
| `TaskService.Service.DeleteTask` | src/main/java/com/taskmanager/service/TaskService.java:111-124 | the outcome and new table are those of `Delete`; the table invariant is kept |
| `TaskService.UnknownPrincipalIsNotFound` | src/main/java/com/taskmanager/service/TaskService.java:126-130 | a principal with no stored user gets NotFound from all five operations, and the table is unchanged |
| `TaskService.CreateAssignsOwnerAndDefaults` | src/main/java/com/taskmanager/service/TaskService.java:30-45 | the created task is owned by the authenticated user and keeps the supplied title, description and due date; an absent status becomes PENDING and an absent priority MEDIUM, while supplied values are kept; the response is that task's; every existing row is kept |
| `TaskService.CreatedTaskIsReadableByCreator` | src/main/java/com/taskmanager/service/TaskService.java:30-75 | reading the new task back as its creator returns exactly what the create returned |
| `TaskService.AdminListsEveryTask` | src/main/java/com/taskmanager/service/TaskService.java:49-59 | an admin's listing holds the response of every stored task, nothing else, one per task |
| `TaskService.UserListsOwnTasks` | src/main/java/com/taskmanager/service/TaskService.java:49-59 | a non-admin's listing holds exactly the responses of the tasks they own, none missing and none extra, as many as `countByUserId` |
| `TaskService.ResponseCount` | src/main/java/com/taskmanager/service/TaskService.java:57-59 | mapping rows with distinct ids to responses loses none of them |
| `TaskService.MissingTaskIsNotFound` | src/main/java/com/taskmanager/service/TaskService.java:67-68 | a missing id is NotFound for read, update and delete, for every principal, admins included, and changes nothing |
| `TaskService.NonPositiveIdIsNotFound` | src/main/java/com/taskmanager/service/TaskService.java:67-68 | in a table whose ids come from the identity column (all at least 1), the path id 0 is NotFound for read, update and delete, for every principal |
| `TaskService.ReadRequiresAdminOrOwner` | src/main/java/com/taskmanager/service/TaskService.java:70-74 | reading a stored task succeeds iff the principal is admin or owns it; it then returns that task, and otherwise fails with Unauthorized |
| `TaskService.NonAdminUpdateIsUnauthorized` | src/main/java/com/taskmanager/service/TaskService.java:85-87 | a non-admin's update of a stored task is Unauthorized, even for the owner, and the table is unchanged |
| `TaskService.AdminUpdatePatchesTask` | src/main/java/com/taskmanager/service/TaskService.java:89-107 | an admin's update always overwrites title and description, null included; status, priority and due date are overwritten only when supplied; id and owner are kept, as is every other row |
| `TaskService.UpdateThenRead` | src/main/java/com/taskmanager/service/TaskService.java:63-108 | whoever could read a task before a successful update reads exactly the update's response afterwards |
| `TaskService.UpdateIsIdempotent` | src/main/java/com/taskmanager/service/TaskService.java:78-108 | repeating an update gives the same outcome and table |
| `TaskService.DeleteRules` | src/main/java/com/taskmanager/service/TaskService.java:115-122 | a non-admin's delete of a stored task is Unauthorized and changes nothing; an admin's delete removes exactly that id and leaves every other row as it was |
| `TaskService.DeleteTwiceIsNotFound` | src/main/java/com/taskmanager/service/TaskService.java:115-116 | after a successful delete, deleting the same id again is NotFound for anyone |
| `TaskController.AdminGuardIsServiceAdminCheck` | src/main/java/com/taskmanager/controller/TaskController.java:58 | the guard `hasRole('ADMIN')` holds exactly when the service's `isAdmin` does |
| `TaskController.WritesRequireAdmin` | src/main/java/com/taskmanager/controller/TaskController.java:56-74 | a caller without ADMIN never reaches the service on update or delete: the call is refused (or its invalid body is), it is never NotFound, and the table is unchanged |
| `TaskController.ReadsRequireUserOrAdmin` | src/main/java/com/taskmanager/controller/TaskController.java:28-54 | create, list and get-by-id are refused to a caller holding neither USER nor ADMIN, and the table is unchanged |
| `TaskController.GuardedWritesNeverUnauthorized` | src/main/java/com/taskmanager/controller/TaskController.java:56-74 | through the controller, update and delete never end in the service's Unauthorized |
| `TaskController.ReadStatuses` | src/main/java/com/taskmanager/controller/TaskController.java:28-54 | for any caller holding USER or ADMIN, a successful create of a valid body answers 201 and a successful list or get answers 200, each with the service's result as body; any other outcome is the service's exception |
| `TaskController.WriteStatuses` | src/main/java/com/taskmanager/controller/TaskController.java:56-74 | for a caller holding ADMIN, a successful update of a valid body answers 200 with the service's result as body, and a successful delete answers 204 with no body; any other outcome is the service's exception |
| `TaskController.OwnershipScenario` | src/main/java/com/taskmanager/controller/TaskController.java:28-64 | on a table of three users, for any title of 3 to 200 characters whose first character is above U+0020: a USER creates a task with defaults PENDING and MEDIUM and owns it; an ADMIN completes it; the owner reads the completed task; another USER can neither read it (Unauthorized) nor update it (AccessDenied) |
| `AuthService.ResolveRoles` | src/main/java/com/taskmanager/service/AuthService.java:41-44 | succeeds iff every requested name is a stored role; the resolved roles are stored roles whose names are exactly the requested ones |
| `AuthService.Registered` | src/main/java/com/taskmanager/service/AuthService.java:32-66 | a failed registration is BadRequest and stores nothing; a successful one appends exactly one user and keeps the rows before it |
| `AuthService.Login` | src/main/java/com/taskmanager/service/AuthService.java:68-89 | succeeds iff the authentication manager accepts the credentials and the user is stored; a rejection is BadCredentials; the response carries the stored user's username, email and role names |
| `AuthService.Service.constructor` | src/main/java/com/taskmanager/service/AuthService.java:25-29 | the service works on the given tables, encoder and token issuer |
| `AuthService.Service.Register` | src/main/java/com/taskmanager/service/AuthService.java:32-66 | the outcome and new user table are those of `Registered`; the table invariant is kept |
| `AuthService.TakenUsernameIsRejected` | src/main/java/com/taskmanager/service/AuthService.java:33-35 | a taken username fails with BadRequest and stores nothing, whatever else the request holds |
| `AuthService.TakenEmailIsRejected` | src/main/java/com/taskmanager/service/AuthService.java:37-39 | a taken email fails with BadRequest and stores nothing |
| `AuthService.UnknownRoleIsRejected` | src/main/java/com/taskmanager/service/AuthService.java:41-43 | one unknown role name fails the registration with BadRequest and stores nothing |
| `AuthService.RegisterStoresUser` | src/main/java/com/taskmanager/service/AuthService.java:46-65 | a successful registration appends one enabled user with the requested username and email, the encoded password and stored roles named exactly as requested; it answers with the token, username, email and role names of that user |
| `AuthService.RegisterKeepsUsersValid` | src/main/java/com/taskmanager/service/AuthService.java:33-54 | one registration keeps usernames and emails unique and ids in row order |
| `AuthService.RegisterAllKeepsUsersUnique` | src/main/java/com/taskmanager/service/AuthService.java:33-54 | usernames and emails stay unique across any sequence of registrations |
| `AuthService.LoginAfterRegister` | src/main/java/com/taskmanager/service/AuthService.java:58-88 | logging in right after a successful registration answers with the same username, email and role names |
| `DataInitializer.SeededUsers` | src/main/java/com/taskmanager/config/DataInitializer.java:42-43 | a non-empty user table is left as it is |
| `DataInitializer.Initializer.constructor` | src/main/java/com/taskmanager/config/DataInitializer.java:20-22 | the initializer works on the given tables and encoder |
| `DataInitializer.Initializer.InitializeRoles` | src/main/java/com/taskmanager/config/DataInitializer.java:30-40 | the role table afterwards is `SeededRoles` of the one before; ids keep following rows |
| `DataInitializer.Initializer.InitializeUsers` | src/main/java/com/taskmanager/config/DataInitializer.java:42-72 | the result and user table afterwards are `SeededUsers` of the tables before; the user table invariant is kept |
| `DataInitializer.Initializer.Run` | src/main/java/com/taskmanager/config/DataInitializer.java:25-28 | the result and both tables afterwards are `Booted` of the tables before; both table invariants are kept |
| `DataInitializer.RolesSeededOnlyWhenEmpty` | src/main/java/com/taskmanager/config/DataInitializer.java:31-36 | an empty role table receives USER (id 1) and ADMIN (id 2); any other role table is unchanged |
| `DataInitializer.SeedAccounts` | src/main/java/com/taskmanager/config/DataInitializer.java:43-69 | with both roles stored, an empty user table receives "user", with exactly one role, a stored USER, and "admin", with exactly one role, a stored ADMIN; both are enabled and their passwords encoded |
| `DataInitializer.PartialSeedWhenAdminMissing` | src/main/java/com/taskmanager/config/DataInitializer.java:55-59 | without an ADMIN role the seeding fails after "user" has been stored, and that one row remains |
| `DataInitializer.FirstRunOnEmptyTables` | src/main/java/com/taskmanager/config/DataInitializer.java:25-72 | on empty tables `run` ends normally with both roles and both accounts stored |
| `DataInitializer.SecondRunChangesNothing` | src/main/java/com/taskmanager/config/DataInitializer.java:25-43 | a second `run` changes neither table, and after a run that ended normally it ends normally too |

## Definitions

These functions and predicates model source code directly. Their behaviour is
stated by the lemmas named beside them, not by contracts of their own.

| definition | source | stated by |
|---|---|---|
| `TaskRequests.IsValid` | src/main/java/com/taskmanager/dto/TaskRequest.java:19-28 | `TaskRequests.ValidRequest`, `TaskRequests.OptionalFieldsUnconstrained` |
| `TaskRepository.FindAll` | src/main/java/com/taskmanager/repository/TaskRepository.java:14 | `TaskRepository.FindAllSize`, `TaskService.AdminListsEveryTask` |
| `TaskRepository.CountByUserId` | src/main/java/com/taskmanager/repository/TaskRepository.java:26 | `TaskRepository.CountMatchesFind`, `TaskService.UserListsOwnTasks` |
| `TaskService.IsAdmin` | src/main/java/com/taskmanager/service/TaskService.java:132-134 | `TaskController.AdminGuardIsServiceAdminCheck`, and the admin cases of the `TaskService` lemmas |
| `TaskService.MapToResponse` | src/main/java/com/taskmanager/service/TaskService.java:136-148 | `TaskService.ResponseCount`, `TaskService.CreateAssignsOwnerAndDefaults`, `TaskService.AdminUpdatePatchesTask` |
| `TaskService.NewTask` | src/main/java/com/taskmanager/service/TaskService.java:33-40 | `TaskService.CreateAssignsOwnerAndDefaults` |
| `TaskService.Patched` | src/main/java/com/taskmanager/service/TaskService.java:89-102 | `TaskService.AdminUpdatePatchesTask`, `TaskService.UpdateIsIdempotent` |
| `TaskController.MayRead` | src/main/java/com/taskmanager/controller/TaskController.java:30 | `TaskController.ReadsRequireUserOrAdmin`, `TaskController.ReadStatuses` |
| `TaskController.MayWrite` | src/main/java/com/taskmanager/controller/TaskController.java:58 | `TaskController.AdminGuardIsServiceAdminCheck`, `TaskController.WritesRequireAdmin`, `TaskController.WriteStatuses` |
| `TaskController.CreateTask` | src/main/java/com/taskmanager/controller/TaskController.java:28-36 | `TaskController.ReadsRequireUserOrAdmin`, `TaskController.ReadStatuses`, `TaskController.OwnershipScenario` |
| `TaskController.GetAllTasks` | src/main/java/com/taskmanager/controller/TaskController.java:38-44 | `TaskController.ReadsRequireUserOrAdmin`, `TaskController.ReadStatuses` |
| `TaskController.GetTaskById` | src/main/java/com/taskmanager/controller/TaskController.java:46-54 | `TaskController.ReadsRequireUserOrAdmin`, `TaskController.ReadStatuses`, `TaskController.OwnershipScenario` |
| `TaskController.UpdateTask` | src/main/java/com/taskmanager/controller/TaskController.java:56-64 | `TaskController.WritesRequireAdmin`, `TaskController.GuardedWritesNeverUnauthorized`, `TaskController.WriteStatuses` |
| `TaskController.DeleteTask` | src/main/java/com/taskmanager/controller/TaskController.java:66-74 | `TaskController.WritesRequireAdmin`, `TaskController.GuardedWritesNeverUnauthorized`, `TaskController.WriteStatuses` |
| `DataInitializer.SeededRoles` | src/main/java/com/taskmanager/config/DataInitializer.java:30-40 | `DataInitializer.RolesSeededOnlyWhenEmpty`, `DataInitializer.Initializer.InitializeRoles` |
| `DataInitializer.Booted` | src/main/java/com/taskmanager/config/DataInitializer.java:25-28 | `DataInitializer.FirstRunOnEmptyTables`, `DataInitializer.SecondRunChangesNothing`, `DataInitializer.Initializer.Run` |

## Left out

- The authentication controller is not part of this model. It only delegates to `AuthService` and picks a status code.
- The login response is folded into `AuthService.LoginResponse`.
- Password encoding, JWT generation and the authentication manager are parameters (`encode`, `generateToken`, `authenticate`). Nothing is assumed about them, so nothing links a password to its hash. A disabled account is not refused at login.
- `createdAt` and `updatedAt` are set by the task entity, which is not part of this model. The model claims nothing about them.
- `@Transactional` boundaries, isolation and concurrent requests are not modelled. Each service call is one atomic step. For `run`, which is not transactional, the partial state after a failure is modelled.
- Logging and the OpenAPI annotations are left out; they have no behaviour.
- Listings are sets of responses. The order of `findAll` and `findByUserId` is unspecified, and rows with distinct ids give distinct responses, so no duplicates are lost.
- The HTTP statuses of failures are not modelled. The exception handler that maps exceptions to statuses is not part of this model. Failures are kept as exceptions: NotFound, Unauthorized, BadRequest, AccessDenied and BadCredentials.
- Lengths are counted in Dafny characters. Java's `String.length` counts UTF-16 code units, which differ only for characters outside the Basic Multilingual Plane.
- The validation constraints of the registration and login requests are not modelled. Those records are not part of this model.
- A null role list in a registration request would throw a `NullPointerException`; this is not modelled. Requested role names form a set, so a repeated name counts once.
- The user and role tables model no deletion. Ids are row index + 1, as an identity column gives with no gaps.
- Database unique constraints on username and email are not modelled. Uniqueness follows from `register`'s checks and is proved to be preserved.
- The `User` entity's other fields and Spring Security's `UserDetails` view of it are not part of this model.
- The `RuntimeException` that seeding throws for a missing role is the result `RoleMissing(name)`, not an abort. What was stored before it stays stored.
- Task ids are natural numbers. A negative `Long` path id cannot be expressed. The source answers NotFound for it, as for any id with no row (`TaskService.MissingTaskIsNotFound`).
- Granted authorities are plain strings. The service's `isAdmin` compares `SimpleGrantedAuthority` objects and the guard compares authority names. The two agree only when the principal's authorities are `SimpleGrantedAuthority` instances, and the model assumes they are. The code that builds the principal is not part of this model. `TaskController.GuardedWritesNeverUnauthorized` rests on this assumption.
