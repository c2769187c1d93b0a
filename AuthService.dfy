/** Registration and login. The password encoder, the token issuer and the
    authentication manager are opaque collaborators, given as functions. */
module AuthService {
  import opened Entities
  import opened UserRepository

  datatype RegisterRequest = RegisterRequest(
    username: string, email: string, password: string, roles: set<string>)

  datatype LoginRequest = LoginRequest(username: string, password: string)

  datatype LoginResponse = LoginResponse(
    token: string, username: string, email: string, roles: set<string>)

  /** The names of a set of roles. */
  function RoleNames(roles: set<Role>): set<string>
  {
    set r | r in roles :: r.name
  }

  /** The response built for a stored user. */
  function ResponseFor(token: string, user: User): LoginResponse
  {
    LoginResponse(token, user.username, user.email, RoleNames(user.roles))
  }

  /** Looks each requested role name up in the role table; one unknown name
      fails the whole resolution. */
  function ResolveRoles(roles: seq<Role>, names: set<string>): (r: Option<set<Role>>)
    ensures r.Some? <==> forall n :: n in names ==> FindRoleByName(roles, n).Some?
    ensures r.Some? ==> RoleNames(r.value) == names
    ensures r.Some? ==> forall role :: role in r.value ==> role in roles
  {
    if forall n :: n in names ==> FindRoleByName(roles, n).Some? then
      var resolved := set n | n in names :: FindRoleByName(roles, n).value;
      assert RoleNames(resolved) == names by {
        forall n | n in names ensures n in RoleNames(resolved) {
          assert FindRoleByName(roles, n).value in resolved;
        }
      }
      Some(resolved)
    else None
  }

  /** The result of `register` and the user table after it. */
  datatype Registration = Registration(response: Outcome<LoginResponse>, users: seq<User>)

  /** `register`: a taken username, then a taken email, then an unknown role
      name each fail with BadRequest before anything is stored. */
  function Registered(users: seq<User>, roles: seq<Role>, request: RegisterRequest,
                      encode: string -> string, generateToken: User -> string): (s: Registration)
    ensures s.response.Fail? ==> s.response.failure == BadRequest && s.users == users
    ensures s.response.Ok? ==> |s.users| == |users| + 1 && s.users[..|users|] == users
  {
    if ExistsByUsername(users, request.username) then Registration(Fail(BadRequest), users)
    else if ExistsByEmail(users, request.email) then Registration(Fail(BadRequest), users)
    else match ResolveRoles(roles, request.roles)
      case None => Registration(Fail(BadRequest), users)
      case Some(resolved) =>
        var user := User(|users| + 1, request.username, request.email,
                         encode(request.password), resolved, true);
        Registration(Ok(ResponseFor(generateToken(user), user)), users + [user])
  }

  /** `login`: the authentication manager must accept the credentials, and the
      user must be stored. */
  function Login(users: seq<User>, request: LoginRequest,
                 authenticate: (string, string) -> bool,
                 generateToken: User -> string): (r: Outcome<LoginResponse>)
    ensures r.Ok? <==> authenticate(request.username, request.password)
                       && ExistsByUsername(users, request.username)
    ensures !authenticate(request.username, request.password) ==> r == Fail(BadCredentials)
    ensures r.Ok? ==> exists u :: u in users && u.username == request.username
                        && r.value.username == u.username && r.value.email == u.email
                        && r.value.roles == RoleNames(u.roles)
  {
    if !authenticate(request.username, request.password) then Fail(BadCredentials)
    else match FindByUsername(users, request.username)
      case None => Fail(BadRequest)
      case Some(user) => Ok(ResponseFor(generateToken(user), user))
  }

  class Service {
    const userStore: UserStore
    const roleStore: RoleStore
    const encode: string -> string
    const generateToken: User -> string

    constructor (userStore: UserStore, roleStore: RoleStore,
                 encode: string -> string, generateToken: User -> string)
      ensures this.userStore == userStore && this.roleStore == roleStore
      ensures this.encode == encode && this.generateToken == generateToken
    {
      this.userStore := userStore;
      this.roleStore := roleStore;
      this.encode := encode;
      this.generateToken := generateToken;
    }

    method Register(request: RegisterRequest) returns (r: Outcome<LoginResponse>)
      requires userStore.Valid()
      modifies userStore
      ensures userStore.Valid()
      ensures Registration(r, userStore.users)
              == Registered(old(userStore.users), roleStore.roles, request, encode, generateToken)
    {
      if ExistsByUsername(userStore.users, request.username) {
        return Fail(BadRequest);
      }
      if ExistsByEmail(userStore.users, request.email) {
        return Fail(BadRequest);
      }
      var resolved := ResolveRoles(roleStore.roles, request.roles);
      if resolved.None? {
        return Fail(BadRequest);
      }
      var user := User(|userStore.users| + 1, request.username, request.email,
                       encode(request.password), resolved.value, true);
      userStore.users := userStore.users + [user];
      var token := generateToken(user);
      r := Ok(ResponseFor(token, user));
    }
  }

  /** A taken username fails, whatever else the request holds. */
  lemma TakenUsernameIsRejected(
    users: seq<User>, roles: seq<Role>, request: RegisterRequest,
    encode: string -> string, generateToken: User -> string)
    requires ExistsByUsername(users, request.username)
    ensures Registered(users, roles, request, encode, generateToken) == Registration(Fail(BadRequest), users)
  {
  }

  /** A taken email fails once the username is free. */
  lemma TakenEmailIsRejected(
    users: seq<User>, roles: seq<Role>, request: RegisterRequest,
    encode: string -> string, generateToken: User -> string)
    requires ExistsByEmail(users, request.email)
    ensures Registered(users, roles, request, encode, generateToken) == Registration(Fail(BadRequest), users)
  {
  }

  /** One unknown role name fails the registration. */
  lemma UnknownRoleIsRejected(
    users: seq<User>, roles: seq<Role>, request: RegisterRequest,
    encode: string -> string, generateToken: User -> string, name: string)
    requires name in request.roles && FindRoleByName(roles, name).None?
    ensures Registered(users, roles, request, encode, generateToken) == Registration(Fail(BadRequest), users)
  {
  }

  /** A successful registration stores one enabled user with the requested
      username and email, the encoded password and the stored roles of the
      requested names, and answers with that user's username, email and role
      names. */
  lemma RegisterStoresUser(
    users: seq<User>, roles: seq<Role>, request: RegisterRequest,
    encode: string -> string, generateToken: User -> string)
    requires !ExistsByUsername(users, request.username) && !ExistsByEmail(users, request.email)
    requires forall n :: n in request.roles ==> FindRoleByName(roles, n).Some?
    ensures var s := Registered(users, roles, request, encode, generateToken);
      && s.response.Ok?
      && |s.users| == |users| + 1 && s.users[..|users|] == users
      && var u := s.users[|users|];
      && u.username == request.username && u.email == request.email
      && u.password == encode(request.password)
      && u.enabled
      && RoleNames(u.roles) == request.roles
      && (forall role :: role in u.roles ==> role in roles)
      && s.response.value == LoginResponse(generateToken(u), request.username, request.email, request.roles)
  {
  }

  /** Registration keeps usernames and emails unique, and ids in row order. */
  lemma RegisterKeepsUsersValid(
    users: seq<User>, roles: seq<Role>, request: RegisterRequest,
    encode: string -> string, generateToken: User -> string)
    requires UserIdsFollowRows(users) && UniqueUsernames(users) && UniqueEmails(users)
    ensures var s := Registered(users, roles, request, encode, generateToken);
      UserIdsFollowRows(s.users) && UniqueUsernames(s.users) && UniqueEmails(s.users)
  {
  }

  /** The user table after a series of registrations, made in order. */
  function RegisterAll(users: seq<User>, roles: seq<Role>, requests: seq<RegisterRequest>,
                       encode: string -> string, generateToken: User -> string): seq<User>
    decreases |requests|
  {
    if requests == [] then users
    else RegisterAll(Registered(users, roles, requests[0], encode, generateToken).users,
                     roles, requests[1..], encode, generateToken)
  }

  /** Usernames and emails stay unique across any series of registrations. */
  lemma {:induction false} RegisterAllKeepsUsersUnique(
    users: seq<User>, roles: seq<Role>, requests: seq<RegisterRequest>,
    encode: string -> string, generateToken: User -> string)
    requires UserIdsFollowRows(users) && UniqueUsernames(users) && UniqueEmails(users)
    ensures var after := RegisterAll(users, roles, requests, encode, generateToken);
      UserIdsFollowRows(after) && UniqueUsernames(after) && UniqueEmails(after)
    decreases |requests|
  {
    if requests != [] {
      RegisterKeepsUsersValid(users, roles, requests[0], encode, generateToken);
      RegisterAllKeepsUsersUnique(Registered(users, roles, requests[0], encode, generateToken).users,
                                  roles, requests[1..], encode, generateToken);
    }
  }

  /** Logging in right after registering answers with the same username,
      email and role names as the registration did. */
  lemma LoginAfterRegister(
    users: seq<User>, roles: seq<Role>, request: RegisterRequest,
    encode: string -> string, generateToken: User -> string,
    authenticate: (string, string) -> bool)
    requires authenticate(request.username, request.password)
    ensures var s := Registered(users, roles, request, encode, generateToken);
      var l := Login(s.users, LoginRequest(request.username, request.password), authenticate, generateToken);
      s.response.Ok? ==>
        && l.Ok?
        && l.value.username == s.response.value.username
        && l.value.email == s.response.value.email
        && l.value.roles == s.response.value.roles
  {
    var s := Registered(users, roles, request, encode, generateToken);
    if s.response.Ok? {
      FindAppended(users, s.users[|users|]);
      assert s.users == users + [s.users[|users|]];
    }
  }
}
