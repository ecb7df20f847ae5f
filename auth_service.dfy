/** service/AuthService.java: registration and login over the user table.
    The password encoder and the token issuer are parameters (functions the
    model does not look into); the authentication manager's verdict is an
    input of login. */
module AuthService {
  import opened Wrappers
  import opened Text
  import opened Entities
  import opened Requests
  import opened Database

  /** The body register and login answer with. */
  datatype AuthResponse = AuthResponse(
    token: string,
    id: Id,
    name: string,
    phone: string,
    role: string,
    skills: seq<string>,
    rating: real,
    tasksCompleted: nat,
    createdAt: Option<Time>)

  /** `buildAuthResponse`: the user's public fields and the token. */
  function BuildAuthResponse(user: User, token: string): (r: AuthResponse)
    ensures r.token == token && r.id == user.id && r.phone == user.phone
    ensures RoleValueOf(r.role) == Some(user.role) && r.role == user.role.Name()
    ensures r.name == user.name && r.skills == user.skills && r.rating == user.rating
    ensures r.tasksCompleted == user.tasksCompleted && r.createdAt == user.createdAt
  {
    RoleNameRoundTrip(user.role);
    AuthResponse(token, user.id, user.name, user.phone, user.role.Name(), user.skills, user.rating,
                 user.tasksCompleted, user.createdAt)
  }

  // ---------------------------------------------------------------- register

  /** `Role.valueOf(role.toUpperCase())`; None where it throws. */
  function ParseRole(role: string): (r: Option<Role>)
    ensures r.Some? ==> EqualsIgnoreCase(role, r.value.Name())
  {
    var r := RoleValueOf(ToUpper(role));
    if r.Some? then ToUpperIsNameIffEqualsIgnoreCase(role, r.value.Name()); r else r
  }

  /** A role is chosen exactly when the text spells its name in any mix of
      upper and lower case. */
  lemma ParseRoleIgnoresCase(text: string, role: Role)
    ensures ParseRole(text) == Some(role) <==> EqualsIgnoreCase(text, role.Name())
  {
    ToUpperIsNameIffEqualsIgnoreCase(text, "SEEKER");
    ToUpperIsNameIffEqualsIgnoreCase(text, "WORKER");
  }

  /** Why register refuses, in the order it checks: a phone already
      registered, then a role that names no Role. */
  function RegisterRejection(users: seq<User>, request: RegisterRequest): (e: Option<Error>)
    ensures e.None? <==> !ExistsByPhone(users, request.phone) && ParseRole(request.role).Some?
    ensures ExistsByPhone(users, request.phone) ==> e == Some(BadRequest("Phone number already registered"))
  {
    if ExistsByPhone(users, request.phone) then Some(BadRequest("Phone number already registered"))
    else if ParseRole(request.role).None? then Some(BadRequest("Invalid role. Must be SEEKER or WORKER"))
    else None
  }

  /** The user register builds, before it is saved: encoded password, no
      skills when none are given, no rating and no completed tasks yet. */
  function NewUser(request: RegisterRequest, encode: string -> string): (u: User)
    requires ParseRole(request.role).Some?
    ensures u.phone == request.phone && u.name == request.name && u.password == encode(request.password)
    ensures u.role == ParseRole(request.role).value
    ensures u.skills == request.skills.GetOr([]) && u.rating == 0.0 && u.tasksCompleted == 0
  {
    User(0, request.name, request.phone, encode(request.password), ParseRole(request.role).value,
         request.skills.GetOr([]), 0.0, 0, None)
  }

  /** register. A refusal changes nothing; otherwise one user is appended,
      and the response carries that user and the token issued for it. */
  method Register(db: Store, request: RegisterRequest, encode: string -> string, issue: User -> string)
    returns (r: Result<AuthResponse, Error>)
    requires db.Valid()
    modifies db
    ensures db.Valid()
    ensures db.tasks == old(db.tasks) && db.applications == old(db.applications)
    ensures var e := RegisterRejection(old(db.users), request);
            && (r.Failure? <==> e.Some?)
            && (r.Failure? ==> r.error == e.value && db.users == old(db.users))
    ensures r.Success? ==>
              var row := NewUser(request, encode).(id := |old(db.users)| + 1, createdAt := Some(db.clock));
              && db.users == old(db.users) + [row]
              && r.value == BuildAuthResponse(row, issue(row))
  {
    if ExistsByPhone(db.users, request.phone) {
      return Failure(BadRequest("Phone number already registered"));
    }
    var role := ParseRole(request.role);
    if role.None? {
      return Failure(BadRequest("Invalid role. Must be SEEKER or WORKER"));
    }
    var user := NewUser(request, encode);
    var row := db.InsertUser(user);
    var token := issue(row);
    r := Success(BuildAuthResponse(row, token));
  }

  /** After a registration, the phone finds the new user, and registering
      the same phone again is refused. */
  lemma RegisteredPhoneTaken(users: seq<User>, row: User, again: RegisterRequest)
    requires PhonesUnique(users) && !ExistsByPhone(users, row.phone)
    requires again.phone == row.phone
    ensures FindUserByPhone(users + [row], row.phone) == Some(row)
    ensures RegisterRejection(users + [row], again) == Some(BadRequest("Phone number already registered"))
  {
    var users' := users + [row];
    assert users'[|users|] == row;
    assert PhonesUnique(users') by {
      forall i, j | 0 <= i < j < |users'| ensures users'[i].phone != users'[j].phone {
        if j == |users| {
          assert users'[i] == users[i];
        } else {
          assert users'[i] == users[i] && users'[j] == users[j];
        }
      }
    }
    FindUserByPhoneUnique(users', |users|);
  }

  // ---------------------------------------------------------------- login

  /** login. `authenticated` is the authentication manager's verdict on the
      phone and password; a rejected login fails before any lookup. */
  function Login(users: seq<User>, request: LoginRequest, authenticated: bool, issue: User -> string)
    : (r: Result<AuthResponse, Error>)
    ensures !authenticated ==> r == Failure(Unauthenticated)
    ensures authenticated && !ExistsByPhone(users, request.phone) ==> r == Failure(BadRequest("User not found"))
    ensures r.Success? ==> exists k :: 0 <= k < |users| && users[k].phone == request.phone
                                        && r.value == BuildAuthResponse(users[k], issue(users[k]))
  {
    if !authenticated then Failure(Unauthenticated)
    else match FindUserByPhone(users, request.phone)
      case None => Failure(BadRequest("User not found"))
      case Some(user) => Success(BuildAuthResponse(user, issue(user)))
  }

  /** With unique phones, an authenticated login answers for exactly the
      user holding the phone. */
  lemma LoginFindsOwner(users: seq<User>, request: LoginRequest, issue: User -> string, k: int)
    requires PhonesUnique(users) && 0 <= k < |users| && users[k].phone == request.phone
    ensures Login(users, request, true, issue) == Success(BuildAuthResponse(users[k], issue(users[k])))
  {
    FindUserByPhoneUnique(users, k);
  }
}
