/** The registration and login handlers: the order in which they consult the
    store, hash, verify and issue tokens, and the HTTP answer each outcome
    becomes. A handler's result is either its JSON body or the HTTP error it
    raises. */
module Auth {
  import opened Common
  import opened Database
  import opened Schemas
  import opened Crud
  import Security
  import Config

  const UsernameExists := HttpError(BadRequest, "用户名已存在")
  const EmailExists := HttpError(BadRequest, "邮箱已被注册")
  const CreationFailed := HttpError(InternalServerError, "用户创建失败")
  const RegistrationError := HttpError(InternalServerError, "注册过程中发生错误")
  const InvalidCredentials := HttpError(Unauthorized, "用户名或密码错误", Some("Bearer"))
  const AccountDisabled := HttpError(BadRequest, "用户账户已被禁用")
  const LoginError := HttpError(InternalServerError, "登录过程中发生错误")

  const RegisteredMessage := "用户注册成功"
  const LoggedInMessage := "登录成功"

  /** The `data` of a successful registration: the new account and its id. */
  datatype RegisteredUser = RegisteredUser(user: UserResponse, userId: int)

  /** The body of a successful login. */
  datatype LoginData = LoginData(accessToken: string, tokenType: string, user: UserResponse)
  datatype LoginResponse = LoginResponse(success: bool, message: string, data: LoginData)

  /** Which of the registration's store calls raise. */
  datatype RegisterFaults = RegisterFaults(usernameLookupFails: bool, emailLookupFails: bool, insertFails: bool,
                                           refreshFails: bool)

  /** Which of the login's store steps raise. */
  datatype LoginFaults = LoginFaults(lookupFails: bool, commitFails: bool)

  /** The registration's duplicate checks see the name as taken. */
  ghost predicate NameSeen(rows: seq<User>, username: string, faults: RegisterFaults) {
    !faults.usernameLookupFails && UsernameTaken(rows, username)
  }

  /** The registration's duplicate checks see the e-mail as taken. */
  ghost predicate EmailSeen(rows: seq<User>, email: string, faults: RegisterFaults) {
    !faults.emailLookupFails && EmailTaken(rows, email)
  }

  /** The registration reaches the insert and the insert commits a row:
      neither duplicate check saw a match, nothing raised before the commit,
      and the table's constraints accept the row. */
  ghost predicate Inserts(rows: seq<User>, nextId: int, hasher: Security.PasswordHasher, username: string, email: string,
                          password: string, salt: string, now: int, faults: RegisterFaults) {
    && !NameSeen(rows, username, faults)
    && !EmailSeen(rows, email, faults)
    && !faults.insertFails
    && Admits(rows, User(nextId, username, email, Security.HashPassword(hasher, password, salt), now))
  }

  /** `register_user`. The input has passed the request validators. A taken
      name is refused (400) before the e-mail is looked at; then a taken
      e-mail (400). A lookup that raises reads as "not taken". When the
      insert then answers nothing, for whatever reason, including a unique
      constraint the checks missed, the answer is 500; when the insert had
      already committed before failing, the 500 comes with the account
      stored. Otherwise one row is added and the body carries the account
      and its id; no token. */
  method RegisterUser(store: UserStore, username: string, email: string, password: string,
                      salt: string, now: int, faults: RegisterFaults)
    returns (r: Result<APIResponse<RegisteredUser>, HttpError>)
    requires store.Valid()
    requires ValidateUsername(username).Success? && ValidatePassword(password).Success?
    modifies store
    ensures store.Valid()
    ensures NameSeen(old(store.users), username, faults) ==> r == Failure(UsernameExists)
    ensures !NameSeen(old(store.users), username, faults) && EmailSeen(old(store.users), email, faults) ==>
      r == Failure(EmailExists)
    ensures !NameSeen(old(store.users), username, faults) && !EmailSeen(old(store.users), email, faults) && r.Failure? ==>
      r.error == CreationFailed
    ensures Inserts(old(store.users), old(store.nextId), store.hasher, username, email, password, salt, now, faults) ==>
      && store.users == old(store.users) + [User(old(store.nextId), username, email, Security.HashPassword(store.hasher, password, salt), now)]
      && store.nextId == old(store.nextId) + 1
    ensures !Inserts(old(store.users), old(store.nextId), store.hasher, username, email, password, salt, now, faults) ==>
      store.users == old(store.users) && store.nextId == old(store.nextId)
    ensures r.Success? <==>
      Inserts(old(store.users), old(store.nextId), store.hasher, username, email, password, salt, now, faults) && !faults.refreshFails
    ensures r.Success? ==>
      r.value == SuccessResponse(RegisteredMessage, Some(RegisteredUser(
        UserResponse(username, email, old(store.nextId), true, now, None), old(store.nextId))))
  {
    var existingUser := store.GetUserByUsername(username, faults.usernameLookupFails);
    if existingUser.Some? {
      return Failure(UsernameExists);
    }
    var existingEmail := store.GetUserByEmail(email, faults.emailLookupFails);
    if existingEmail.Some? {
      return Failure(EmailExists);
    }
    var newUser := store.CreateUser(username, email, password, salt, now, faults.insertFails, faults.refreshFails);
    if newUser.None? {
      return Failure(CreationFailed);
    }
    match ResponseOf(newUser.value)
    case Failure(_) =>
      r := Failure(RegistrationError);
    case Success(userResponse) =>
      r := Success(SuccessResponse(RegisteredMessage, Some(RegisteredUser(userResponse, newUser.value.id))));
  }

  /** `login_user`. An unknown name, a wrong password, or a store step that
      raises all give the same 401. Correct credentials have already stamped
      the last login when an inactive account is refused (400). Otherwise
      the body carries a bearer token for the account's name and the
      account; building the account's view re-validates its name, and a
      stored name the validator refuses gives the generic 500. */
  method LoginUser(store: UserStore, codec: Security.JwtCodec, settings: Config.Settings,
                   username: string, password: string, now: int, faults: LoginFaults)
    returns (r: Result<LoginResponse, HttpError>)
    requires store.Valid()
    modifies store
    ensures store.Valid() && store.nextId == old(store.nextId)
    ensures !(!faults.lookupFails && !faults.commitFails && Authenticates(old(store.users), store.hasher, username, password)) ==>
      r == Failure(InvalidCredentials) && store.users == old(store.users)
    ensures !faults.lookupFails && !faults.commitFails && Authenticates(old(store.users), store.hasher, username, password) ==>
      var k := FindIndex(old(store.users), ByUsername(username)).value;
      var u := old(store.users)[k];
      && store.users == Touch(old(store.users), k, now)
      && (!u.isActive ==> r == Failure(AccountDisabled))
      && (u.isActive && ValidateUsername(username).Failure? ==> r == Failure(LoginError))
      && (u.isActive && ValidateUsername(username).Success? ==>
            r == Success(LoginResponse(true, LoggedInMessage, LoginData(
                   codec.encode(Security.UserClaims(settings, username, now), settings.secretKey, settings.algorithm),
                   "bearer",
                   UserResponse(u.username, u.email, u.id, true, u.createdAt, Some(now))))))
  {
    var user := store.AuthenticateUser(username, password, now, faults.lookupFails, faults.commitFails);
    if user.None? {
      return Failure(InvalidCredentials);
    }
    if !user.value.isActive {
      return Failure(AccountDisabled);
    }
    var accessToken := Security.CreateTokenForUser(codec, settings, user.value.username, now);
    match ResponseOf(user.value)
    case Failure(_) =>
      r := Failure(LoginError);
    case Success(userResponse) =>
      r := Success(LoginResponse(true, LoggedInMessage, LoginData(accessToken, "bearer", userResponse)));
  }

  /** Registering valid input into an empty store succeeds: the account
      gets id 1, is active and has never logged in. */
  method RegisterIntoEmptyStore(store: UserStore, username: string, email: string, password: string,
                                salt: string, now: int)
    returns (registered: Result<APIResponse<RegisteredUser>, HttpError>)
    requires store.Valid() && store.users == [] && store.nextId == 1
    requires ValidateUsername(username).Success? && ValidatePassword(password).Success?
    requires |email| <= EmailMaxLength && |Security.HashPassword(store.hasher, password, salt)| <= HashedPasswordMaxLength
    modifies store
    ensures store.Valid()
    ensures store.users == [User(1, username, email, Security.HashPassword(store.hasher, password, salt), now)]
    ensures registered == Success(SuccessResponse(RegisteredMessage, Some(RegisteredUser(
      UserResponse(username, email, 1, true, now, None), 1))))
  {
    registered := RegisterUser(store, username, email, password, salt, now, RegisterFaults(false, false, false, false));
  }

  /** When reloading the new row raises after its commit, the registration
      answers 500 yet the account is stored, so registering the same name
      again is refused as taken. */
  method RegisterAgainAfterLateFailure(store: UserStore, username: string, email: string, password: string,
                                       salt: string, now: int, later: int)
    returns (first: Result<APIResponse<RegisteredUser>, HttpError>, second: Result<APIResponse<RegisteredUser>, HttpError>)
    requires store.Valid() && store.users == [] && store.nextId == 1
    requires ValidateUsername(username).Success? && ValidatePassword(password).Success?
    requires |email| <= EmailMaxLength && |Security.HashPassword(store.hasher, password, salt)| <= HashedPasswordMaxLength
    modifies store
    ensures first == Failure(CreationFailed)
    ensures second == Failure(UsernameExists)
    ensures store.users == [User(1, username, email, Security.HashPassword(store.hasher, password, salt), now)]
  {
    first := RegisterUser(store, username, email, password, salt, now, RegisterFaults(false, false, false, true));
    assert store.users[0].username == username;
    second := RegisterUser(store, username, email, password, salt, later, RegisterFaults(false, false, false, false));
  }

  /** With a freshly registered account as the only one, logging in with
      its password succeeds, stamps the login time, and answers a token for
      the name together with the account. */
  method LoginOnlyAccount(store: UserStore, codec: Security.JwtCodec, settings: Config.Settings,
                          username: string, email: string, password: string, salt: string, created: int, now: int)
    returns (loggedIn: Result<LoginResponse, HttpError>)
    requires store.Valid() && Security.HasherSound(store.hasher) && ValidateUsername(username).Success?
    requires store.users == [User(1, username, email, Security.HashPassword(store.hasher, password, salt), created)]
    modifies store
    ensures store.users == [User(1, username, email, Security.HashPassword(store.hasher, password, salt), created, lastLogin := Some(now))]
    ensures loggedIn == Success(LoginResponse(true, LoggedInMessage, LoginData(
      codec.encode(Security.UserClaims(settings, username, now), settings.secretKey, settings.algorithm),
      "bearer",
      UserResponse(username, email, 1, true, created, Some(now)))))
  {
    var account := store.users[0];
    assert FindIndex(store.users, ByUsername(username)) == Some(0);
    Security.HashedPasswordVerifies(store.hasher, password, salt);
    assert Authenticates(store.users, store.hasher, username, password);
    loggedIn := LoginUser(store, codec, settings, username, password, now, LoginFaults(false, false));
    assert store.users == Touch([account], 0, now);
  }

  /** With one account, a password its hash rejects is refused with the
      generic 401 and changes nothing. */
  method RefuseWrongPassword(store: UserStore, codec: Security.JwtCodec, settings: Config.Settings,
                             username: string, password: string, now: int)
    returns (refused: Result<LoginResponse, HttpError>)
    requires store.Valid() && |store.users| == 1 && store.users[0].username == username
    requires !Security.VerifyPassword(store.hasher, password, store.users[0].hashedPassword)
    modifies store
    ensures refused == Failure(InvalidCredentials)
    ensures store.users == old(store.users)
  {
    assert FindIndex(store.users, ByUsername(username)) == Some(0);
    refused := LoginUser(store, codec, settings, username, password, now, LoginFaults(false, false));
  }
}
