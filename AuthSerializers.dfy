/** JWTLoginSerializer of auth/serializers.py: required username and password, then the
    post-load rule that authenticates the user and issues a token. */
module AuthSerializers {
  import opened Wrappers
  import opened Http
  import opened Exceptions
  import opened Bcrypt
  import opened Models
  import opened Schemas
  import opened JwtAuth

  const LoginFields: set<string> := {"username", "password"}

  const NoActiveAccountMessage: string := "No active account found with the given credentials"

  /** ValidationError(message, field_name='detail'), as the schema reports it. */
  const CredentialsError: Json := JObj(map["detail" := JList([JStr(NoActiveAccountMessage)])])

  /** A failed login: a validation error with its messages, or an error response raised
      while building the token (which is not a validation error and escapes the load). */
  datatype LoginError = Invalid(messages: Json) | Raised(error: HttpError)

  /** The user `authenticate` works with: the one in the serializer context, otherwise the
      available user of that name in the store. */
  function ResolveUser(context: Option<UserFields>, users: seq<UserRow>, username: string): (r: Option<UserFields>)
    ensures context.Some? ==> r == context
    ensures context.None? ==> (r.Some? <==> GetUser(users, username).Some?)
    ensures context.None? && r.Some? ==> r.value == GetUser(users, username).value.fields
  {
    if context.Some? then context
    else match GetUser(users, username)
      case Some(row) => Some(row.fields)
      case None => None
  }

  /** The `access_token` body of a successful login. */
  function AccessTokenBody(token: string): Json {
    JObj(map["access_token" := JStr(token)])
  }

  /** The post-load `authenticate` rule. */
  function Authenticate(username: string, password: string, context: Option<UserFields>,
                        users: seq<UserRow>, codec: Codec, now: int): (r: Result<Json, LoginError>)
    ensures var user := ResolveUser(context, users, username);
            r == Failure(Invalid(CredentialsError)) <==>
              user.None? || !PasswordMatches(user.value.password, password)
    ensures var user := ResolveUser(context, users, username);
            r.Success? <==>
              user.Some? && PasswordMatches(user.value.password, password) && user.value.username != ""
    ensures var user := ResolveUser(context, users, username);
            r.Success? ==> r.value == AccessTokenBody(codec.encode(CreateUserJwtClaim(user.value, now).value))
    ensures r.Failure? && r.error.Raised? ==> r.error.error == BadRequestRaised()
  {
    var user := ResolveUser(context, users, username);
    if user.None? || !PasswordMatches(user.value.password, password) then
      Failure(Invalid(CredentialsError))
    else match GenerateJwtoken(codec, user.value, now)
      case Failure(e) => Failure(Raised(e))
      case Success(token) => Success(AccessTokenBody(token))
  }

  /** JWTLoginSerializer().load(input), with `context` standing for context['user']. */
  function Load(input: Json, context: Option<UserFields>, users: seq<UserRow>, codec: Codec, now: int)
    : (r: Result<Json, LoginError>)
    ensures LoadStrings(input, LoginFields).Failure? ==>
              r == Failure(Invalid(LoadStrings(input, LoginFields).error))
    ensures LoadStrings(input, LoginFields).Success? ==>
              var data := LoadStrings(input, LoginFields).value;
              r == Authenticate(data["username"], data["password"], context, users, codec, now)
  {
    match LoadStrings(input, LoginFields)
    case Failure(messages) => Failure(Invalid(messages))
    case Success(data) => Authenticate(data["username"], data["password"], context, users, codec, now)
  }

  /** "No such user" and "wrong password" give one and the same error. */
  lemma LoginFailuresIndistinguishable(username: string, password: string, wrong: string, stored: UserFields,
                                       users: seq<UserRow>, codec: Codec, now: int)
    requires GetUser(users, username).None?
    requires !PasswordMatches(stored.password, wrong)
    ensures Authenticate(username, password, None, users, codec, now)
            == Authenticate(stored.username, wrong, Some(stored), users, codec, now)
    ensures Authenticate(username, password, None, users, codec, now) == Failure(Invalid(CredentialsError))
  {
  }

  /** A user in the context is used as it is: the store is not consulted. */
  lemma ContextUserSkipsLookup(username: string, password: string, user: UserFields,
                               users1: seq<UserRow>, users2: seq<UserRow>, codec: Codec, now: int)
    ensures Authenticate(username, password, Some(user), users1, codec, now)
            == Authenticate(username, password, Some(user), users2, codec, now)
  {
  }

  /** The context user still has to present the right password. */
  lemma ContextUserPasswordChecked(username: string, password: string, user: UserFields,
                                   users: seq<UserRow>, codec: Codec, now: int)
    requires !PasswordMatches(user.password, password)
    ensures Authenticate(username, password, Some(user), users, codec, now) == Failure(Invalid(CredentialsError))
  {
  }

  /** A freshly hashed user logs in with the password that was hashed. */
  lemma HashedUserLogsIn(username: string, password: string, rounds: nat, salt: nat,
                         users: seq<UserRow>, codec: Codec, now: int)
    requires username != ""
    ensures var user := UserFields(username, HashPw(Secret.Text(password), rounds, salt));
            Authenticate(username, password, Some(user), users, codec, now)
            == Success(AccessTokenBody(codec.encode(CreateUserJwtClaim(user, now).value)))
  {
  }

  /** A login body without a username or without a password is a validation error. */
  lemma LoginNeedsBothFields(input: map<string, Json>, context: Option<UserFields>,
                             users: seq<UserRow>, codec: Codec, now: int)
    requires "username" !in input || "password" !in input
    ensures Load(JObj(input), context, users, codec, now).Failure?
    ensures Load(JObj(input), context, users, codec, now).error.Invalid?
  {
  }
}
