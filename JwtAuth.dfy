/** The bearer-token gate of utils/jwt_auth.py (the bearer scheme of section 2.1 of
    RFC 6750). Signing and verification (HS256, section 3.2 of RFC 7518) are an abstract
    codec passed in; time is an integer number of seconds passed in as `now`. */
module JwtAuth {
  import opened Wrappers
  import opened Http
  import opened Exceptions
  import opened Models
  import opened HeaderPattern
  import Settings

  /** A claim value as the codec round-trips it: a string, or an integer (the `exp`
      claim of section 4.1.4 of RFC 7519, seconds since the epoch). */
  datatype ClaimValue = CStr(s: string) | CInt(n: int)

  type Claims = map<string, ClaimValue>

  /** DecodeError and InvalidTokenError, the two exception classes the gate catches
      (every failure of the library's decode is one of them). */
  datatype CodecError = DecodeError | InvalidTokenError

  /** jwt.encode and jwt.decode with the process-wide secret key and algorithm. Decoding
      is given the current time because the library may refuse an expired token itself. */
  datatype Codec = Codec(encode: Claims -> string, decode: (string, int) -> Result<Claims, CodecError>)

  /** What a sound codec promises: a token it issued decodes to the claims it was built
      from, at least while its expiry is still ahead. */
  ghost predicate RoundTrips(codec: Codec) {
    forall claims: Claims, now: int ::
      ("exp" in claims && claims["exp"].CInt? && now < claims["exp"].n)
      ==> codec.decode(codec.encode(claims), now) == Success(claims)
  }

  /** Python exceptions that escape the gate uncaught (bottle answers them with a 500). */
  datatype Fault =
    | ExpNotAnInteger      // int(payload.get('exp')) on a missing or non-integer claim
    | NoneHasNoAvailable   // `user.available` when get_user returned None

  /** How one pass through the gate ends. */
  datatype GateOutcome = Authenticated(user: UserRow) | Rejected(error: HttpError) | Crashed(fault: Fault)

  /** get_http_auth_header: the AUTHORIZATION header, refused when missing or empty. */
  function GetHttpAuthHeader(headers: map<string, string>): (r: Result<string, HttpError>)
    ensures r.Success? <==> Settings.AuthHeaderName in headers && headers[Settings.AuthHeaderName] != ""
    ensures r.Success? ==> r.value == headers[Settings.AuthHeaderName]
    ensures r.Failure? ==> r.error == JwtErrorRaised()
  {
    if Settings.AuthHeaderName in headers && headers[Settings.AuthHeaderName] != "" then
      Success(headers[Settings.AuthHeaderName])
    else
      Failure(JwtErrorRaised())
  }

  /** check_http_auth_header: the header must match the bearer pattern. */
  function CheckHttpAuthHeader(header: string): (r: Outcome<HttpError>)
    ensures r.Pass? <==> HeaderMatches(header)
    ensures r.Pass? ==> |header| >= |Settings.AuthHeaderType| + 1 + 8
    ensures r.Pass? ==> header[..|Settings.AuthHeaderType| + 1] == Settings.AuthHeaderType + " "
    ensures r.Pass? ==> IsAlnum(header[|Settings.AuthHeaderType| + 1])
    ensures r.Fail? ==> r.error == JwtErrorRaised()
  {
    if HeaderMatches(header) then
      AcceptedHeaderShape(header);
      Pass
    else
      Fail(JwtErrorRaised())
  }

  /** get_jwtoken_from_http_auth: the header without its first len(type)+1 characters
      (a Python slice, so empty when the header is shorter). */
  function GetJwtokenFromHttpAuth(header: string): (token: string)
    ensures |Settings.AuthHeaderType| + 1 <= |header| ==> header[..|Settings.AuthHeaderType| + 1] + token == header
    ensures |header| < |Settings.AuthHeaderType| + 1 ==> token == []
  {
    var cut := |Settings.AuthHeaderType| + 1;
    if cut <= |header| then
      assert header[..cut] + header[cut..] == header;
      header[cut..]
    else []
  }

  /** decode_jwtoken: every failure of the library becomes the JWT error. */
  function DecodeJwtoken(codec: Codec, token: string, now: int): (r: Result<Claims, HttpError>)
    ensures r.Failure? <==> codec.decode(token, now).Failure?
    ensures r.Failure? ==> r.error == JwtErrorRaised()
    ensures r.Success? ==> r.value == codec.decode(token, now).value
  {
    match codec.decode(token, now)
    case Success(claims) => Success(claims)
    case Failure(_) => Failure(JwtErrorRaised())
  }

  /** create_user_jwt_claim: the identity field under its configured name and `exp`;
      a falsy (empty) field raises the bad-request error. */
  function CreateUserJwtClaim(user: UserFields, now: int): (r: Result<Claims, HttpError>)
    ensures r.Failure? <==> user.username == ""
    ensures r.Failure? ==> r.error == BadRequestRaised()
    ensures r.Success? ==> r.value.Keys == {Settings.UserFieldClaim, "exp"}
    ensures r.Success? ==> r.value[Settings.UserFieldClaim] == CStr(user.username)
    ensures r.Success? ==> r.value["exp"] == CInt(now + Settings.TokenLifetime)
  {
    if user.username == "" then Failure(BadRequestRaised())
    else Success(map[Settings.UserFieldClaim := CStr(user.username), "exp" := CInt(now + Settings.TokenLifetime)])
  }

  /** generate_jwtoken: the encoded claims of the user. */
  function GenerateJwtoken(codec: Codec, user: UserFields, now: int): (r: Result<string, HttpError>)
    ensures r.Failure? <==> user.username == ""
    ensures r.Failure? ==> r.error == BadRequestRaised()
    ensures r.Success? ==> r.value == codec.encode(CreateUserJwtClaim(user, now).value)
  {
    match CreateUserJwtClaim(user, now)
    case Failure(e) => Failure(e)
    case Success(claims) => Success(codec.encode(claims))
  }

  /** int(payload.get('exp')), when it is a number. */
  function ExpOf(claims: Claims): (r: Option<int>)
    ensures r.Some? ==> "exp" in claims && claims["exp"] == CInt(r.value)
    ensures r.None? ==> "exp" !in claims || !claims["exp"].CInt?
  {
    if "exp" in claims && claims["exp"].CInt? then Some(claims["exp"].n) else None
  }

  /** payload.get('username'): the key is written out in check_jwt_claims rather than
      taken from USER_FIELD_CLAIM. */
  function SubjectOf(claims: Claims): Option<string> {
    if "username" in claims && claims["username"].CStr? then Some(claims["username"].s) else None
  }

  /** User.get_user(payload.get('username')). */
  function LookupSubject(claims: Claims, users: seq<UserRow>): (r: Option<UserRow>)
    ensures r.Some? ==> r.value in users && r.value.available && SubjectOf(claims) == Some(r.value.fields.username)
    ensures r.None? <==> SubjectOf(claims).None? || GetUser(users, SubjectOf(claims).value).None?
  {
    match SubjectOf(claims)
    case Some(name) => GetUser(users, name)
    case None => None
  }

  /** check_jwt_claims, as written: refuses an expired token, then dereferences the
      looked-up user, which crashes when there is none. */
  function CheckJwtClaims(claims: Claims, now: int, users: seq<UserRow>): (r: GateOutcome)
    ensures r.Authenticated? <==>
              ExpOf(claims).Some? && now <= ExpOf(claims).value && LookupSubject(claims, users).Some?
    ensures r.Authenticated? ==> r.user == LookupSubject(claims, users).value
    ensures r.Authenticated? ==> r.user in users && r.user.available
    ensures r.Rejected? <==> ExpOf(claims).Some? && ExpOf(claims).value < now
    ensures r.Rejected? ==> r.error == JwtErrorRaised()
    ensures r == Crashed(ExpNotAnInteger) <==> ExpOf(claims).None?
    ensures r == Crashed(NoneHasNoAvailable) <==>
              ExpOf(claims).Some? && now <= ExpOf(claims).value && LookupSubject(claims, users).None?
  {
    match ExpOf(claims)
    case None => Crashed(ExpNotAnInteger)
    case Some(exp) =>
      if exp < now then Rejected(JwtErrorRaised())
      else match LookupSubject(claims, users)
        case None => Crashed(NoneHasNoAvailable)
        case Some(user) => if !user.available then Rejected(JwtErrorRaised()) else Authenticated(user)
  }

  /** check_jwt_claims as evidently intended: an unknown or disabled user is refused with
      the JWT error like every other failed check. */
  function CheckJwtClaimsFixed(claims: Claims, now: int, users: seq<UserRow>): (r: GateOutcome)
    ensures r != Crashed(NoneHasNoAvailable)
    ensures r.Rejected? <==>
              ExpOf(claims).Some? && (ExpOf(claims).value < now || LookupSubject(claims, users).None?)
    ensures r.Rejected? ==> r.error == JwtErrorRaised()
    ensures r.Authenticated? ==> r.user in users && r.user.available
  {
    match ExpOf(claims)
    case None => Crashed(ExpNotAnInteger)
    case Some(exp) =>
      if exp < now then Rejected(JwtErrorRaised())
      else match LookupSubject(claims, users)
        case None => Rejected(JwtErrorRaised())
        case Some(user) => if !user.available then Rejected(JwtErrorRaised()) else Authenticated(user)
  }

  /** The first checks of `wrapper`, in order: header present, header shape, token, decode. */
  function HeaderClaims(headers: map<string, string>, codec: Codec, now: int): (r: Result<Claims, HttpError>)
    ensures r.Failure? ==> r.error == JwtErrorRaised()
  {
    match GetHttpAuthHeader(headers)
    case Failure(e) => Failure(e)
    case Success(header) =>
      match CheckHttpAuthHeader(header)
      case Fail(e) => Failure(e)
      case Pass => DecodeJwtoken(codec, GetJwtokenFromHttpAuth(header), now)
  }

  /** Every check of `wrapper`: the header checks, then the claims. */
  function GateResult(headers: map<string, string>, codec: Codec, now: int, users: seq<UserRow>): (r: GateOutcome)
    ensures r.Rejected? ==> r.error == JwtErrorRaised()
    ensures r.Authenticated? ==> r.user in users && r.user.available
    ensures r.Authenticated? ==> Settings.AuthHeaderName in headers && HeaderMatches(headers[Settings.AuthHeaderName])
  {
    match HeaderClaims(headers, codec, now)
    case Failure(e) => Rejected(e)
    case Success(claims) => CheckJwtClaims(claims, now, users)
  }

  /** The gate with the corrected claim check: it differs from the gate as written only
      where that one crashes on a missing user, and refuses with the JWT error there. */
  function GateResultFixed(headers: map<string, string>, codec: Codec, now: int, users: seq<UserRow>): (r: GateOutcome)
    ensures r != Crashed(NoneHasNoAvailable)
    ensures GateResult(headers, codec, now, users) != Crashed(NoneHasNoAvailable) ==>
              r == GateResult(headers, codec, now, users)
    ensures GateResult(headers, codec, now, users) == Crashed(NoneHasNoAvailable) ==>
              r == Rejected(JwtErrorRaised())
  {
    match HeaderClaims(headers, codec, now)
    case Failure(e) => Rejected(e)
    case Success(claims) =>
      FixAgreesExceptOnCrash(claims, now, users);
      CheckJwtClaimsFixed(claims, now, users)
  }

  /** The part of bottle's request the gate touches: its headers and the `user` slot. */
  class Request {
    const headers: map<string, string>
    var user: Option<UserRow>

    constructor (headers: map<string, string>)
      ensures this.headers == headers && user == None
    {
      this.headers := headers;
      user := None;
    }
  }

  /** inject_user_on_request. */
  method InjectUserOnRequest(request: Request, user: UserRow)
    modifies request`user
    ensures request.user == Some(user)
  {
    request.user := Some(user);
  }

  /** `wrapper` of jwt_auth_required up to the call of the wrapped function: every check in
      turn, then the user is put on the request when `injectUser` is set. The wrapped
      function runs only on Authenticated, which the endpoints spell out. */
  method RunGate(request: Request, db: Database, codec: Codec, now: int, injectUser: bool)
    returns (g: GateOutcome)
    modifies request`user
    ensures g == GateResult(request.headers, codec, now, db.users)
    ensures request.user == if g.Authenticated? && injectUser then Some(g.user) else old(request.user)
  {
    var header := GetHttpAuthHeader(request.headers);
    if header.Failure? {
      return Rejected(header.error);
    }
    var shape := CheckHttpAuthHeader(header.value);
    if shape.Fail? {
      return Rejected(shape.error);
    }
    var token := GetJwtokenFromHttpAuth(header.value);
    var claims := DecodeJwtoken(codec, token, now);
    if claims.Failure? {
      return Rejected(claims.error);
    }
    g := CheckJwtClaims(claims.value, now, db.users);
    if g.Authenticated? && injectUser {
      InjectUserOnRequest(request, g.user);
    }
  }

  // ---------------------------------------------------------------------------------
  // Properties of the gate.

  /** For an accepted header the token is what follows "Bearer ", so that
      type + " " + token is the header again. */
  lemma ExtractedToken(header: string)
    requires CheckHttpAuthHeader(header).Pass?
    ensures Settings.AuthHeaderType + " " + GetJwtokenFromHttpAuth(header) == header
    ensures |GetJwtokenFromHttpAuth(header)| >= 8 && IsAlnum(GetJwtokenFromHttpAuth(header)[0])
  {
    var token := GetJwtokenFromHttpAuth(header);
    var cut := |Settings.AuthHeaderType| + 1;
    assert token[0] == header[cut];
  }

  /** A request passes exactly when every check passes. */
  lemma GateAuthenticatedIff(headers: map<string, string>, codec: Codec, now: int, users: seq<UserRow>)
    ensures GateResult(headers, codec, now, users).Authenticated? <==>
              && Settings.AuthHeaderName in headers
              && headers[Settings.AuthHeaderName] != ""
              && HeaderMatches(headers[Settings.AuthHeaderName])
              && codec.decode(GetJwtokenFromHttpAuth(headers[Settings.AuthHeaderName]), now).Success?
              && var claims := codec.decode(GetJwtokenFromHttpAuth(headers[Settings.AuthHeaderName]), now).value;
                 ExpOf(claims).Some? && now <= ExpOf(claims).value && LookupSubject(claims, users).Some?
  {
  }

  /** Every refusal is the JWT error: status 401 and the fixed body. */
  lemma GateRejectionIsJwtError(headers: map<string, string>, codec: Codec, now: int, users: seq<UserRow>)
    requires GateResult(headers, codec, now, users).Rejected?
    ensures GateResult(headers, codec, now, users).error == JwtErrorRaised()
    ensures GateResult(headers, codec, now, users).error.AsResponse() == Response(401, NotProvidedBody, JsonContentType)
  {
  }

  /** A missing or empty header is refused before anything else is looked at. */
  lemma MissingHeaderRejected(headers: map<string, string>, codec: Codec, now: int, users: seq<UserRow>)
    requires Settings.AuthHeaderName !in headers || headers[Settings.AuthHeaderName] == ""
    ensures GateResult(headers, codec, now, users) == Rejected(JwtErrorRaised())
  {
  }

  /** An authenticated request carried "Bearer", a space and a token of at least eight
      characters starting with a letter or digit. */
  lemma AuthenticatedHeaderShape(headers: map<string, string>, codec: Codec, now: int, users: seq<UserRow>)
    requires GateResult(headers, codec, now, users).Authenticated?
    ensures Settings.AuthHeaderName in headers
    ensures var header := headers[Settings.AuthHeaderName];
            var token := GetJwtokenFromHttpAuth(header);
            Settings.AuthHeaderType + " " + token == header && |token| >= 8 && IsAlnum(token[0])
  {
    ExtractedToken(headers[Settings.AuthHeaderName]);
  }

  /** A token whose expiry has passed is refused, whoever it names. */
  lemma ExpiredTokenRejected(claims: Claims, now: int, users: seq<UserRow>)
    requires ExpOf(claims).Some? && ExpOf(claims).value < now
    ensures CheckJwtClaims(claims, now, users) == Rejected(JwtErrorRaised())
    ensures CheckJwtClaimsFixed(claims, now, users) == Rejected(JwtErrorRaised())
  {
  }

  /** The expiry comparison is strict: a token expiring this very second still passes it. */
  lemma ExpiryBoundary(claims: Claims, now: int, users: seq<UserRow>)
    requires ExpOf(claims) == Some(now)
    ensures !CheckJwtClaims(claims, now, users).Rejected?
  {
  }

  /** The subject key written out in check_jwt_claims reads back the identity field the
      claim builder stores under USER_FIELD_CLAIM (they agree under the default setting). */
  lemma IssuedClaimsNameTheUser(user: UserFields, issuedAt: int)
    requires user.username != ""
    ensures SubjectOf(CreateUserJwtClaim(user, issuedAt).value) == Some(user.username)
    ensures ExpOf(CreateUserJwtClaim(user, issuedAt).value) == Some(issuedAt + Settings.TokenLifetime)
  {
  }

  /** With a sound codec, a token issued for a user decodes to the issued claims
      until it expires. */
  lemma IssuedTokenDecodes(codec: Codec, user: UserFields, issuedAt: int, now: int)
    requires RoundTrips(codec)
    requires user.username != "" && now < issuedAt + Settings.TokenLifetime
    ensures DecodeJwtoken(codec, GenerateJwtoken(codec, user, issuedAt).value, now)
            == Success(CreateUserJwtClaim(user, issuedAt).value)
  {
    var claims := CreateUserJwtClaim(user, issuedAt).value;
    assert codec.decode(codec.encode(claims), now) == Success(claims);
  }

  /** The request header a client sends with a token. */
  function BearerHeaders(token: string): map<string, string> {
    map[Settings.AuthHeaderName := Settings.AuthHeaderType + " " + token]
  }

  /** End to end: a token issued to an available user, sent as "Bearer <token>" before it
      expires, authenticates that user. */
  lemma IssuedTokenAuthenticates(codec: Codec, users: seq<UserRow>, u: UserRow, issuedAt: int, now: int)
    requires RoundTrips(codec) && UniqueUsernames(users)
    requires u in users && u.available && u.fields.username != ""
    requires now < issuedAt + Settings.TokenLifetime
    requires HeaderMatches(Settings.AuthHeaderType + " " + GenerateJwtoken(codec, u.fields, issuedAt).value)
    ensures GateResult(BearerHeaders(GenerateJwtoken(codec, u.fields, issuedAt).value), codec, now, users)
            == Authenticated(u)
  {
    var token := GenerateJwtoken(codec, u.fields, issuedAt).value;
    var header := Settings.AuthHeaderType + " " + token;
    ExtractedToken(header);
    assert GetJwtokenFromHttpAuth(header) == token;
    IssuedTokenDecodes(codec, u.fields, issuedAt, now);
    IssuedClaimsNameTheUser(u.fields, issuedAt);
    GetUserFindsAvailable(users, u);
  }

  /** As written, a user disabled after the token was issued is not refused with the JWT
      error: get_user returns None and the gate crashes on `.available`. */
  lemma DisabledUserCrashesGate(codec: Codec, users: seq<UserRow>, i: nat, issuedAt: int, now: int)
    requires RoundTrips(codec) && UniqueUsernames(users)
    requires i < |users| && users[i].fields.username != ""
    requires issuedAt <= now < issuedAt + Settings.TokenLifetime
    requires HeaderMatches(Settings.AuthHeaderType + " " + GenerateJwtoken(codec, users[i].fields, issuedAt).value)
    ensures GateResult(BearerHeaders(GenerateJwtoken(codec, users[i].fields, issuedAt).value), codec, now,
                       users[i := users[i].(available := false)])
            == Crashed(NoneHasNoAvailable)
  {
    var token := GenerateJwtoken(codec, users[i].fields, issuedAt).value;
    var header := Settings.AuthHeaderType + " " + token;
    ExtractedToken(header);
    assert GetJwtokenFromHttpAuth(header) == token;
    IssuedTokenDecodes(codec, users[i].fields, issuedAt, now);
    IssuedClaimsNameTheUser(users[i].fields, issuedAt);
    DisabledUserNotFound(users, i);
  }

  /** With the corrected check, that user is refused with the JWT error. */
  lemma DisabledUserRejectedWhenFixed(codec: Codec, users: seq<UserRow>, i: nat, issuedAt: int, now: int)
    requires RoundTrips(codec) && UniqueUsernames(users)
    requires i < |users| && users[i].fields.username != ""
    requires now < issuedAt + Settings.TokenLifetime
    ensures var claims := DecodeJwtoken(codec, GenerateJwtoken(codec, users[i].fields, issuedAt).value, now).value;
            CheckJwtClaimsFixed(claims, now, users[i := users[i].(available := false)]) == Rejected(JwtErrorRaised())
  {
    IssuedTokenDecodes(codec, users[i].fields, issuedAt, now);
    IssuedClaimsNameTheUser(users[i].fields, issuedAt);
    DisabledUserNotFound(users, i);
  }

  /** End to end with the corrected gate: the disabled user's request is answered with
      the JWT error. */
  lemma DisabledUserRejectedByFixedGate(codec: Codec, users: seq<UserRow>, i: nat, issuedAt: int, now: int)
    requires RoundTrips(codec) && UniqueUsernames(users)
    requires i < |users| && users[i].fields.username != ""
    requires issuedAt <= now < issuedAt + Settings.TokenLifetime
    requires HeaderMatches(Settings.AuthHeaderType + " " + GenerateJwtoken(codec, users[i].fields, issuedAt).value)
    ensures GateResultFixed(BearerHeaders(GenerateJwtoken(codec, users[i].fields, issuedAt).value), codec, now,
                            users[i := users[i].(available := false)])
            == Rejected(JwtErrorRaised())
  {
    DisabledUserCrashesGate(codec, users, i, issuedAt, now);
  }

  /** The correction changes nothing but the crash. */
  lemma FixAgreesExceptOnCrash(claims: Claims, now: int, users: seq<UserRow>)
    ensures CheckJwtClaims(claims, now, users) != Crashed(NoneHasNoAvailable) ==>
              CheckJwtClaimsFixed(claims, now, users) == CheckJwtClaims(claims, now, users)
    ensures CheckJwtClaims(claims, now, users) == Crashed(NoneHasNoAvailable) ==>
              CheckJwtClaimsFixed(claims, now, users) == Rejected(JwtErrorRaised())
  {
  }
}
