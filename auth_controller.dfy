/** The session lifecycle endpoints of `AuthController`: `login` opens a
    session, `me` reports it, `logout` revokes it and `refresh` swaps it for
    a new one. The tables are the session store and the users table; the
    signature check, the signer, `password_verify`, the e-mail validator,
    the clock and the random bytes are parameters. */
module Auth {
  import opened Values
  import opened Text
  import opened ApiResponse
  import opened Users
  import opened AuthTokens
  import opened Jwt

  /** Concurrent sessions a user may hold after a login. */
  const MAX_ACTIVE_SESSIONS := 5

  const MSG_TENANT_REQUIRED := "El ID de tenant es requerido"
  const MSG_EMAIL_REQUIRED := "El email es requerido"
  const MSG_EMAIL_INVALID := "El email no es válido"
  const MSG_PASSWORD_REQUIRED := "La contraseña es requerida"
  const MSG_VALIDATION := "Errores de validación"
  const MSG_BAD_CREDENTIALS := "Credenciales inválidas"
  const MSG_BLOCKED := "Usuario bloqueado"
  const MSG_TOKEN_INVALID := "Token inválido o expirado"
  const MSG_SESSION_GONE := "Sesión revocada o expirada"
  const MSG_USER_NOT_FOUND := "Usuario no encontrado"
  const MSG_LOGGED_OUT := "Sesión cerrada exitosamente"
  const MSG_LOGIN_ERROR := "Error en login"
  const MSG_ME_ERROR := "Error en me()"
  const MSG_LOGOUT_ERROR := "Error en logout"
  const MSG_REFRESH_ERROR := "Error en refresh"

  /** The parts of a request the controller reads: the `Authorization`
      header line, the JSON or form payload, the client address and the
      user agent. */
  datatype Request = Request(authorization: string, payload: map<string, Value>, ip: string, userAgent: string)

  /** The environment: `JWT_SECRET`, `JWT_TTL_SECONDS`, `base_url()` and `ENVIRONMENT`. */
  datatype Config = Config(secret: string, ttlSetting: Option<string>, baseUrl: string, environment: string)

  /** A caught throwable whose trace text is not modelled. */
  function Thrown(className: string): Option<Exception> {
    Some(Exception(className, ""))
  }

  /** The class of what a failing `(string)` cast throws: an array only
      warns (the error handler raises `ErrorException`), an object raises `Error`. */
  function StringCastFailure(v: Value): string {
    if v == EmptyObject then "Error" else "ErrorException"
  }

  // ---------------------------------------------------------------------
  // Pure helpers
  // ---------------------------------------------------------------------

  /** What `validateLoginPayload` returns. */
  datatype LoginCheck =
    | Passed                                        // true
    | Rejected(errors: seq<(string, Value)>)        // the per-field messages
    | CastThrows(className: string)                 // a cast of a field threw

  function FieldError(field: string, message: string): (string, Value) {
    (field, List([Str(message)]))
  }

  /** The messages `validateLoginPayload` collects once the three fields
      are cast: one per failing field, in the order tenant, e-mail, password. */
  function LoginErrors(tenant: int, email: string, password: string, isValidEmail: string -> bool): (errors: seq<(string, Value)>)
    ensures errors == [] <==> tenant > 0 && email != "" && isValidEmail(email) && password != ""
    ensures |errors| <= 3
    ensures FieldError("tenant_id", MSG_TENANT_REQUIRED) in errors <==> tenant <= 0
    ensures FieldError("email", MSG_EMAIL_REQUIRED) in errors <==> email == ""
    ensures FieldError("email", MSG_EMAIL_INVALID) in errors <==> email != "" && !isValidEmail(email)
    ensures FieldError("password", MSG_PASSWORD_REQUIRED) in errors <==> password == ""
    ensures forall k :: 0 <= k < |errors| ==>
              errors[k] in [FieldError("tenant_id", MSG_TENANT_REQUIRED), FieldError("email", MSG_EMAIL_REQUIRED),
                            FieldError("email", MSG_EMAIL_INVALID), FieldError("password", MSG_PASSWORD_REQUIRED)]
  {
    (if tenant <= 0 then [FieldError("tenant_id", MSG_TENANT_REQUIRED)] else [])
    + (if email == "" then [FieldError("email", MSG_EMAIL_REQUIRED)]
       else if !isValidEmail(email) then [FieldError("email", MSG_EMAIL_INVALID)]
       else [])
    + (if password == "" then [FieldError("password", MSG_PASSWORD_REQUIRED)] else [])
  }

  /** `validateLoginPayload($payload)`: `tenant_id` must cast to a positive
      integer, the trimmed `email` must be present and valid, and `password`
      must be non-empty; each failing field gets one message. */
  function ValidateLoginPayload(payload: map<string, Value>, isValidEmail: string -> bool): (r: LoginCheck)
    ensures r.CastThrows? <==>
              || IntCast(Field(payload, "tenant_id")).None?
              || StringCast(Field(payload, "email")).None?
              || StringCast(Field(payload, "password")).None?
    ensures !r.CastThrows? ==>
              var errors := LoginErrors(IntCast(Field(payload, "tenant_id")).value,
                                        Trim(StringCast(Field(payload, "email")).value),
                                        StringCast(Field(payload, "password")).value, isValidEmail);
              && (r.Passed? <==> errors == [])
              && (r.Rejected? ==> r.errors == errors)
    ensures r.Rejected? ==> NormalizeAll(r.errors).Some?
  {
    match IntCast(Field(payload, "tenant_id"))
    case None => CastThrows("ErrorException")
    case Some(tenant) =>
      match StringCast(Field(payload, "email"))
      case None => CastThrows(StringCastFailure(Field(payload, "email")))
      case Some(rawEmail) =>
        match StringCast(Field(payload, "password"))
        case None => CastThrows(StringCastFailure(Field(payload, "password")))
        case Some(password) =>
          var errors := LoginErrors(tenant, Trim(rawEmail), password, isValidEmail);
          if errors == [] then Passed
          else
            assert forall k :: 0 <= k < |errors| ==> errors[k].1.List?;
            Rejected(errors)
  }

  /** `isUserActive($user)`: a missing status counts as active, unlike
      `UserModel::isActive`. */
  function IsUserActive(u: User): (b: bool)
    ensures b <==> u.status.None? || u.status == Some("active")
  {
    u.status.GetOr("active") == "active"
  }

  /** `formatUserResponse($user)`: the public projection of a user, which
      leaves the password hash out. */
  function FormatUserResponse(u: User): (r: Value)
    ensures r.Dict? && |r.entries| == 6
    ensures forall k :: 0 <= k < |r.entries| ==> r.entries[k].0 != "password_hash"
    ensures r.entries[0] == ("id", Int(u.id)) && r.entries[1] == ("tenant_id", Int(u.tenantId))
    ensures r.entries[2].1 == Null <==> u.defaultBranchId.None?
    ensures r.entries[2] == ("default_branch_id", if u.defaultBranchId.Some? then Int(u.defaultBranchId.value) else Null)
    ensures r.entries[3] == ("name", Str(u.name)) && r.entries[4] == ("email", Str(u.email))
    ensures r.entries[5].0 == "status" && (r.entries[5].1 == Str("active") <==> IsUserActive(u))
    ensures u.status.Some? ==> r.entries[5].1 == Str(u.status.value)
  {
    Dict([
      ("id", Int(u.id)),
      ("tenant_id", Int(u.tenantId)),
      ("default_branch_id", match u.defaultBranchId case None => Null case Some(b) => Int(b)),
      ("name", Str(u.name)),
      ("email", Str(u.email)),
      ("status", Str(u.status.GetOr("active")))
    ])
  }

  /** What `getValidatedClaims()` yields. */
  datatype ClaimsResult =
    | NoClaims                             // null
    | ClaimsFault(className: string)       // a cast of `uid` or `jti` threw
    | Validated(uid: int, claims: Claims)  // the claim set, with uid > 0 and a non-empty jti

  /** `getValidatedClaims()`: the claims of the bearer token found by
      `getBearerToken`, when that token is truthy, decodes to a non-empty
      claim set and carries a positive `uid` and a non-empty `jti`. */
  function GetValidatedClaims(header: string, secret: string, verify: Verifier, now: int): (r: ClaimsResult)
    ensures r.Validated? ==>
              && secret != ""
              && GetBearerToken(header).Some?
              && TruthyString(GetBearerToken(header).value)
              && r.claims != map[]
              && DecodeJwt(secret, GetBearerToken(header).value, verify, now) == Some(r.claims)
              && RequiredClaims(r.claims).Required? && RequiredClaims(r.claims).uid == r.uid && r.uid > 0
    ensures secret == "" || GetBearerToken(header).None? ==> r == NoClaims
    ensures r.ClaimsFault? ==>
              && GetBearerToken(header).Some?
              && TruthyString(GetBearerToken(header).value)
              && DecodeJwt(secret, GetBearerToken(header).value, verify, now).Some?
              && RequiredClaims(DecodeJwt(secret, GetBearerToken(header).value, verify, now).value).Throws?
    // Conversely, a truthy token whose non-empty claims pass the check is accepted.
    ensures GetBearerToken(header).Some? && TruthyString(GetBearerToken(header).value) ==>
              var d := DecodeJwt(secret, GetBearerToken(header).value, verify, now);
              && (d.Some? && d.value != map[] && RequiredClaims(d.value).Required? ==>
                    r == Validated(RequiredClaims(d.value).uid, d.value))
              && (d.None? || d.value == map[] || RequiredClaims(d.value).Missing? ==> r == NoClaims)
  {
    match GetBearerToken(header)
    case None => NoClaims
    case Some(jwt) =>
      if !TruthyString(jwt) then NoClaims
      else match DecodeJwt(secret, jwt, verify, now)
        case None => NoClaims
        case Some(c) =>
          if c == map[] then NoClaims
          else match RequiredClaims(c)
            case Throws =>
              ClaimsFault(if IntCast(Field(c, "uid")).None? then "ErrorException" else StringCastFailure(Field(c, "jti")))
            case Missing => NoClaims
            case Required(uid, _) => Validated(uid, c)
  }

  /** The session `findValidByJti($claims['jti'])` finds, when that call is
      reached with a string argument. */
  function SessionFound(c: ClaimsResult, rows: seq<Session>, now: int): (r: Option<Session>)
    ensures r.Some? ==> c.Validated? && Field(c.claims, "jti").Str? && r == ActiveLookup(rows, Field(c.claims, "jti").s, now)
  {
    if c.Validated? && Field(c.claims, "jti").Str? then ActiveLookup(rows, Field(c.claims, "jti").s, now) else None
  }

  /** The table after that lookup: the found session is marked used. */
  function AfterLookup(c: ClaimsResult, rows: seq<Session>, now: int): seq<Session> {
    match SessionFound(c, rows, now)
    case None => rows
    case Some(s) => Touched(rows, s.id, now)
  }

  /** Where `me` and `refresh` stand once the session and the user are checked. */
  datatype Gate =
    | Deny(response: Response)
    | Crash(className: string)
    | Admit(jti: string, session: Session, user: User)

  /** The token issued at a login or a refresh, stored as a new session row. */
  function IssuedSession(id: nat, userId: int, i: Issued, req: Request, now: int): Session {
    Session(id, userId, i.jti, i.expiresAt, None, now, Some(req.ip), Some(req.userAgent), now)
  }

  function LoginBody(i: Issued, u: User): seq<(string, Value)> {
    [("access_token", Str(i.jwt)), ("token_type", Str("Bearer")), ("expires_at", Int(i.expiresAt)),
     ("user", FormatUserResponse(u))]
  }

  function RefreshBody(i: Issued): seq<(string, Value)> {
    [("access_token", Str(i.jwt)), ("token_type", Str("Bearer")), ("expires_at", Int(i.expiresAt))]
  }

  function MeBody(s: Session, u: User): seq<(string, Value)> {
    [("session", Dict([("id", Int(s.id)), ("expires_at", Int(s.expiresAt)), ("last_used_at", Int(s.lastUsedAt))])),
     ("user", FormatUserResponse(u))]
  }

  /** What `me()` answers from the checks. */
  function MeResponse(g: Gate, environment: string): (r: Response)
    requires g.Deny? ==> WellFormed(g.response) && g.response.code in {UNAUTHORIZED, FORBIDDEN}
    ensures WellFormed(r)
    ensures r.code == OK <==> g.Admit?
    ensures r.code == OK ==> r == Success(MeBody(g.session, g.user), None)
    ensures g.Deny? ==> r == g.response
    ensures g.Crash? ==> r == ServerError(MSG_ME_ERROR, Thrown(g.className), environment) && r.code == SERVER_ERROR
  {
    match g
    case Deny(response) => response
    case Crash(className) => ServerError(MSG_ME_ERROR, Thrown(className), environment)
    case Admit(_, s, u) => Success(MeBody(s, u), None)
  }

  /** What `logout()` answers, with `successMessage` read as the
      success response it evidently stands for. */
  function LogoutResponse(c: ClaimsResult, environment: string): (r: Response)
    ensures WellFormed(r)
    ensures r.code == OK <==> c.Validated? && Field(c.claims, "jti").Str?
    ensures c.NoClaims? ==> r == Unauthorized(MSG_TOKEN_INVALID)
  {
    match c
    case NoClaims => Unauthorized(MSG_TOKEN_INVALID)
    case ClaimsFault(className) => ServerError(MSG_LOGOUT_ERROR, Thrown(className), environment)
    case Validated(_, claims) =>
      if Field(claims, "jti").Str? then Success([], Some(MSG_LOGGED_OUT))
      else ServerError(MSG_LOGOUT_ERROR, Thrown("TypeError"), environment)
  }

  /** What `logout()` answers as written: after the revoke it calls
      `$this->successMessage(...)`, a method neither the controller nor its
      trait defines, so the call throws `Error` and the catch answers 500. */
  function LogoutResponseAsWritten(c: ClaimsResult, environment: string): (r: Response)
    ensures WellFormed(r) && r.code != OK
  {
    match c
    case NoClaims => Unauthorized(MSG_TOKEN_INVALID)
    case ClaimsFault(className) => ServerError(MSG_LOGOUT_ERROR, Thrown(className), environment)
    case Validated(_, claims) =>
      if Field(claims, "jti").Str? then ServerError(MSG_LOGOUT_ERROR, Thrown("Error"), environment)
      else ServerError(MSG_LOGOUT_ERROR, Thrown("TypeError"), environment)
  }

  /** A logout whose token is valid revokes the session yet, as written,
      tells the client it failed; the corrected reply is a success. The two
      agree on every other request. */
  lemma LogoutAsWrittenFails(c: ClaimsResult, environment: string)
    ensures c.Validated? && Field(c.claims, "jti").Str? ==>
              && LogoutResponseAsWritten(c, environment).code == SERVER_ERROR
              && LogoutResponse(c, environment).code == OK
    ensures !(c.Validated? && Field(c.claims, "jti").Str?) ==>
              LogoutResponseAsWritten(c, environment) == LogoutResponse(c, environment)
  {
  }

  /** What `refresh()` answers when the checks fail. */
  function RefreshRefusal(g: Gate, environment: string): (r: Response)
    requires !g.Admit?
    requires g.Deny? ==> WellFormed(g.response) && g.response.code in {UNAUTHORIZED, FORBIDDEN}
    ensures WellFormed(r) && r.code != OK
    ensures g.Deny? ==> r == g.response
    ensures g.Crash? ==> r == ServerError(MSG_REFRESH_ERROR, Thrown(g.className), environment) && r.code == SERVER_ERROR
  {
    match g
    case Deny(response) => response
    case Crash(className) => ServerError(MSG_REFRESH_ERROR, Thrown(className), environment)
  }

  // ---------------------------------------------------------------------
  // The controller
  // ---------------------------------------------------------------------

  class AuthController {
    const store: AuthTokenStore
    const users: UserTable
    const config: Config
    const verify: Verifier
    const sign: Signer
    /** PHP's `password_verify($password, $hash)`. */
    const passwordVerify: (string, string) -> bool
    /** `filter_var($email, FILTER_VALIDATE_EMAIL)` succeeds. */
    const isValidEmail: string -> bool

    ghost predicate Valid()
      reads this, store, users
    {
      store.Valid() && users.Valid()
    }

    constructor (store: AuthTokenStore, users: UserTable, config: Config, verify: Verifier, sign: Signer,
                 passwordVerify: (string, string) -> bool, isValidEmail: string -> bool)
      ensures this.store == store && this.users == users && this.config == config
      ensures this.verify == verify && this.sign == sign
      ensures this.passwordVerify == passwordVerify && this.isValidEmail == isValidEmail
    {
      this.store := store;
      this.users := users;
      this.config := config;
      this.verify := verify;
      this.sign := sign;
      this.passwordVerify := passwordVerify;
      this.isValidEmail := isValidEmail;
    }

    /** What `login()` decides before touching the session store: a reply,
        or the user whose credentials check out. */
    function LoginGate(payload: map<string, Value>): (r: LoginStep)
      reads this, users
      ensures r.Proceed? ==>
                && ValidateLoginPayload(payload, isValidEmail).Passed?
                && var tenant := IntCast(Field(payload, "tenant_id")).value;
                   && Field(payload, "email").Str? && Field(payload, "password").Str?
                   && tenant > 0
                   && r.user in users.rows
                   && r.user.tenantId == tenant
                   && r.user.email == EmailKey(Field(payload, "email").s)
                   && IsUserActive(r.user)
                   && passwordVerify(Field(payload, "password").s, r.user.passwordHash)
      ensures r.Reply? ==> WellFormed(r.response) && r.response.code != OK
      ensures ValidateLoginPayload(payload, isValidEmail).CastThrows? ==>
                r == Reply(ServerError(MSG_LOGIN_ERROR, Thrown(ValidateLoginPayload(payload, isValidEmail).className), config.environment))
      ensures ValidateLoginPayload(payload, isValidEmail).Rejected? ==>
                r == Reply(ApiRespond(Null, UNPROCESSABLE, Some(MSG_VALIDATION),
                                      NormalizeAll(ValidateLoginPayload(payload, isValidEmail).errors).value))
      // The status is checked before the password: an inactive account is
      // reported as such whatever password came with the request.
      ensures ValidateLoginPayload(payload, isValidEmail).Passed? && Field(payload, "email").Str? ==>
                var found := users.FindByEmailAndTenant(Field(payload, "email").s, IntCast(Field(payload, "tenant_id")).value);
                && (found.None? ==> r == Reply(Unauthorized(MSG_BAD_CREDENTIALS)))
                && (found.Some? && !IsUserActive(found.value) ==> r == Reply(Forbidden(MSG_BLOCKED)))
                && (found.Some? && IsUserActive(found.value) && Field(payload, "password").Str? &&
                    !passwordVerify(Field(payload, "password").s, found.value.passwordHash) ==>
                      r == Reply(Unauthorized(MSG_BAD_CREDENTIALS)))
                && (found.Some? && IsUserActive(found.value) && Field(payload, "password").Str? &&
                    passwordVerify(Field(payload, "password").s, found.value.passwordHash) ==>
                      r == Proceed(found.value))
    {
      match ValidateLoginPayload(payload, isValidEmail)
      case CastThrows(className) => Reply(ServerError(MSG_LOGIN_ERROR, Thrown(className), config.environment))
      case Rejected(errors) => Reply(ApiRespond(Null, UNPROCESSABLE, Some(MSG_VALIDATION), NormalizeAll(errors).value))
      case Passed =>
        var tenant := IntCast(Field(payload, "tenant_id")).value;
        var email := Field(payload, "email");
        var password := Field(payload, "password");
        if !email.Str? then Reply(ServerError(MSG_LOGIN_ERROR, Thrown("TypeError"), config.environment))
        else
          EmailKeyIdempotent(email.s);
          match users.FindByEmailAndTenant(EmailKey(email.s), tenant)
          case None => Reply(Unauthorized(MSG_BAD_CREDENTIALS))
          case Some(u) =>
            if !IsUserActive(u) then Reply(Forbidden(MSG_BLOCKED))
            else if !password.Str? then Reply(ServerError(MSG_LOGIN_ERROR, Thrown("TypeError"), config.environment))
            else if passwordVerify(password.s, u.passwordHash) then Proceed(u)
            else Reply(Unauthorized(MSG_BAD_CREDENTIALS))
    }

    /** What `me()` and `refresh()` check: validated claims, a string `jti`
        naming a live session, and an existing, active user with the token's `uid`. */
    function SessionGate(c: ClaimsResult, rows: seq<Session>, now: int): (g: Gate)
      reads this, users
      ensures g.Admit? ==>
                && c.Validated?
                && Field(c.claims, "jti") == Str(g.jti)
                && ActiveLookup(rows, g.jti, now) == Some(g.session)
                && SessionFound(c, rows, now) == Some(g.session)
                && users.Find(c.uid) == Some(g.user)
                && g.user.id == c.uid
                && IsUserActive(g.user)
      ensures g.Crash? <==> c.ClaimsFault? || (c.Validated? && !Field(c.claims, "jti").Str?)
      ensures g.Deny? ==> WellFormed(g.response) && g.response.code in {UNAUTHORIZED, FORBIDDEN}
      ensures c.Validated? && SessionFound(c, rows, now).None? && Field(c.claims, "jti").Str? ==>
                g == Deny(Unauthorized(MSG_SESSION_GONE))
      ensures c.NoClaims? ==> g == Deny(Unauthorized(MSG_TOKEN_INVALID))
      ensures c.Validated? && SessionFound(c, rows, now).Some? && users.Find(c.uid).None? ==>
                g == Deny(Unauthorized(MSG_USER_NOT_FOUND))
      ensures c.Validated? && SessionFound(c, rows, now).Some? && users.Find(c.uid).Some? ==>
                if IsUserActive(users.Find(c.uid).value) then g.Admit? else g == Deny(Forbidden(MSG_BLOCKED))
    {
      match c
      case NoClaims => Deny(Unauthorized(MSG_TOKEN_INVALID))
      case ClaimsFault(className) => Crash(className)
      case Validated(uid, claims) =>
        var jti := Field(claims, "jti");
        if !jti.Str? then Crash("TypeError")
        else match ActiveLookup(rows, jti.s, now)
          case None => Deny(Unauthorized(MSG_SESSION_GONE))
          case Some(s) =>
            match users.Find(uid)
            case None => Deny(Unauthorized(MSG_USER_NOT_FOUND))
            case Some(u) => if IsUserActive(u) then Admit(jti.s, s, u) else Deny(Forbidden(MSG_BLOCKED))
    }

    /** `login()`: the checks of `LoginGate`, then the session is opened. */
    method Login(req: Request, now: int, randomBytes: seq<byte>) returns (r: Response)
      requires Valid() && |randomBytes| == TOKEN_BYTE_LENGTH
      modifies store
      ensures Valid()
      ensures LoginGate(req.payload).Reply? ==>
                r == LoginGate(req.payload).response && store.rows == old(store.rows) && store.nextId == old(store.nextId)
      ensures LoginGate(req.payload).Proceed? ==>
                OpenedSession(LoginGate(req.payload).user, req, now, randomBytes, config, sign,
                              old(store.rows), old(store.nextId), store.rows, store.nextId, r)
    {
      var check := ValidateLoginPayload(req.payload, isValidEmail);
      if check.CastThrows? {
        return ServerError(MSG_LOGIN_ERROR, Thrown(check.className), config.environment);
      }
      if check.Rejected? {
        var reply := ValidationError(check.errors, MSG_VALIDATION);
        return reply.value;
      }
      var tenantId := IntCast(Field(req.payload, "tenant_id")).value;
      var rawEmail := Field(req.payload, "email");
      if !rawEmail.Str? {
        return ServerError(MSG_LOGIN_ERROR, Thrown("TypeError"), config.environment);
      }
      var email := EmailKey(rawEmail.s);
      var found := users.FindByEmailAndTenant(email, tenantId);
      if found.None? {
        return Unauthorized(MSG_BAD_CREDENTIALS);
      }
      var user := found.value;
      if !IsUserActive(user) {
        return Forbidden(MSG_BLOCKED);
      }
      var password := Field(req.payload, "password");
      if !password.Str? {
        return ServerError(MSG_LOGIN_ERROR, Thrown("TypeError"), config.environment);
      }
      if !passwordVerify(password.s, user.passwordHash) {
        return Unauthorized(MSG_BAD_CREDENTIALS);
      }
      r := OpenSession(user, req, now, randomBytes);
    }

    /** The second half of `login()`: delete the user's expired sessions, cap
        the live ones at four, issue a token and store its session. */
    method OpenSession(user: User, req: Request, now: int, randomBytes: seq<byte>) returns (r: Response)
      requires Valid() && |randomBytes| == TOKEN_BYTE_LENGTH
      modifies store
      ensures Valid()
      ensures OpenedSession(user, req, now, randomBytes, config, sign, old(store.rows), old(store.nextId), store.rows, store.nextId, r)
    {
      ghost var before := store.rows;
      var _ := store.CleanupExpired(user.id, now);
      var _ := store.EnforceSessionLimit(user.id, MAX_ACTIVE_SESSIONS, now);
      ghost var capped := store.rows;
      var issued := IssueJwtForUser(user, config.secret, config.ttlSetting, config.baseUrl, now, randomBytes, sign);
      if issued.None? {
        r := ServerError(MSG_LOGIN_ERROR, Thrown("RuntimeException"), config.environment);
        OpenedWithoutSecret(user, req, now, randomBytes, config, sign, before, old(store.nextId), capped, store.rows, store.nextId, r);
        return;
      }
      var i := issued.value;
      GeneratedTokenValidates(randomBytes);
      var created := store.CreateToken(user.id, i.jti, i.expiresAt, Some(req.ip), Some(req.userAgent), now);
      r := Success(LoginBody(i, user), None);
      if created {
        OpenedAppended(user, req, now, randomBytes, config, sign, before, old(store.nextId), capped, store.rows, store.nextId, r);
      } else {
        ghost var k :| 0 <= k < |capped| && capped[k].userId == user.id && capped[k].token == i.jti;
        OpenedExisting(user, req, now, randomBytes, config, sign, before, old(store.nextId), capped, k, store.rows, store.nextId, r);
      }
    }

    /** `me()`: the caller's session and profile. Reaching the lookup marks
        the session used, even when the user check then fails. */
    method Me(req: Request, now: int) returns (r: Response)
      requires Valid()
      modifies store
      ensures Valid() && store.nextId == old(store.nextId)
      ensures var c := GetValidatedClaims(req.authorization, config.secret, verify, now);
              && r == MeResponse(SessionGate(c, old(store.rows), now), config.environment)
              && store.rows == AfterLookup(c, old(store.rows), now)
    {
      var c := GetValidatedClaims(req.authorization, config.secret, verify, now);
      ghost var g := SessionGate(c, store.rows, now);
      if c.NoClaims? {
        return Unauthorized(MSG_TOKEN_INVALID);
      }
      if c.ClaimsFault? {
        return ServerError(MSG_ME_ERROR, Thrown(c.className), config.environment);
      }
      var jti := Field(c.claims, "jti");
      if !jti.Str? {
        return ServerError(MSG_ME_ERROR, Thrown("TypeError"), config.environment);
      }
      var session := store.FindValidByJti(jti.s, now);
      if session.None? {
        assert g == Deny(Unauthorized(MSG_SESSION_GONE));
        return Unauthorized(MSG_SESSION_GONE);
      }
      var user := users.Find(c.uid);
      if user.None? {
        assert g == Deny(Unauthorized(MSG_USER_NOT_FOUND));
        return Unauthorized(MSG_USER_NOT_FOUND);
      }
      if !IsUserActive(user.value) {
        assert g == Deny(Forbidden(MSG_BLOCKED));
        return Forbidden(MSG_BLOCKED);
      }
      assert g == Admit(jti.s, session.value, user.value);
      r := Success(MeBody(session.value, user.value), None);
    }

    /** `logout()`: revokes every unrevoked row carrying the token's `jti`,
        after which that token is never found live again. The reply is the
        corrected one, `LogoutResponse`: a success where the code as written
        answers 500 (`LogoutResponseAsWritten`). */
    method Logout(req: Request, now: int) returns (r: Response)
      requires Valid()
      modifies store
      ensures Valid() && store.nextId == old(store.nextId)
      ensures var c := GetValidatedClaims(req.authorization, config.secret, verify, now);
              && r == LogoutResponse(c, config.environment)
              && (c.Validated? && Field(c.claims, "jti").Str? ==>
                    && store.rows == SetRevoked(old(store.rows), UnrevokedWithToken(Field(c.claims, "jti").s), now)
                    && forall later :: ActiveLookup(store.rows, Field(c.claims, "jti").s, later).None?)
              && (!(c.Validated? && Field(c.claims, "jti").Str?) ==> store.rows == old(store.rows))
    {
      var c := GetValidatedClaims(req.authorization, config.secret, verify, now);
      if c.NoClaims? {
        return Unauthorized(MSG_TOKEN_INVALID);
      }
      if c.ClaimsFault? {
        return ServerError(MSG_LOGOUT_ERROR, Thrown(c.className), config.environment);
      }
      var jti := Field(c.claims, "jti");
      if !jti.Str? {
        return ServerError(MSG_LOGOUT_ERROR, Thrown("TypeError"), config.environment);
      }
      var _ := store.RevokeByJti(jti.s, now);
      forall later ensures ActiveLookup(store.rows, jti.s, later).None? {
        RevocationIsFinal(old(store.rows), jti.s, now, later);
      }
      r := Success([], Some(MSG_LOGGED_OUT));
    }

    /** `refresh()`: revokes the current token and stores a new one. */
    method Refresh(req: Request, now: int, randomBytes: seq<byte>) returns (r: Response)
      requires Valid() && |randomBytes| == TOKEN_BYTE_LENGTH
      modifies store
      ensures Valid()
      ensures var c := GetValidatedClaims(req.authorization, config.secret, verify, now);
              var g := SessionGate(c, old(store.rows), now);
              !g.Admit? ==>
                && r == RefreshRefusal(g, config.environment)
                && store.rows == AfterLookup(c, old(store.rows), now)
                && store.nextId == old(store.nextId)
      ensures var c := GetValidatedClaims(req.authorization, config.secret, verify, now);
              var g := SessionGate(c, old(store.rows), now);
              g.Admit? ==>
                var i := IssueJwtForUser(g.user, config.secret, config.ttlSetting, config.baseUrl, now, randomBytes, sign).value;
                && r == Success(RefreshBody(i), None)
                && Refreshed(g, i, req, now, old(store.rows), old(store.nextId), store.rows, store.nextId)
    {
      var c := GetValidatedClaims(req.authorization, config.secret, verify, now);
      if c.NoClaims? {
        return Unauthorized(MSG_TOKEN_INVALID);
      }
      if c.ClaimsFault? {
        return ServerError(MSG_REFRESH_ERROR, Thrown(c.className), config.environment);
      }
      var jti := Field(c.claims, "jti");
      if !jti.Str? {
        return ServerError(MSG_REFRESH_ERROR, Thrown("TypeError"), config.environment);
      }
      var session := store.FindValidByJti(jti.s, now);
      if session.None? {
        return Unauthorized(MSG_SESSION_GONE);
      }
      var user := users.Find(c.uid);
      if user.None? {
        return Unauthorized(MSG_USER_NOT_FOUND);
      }
      if !IsUserActive(user.value) {
        return Forbidden(MSG_BLOCKED);
      }
      var _ := store.RevokeByJti(jti.s, now);
      var i := IssueJwtForUser(user.value, config.secret, config.ttlSetting, config.baseUrl, now, randomBytes, sign).value;
      GeneratedTokenValidates(randomBytes);
      var _ := store.CreateToken(user.value.id, i.jti, i.expiresAt, Some(req.ip), Some(req.userAgent), now);
      r := Success(RefreshBody(i), None);
    }
  }

  /** What `login()` decides before the session store is touched. */
  datatype LoginStep = Reply(response: Response) | Proceed(user: User)

  // ---------------------------------------------------------------------
  // Properties of the lifecycle
  // ---------------------------------------------------------------------

  /** What a login that passed its checks leaves behind. The user's
      expired sessions are gone and the cap has run on what was left
      (`CapOutcome`): with `n` live sessions before, `n` stay live when
      `n` < 5, otherwise the four most recently used, and only the user's
      live rows were revoked. No other user's session is touched. Then
      either the new token's session was appended, live exactly when the
      lifetime is positive, or the user already had a row with that token;
      without a secret the reply is a 500 and nothing is appended. */
  ghost predicate OpenedSession(u: User, req: Request, now: int, randomBytes: seq<byte>, config: Config, sign: Signer,
                                before: seq<Session>, nextBefore: nat, rows: seq<Session>, nextId: nat, r: Response)
    requires |randomBytes| == TOKEN_BYTE_LENGTH
  {
    var n := ActiveCount(before, u.id, now);
    var kept := if n < MAX_ACTIVE_SESSIONS then n else MAX_ACTIVE_SESSIONS - 1;
    var appended := nextId == nextBefore + 1;
    var capped := if appended && |rows| > 0 then rows[..|rows| - 1] else rows;
    && (appended || nextId == nextBefore)
    && (forall s :: s in before && s.userId != u.id ==> s in rows)
    && CapOutcome(DeleteWhere(before, ExpiredOfUser(u.id, now)), capped, u.id, MAX_ACTIVE_SESSIONS, now)
    && ActiveCount(capped, u.id, now) == kept
    && ActiveCount(rows, u.id, now) == kept + (if appended && GetJwtTtl(config.ttlSetting) > 0 then 1 else 0)
    && ActiveCount(rows, u.id, now) <= MAX_ACTIVE_SESSIONS
    && (config.secret == "" ==>
          r == ServerError(MSG_LOGIN_ERROR, Thrown("RuntimeException"), config.environment) && !appended)
    && (config.secret != "" ==>
          var i := IssueJwtForUser(u, config.secret, config.ttlSetting, config.baseUrl, now, randomBytes, sign).value;
          && r == Success(LoginBody(i, u), None)
          && (appended ==> |rows| > 0 && rows[|rows| - 1] == IssuedSession(nextBefore, u.id, i, req, now))
          && (!appended ==> exists k :: 0 <= k < |capped| && capped[k].userId == u.id && capped[k].token == i.jti))
  }


  /** What an admitted refresh leaves behind: the looked-up session is
      marked used, every unrevoked row of the old `jti` is revoked, and
      then the new token's session is appended, or, when the user already
      has a row with the new `jti`, nothing more changes. */
  ghost predicate Refreshed(g: Gate, i: Issued, req: Request, now: int,
                            before: seq<Session>, nextBefore: nat, rows: seq<Session>, nextId: nat)
    requires g.Admit?
  {
    var retired := SetRevoked(Touched(before, g.session.id, now), UnrevokedWithToken(g.jti), now);
    || (nextId == nextBefore + 1 && rows == retired + [IssuedSession(nextBefore, g.user.id, i, req, now)])
    || (&& nextId == nextBefore && rows == retired
        && exists k :: 0 <= k < |retired| && retired[k].userId == g.user.id && retired[k].token == i.jti)
  }

  /** A generated `jti` passes the session table's validation rules. */
  lemma GeneratedTokenValidates(randomBytes: seq<byte>)
    requires |randomBytes| == TOKEN_BYTE_LENGTH
    ensures Trim(GenerateSecureToken(randomBytes)) != "" && |GenerateSecureToken(randomBytes)| <= MAX_TOKEN_LENGTH
  {
    assert !IsTrimChar(GenerateSecureToken(randomBytes)[0]);
  }

  /** The user's live count after the clean-up and the cap, from the count
      before: unchanged below five, four otherwise; no other user's row is lost. */
  lemma CappedFacts(u: User, now: int, before: seq<Session>, capped: seq<Session>)
    requires CapOutcome(DeleteWhere(before, ExpiredOfUser(u.id, now)), capped, u.id, MAX_ACTIVE_SESSIONS, now)
    ensures var n := ActiveCount(before, u.id, now);
            ActiveCount(capped, u.id, now) == if n < MAX_ACTIVE_SESSIONS then n else MAX_ACTIVE_SESSIONS - 1
    ensures forall s :: s in before && s.userId != u.id ==> s in capped
  {
    var cleaned := DeleteWhere(before, ExpiredOfUser(u.id, now));
    CleanupKeepsActiveCount(before, u.id, u.id, now);
    CleanupKeepsActive(before, u.id, now);
    CapKeepsOthers(cleaned, capped, u.id, now);
  }

  lemma OpenedWithoutSecret(u: User, req: Request, now: int, randomBytes: seq<byte>, config: Config, sign: Signer,
                            before: seq<Session>, nextBefore: nat, capped: seq<Session>,
                            rows: seq<Session>, nextId: nat, r: Response)
    requires |randomBytes| == TOKEN_BYTE_LENGTH && config.secret == ""
    requires CapOutcome(DeleteWhere(before, ExpiredOfUser(u.id, now)), capped, u.id, MAX_ACTIVE_SESSIONS, now)
    requires rows == capped && nextId == nextBefore
    requires r == ServerError(MSG_LOGIN_ERROR, Thrown("RuntimeException"), config.environment)
    ensures OpenedSession(u, req, now, randomBytes, config, sign, before, nextBefore, rows, nextId, r)
  {
    CappedFacts(u, now, before, capped);
  }

  lemma OpenedAppended(u: User, req: Request, now: int, randomBytes: seq<byte>, config: Config, sign: Signer,
                       before: seq<Session>, nextBefore: nat, capped: seq<Session>,
                       rows: seq<Session>, nextId: nat, r: Response)
    requires |randomBytes| == TOKEN_BYTE_LENGTH && config.secret != ""
    requires CapOutcome(DeleteWhere(before, ExpiredOfUser(u.id, now)), capped, u.id, MAX_ACTIVE_SESSIONS, now)
    requires var i := IssueJwtForUser(u, config.secret, config.ttlSetting, config.baseUrl, now, randomBytes, sign).value;
             && rows == capped + [IssuedSession(nextBefore, u.id, i, req, now)] && nextId == nextBefore + 1
             && r == Success(LoginBody(i, u), None)
    ensures OpenedSession(u, req, now, randomBytes, config, sign, before, nextBefore, rows, nextId, r)
  {
    var i := IssueJwtForUser(u, config.secret, config.ttlSetting, config.baseUrl, now, randomBytes, sign).value;
    var row := IssuedSession(nextBefore, u.id, i, req, now);
    CappedFacts(u, now, before, capped);
    assert rows[..|rows| - 1] == capped;
    ActiveCountAppend(capped, row, u.id, now);
    assert IsActiveFor(row, u.id, now) <==> GetJwtTtl(config.ttlSetting) > 0;
  }

  lemma OpenedExisting(u: User, req: Request, now: int, randomBytes: seq<byte>, config: Config, sign: Signer,
                       before: seq<Session>, nextBefore: nat, capped: seq<Session>, k: int,
                       rows: seq<Session>, nextId: nat, r: Response)
    requires |randomBytes| == TOKEN_BYTE_LENGTH && config.secret != ""
    requires CapOutcome(DeleteWhere(before, ExpiredOfUser(u.id, now)), capped, u.id, MAX_ACTIVE_SESSIONS, now)
    requires var i := IssueJwtForUser(u, config.secret, config.ttlSetting, config.baseUrl, now, randomBytes, sign).value;
             && 0 <= k < |capped| && capped[k].userId == u.id && capped[k].token == i.jti
             && rows == capped && nextId == nextBefore && r == Success(LoginBody(i, u), None)
    ensures OpenedSession(u, req, now, randomBytes, config, sign, before, nextBefore, rows, nextId, r)
  {
    CappedFacts(u, now, before, capped);
  }

  /** A cap that only revokes the user's own live rows leaves every row
      of other users in place. */
  lemma CapKeepsOthers(rows: seq<Session>, capped: seq<Session>, userId: int, now: int)
    requires |capped| == |rows|
    requires forall i :: 0 <= i < |capped| ==>
               capped[i] == rows[i] || (IsActiveFor(rows[i], userId, now) && capped[i] == rows[i].(revokedAt := Some(now)))
    ensures forall s :: s in rows && s.userId != userId ==> s in capped
  {
    forall s | s in rows && s.userId != userId ensures s in capped {
      var k :| 0 <= k < |rows| && rows[k] == s;
      assert capped[k] == s;
    }
  }

  /** Marking a session used does not change which sessions are live. */
  lemma TouchKeepsActive(rows: seq<Session>, id: nat, userId: int, now: int)
    ensures ActiveIndices(Touched(rows, id, now), userId, now) == ActiveIndices(rows, userId, now)
  {
  }

  /** An admitted refresh of the user's own session, whose new token lives
      beyond `now` (a positive lifetime) and is new to the user, stores that
      token and keeps the user's number of live sessions; the old token is
      never found live again. */
  lemma RefreshedKeepsActiveCount(g: Gate, i: Issued, req: Request, now: int,
                                  before: seq<Session>, nextBefore: nat, rows: seq<Session>, nextId: nat)
    requires g.Admit? && WellFormedTable(before, nextBefore)
    requires ActiveLookup(before, g.jti, now) == Some(g.session) && g.session.userId == g.user.id
    requires i.expiresAt > now && i.jti != g.jti
    requires forall k :: 0 <= k < |before| ==> !(before[k].userId == g.user.id && before[k].token == i.jti)
    requires Refreshed(g, i, req, now, before, nextBefore, rows, nextId)
    ensures nextId == nextBefore + 1
    ensures ActiveCount(rows, g.user.id, now) == ActiveCount(before, g.user.id, now)
    ensures forall later :: ActiveLookup(rows, g.jti, later).None?
  {
    RefreshKeepsActiveCount(before, nextBefore, g.session, g.jti, IssuedSession(nextBefore, g.user.id, i, req, now), now);
  }

  /** A refresh of a session that belongs to the token's user, whose new
      token is stored live, leaves the user's number of live sessions
      unchanged, and the old token is never found live again. */
  lemma RefreshKeepsActiveCount(rows: seq<Session>, nextId: nat, s: Session, jti: string, newRow: Session, now: int)
    requires WellFormedTable(rows, nextId)
    requires ActiveLookup(rows, jti, now) == Some(s)
    requires newRow.userId == s.userId && IsActive(newRow, now) && newRow.token != jti
    ensures var after := SetRevoked(Touched(rows, s.id, now), UnrevokedWithToken(jti), now) + [newRow];
            && ActiveCount(after, s.userId, now) == ActiveCount(rows, s.userId, now)
            && forall later :: ActiveLookup(after, jti, later).None?
  {
    var touched := Touched(rows, s.id, now);
    var revoked := SetRevoked(touched, UnrevokedWithToken(jti), now);
    KeysKeptPreserveTable(rows, touched, nextId);
    TouchKeepsActive(rows, s.id, s.userId, now);
    var k :| 0 <= k < |rows| && rows[k] == s;
    assert IsActiveFor(touched[k], s.userId, now) && touched[k].token == jti;
    ActiveCountAfterRevokeToken(touched, nextId, jti, s.userId, now);
    ActiveCountAppend(revoked, newRow, s.userId, now);
    forall later ensures ActiveLookup(revoked + [newRow], jti, later).None? {
      RevocationIsFinal(touched, jti, now, later);
      var after := revoked + [newRow];
      assert forall i :: 0 <= i < |after| ==> !TokenMatches(after[i], jti, later) by {
        forall i | 0 <= i < |after| ensures !TokenMatches(after[i], jti, later) {
          if i < |revoked| {
            assert after[i] == revoked[i];
          }
        }
      }
    }
  }
}
