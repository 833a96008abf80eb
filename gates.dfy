/** The two route filters: `AuthFilter` lets a request through only with a
    bearer token that decodes, carries the required claims and names a live
    session; `NoAuthFilter` turns such a request away from the routes meant
    for anonymous callers (login) and lets every other one through. */
module Gates {
  import opened Values
  import opened Text
  import opened ApiResponse
  import opened AuthTokens
  import opened Jwt

  /** What `AuthFilter` attaches to the request for the controllers. */
  datatype AuthContext = AuthContext(userId: int, tenantId: int, branchId: Value, jti: string, claims: Claims)

  /** The result of a filter's `before`. */
  datatype FilterResult =
    | Continue(context: Option<AuthContext>)   // the request goes on
    | Halt(response: Response)                 // the filter answers instead
    | Fault                                    // an uncaught exception; the framework answers

  const MSG_TOKEN_REQUIRED := "Token Bearer requerido"
  const MSG_TOKEN_INVALID := "Token inválido o expirado"
  const MSG_CLAIMS_MISSING := "Token sin claims requeridos"
  const MSG_TOKEN_UNKNOWN := "Token no reconocido o revocado"
  const MSG_ALREADY_AUTHENTICATED := "Ya autenticado"

  /** `AuthFilter::unauthorized($message)`, built by hand in the filter; it
      is the same response the controllers' `unauthorized` gives. */
  function FilterUnauthorized(message: string): (r: Response)
    ensures r == Unauthorized(message)
    ensures r.code == UNAUTHORIZED && WellFormed(r)
  {
    Response(UNAUTHORIZED, Some(Payload("error", Null, Some(message), Some(EmptyObject))))
  }

  /** `NoAuthFilter::alreadyAuthenticated()`: a 409 in the same envelope. */
  function AlreadyAuthenticated(): (r: Response)
    ensures r == Error(MSG_ALREADY_AUTHENTICATED, CONFLICT, [])
    ensures r.code == CONFLICT && WellFormed(r)
  {
    Response(CONFLICT, Some(Payload("error", Null, Some(MSG_ALREADY_AUTHENTICATED), Some(EmptyObject))))
  }

  /** How far a request gets through the steps both filters share: the
      bearer token, its decoding, the required claims and the session lookup. */
  datatype Probe =
    | NoToken
    | BadToken
    | ClaimsThrow
    | NoClaims
    | Unknown(uid: int, jti: string, claims: Claims)
    | Live(uid: int, jti: string, claims: Claims, session: Session)

  function ProbeRequest(header: string, secret: string, verify: Verifier, rows: seq<Session>, now: int): (p: Probe)
    ensures p.Live? ==> p.uid > 0 && p.jti != "" && Some(p.session) == ActiveLookup(rows, p.jti, now)
    ensures p.Live? || p.Unknown? ==>
              && ExtractBearerToken(header).Some?
              && DecodeJwt(secret, ExtractBearerToken(header).value, verify, now) == Some(p.claims)
              && RequiredClaims(p.claims) == Required(p.uid, p.jti)
    ensures p.Unknown? ==> ActiveLookup(rows, p.jti, now).None?
    ensures p.NoToken? <==> ExtractBearerToken(header).None?
    // Conversely, each outcome of the checks decides the probe.
    ensures ExtractBearerToken(header).Some? ==>
              var d := DecodeJwt(secret, ExtractBearerToken(header).value, verify, now);
              && (d.None? <==> p.BadToken?)
              && (d.Some? && RequiredClaims(d.value).Throws? ==> p == ClaimsThrow)
              && (d.Some? && RequiredClaims(d.value).Missing? ==> p == NoClaims)
              && (d.Some? && RequiredClaims(d.value).Required? ==>
                    var rc := RequiredClaims(d.value);
                    var found := ActiveLookup(rows, rc.jti, now);
                    && (found.None? ==> p == Unknown(rc.uid, rc.jti, d.value))
                    && (found.Some? ==> p == Live(rc.uid, rc.jti, d.value, found.value)))
  {
    match ExtractBearerToken(header)
    case None => NoToken
    case Some(jwt) =>
      match DecodeJwt(secret, jwt, verify, now)
      case None => BadToken
      case Some(c) =>
        match RequiredClaims(c)
        case Throws => ClaimsThrow
        case Missing => NoClaims
        case Required(uid, jti) =>
          match ActiveLookup(rows, jti, now)
          case None => Unknown(uid, jti, c)
          case Some(s) => Live(uid, jti, c, s)
  }

  /** `AuthFilter::before` once the shared steps are done: a live session
      goes on with the identity context (`tid` defaults to 0 and `bid` to
      null), every other outcome is a 401 unless a cast throws. */
  function AuthDecision(p: Probe): (r: FilterResult)
    ensures r.Continue? <==> p.Live? && IntCast(Field(p.claims, "tid")).Some?
    ensures r.Continue? ==>
              r.context == Some(AuthContext(p.uid, IntCast(Field(p.claims, "tid")).value, Field(p.claims, "bid"), p.jti, p.claims))
    ensures r.Fault? <==> p.ClaimsThrow? || (p.Live? && IntCast(Field(p.claims, "tid")).None?)
    ensures r.Halt? ==> r.response.code == UNAUTHORIZED && WellFormed(r.response)
    ensures p.NoToken? ==> r == Halt(Unauthorized(MSG_TOKEN_REQUIRED))
    ensures p.BadToken? ==> r == Halt(Unauthorized(MSG_TOKEN_INVALID))
    ensures p.NoClaims? ==> r == Halt(Unauthorized(MSG_CLAIMS_MISSING))
    ensures p.Unknown? ==> r == Halt(Unauthorized(MSG_TOKEN_UNKNOWN))
  {
    match p
    case NoToken => Halt(FilterUnauthorized(MSG_TOKEN_REQUIRED))
    case BadToken => Halt(FilterUnauthorized(MSG_TOKEN_INVALID))
    case ClaimsThrow => Fault
    case NoClaims => Halt(FilterUnauthorized(MSG_CLAIMS_MISSING))
    case Unknown(_, _, _) => Halt(FilterUnauthorized(MSG_TOKEN_UNKNOWN))
    case Live(uid, jti, c, _) =>
      match IntCast(Field(c, "tid"))
      case None => Fault
      case Some(tid) => Continue(Some(AuthContext(uid, tid, Field(c, "bid"), jti, c)))
  }

  /** `NoAuthFilter::before` once the shared steps are done: only a live
      session is turned away, with 409. */
  function NoAuthDecision(p: Probe): (r: FilterResult)
    ensures r.Halt? <==> p.Live?
    ensures r.Halt? ==> r.response == AlreadyAuthenticated()
    ensures r.Fault? <==> p.ClaimsThrow?
    ensures r.Continue? <==> !p.Live? && !p.ClaimsThrow?
    ensures r.Continue? ==> r.context.None?
  {
    match p
    case ClaimsThrow => Fault
    case Live(_, _, _, _) => Halt(AlreadyAuthenticated())
    case _ => Continue(None)
  }

  /** The steps both filters take in `before`: read the bearer token, decode
      it, check the required claims and look the `jti` up with
      `findValidByJti`, which touches a live session. */
  method CheckBearer(store: AuthTokenStore, header: string, secret: string, verify: Verifier, now: int)
    returns (p: Probe)
    requires store.Valid()
    modifies store
    ensures store.Valid() && store.nextId == old(store.nextId)
    ensures p == ProbeRequest(header, secret, verify, old(store.rows), now)
    ensures store.rows == if p.Live? then Touched(old(store.rows), p.session.id, now) else old(store.rows)
  {
    var token := ExtractBearerToken(header);
    if token.None? {
      return NoToken;
    }
    var claims := DecodeJwt(secret, token.value, verify, now);
    if claims.None? {
      return BadToken;
    }
    var check := RequiredClaims(claims.value);
    if check.Throws? {
      return ClaimsThrow;
    }
    if check.Missing? {
      return NoClaims;
    }
    var record := store.FindValidByJti(check.jti, now);
    if record.None? {
      return Unknown(check.uid, check.jti, claims.value);
    }
    p := Live(check.uid, check.jti, claims.value, record.value);
  }

  /** `AuthFilter::before($request)`: looks the token's `jti` up, touching a
      live session, and either lets the request on with its context or
      answers 401. */
  method AuthFilterBefore(store: AuthTokenStore, header: string, secret: string, verify: Verifier, now: int)
    returns (r: FilterResult)
    requires store.Valid()
    modifies store
    ensures store.Valid() && store.nextId == old(store.nextId)
    ensures r == AuthDecision(ProbeRequest(header, secret, verify, old(store.rows), now))
    ensures var p := ProbeRequest(header, secret, verify, old(store.rows), now);
            store.rows == if p.Live? then Touched(old(store.rows), p.session.id, now) else old(store.rows)
  {
    var p := CheckBearer(store, header, secret, verify, now);
    match p {
      case NoToken => r := Halt(FilterUnauthorized(MSG_TOKEN_REQUIRED));
      case BadToken => r := Halt(FilterUnauthorized(MSG_TOKEN_INVALID));
      case ClaimsThrow => r := Fault;
      case NoClaims => r := Halt(FilterUnauthorized(MSG_CLAIMS_MISSING));
      case Unknown(_, _, _) => r := Halt(FilterUnauthorized(MSG_TOKEN_UNKNOWN));
      case Live(uid, jti, claims, _) =>
        var tid := IntCast(Field(claims, "tid"));
        if tid.None? {
          r := Fault;
        } else {
          r := Continue(Some(AuthContext(uid, tid.value, Field(claims, "bid"), jti, claims)));
        }
    }
  }

  /** `NoAuthFilter::before($request)`: lets every request through except
      one carrying a live session, which it answers with 409. */
  method NoAuthFilterBefore(store: AuthTokenStore, header: string, secret: string, verify: Verifier, now: int)
    returns (r: FilterResult)
    requires store.Valid()
    modifies store
    ensures store.Valid() && store.nextId == old(store.nextId)
    ensures r == NoAuthDecision(ProbeRequest(header, secret, verify, old(store.rows), now))
    ensures var p := ProbeRequest(header, secret, verify, old(store.rows), now);
            store.rows == if p.Live? then Touched(old(store.rows), p.session.id, now) else old(store.rows)
  {
    var p := CheckBearer(store, header, secret, verify, now);
    if p.ClaimsThrow? {
      r := Fault;
    } else if p.Live? {
      r := Halt(AlreadyAuthenticated());
    } else {
      r := Continue(None);
    }
  }

  // ---------------------------------------------------------------------
  // Properties of the filters
  // ---------------------------------------------------------------------

  /** A request `AuthFilter` lets through carries a bearer token that decodes
      now under the secret, a positive user id and a `jti` naming a session
      that is neither revoked nor expired, and its context holds the token's
      user, tenant (0 when absent) and branch (null when absent); every
      refusal is a well-formed 401. */
  lemma AuthFilterSoundness(header: string, secret: string, verify: Verifier, rows: seq<Session>, now: int)
    ensures var r := AuthDecision(ProbeRequest(header, secret, verify, rows, now));
            && (r.Continue? ==>
                  && r.context.Some?
                  && r.context.value.userId > 0
                  && r.context.value.jti != ""
                  && secret != ""
                  && ExtractBearerToken(header).Some?
                  && DecodeJwt(secret, ExtractBearerToken(header).value, verify, now) == Some(r.context.value.claims)
                  && ActiveLookup(rows, r.context.value.jti, now).Some?
                  && var claims := r.context.value.claims;
                     && RequiredClaims(claims) == Required(r.context.value.userId, r.context.value.jti)
                     && IntCast(Field(claims, "tid")) == Some(r.context.value.tenantId)
                     && r.context.value.branchId == Field(claims, "bid"))
            && (r.Halt? ==> r.response.code == UNAUTHORIZED && WellFormed(r.response))
  {
  }

  /** Conversely, a request whose token is read, decodes now to claims with
      a positive `uid`, a non-empty `jti` naming a live session and a `tid`
      that casts, is let through by `AuthFilter` with exactly that identity
      context, and is turned away from the anonymous routes with 409. */
  lemma AuthFilterCompleteness(header: string, secret: string, verify: Verifier, rows: seq<Session>, now: int,
                               c: Claims, uid: int, jti: string, s: Session)
    requires ExtractBearerToken(header).Some?
    requires DecodeJwt(secret, ExtractBearerToken(header).value, verify, now) == Some(c)
    requires RequiredClaims(c) == Required(uid, jti)
    requires ActiveLookup(rows, jti, now) == Some(s)
    requires IntCast(Field(c, "tid")).Some?
    ensures AuthDecision(ProbeRequest(header, secret, verify, rows, now)) ==
              Continue(Some(AuthContext(uid, IntCast(Field(c, "tid")).value, Field(c, "bid"), jti, c)))
    ensures NoAuthDecision(ProbeRequest(header, secret, verify, rows, now)) == Halt(AlreadyAuthenticated())
  {
  }

  /** The two filters split requests between them: `NoAuthFilter` lets a
      request through exactly when `AuthFilter` refuses it, and blocks every
      request `AuthFilter` admits. */
  lemma {:induction false} GatesComplementary(header: string, secret: string, verify: Verifier, rows: seq<Session>, now: int)
    ensures var p := ProbeRequest(header, secret, verify, rows, now);
            && (NoAuthDecision(p).Continue? <==> AuthDecision(p).Halt?)
            && (AuthDecision(p).Continue? ==> NoAuthDecision(p) == Halt(AlreadyAuthenticated()))
            && (NoAuthDecision(p).Fault? ==> AuthDecision(p).Fault?)
  {
  }

  /** A revoked token is refused by `AuthFilter` and no longer blocks the
      anonymous routes, at any later time. */
  lemma RevokedTokenRefused(header: string, secret: string, verify: Verifier, rows: seq<Session>, jti: string, t: int, later: int)
    ensures var p := ProbeRequest(header, secret, verify, SetRevoked(rows, UnrevokedWithToken(jti), t), later);
            p.Unknown? || p.Live? ==> p.jti != jti || p.Unknown?
    ensures var p := ProbeRequest(header, secret, verify, SetRevoked(rows, UnrevokedWithToken(jti), t), later);
            (p.Unknown? || p.Live?) && p.jti == jti ==>
              AuthDecision(p) == Halt(FilterUnauthorized(MSG_TOKEN_UNKNOWN)) && NoAuthDecision(p) == Continue(None)
  {
    RevocationIsFinal(rows, jti, t, later);
  }

  /** A session that reached its expiry no longer admits its token. */
  lemma ExpiredSessionRefused(header: string, secret: string, verify: Verifier, rows: seq<Session>, now: int)
    requires forall i :: 0 <= i < |rows| ==> rows[i].expiresAt <= now
    ensures !AuthDecision(ProbeRequest(header, secret, verify, rows, now)).Continue?
  {
  }

  /** Without a secret nothing decodes: `AuthFilter` refuses every request
      and `NoAuthFilter` lets every request through. */
  lemma EmptySecretGates(header: string, verify: Verifier, rows: seq<Session>, now: int)
    ensures AuthDecision(ProbeRequest(header, "", verify, rows, now)).Halt?
    ensures NoAuthDecision(ProbeRequest(header, "", verify, rows, now)) == Continue(None)
  {
  }
}
