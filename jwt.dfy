/** Access tokens: reading the bearer token from the Authorization header
    (two ways, one in the filters and one in the controller), decoding a
    token under the shared secret, the claims every request needs, and
    issuing a token for a user. HS256 signing and signature checking belong
    to the JWT library and are the parameters `sign` and `verify`; the
    library's time checks are modelled here. */
module Jwt {
  import opened Values
  import opened Text
  import opened Users

  /** A decoded claim set, as `(array) JWT::decode(...)` gives it. */
  type Claims = map<string, Value>

  /** The library's signature check and JSON decoding of a compact token
      under a key: None when the token is malformed or the signature does
      not match. */
  type Verifier = (string, string) -> Option<Claims>

  /** The library's HS256 encoding of a claim set under a key. */
  type Signer = (Claims, string) -> string

  /** Default token lifetime: seven days, in seconds. */
  const DEFAULT_TTL := 7 * 24 * 60 * 60
  /** Random bytes behind one `jti`. */
  const TOKEN_BYTE_LENGTH := 16

  // ---------------------------------------------------------------------
  // The bearer token
  // ---------------------------------------------------------------------

  /** The filters' `extractBearerToken`: the header must start with
      "Bearer " in any letter case; what follows, trimmed, is the token,
      unless it is empty. */
  function ExtractBearerToken(header: string): (r: Option<string>)
    ensures r.Some? <==> |header| >= 7 && Lower(header[..7]) == "bearer " && Trim(header[7..]) != ""
    ensures r.Some? ==> r.value == Trim(header[7..]) && r.value != ""
  {
    if header == "" || |header| < 7 || Lower(header[..7]) != "bearer " then None
    else
      var token := Trim(header[7..]);
      if token != "" then Some(token) else None
  }

  predicate IsNotRegexSpace(c: char) {
    !IsRegexSpace(c)
  }

  /** `/Bearer\s+(\S+)/i` matches at position `p`: "bearer" in any case,
      one or more `\s`, then something that is not `\s`. */
  predicate MatchesAt(h: string, p: nat) {
    && p + 6 <= |h|
    && Lower(h[p..p + 6]) == "bearer"
    && var k := Span(h[p + 6..], IsRegexSpace);
       k >= 1 && p + 6 + k < |h|
  }

  /** The leftmost position at or after `p` where the pattern matches. */
  function FirstMatch(h: string, p: nat): (r: Option<nat>)
    requires p <= |h|
    ensures r.Some? ==> p <= r.value <= |h| && MatchesAt(h, r.value)
    ensures r.Some? ==> forall q :: p <= q < r.value ==> !MatchesAt(h, q)
    ensures r.None? ==> forall q :: p <= q <= |h| ==> !MatchesAt(h, q)
    decreases |h| - p
  {
    if MatchesAt(h, p) then Some(p)
    else if p == |h| then None
    else FirstMatch(h, p + 1)
  }

  /** Group 1 of a match at `p`: the longest run of non-`\s` after the spaces. */
  function Capture(h: string, p: nat): (r: string)
    requires MatchesAt(h, p)
    ensures r != [] && forall i :: 0 <= i < |r| ==> !IsRegexSpace(r[i])
    ensures var start := p + 6 + Span(h[p + 6..], IsRegexSpace);
            && start + |r| <= |h| && r == h[start..start + |r|]
            && (start + |r| == |h| || IsRegexSpace(h[start + |r|]))
  {
    var start := p + 6 + Span(h[p + 6..], IsRegexSpace);
    h[start..start + Span(h[start..], IsNotRegexSpace)]
  }

  /** The controller's `getBearerToken`: group 1 of the leftmost match of
      `/Bearer\s+(\S+)/i` anywhere in the header. */
  function GetBearerToken(header: string): (r: Option<string>)
    ensures r.Some? ==> r.value != [] && forall i :: 0 <= i < |r.value| ==> !IsRegexSpace(r.value[i])
    ensures r.None? <==> forall q :: 0 <= q <= |header| ==> !MatchesAt(header, q)
    ensures r.Some? ==> FirstMatch(header, 0).Some? && r.value == Capture(header, FirstMatch(header, 0).value)
  {
    if header == "" then None
    else match FirstMatch(header, 0)
      case None => None
      case Some(p) => Some(Capture(header, p))
  }

  /** On a well-formed header, "Bearer " followed by a token without
      whitespace or NUL, the filters and the controller read the same token. */
  lemma ExtractorsAgree(token: string)
    requires token != []
    requires forall i :: 0 <= i < |token| ==> !IsRegexSpace(token[i]) && !IsTrimChar(token[i])
    ensures ExtractBearerToken("Bearer " + token) == Some(token)
    ensures GetBearerToken("Bearer " + token) == Some(token)
  {
    FilterReadsBearer(token);
    ControllerReadsBearer(token);
  }

  lemma FilterReadsBearer(token: string)
    requires token != []
    requires forall i :: 0 <= i < |token| ==> !IsTrimChar(token[i])
    ensures ExtractBearerToken("Bearer " + token) == Some(token)
  {
    var h := "Bearer " + token;
    assert h[..7] == "Bearer ";
    assert Lower("Bearer ") == "bearer ";
    assert h[7..] == token;
    TrimOfPadded([], token, []);
    assert [] + token + [] == token;
  }

  lemma ControllerReadsBearer(token: string)
    requires token != []
    requires forall i :: 0 <= i < |token| ==> !IsRegexSpace(token[i])
    ensures GetBearerToken("Bearer " + token) == Some(token)
  {
    var h := "Bearer " + token;
    assert h[0..6] == "Bearer";
    assert Lower("Bearer") == "bearer";
    assert h[6..] == [' '] + token;
    SpanOfPrefix(h[6..], [' '], IsRegexSpace);
    assert MatchesAt(h, 0);
    assert h[7..] == token;
    assert h[7..][..|token|] == token;
    SpanOfPrefix(h[7..], token, IsNotRegexSpace);
    assert h[7..7 + |token|] == token;
    assert Capture(h, 0) == token;
    assert FirstMatch(h, 0) == Some(0);
  }

  /** No match where the first two letters cannot begin "bearer", so the
      search moves on. */
  lemma NoMatchAt(h: string, q: nat)
    requires q + 1 < |h| && (LowerChar(h[q]) != 'b' || LowerChar(h[q + 1]) != 'e')
    ensures !MatchesAt(h, q)
    ensures FirstMatch(h, q) == FirstMatch(h, q + 1)
  {
    if q + 6 <= |h| {
      var w := Lower(h[q..q + 6]);
      assert w[0] == LowerChar(h[q]) && w[1] == LowerChar(h[q + 1]);
    }
  }

  /** The two readers differ on other headers: the controller finds a
      token after a scheme that is not Bearer, which the filters refuse. */
  lemma ExtractorsDiffer()
    ensures ExtractBearerToken("Basic Bearer x").None?
    ensures GetBearerToken("Basic Bearer x") == Some("x")
  {
    var h := "Basic Bearer x";
    FilterRefusesScheme(h);
    SearchSkipsScheme(h);
    MatchAfterScheme(h);
  }

  /** The filters want "bearer " in the first seven characters. */
  lemma FilterRefusesScheme(h: string)
    requires h == "Basic Bearer x"
    ensures ExtractBearerToken(h).None?
  {
    var w := Lower(h[..7]);
    assert w[1] == LowerChar(h[1]) && h[1] == 'a';
    assert w[1] != "bearer "[1];
  }

  /** Nothing in "Basic " starts a match. */
  lemma SearchSkipsScheme(h: string)
    requires h == "Basic Bearer x"
    ensures FirstMatch(h, 0) == FirstMatch(h, 6)
  {
    NoMatchAt(h, 0);
    NoMatchAt(h, 1);
    NoMatchAt(h, 2);
    NoMatchAt(h, 3);
    NoMatchAt(h, 4);
    NoMatchAt(h, 5);
  }

  /** The match after "Basic " captures the token. */
  lemma MatchAfterScheme(h: string)
    requires h == "Basic Bearer x"
    ensures FirstMatch(h, 6) == Some(6) && Capture(h, 6) == "x"
  {
    assert h[6..12] == "Bearer";
    assert h[12..] == " x";
    SpanOfPrefix(h[12..], " ", IsRegexSpace);
    assert MatchesAt(h, 6);
    assert h[13..] == "x";
    SpanOfPrefix(h[13..], "x", IsNotRegexSpace);
  }

  // ---------------------------------------------------------------------
  // Decoding
  // ---------------------------------------------------------------------

  /** The library rejects a token whose integer `exp` is not after `now`. */
  predicate IsExpired(c: Claims, now: int) {
    Field(c, "exp").Int? && now >= Field(c, "exp").i
  }

  /** The library rejects a token whose integer `nbf` is after `now`, or,
      when `nbf` is not set (`isset` is false for an absent or null claim),
      whose integer `iat` is after `now`. */
  predicate IsPremature(c: Claims, now: int) {
    || (Field(c, "nbf").Int? && Field(c, "nbf").i > now)
    || (Field(c, "nbf") == Null && Field(c, "iat").Int? && Field(c, "iat").i > now)
  }

  /** `decodeJwt($jwt)`: None without a secret, for a bad signature, and for
      an expired or premature token; otherwise the claim set. */
  function DecodeJwt(secret: string, token: string, verify: Verifier, now: int): (r: Option<Claims>)
    ensures secret == "" ==> r.None?
    ensures r.Some? ==> verify(token, secret) == r && !IsExpired(r.value, now) && !IsPremature(r.value, now)
    ensures r.None? && secret != "" && verify(token, secret).Some? ==>
              IsExpired(verify(token, secret).value, now) || IsPremature(verify(token, secret).value, now)
  {
    if secret == "" then None
    else match verify(token, secret)
      case None => None
      case Some(c) => if IsExpired(c, now) || IsPremature(c, now) then None else Some(c)
  }

  /** Once a token has expired it never decodes again, however late. */
  lemma ExpiryIsFinal(secret: string, token: string, verify: Verifier, now: int, later: int)
    requires DecodeJwt(secret, token, verify, now).None?
    requires verify(token, secret).Some? && IsExpired(verify(token, secret).value, now)
    requires later >= now
    ensures DecodeJwt(secret, token, verify, later).None?
  {
  }

  /** The claims both filters and the controller insist on. */
  datatype ClaimCheck =
    | Required(uid: int, jti: string)   // uid > 0 and a non-empty jti
    | Missing                           // either is absent, zero or empty
    | Throws                            // a cast of one of them throws

  /** `(int) ($claims['uid'] ?? 0)` must be positive and
      `(string) ($claims['jti'] ?? '')` non-empty. */
  function RequiredClaims(c: Claims): (r: ClaimCheck)
    ensures r.Required? ==> r.uid > 0 && r.jti != ""
    ensures r.Required? ==> IntCast(Field(c, "uid")) == Some(r.uid) && StringCast(Field(c, "jti")) == Some(r.jti)
    ensures r.Throws? <==> IntCast(Field(c, "uid")).None? || StringCast(Field(c, "jti")).None?
    ensures r.Missing? ==> IntCast(Field(c, "uid")).Some? && StringCast(Field(c, "jti")).Some?
    ensures r.Missing? ==> IntCast(Field(c, "uid")).value <= 0 || StringCast(Field(c, "jti")).value == ""
  {
    match IntCast(Field(c, "uid"))
    case None => Throws
    case Some(uid) =>
      match StringCast(Field(c, "jti"))
      case None => Throws
      case Some(jti) => if uid <= 0 || jti == "" then Missing else Required(uid, jti)
  }

  // ---------------------------------------------------------------------
  // Issuing
  // ---------------------------------------------------------------------

  /** `getJwtTtl()`: the configured lifetime, or seven days when the
      setting is absent, empty or "0". */
  function GetJwtTtl(setting: Option<string>): (ttl: int)
    ensures setting.None? || setting == Some("") || setting == Some("0") ==> ttl == DEFAULT_TTL
    ensures setting.Some? && TruthyString(setting.value) ==> ttl == IntOfString(setting.value)
    ensures PHP_INT_MIN <= ttl <= PHP_INT_MAX
  {
    match setting
    case None => DEFAULT_TTL
    case Some(s) => if TruthyString(s) then IntOfString(s) else DEFAULT_TTL
  }

  /** A lifetime written as a decimal number is honoured, except 0, which
      falls back to seven days, and a number beyond the 64-bit range, which
      reads as the nearest end of it. */
  lemma ConfiguredTtl(n: int)
    ensures GetJwtTtl(Some(DecimalString(n))) == if n == 0 then DEFAULT_TTL else Saturate(n)
  {
    IntOfDecimalString(n);
    if n == 0 {
      assert DecimalString(0) == "0";
    } else if n > 0 {
      assert DecimalString(n) != "0" by { DigitsValueOfNatString(n); }
    }
  }

  /** `generateSecureToken()`: 16 random bytes as 32 lower-case hex digits. */
  function GenerateSecureToken(randomBytes: seq<byte>): (jti: string)
    requires |randomBytes| == TOKEN_BYTE_LENGTH
    ensures |jti| == 2 * TOKEN_BYTE_LENGTH
    ensures forall i :: 0 <= i < |jti| ==> IsLowerHex(jti[i])
  {
    Bin2Hex(randomBytes)
  }

  /** Distinct random bytes give distinct `jti`s. */
  lemma SecureTokenInjective(a: seq<byte>, b: seq<byte>)
    requires |a| == TOKEN_BYTE_LENGTH && |b| == TOKEN_BYTE_LENGTH
    ensures GenerateSecureToken(a) == GenerateSecureToken(b) ==> a == b
  {
    Hex2BinOfBin2Hex(a);
    Hex2BinOfBin2Hex(b);
  }

  /** A freshly issued token and what it carries. */
  datatype Issued = Issued(jwt: string, jti: string, expiresAt: int, claims: Claims)

  /** The claim set `issueJwtForUser` signs. */
  function UserClaims(u: User, baseUrl: string, now: int, exp: int, jti: string): Claims {
    map[
      "iss" := Str(baseUrl),
      "iat" := Int(now),
      "nbf" := Int(now),
      "exp" := Int(exp),
      "jti" := Str(jti),
      "sub" := Str(DecimalString(u.id)),
      "uid" := Int(u.id),
      "tid" := Int(u.tenantId),
      "bid" := match u.defaultBranchId case None => Null case Some(b) => Int(b)
    ]
  }

  /** `issueJwtForUser($user)`: throws (None) without a secret; otherwise a
      token valid from `now` for the configured lifetime, naming the user,
      the tenant and the default branch, under a fresh `jti`. */
  function IssueJwtForUser(u: User, secret: string, ttlSetting: Option<string>, baseUrl: string, now: int,
                           randomBytes: seq<byte>, sign: Signer): (r: Option<Issued>)
    requires |randomBytes| == TOKEN_BYTE_LENGTH
    ensures r.None? <==> secret == ""
    ensures r.Some? ==>
              && r.value.jti == GenerateSecureToken(randomBytes)
              && r.value.expiresAt == now + GetJwtTtl(ttlSetting)
              && r.value.claims == UserClaims(u, baseUrl, now, r.value.expiresAt, r.value.jti)
              && r.value.jwt == sign(r.value.claims, secret)
  {
    if secret == "" then None
    else
      var exp := now + GetJwtTtl(ttlSetting);
      var jti := GenerateSecureToken(randomBytes);
      var claims := UserClaims(u, baseUrl, now, exp, jti);
      Some(Issued(sign(claims, secret), jti, exp, claims))
  }

  /** An issued token, read back by a library whose check accepts what it
      signed, decodes to its own claims throughout its lifetime and passes
      the required-claims check with the user's id and the `jti`; the
      subject, read as an integer, is the user's id. */
  lemma IssuedTokenDecodes(u: User, secret: string, ttlSetting: Option<string>, baseUrl: string, now: int,
                           randomBytes: seq<byte>, sign: Signer, verify: Verifier, t: int)
    requires |randomBytes| == TOKEN_BYTE_LENGTH
    requires secret != ""
    requires var i := IssueJwtForUser(u, secret, ttlSetting, baseUrl, now, randomBytes, sign).value;
             verify(i.jwt, secret) == Some(i.claims)
    requires now <= t < now + GetJwtTtl(ttlSetting)
    ensures var i := IssueJwtForUser(u, secret, ttlSetting, baseUrl, now, randomBytes, sign).value;
            && DecodeJwt(secret, i.jwt, verify, t) == Some(i.claims)
            && (u.id > 0 ==> RequiredClaims(i.claims) == Required(u.id, i.jti))
            && IntOfString(i.claims["sub"].s) == Saturate(u.id)
  {
    var i := IssueJwtForUser(u, secret, ttlSetting, baseUrl, now, randomBytes, sign).value;
    UserClaimsMeaning(u, baseUrl, now, i.expiresAt, i.jti);
  }

  /** What the filters and the controller read back from the claim set
      `issueJwtForUser` signs: it is valid from `now` until `exp`, passes
      the required-claims check with the user's id and the `jti`, names the
      user's tenant and default branch, and its subject reads as the id. */
  lemma UserClaimsMeaning(u: User, baseUrl: string, now: int, exp: int, jti: string)
    ensures var c := UserClaims(u, baseUrl, now, exp, jti);
            && (forall t :: IsPremature(c, t) <==> t < now)
            && (forall t :: IsExpired(c, t) <==> t >= exp)
            && (u.id > 0 && jti != "" ==> RequiredClaims(c) == Required(u.id, jti))
            && IntCast(Field(c, "tid")) == Some(u.tenantId)
            && Field(c, "bid") == (if u.defaultBranchId.Some? then Int(u.defaultBranchId.value) else Null)
            && "sub" in c && c["sub"].Str? && IntOfString(c["sub"].s) == Saturate(u.id)
  {
    var c := UserClaims(u, baseUrl, now, exp, jti);
    assert "exp" in c && c["exp"] == Int(exp) && "nbf" in c && c["nbf"] == Int(now);
    assert Field(c, "uid") == Int(u.id) && Field(c, "jti") == Str(jti);
    assert "sub" in c && c["sub"] == Str(DecimalString(u.id));
    IntOfDecimalString(u.id);
  }
}
