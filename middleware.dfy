/** The two bearer-token guards in front of the HTTP handlers
    (internal/interfaces/http/middleware/jwt.go and role.go). Each one either
    writes a JSON error response and stops, or stores the token's claims in the
    request context and calls the next handler exactly once.

    Token verification is the library's: it is the parameter `verify`, which
    maps a token string to its claims or to `None` when the token is rejected.
    The request context is `Context`; a call of the next handler is counted in
    `nextCalls`. */
module Middleware {
  import opened Wrappers
  import opened Text

  /** `auth.Claims` without the registered (expiry) claims. */
  datatype Claims = Claims(UserID: int, Email: string, Role: string)

  /** What a guard stores in the context. */
  datatype ContextValue = ClaimsValue(claims: Claims) | UserIDValue(id: int)

  const StatusUnauthorized: int := 401
  const StatusForbidden: int := 403

  const BearerPrefix: string := "Bearer "

  const MsgMissingHeader: string := "missing authorization header"
  const MsgInvalidHeader: string := "invalid authorization header"
  const MsgInvalidOrMissingHeader: string := "invalid or missing authorization header"
  const MsgInvalidToken: string := "invalid or expired token"
  const MsgForbidden: string := "forbidden: insufficient role"

  /** The outcome of a guard: an error response, or the request passed on
      with the verified claims. */
  datatype Decision = Reject(status: int, message: string) | Accept(claims: Claims)

  /** The token `JWTMiddleware` verifies: the second of exactly two
      space-separated fields, the first being `Bearer`. */
  function BearerToken(header: string): (tok: Option<string>)
  {
    var parts := Split(header, ' ');
    if |parts| != 2 || parts[0] != "Bearer" then None else Some(parts[1])
  }

  /** The checks of `JWTMiddleware` (jwt.go:15-28), in order. */
  function JwtDecision(header: string, verify: string -> Option<Claims>): (d: Decision)
    ensures header == "" ==> d == Reject(StatusUnauthorized, MsgMissingHeader)
    ensures d.Reject? ==> d.status == StatusUnauthorized
  {
    if header == "" then Reject(StatusUnauthorized, MsgMissingHeader)
    else match BearerToken(header)
      case None => Reject(StatusUnauthorized, MsgInvalidHeader)
      case Some(tok) =>
        match verify(tok)
        case None => Reject(StatusUnauthorized, MsgInvalidToken)
        case Some(claims) => Accept(claims)
  }

  predicate HasBearerPrefix(header: string) {
    |header| >= |BearerPrefix| && header[..|BearerPrefix|] == BearerPrefix
  }

  /** The checks of `RequireRole` (role.go:15-33), in order: a request gets
      through exactly when the header starts with `Bearer `, the rest
      verifies, and the claimed role is one of the allowed roles; a verified
      token with another role is refused with 403. */
  function RoleDecision(header: string, verify: string -> Option<Claims>, allowedRoles: seq<string>): (d: Decision)
    ensures !HasBearerPrefix(header) ==> d == Reject(StatusUnauthorized, MsgInvalidOrMissingHeader)
    ensures HasBearerPrefix(header) && verify(header[|BearerPrefix|..]).None? ==> d == Reject(StatusUnauthorized, MsgInvalidToken)
    ensures d.Accept? <==>
      HasBearerPrefix(header) && verify(header[|BearerPrefix|..]).Some? && verify(header[|BearerPrefix|..]).value.Role in allowedRoles
    ensures d.Accept? ==> d.claims == verify(header[|BearerPrefix|..]).value
    ensures d == Reject(StatusForbidden, MsgForbidden) <==>
      HasBearerPrefix(header) && verify(header[|BearerPrefix|..]).Some? && verify(header[|BearerPrefix|..]).value.Role !in allowedRoles
  {
    if !HasBearerPrefix(header) then Reject(StatusUnauthorized, MsgInvalidOrMissingHeader)
    else match verify(header[|BearerPrefix|..])
      case None => Reject(StatusUnauthorized, MsgInvalidToken)
      case Some(claims) =>
        if claims.Role in allowedRoles then Accept(claims) else Reject(StatusForbidden, MsgForbidden)
  }

  /** A header passes the split check exactly when it is `Bearer `, then a
      token without spaces; that token is what gets verified. */
  lemma BearerTokenExact(header: string)
    ensures BearerToken(header).Some? <==> HasBearerPrefix(header) && ' ' !in header[|BearerPrefix|..]
    ensures BearerToken(header).Some? ==> BearerToken(header).value == header[|BearerPrefix|..]
  {
    var parts := Split(header, ' ');
    if |parts| == 2 && parts[0] == "Bearer" {
      JoinOfSplit(header, ' ');
      assert parts[1..] == [parts[1]];
      assert header == "Bearer" + " " + parts[1];
      assert header[..|BearerPrefix|] == BearerPrefix;
      assert header[|BearerPrefix|..] == parts[1];
    }
    if HasBearerPrefix(header) && ' ' !in header[|BearerPrefix|..] {
      var rest := header[|BearerPrefix|..];
      assert header == "Bearer" + [' '] + rest by {
        assert header == header[..|BearerPrefix|] + rest;
      }
      SplitAfterField("Bearer", rest, ' ');
      SplitWithoutSep(rest, ' ');
    }
  }

  /** `JWTMiddleware` lets a request through exactly when its header is
      `Bearer <token>` with a space-free token that verifies, and then with
      that token's claims. */
  lemma JwtAcceptsExactly(header: string, verify: string -> Option<Claims>)
    ensures JwtDecision(header, verify).Accept? <==>
      HasBearerPrefix(header) && ' ' !in header[|BearerPrefix|..] && verify(header[|BearerPrefix|..]).Some?
    ensures JwtDecision(header, verify).Accept? ==> JwtDecision(header, verify).claims == verify(header[|BearerPrefix|..]).value
  {
    BearerTokenExact(header);
  }

  /** A header `JWTMiddleware` accepts reaches `RequireRole`'s role check
      with the same claims. */
  lemma GuardsAgreeOnWellFormedHeaders(header: string, verify: string -> Option<Claims>, allowedRoles: seq<string>)
    ensures JwtDecision(header, verify).Accept? ==>
      RoleDecision(header, verify, allowedRoles) ==
        if JwtDecision(header, verify).claims.Role in allowedRoles then JwtDecision(header, verify)
        else Reject(StatusForbidden, MsgForbidden)
  {
    JwtAcceptsExactly(header, verify);
  }

  /** The converse fails: `RequireRole` verifies a token containing a
      space, which `JWTMiddleware` refuses as a malformed header. */
  lemma SpacedTokenSplitsGuards(verify: string -> Option<Claims>, allowedRoles: seq<string>)
    requires verify("a b").Some?
    ensures JwtDecision("Bearer a b", verify) == Reject(StatusUnauthorized, MsgInvalidHeader)
    ensures RoleDecision("Bearer a b", verify, allowedRoles).Accept? <==> verify("a b").value.Role in allowedRoles
  {
    var tok := "a b";
    var h := BearerPrefix + tok;
    assert h == "Bearer a b";
    assert h[..|BearerPrefix|] == BearerPrefix && h[|BearerPrefix|..] == tok;
    assert tok[1] == ' ';
    BearerTokenExact(h);
  }

  /** The Echo request context as the guards see it. */
  class Context {
    /** What `c.Set` stored, by key. */
    var values: map<string, ContextValue>
    /** The status of the JSON response written, 0 while none is. */
    var status: int
    /** The `message` field of that response. */
    var message: string
    /** How many times the next handler ran. */
    var nextCalls: nat

    constructor ()
      ensures values == map[] && status == 0 && message == "" && nextCalls == 0
    {
      values := map[];
      status := 0;
      message := "";
      nextCalls := 0;
    }

    /** `c.JSON(status, {"message": message})` */
    method Respond(s: int, m: string)
      modifies this`status, this`message
      ensures status == s && message == m
    {
      status := s;
      message := m;
    }

    method Set(key: string, v: ContextValue)
      modifies this`values
      ensures values == old(values)[key := v]
    {
      values := values[key := v];
    }

    /** The next handler; what it does is not part of this model. */
    method Next()
      modifies this`nextCalls
      ensures nextCalls == old(nextCalls) + 1
    {
      nextCalls := nextCalls + 1;
    }
  }

  /** `JWTMiddleware` (jwt.go:12-38): on acceptance the claims are stored
      under "user" and the user id under "user_id", and the next handler runs
      once; otherwise the error response is written and the next handler does
      not run. */
  method JWTMiddleware(c: Context, authHeader: string, verify: string -> Option<Claims>)
    modifies c
    ensures var d := JwtDecision(authHeader, verify);
      && (d.Accept? ==>
            && c.values == old(c.values)["user" := ClaimsValue(d.claims)]["user_id" := UserIDValue(d.claims.UserID)]
            && c.nextCalls == old(c.nextCalls) + 1
            && c.status == old(c.status) && c.message == old(c.message))
      && (d.Reject? ==>
            && c.status == d.status && c.message == d.message
            && c.values == old(c.values) && c.nextCalls == old(c.nextCalls))
  {
    if authHeader == "" {
      c.Respond(StatusUnauthorized, MsgMissingHeader);
      return;
    }
    var parts := Split(authHeader, ' ');
    if |parts| != 2 || parts[0] != "Bearer" {
      c.Respond(StatusUnauthorized, MsgInvalidHeader);
      return;
    }
    var claims := verify(parts[1]);
    if claims.None? {
      c.Respond(StatusUnauthorized, MsgInvalidToken);
      return;
    }
    c.Set("user", ClaimsValue(claims.value));
    c.Set("user_id", UserIDValue(claims.value.UserID));
    c.Next();
  }

  /** `RequireRole` (role.go:12-36): the allowed roles are tried in order;
      on the first equal to the claimed role the claims are stored under
      "user" and the next handler runs once. Otherwise the error response is
      written and the next handler does not run. */
  method RequireRole(c: Context, authHeader: string, verify: string -> Option<Claims>, allowedRoles: seq<string>)
    modifies c
    ensures var d := RoleDecision(authHeader, verify, allowedRoles);
      && (d.Accept? ==>
            && c.values == old(c.values)["user" := ClaimsValue(d.claims)]
            && c.nextCalls == old(c.nextCalls) + 1
            && c.status == old(c.status) && c.message == old(c.message))
      && (d.Reject? ==>
            && c.status == d.status && c.message == d.message
            && c.values == old(c.values) && c.nextCalls == old(c.nextCalls))
  {
    if !(|authHeader| >= |BearerPrefix| && authHeader[..|BearerPrefix|] == BearerPrefix) {
      c.Respond(StatusUnauthorized, MsgInvalidOrMissingHeader);
      return;
    }
    var tokenStr := authHeader[|BearerPrefix|..];
    var claims := verify(tokenStr);
    if claims.None? {
      c.Respond(StatusUnauthorized, MsgInvalidToken);
      return;
    }
    for i := 0 to |allowedRoles|
      invariant claims.value.Role !in allowedRoles[..i]
    {
      if claims.value.Role == allowedRoles[i] {
        c.Set("user", ClaimsValue(claims.value));
        c.Next();
        return;
      }
    }
    assert allowedRoles[..|allowedRoles|] == allowedRoles;
    c.Respond(StatusForbidden, MsgForbidden);
  }
}
