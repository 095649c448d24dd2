/** Authentication and authorization middleware (auth.ts): reading the bearer
    token from the `Authorization` header, attaching the verified user and its
    role to the request, and the role check that guards admin routes. Token
    verification and the profile lookup are calls into the identity provider
    and the database; here they are the parameters `verify` and `profileRole`. */
module Auth {
  import opened Wrappers
  import opened Http
  import opened Strings

  const BearerPrefix := "Bearer "
  const DefaultRole := "user"

  const BadHeaderError := "Missing or invalid authorization header"
  const BadTokenError := "Invalid or expired token"
  const AuthFailedError := "Authentication failed"
  const AuthRequiredError := "Authentication required"
  const ForbiddenError := "Insufficient permissions"

  /** What the identity provider answers for a token: a user, no user or an
      error, or an exception. */
  datatype TokenCheck = Verified(id: string, email: Option<string>) | Refused | Threw

  /** The header is present, non-empty and starts with "Bearer ". */
  predicate HasBearer(header: Option<string>) {
    header.Some? && header.value != "" && StartsWith(header.value, BearerPrefix)
  }

  /** `authHeader.split(" ")[1]`: the text after "Bearer " up to the next space. */
  function BearerToken(header: string): (token: string)
    requires StartsWith(header, BearerPrefix)
    ensures ' ' !in token
    ensures exists rest :: header == BearerPrefix + token + rest && (rest == [] || rest[0] == ' ')
  {
    var after := header[|BearerPrefix|..];
    var token := TakeUntil(after, ' ');
    assert header == BearerPrefix + token + after[|token|..];
    token
  }

  /** The token is the second field of the header split at spaces. */
  lemma BearerTokenIsSecondField(header: string)
    requires StartsWith(header, BearerPrefix)
    ensures |Split(header, ' ')| >= 2 && Split(header, ' ')[1] == BearerToken(header)
  {
    assert header[6] == ' ' && header[..6] == "Bearer";
    assert ' ' in header;
    assert IndexOf(header, ' ') == 6;
    assert header[7..] == header[|BearerPrefix|..];
  }

  /** "Bearer " alone carries the empty token. */
  lemma EmptyTokenExample()
    ensures StartsWith("Bearer ", BearerPrefix) && BearerToken("Bearer ") == ""
  {
    assert "Bearer "[|BearerPrefix|..] == "";
  }

  /** `profile?.role || "user"`. */
  function ResolveRole(profileRole: Option<string>): (role: string)
    ensures role != ""
    ensures profileRole.Some? && profileRole.value != "" ==> role == profileRole.value
    ensures profileRole.None? || profileRole.value == "" ==> role == DefaultRole
  {
    if profileRole.Some? && profileRole.value != "" then profileRole.value else DefaultRole
  }

  datatype AuthDecision = Attach(user: AuthUser) | Deny(response: Response)

  /** The decision of `authMiddleware`. */
  function Authenticate(header: Option<string>, verify: string -> TokenCheck, profileRole: string -> Option<string>): (d: AuthDecision)
    ensures !HasBearer(header) ==> d == Deny(Response(401, ErrorBody(BadHeaderError)))
    ensures HasBearer(header) ==>
              var check := verify(BearerToken(header.value));
              (check.Refused? ==> d == Deny(Response(401, ErrorBody(BadTokenError)))) &&
              (check.Threw? ==> d == Deny(Response(500, ErrorBody(AuthFailedError)))) &&
              (check.Verified? ==> d == Attach(AuthUser(check.id, check.email, Some(ResolveRole(profileRole(check.id))))))
    ensures d.Attach? ==> d.user.role.Some? && d.user.role.value != ""
  {
    if !HasBearer(header) then Deny(Response(401, ErrorBody(BadHeaderError)))
    else
      match verify(BearerToken(header.value))
      case Refused => Deny(Response(401, ErrorBody(BadTokenError)))
      case Threw => Deny(Response(500, ErrorBody(AuthFailedError)))
      case Verified(id, email) => Attach(AuthUser(id, email, Some(ResolveRole(profileRole(id)))))
  }

  /** `authMiddleware`: attaches the user and calls `next`, or answers and stops. */
  method AuthMiddleware(req: Request, verify: string -> TokenCheck, profileRole: string -> Option<string>) returns (step: Step)
    modifies req`user
    ensures var d := Authenticate(old(req.authorization), verify, profileRole);
            (d.Attach? ==> step == Next && req.user == Some(d.user)) &&
            (d.Deny? ==> step == Respond(d.response) && req.user == old(req.user))
  {
    var d := Authenticate(req.authorization, verify, profileRole);
    match d
    case Attach(user) =>
      req.user := Some(user);
      step := Next;
    case Deny(response) =>
      step := Respond(response);
  }

  /** The user `optionalAuthMiddleware` attaches, if any. */
  function OptionalUser(header: Option<string>, verify: string -> TokenCheck, profileRole: string -> Option<string>): (u: Option<AuthUser>)
    ensures u.Some? <==> HasBearer(header) && verify(BearerToken(header.value)).Verified?
    ensures u.Some? ==> Authenticate(header, verify, profileRole) == Attach(u.value)
  {
    if HasBearer(header) && verify(BearerToken(header.value)).Verified? then
      var check := verify(BearerToken(header.value));
      Some(AuthUser(check.id, check.email, Some(ResolveRole(profileRole(check.id)))))
    else None
  }

  /** `optionalAuthMiddleware`: always calls `next` and never answers; it
      attaches a user only when the token verifies. */
  method OptionalAuthMiddleware(req: Request, verify: string -> TokenCheck, profileRole: string -> Option<string>) returns (step: Step)
    modifies req`user
    ensures step == Next
    ensures var u := OptionalUser(old(req.authorization), verify, profileRole);
            req.user == if u.Some? then u else old(req.user)
  {
    var u := OptionalUser(req.authorization, verify, profileRole);
    if u.Some? {
      req.user := u;
    }
    step := Next;
  }

  /** `req.user.role || ""`. */
  function RoleOrEmpty(user: AuthUser): string {
    if user.role.Some? then user.role.value else ""
  }

  /** `requireRole(allowedRoles)`: 401 without a user, 403 when the role is not
      listed, otherwise `next`. */
  function RequireRole(allowedRoles: seq<string>, user: Option<AuthUser>): (step: Step)
    ensures user.None? ==> step == Respond(Response(401, ErrorBody(AuthRequiredError)))
    ensures user.Some? ==> (step == Next <==> RoleOrEmpty(user.value) in allowedRoles)
    ensures user.Some? && RoleOrEmpty(user.value) !in allowedRoles ==>
              step == Respond(Response(403, ErrorBody(ForbiddenError)))
  {
    if user.None? then Respond(Response(401, ErrorBody(AuthRequiredError)))
    else if RoleOrEmpty(user.value) !in allowedRoles then Respond(Response(403, ErrorBody(ForbiddenError)))
    else Next
  }

  /** A user without a role is refused by any list of non-empty roles. */
  lemma MissingRoleRefused(allowedRoles: seq<string>, user: AuthUser)
    requires user.role.None? || user.role.value == ""
    requires forall k :: 0 <= k < |allowedRoles| ==> allowedRoles[k] != ""
    ensures RequireRole(allowedRoles, Some(user)) == Respond(Response(403, ErrorBody(ForbiddenError)))
  {
    assert "" !in allowedRoles;
  }

  /** Behind `authMiddleware`, `requireRole(["admin"])` lets a request through
      exactly when the caller's profile role is "admin". */
  lemma AdminGate(header: Option<string>, verify: string -> TokenCheck, profileRole: string -> Option<string>)
    requires Authenticate(header, verify, profileRole).Attach?
    ensures var u := Authenticate(header, verify, profileRole).user;
            RequireRole(["admin"], Some(u)) == Next <==> profileRole(u.id) == Some("admin")
  {
  }
}
