/** The admin gate (server/middleware/adminAuth.js): after authentication, look the caller
    up and let only administrators through.

    The `SELECT is_admin FROM users WHERE id = $1` query is a parameter: for a user id it
    yields the flag, no row, or a failure with the driver's message. */
module AdminAuth {
  import opened Query
  import opened Auth

  datatype UserLookup = Found(isAdmin: bool) | NoSuchUser | LookupFailed(message: string)

  /** `!req.user || !req.user.userId`: no claims, no user id, or the id 0. */
  predicate Anonymous(user: Option<Claims>)
  {
    user.None? || user.value.userId.None? || user.value.userId.value == 0
  }

  /** `requireAdmin`: 401 for an anonymous request, before any lookup; 500 with the
      failure's message; 404 without a user row; 403 for a non-admin; otherwise on to the
      route with `req.user` untouched. */
  function RequireAdmin(user: Option<Claims>, lookup: int -> UserLookup): (r: Verdict)
    ensures Anonymous(user) ==> r == Deny(401, "Authentication required")
    ensures !Anonymous(user) ==>
              match lookup(user.value.userId.value)
              case LookupFailed(m) => r == Deny(500, m)
              case NoSuchUser => r == Deny(404, "User not found")
              case Found(false) => r == Deny(403, "Admin access required")
              case Found(true) => r == Next(user.value)
    ensures r.Next? <==> !Anonymous(user) && lookup(user.value.userId.value) == Found(true)
    ensures r.Deny? ==> r.status in {401, 403, 404, 500}
  {
    if Anonymous(user) then Deny(401, "Authentication required")
    else
      match lookup(user.value.userId.value)
      case LookupFailed(m) => Deny(500, m)
      case NoSuchUser => Deny(404, "User not found")
      case Found(isAdmin) =>
        if !isAdmin then Deny(403, "Admin access required") else Next(user.value)
  }

  /** An anonymous request is refused without consulting the users table: any two
      lookups give the same answer. */
  lemma AnonymousNeedsNoLookup(user: Option<Claims>, lookup1: int -> UserLookup, lookup2: int -> UserLookup)
    requires Anonymous(user)
    ensures RequireAdmin(user, lookup1) == RequireAdmin(user, lookup2)
  {
  }

  /** Only the looked-up user's row matters: lookups that agree on it agree on the verdict. */
  lemma OnlyCallerRowMatters(user: Option<Claims>, lookup1: int -> UserLookup, lookup2: int -> UserLookup)
    requires !Anonymous(user) && lookup1(user.value.userId.value) == lookup2(user.value.userId.value)
    ensures RequireAdmin(user, lookup1) == RequireAdmin(user, lookup2)
  {
  }

  /** `authenticateToken` then `requireAdmin`, the chain every admin route declares. */
  function AdminGate(header: Option<string>, verify: string -> Option<Claims>, lookup: int -> UserLookup): (r: Verdict)
    ensures r.Next? <==>
              && !NoToken(header)
              && verify(BearerToken(header).value).Some?
              && !Anonymous(Some(verify(BearerToken(header).value).value))
              && lookup(verify(BearerToken(header).value).value.userId.value) == Found(true)
    ensures r.Next? ==> r == AuthenticateToken(header, verify)
  {
    match AuthenticateToken(header, verify)
    case Deny(status, message) => Deny(status, message)
    case Next(claims) => RequireAdmin(Some(claims), lookup)
  }
}
