/** The role guard (`roleMiddleware`): Bearer header, verification, and a
    `role` claim of "admin" or "subadmin". It reads no store and no
    permission flag; the identity it attaches is the decoded claims. */
module RoleMiddleware {
  import opened Common
  import opened Jwt

  const MsgMissing := "Authorization token missing"
  const MsgInvalidOrExpired := "Invalid or expired token"
  const MsgForbidden := "Forbidden: Admins or SubAdmins only"

  predicate AllowedRole(role: Option<string>) {
    role == Some("admin") || role == Some("subadmin")
  }

  function RoleGuard(header: Option<string>, verifier: Verifier): (d: Decision<Claims>)
    ensures !HasBearerPrefix(header) ==> d == Reject(401, MsgMissing)
    // Every verification failure, the empty token included, is one answer.
    ensures HasBearerPrefix(header) && !Verify(verifier, BearerToken(header.value)).Verified? ==>
      d == Reject(401, MsgInvalidOrExpired)
    ensures HasBearerPrefix(header) && BearerToken(header.value) == "" ==>
      d == Reject(401, MsgInvalidOrExpired)
    ensures d.Admit? <==>
      HasBearerPrefix(header)
      && Verify(verifier, BearerToken(header.value)).Verified?
      && AllowedRole(Verify(verifier, BearerToken(header.value)).claims.role)
    ensures d.Admit? ==> Verify(verifier, BearerToken(header.value)) == Verified(d.identity)
    ensures d.Reject? && d.status == 403 <==>
      HasBearerPrefix(header)
      && Verify(verifier, BearerToken(header.value)).Verified?
      && !AllowedRole(Verify(verifier, BearerToken(header.value)).claims.role)
  {
    if !HasBearerPrefix(header) then Reject(401, MsgMissing)
    else
      var v := Verify(verifier, BearerToken(header.value));
      if !v.Verified? then Reject(401, MsgInvalidOrExpired)
      else if AllowedRole(v.claims.role) then Admit(v.claims)
      else Reject(403, MsgForbidden)
  }
}
