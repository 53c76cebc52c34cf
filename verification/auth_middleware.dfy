/** The administrator guard (`authMiddleware`): Bearer header, non-empty
    token, verification, an `adminId` claim, and a re-read of the admin
    store. Only the last step touches the store, and only to read it. */
module AuthMiddleware {
  import opened Common
  import opened Jwt
  import opened Principals

  const MsgNoTokenOrFormat := "Access denied. No token provided or invalid format."
  const MsgNoToken := "Access denied. No token provided."
  const MsgInvalidFormat := "Invalid token format."
  const MsgAdminNotFound := "Access denied. Admin not found."
  const MsgInvalidToken := "Invalid token."
  const MsgTokenExpired := "Token expired."
  const MsgInternal := "Internal server error during authentication."

  /** How each class of verification error is answered. */
  function VerifyErrorReply(v: Verification): (d: Decision<AdminView>)
    requires !v.Verified?
    ensures d.Reject?
    ensures d.status == 401 <==> (v.JsonWebTokenError? || v.TokenExpiredError?)
    ensures d.status == 500 <==> v.OtherError?
  {
    match v
    case JsonWebTokenError => Reject(401, MsgInvalidToken)
    case TokenExpiredError => Reject(401, MsgTokenExpired)
    case OtherError => Reject(500, MsgInternal)
  }

  /** The guard's decision for one request. `admins` is only read. */
  function AuthGuard(header: Option<string>, verifier: Verifier, admins: map<Id, Admin>): (d: Decision<AdminView>)
    requires AdminsKeyed(admins)
    // Header checks come first and answer 401 whatever the token holds.
    ensures !HasBearerPrefix(header) ==> d == Reject(401, MsgNoTokenOrFormat)
    ensures HasBearerPrefix(header) && BearerToken(header.value) == "" ==> d == Reject(401, MsgNoToken)
    // Verification errors keep their class.
    ensures HasBearerPrefix(header) && BearerToken(header.value) != "" ==>
      match verifier(BearerToken(header.value))
      case JsonWebTokenError => d == Reject(401, MsgInvalidToken)
      case TokenExpiredError => d == Reject(401, MsgTokenExpired)
      case OtherError => d == Reject(500, MsgInternal)
      case Verified(c) =>
        (!TruthyOpt(c.adminId) ==> d == Reject(401, MsgInvalidFormat))
        && (TruthyOpt(c.adminId) && c.adminId.value !in admins ==> d == Reject(401, MsgAdminNotFound))
        && (TruthyOpt(c.adminId) && c.adminId.value in admins ==>
              d == Admit(AdminView(c.adminId.value, admins[c.adminId.value].email)))
  {
    if !HasBearerPrefix(header) then Reject(401, MsgNoTokenOrFormat)
    else
      var token := BearerToken(header.value);
      if token == "" then Reject(401, MsgNoToken)
      else
        var v := Verify(verifier, token);
        if !v.Verified? then VerifyErrorReply(v)
        else if !TruthyOpt(v.claims.adminId) then Reject(401, MsgInvalidFormat)
        else
          var id := v.claims.adminId.value;
          if id !in admins then Reject(401, MsgAdminNotFound)
          else
            var a := admins[id];
            Admit(AdminView(a.id, a.email))
  }

  /** The conjunction of every check the guard makes, stated on its own. */
  ghost predicate AdminTokenAccepted(header: Option<string>, verifier: Verifier, admins: map<Id, Admin>) {
    && HasBearerPrefix(header)
    && BearerToken(header.value) != ""
    && verifier(BearerToken(header.value)).Verified?
    && TruthyOpt(verifier(BearerToken(header.value)).claims.adminId)
    && verifier(BearerToken(header.value)).claims.adminId.value in admins
  }

  /** Admission happens exactly when every check passes, and the attached
      identity is then the stored admin's id and email. */
  lemma AuthGuardAdmitsIff(header: Option<string>, verifier: Verifier, admins: map<Id, Admin>)
    requires AdminsKeyed(admins)
    ensures AuthGuard(header, verifier, admins).Admit? <==> AdminTokenAccepted(header, verifier, admins)
    ensures AuthGuard(header, verifier, admins).Admit? ==>
      var id := verifier(BearerToken(header.value)).claims.adminId.value;
      && AuthGuard(header, verifier, admins).identity.id == id
      && AuthGuard(header, verifier, admins).identity == AdminView(admins[id].id, admins[id].email)
  {
  }

  /** A request refused for its header gets the same answer whatever
      verifier or store is in place: nothing is verified or read first. */
  lemma HeaderCheckedBeforeVerification(header: Option<string>, v1: Verifier, v2: Verifier,
                                        s1: map<Id, Admin>, s2: map<Id, Admin>)
    requires AdminsKeyed(s1) && AdminsKeyed(s2)
    requires !HasBearerPrefix(header) || BearerToken(header.value) == ""
    ensures AuthGuard(header, v1, s1) == AuthGuard(header, v2, s2)
    ensures AuthGuard(header, v1, s1).Reject? && AuthGuard(header, v1, s1).status == 401
  {
  }

  /** The guard answers 500 only for a verification error outside the two
      named classes; every other refusal is 401. */
  lemma AuthGuardStatuses(header: Option<string>, verifier: Verifier, admins: map<Id, Admin>)
    requires AdminsKeyed(admins)
    ensures var d := AuthGuard(header, verifier, admins);
      d.Reject? ==> (d.status == 401 || d.status == 500)
    ensures var d := AuthGuard(header, verifier, admins);
      d.Reject? && d.status == 500 <==>
        HasBearerPrefix(header) && BearerToken(header.value) != ""
        && verifier(BearerToken(header.value)) == OtherError
  {
  }
}
