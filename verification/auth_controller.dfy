/** Administrator login (`loginAdmin`): both fields present, lookup by the
    lower-cased trimmed email, password comparison, then a 24-hour token
    whose claims are the admin's id and email. The store is only read. */
module AuthController {
  import opened Common
  import opened Jwt
  import opened Principals
  import JsString

  const MsgRequired := "Email and password are required."
  const MsgInvalidCredentials := "Invalid credentials."
  const AdminTokenLifetime := "24h"
  const AdminTokenIssuer := "law-firm-api"

  datatype LoginBody = LoginBody(email: Field<string>, password: Field<string>)

  /** The success payload: the token and the admin's public fields. */
  datatype LoginPayload = LoginPayload(token: Issued, admin: AdminView)

  /** The lookup key: `email.toLowerCase().trim()`. */
  function LoginKey(email: string): string {
    JsString.Trim(JsString.Lower(email))
  }

  /** The claims and options an admin token is signed with. */
  function AdminToken(a: Admin): (t: Issued)
    ensures t.claims.role.None? && t.claims.id.None?
    ensures t.claims.adminId == Some(a.id) && t.claims.email == Some(a.email)
    ensures t.options == SignOptions("24h", Some("law-firm-api"))
  {
    Issued(Claims(Some(a.id), None, None, Some(a.email)), SignOptions(AdminTokenLifetime, Some(AdminTokenIssuer)))
  }

  function LoginAdmin(admins: map<Id, Admin>, compare: Comparer, body: LoginBody): (r: Reply<LoginPayload>)
    requires ValidAdmins(admins)
    ensures !Truthy(body.email) || !Truthy(body.password) ==> r == Err(400, MsgRequired)
    ensures r.Ok? <==>
      && Truthy(body.email) && Truthy(body.password)
      && AdminByEmail(admins, LoginKey(body.email.value)).Some?
      && compare(body.password.value, AdminByEmail(admins, LoginKey(body.email.value)).value.password)
    ensures r.Ok? ==>
      var a := AdminByEmail(admins, LoginKey(body.email.value)).value;
      && r.status == 200
      && r.body == LoginPayload(AdminToken(a), AdminView(a.id, a.email))
    ensures !r.Fault?
    ensures r.Err? ==> r == Err(400, MsgRequired) || r == Err(401, MsgInvalidCredentials)
  {
    if !Truthy(body.email) || !Truthy(body.password) then Err(400, MsgRequired)
    else
      match AdminByEmail(admins, LoginKey(body.email.value))
      case None => Err(401, MsgInvalidCredentials)
      case Some(a) =>
        if !compare(body.password.value, a.password) then Err(401, MsgInvalidCredentials)
        else Ok(200, LoginPayload(AdminToken(a), AdminView(a.id, a.email)))
  }

  /** Login does not tell an unknown email from a wrong password: with both
      fields present, every failure is the same 401 reply, and it happens
      exactly when no admin has the normalised email or the password does
      not match that admin's hash. */
  lemma LoginAdminEnumerationResistant(admins: map<Id, Admin>, compare: Comparer, body: LoginBody)
    requires ValidAdmins(admins)
    requires Truthy(body.email) && Truthy(body.password)
    ensures var r := LoginAdmin(admins, compare, body);
      r.IsError() ==> r == Err(401, MsgInvalidCredentials)
    ensures var r := LoginAdmin(admins, compare, body);
      r.IsError() <==>
        (forall k :: k in admins ==> admins[k].email != LoginKey(body.email.value))
        || (exists k :: k in admins && admins[k].email == LoginKey(body.email.value)
                        && !compare(body.password.value, admins[k].password))
  {
    var key := LoginKey(body.email.value);
    match AdminByEmail(admins, key)
    case None =>
    case Some(a) =>
      assert a.id in admins && admins[a.id].email == key;
  }

  /** Two submissions whose emails differ only in ASCII case or surrounding
      whitespace get the same reply. */
  lemma LoginKeyNormalises(admins: map<Id, Admin>, compare: Comparer, e1: string, e2: string, password: Field<string>)
    requires ValidAdmins(admins)
    requires e1 != "" && e2 != ""
    requires LoginKey(e1) == LoginKey(e2)
    ensures LoginAdmin(admins, compare, LoginBody(Given(e1), password))
         == LoginAdmin(admins, compare, LoginBody(Given(e2), password))
  {
  }

  /** A stored admin whose email is already in normal form logs in with that
      email and the password its hash was made from, and gets a token naming
      exactly that admin. */
  lemma LoginAdminSucceeds(admins: map<Id, Admin>, compare: Comparer, a: Admin, password: string)
    requires ValidAdmins(admins)
    requires a.id in admins && admins[a.id] == a
    requires a.email != "" && password != ""
    requires JsString.NoSpace(a.email) && JsString.Lower(a.email) == a.email
    requires compare(password, a.password)
    ensures LoginAdmin(admins, compare, LoginBody(Given(a.email), Given(password)))
         == Ok(200, LoginPayload(AdminToken(a), AdminView(a.id, a.email)))
  {
    JsString.TrimNoSpace(a.email);
    assert LoginKey(a.email) == a.email;
    assert AdminByEmail(admins, a.email) == Some(a);
  }
}
