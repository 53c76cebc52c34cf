/** The guard-then-handler pipelines of the route files, where the choice of
    guard changes what a request may do: which tokens each guard lets
    through, the settings PUT behind the admin guard, the sub-admin profile
    behind the role guard, and the sub-admin create route, whose guard
    attaches the admin under a name the handler does not read. */
module Routes {
  import opened Common
  import opened Jwt
  import opened Principals
  import opened AuthMiddleware
  import opened RoleMiddleware
  import AuthController
  import SubAdminController
  import SiteSettings

  /** The request carries `Bearer <token>` with a non-empty token that the
      verifier accepts with exactly `claims`. */
  predicate Presents(header: Option<string>, verifier: Verifier, claims: Claims) {
    && HasBearerPrefix(header)
    && BearerToken(header.value) != ""
    && verifier(BearerToken(header.value)) == Verified(claims)
  }

  // ---------------------------------------------------------------------
  // Which token each guard admits

  /** An administrator's own login token carries no `role` claim, so the
      role guard refuses it: the routes behind that guard, although their
      message names admins, are closed to administrators. */
  lemma AdminTokenRefusedByRoleGuard(header: Option<string>, verifier: Verifier, a: Admin)
    requires Presents(header, verifier, AuthController.AdminToken(a).claims)
    ensures RoleGuard(header, verifier) == Reject(403, MsgForbidden)
  {
  }

  /** A sub-administrator's token carries no `adminId` claim, so the admin
      guard refuses it as malformed, whatever the admin store holds. */
  lemma SubAdminTokenRefusedByAuthGuard(header: Option<string>, verifier: Verifier,
                                        admins: map<Id, Admin>, s: SubAdmin)
    requires AdminsKeyed(admins)
    requires Presents(header, verifier, SubAdminController.SubAdminToken(s).claims)
    ensures AuthGuard(header, verifier, admins) == Reject(401, MsgInvalidFormat)
  {
  }

  /** The role guard admits every sub-administrator's token, whatever its
      permission flags, a sub-admin holding none of them included: the
      `/subadmin/...` lawyer and service routes check no capability. */
  lemma SubAdminAdmittedWithoutPermissions(header: Option<string>, verifier: Verifier, s: SubAdmin)
    requires Presents(header, verifier, SubAdminController.SubAdminToken(s).claims)
    ensures RoleGuard(header, verifier) == Admit(SubAdminController.SubAdminToken(s).claims)
    ensures RoleGuard(header, verifier).identity.id == Some(s.id)
  {
  }

  // ---------------------------------------------------------------------
  // PUT /settings behind the admin guard

  /** The PUT settings route: the admin guard, then the handler. A refused
      request gets the guard's status and message and leaves the table
      as it was. */
  function PutSettingsRoute(header: Option<string>, verifier: Verifier, admins: map<Id, Admin>,
                            rows: seq<SiteSettings.Settings>, body: SiteSettings.SettingsBody,
                            newId: Id): (h: Handled<seq<SiteSettings.Settings>, SiteSettings.Settings>)
    requires AdminsKeyed(admins)
    ensures h.reply.Ok? <==> AdminTokenAccepted(header, verifier, admins)
    ensures !h.reply.Ok? ==>
      && h.store == rows
      && h.reply == Err(AuthGuard(header, verifier, admins).status, AuthGuard(header, verifier, admins).message)
    ensures h.reply.Ok? ==> h == SiteSettings.PutSettings(rows, body, newId)
  {
    AuthGuardAdmitsIff(header, verifier, admins);
    match AuthGuard(header, verifier, admins)
    case Reject(status, message) => Handled(Err(status, message), rows)
    case Admit(_) => SiteSettings.PutSettings(rows, body, newId)
  }

  /** A sub-administrator cannot change the settings, whatever its
      `settings` flag says. */
  lemma SubAdminCannotPutSettings(header: Option<string>, verifier: Verifier, admins: map<Id, Admin>,
                                  s: SubAdmin, rows: seq<SiteSettings.Settings>,
                                  body: SiteSettings.SettingsBody, newId: Id)
    requires AdminsKeyed(admins)
    requires Presents(header, verifier, SubAdminController.SubAdminToken(s).claims)
    ensures PutSettingsRoute(header, verifier, admins, rows, body, newId) == Handled(Err(401, MsgInvalidFormat), rows)
  {
    SubAdminTokenRefusedByAuthGuard(header, verifier, admins, s);
  }

  // ---------------------------------------------------------------------
  // GET /subadmin/me behind the role guard

  /** The profile route: the role guard, then the handler, which looks up
      the `id` claim the guard attached. */
  function ProfileRoute(header: Option<string>, verifier: Verifier, subs: map<Id, SubAdmin>)
    : (r: Reply<SubAdminController.Profile>)
    requires ValidSubAdmins(subs)
    ensures r.Ok? ==> RoleGuard(header, verifier).Admit?
    ensures RoleGuard(header, verifier).Admit? ==>
      r == SubAdminController.GetSubAdminProfile(subs, RoleGuard(header, verifier).identity)
    ensures RoleGuard(header, verifier).Reject? ==>
      r == Err(RoleGuard(header, verifier).status, RoleGuard(header, verifier).message)
  {
    match RoleGuard(header, verifier)
    case Reject(status, message) => Err(status, message)
    case Admit(claims) => SubAdminController.GetSubAdminProfile(subs, claims)
  }

  /** Logging in and presenting the token that login signed shows the
      profile of the sub-administrator who logged in, without the password
      hash. */
  lemma LoginThenProfile(subs: map<Id, SubAdmin>, compare: Comparer, body: SubAdminController.LoginBody,
                         header: Option<string>, verifier: Verifier)
    requires ValidSubAdmins(subs)
    requires SubAdminController.LoginSubAdmin(subs, compare, body).Ok?
    requires Presents(header, verifier, SubAdminController.LoginSubAdmin(subs, compare, body).body.claims)
    ensures var s := SubAdminByEmail(subs, body.email.value).value;
      ProfileRoute(header, verifier, subs) == Ok(200, SubAdminController.Profile(s.id, s.name, s.email, s.perms))
  {
    var s := SubAdminByEmail(subs, body.email.value).value;
    SubAdminAdmittedWithoutPermissions(header, verifier, s);
  }

  // ---------------------------------------------------------------------
  // POST /subadmin/create behind the admin guard

  /** The create route as wired: the admin guard attaches the admin as
      `req.admin`, and the handler reads `req.user`, which nothing on this
      route sets, so the handler always sees no user. */
  function CreateSubAdminRoute(header: Option<string>, verifier: Verifier, admins: map<Id, Admin>,
                               subs: map<Id, SubAdmin>, hash: Hasher,
                               body: SubAdminController.CreateBody, newId: Id)
    : (h: Handled<map<Id, SubAdmin>, SubAdmin>)
    requires AdminsKeyed(admins) && ValidSubAdmins(subs) && newId !in subs
    ensures h.reply.Ok? ==> AdminTokenAccepted(header, verifier, admins)
    ensures !AdminTokenAccepted(header, verifier, admins) ==>
      h == Handled(Err(AuthGuard(header, verifier, admins).status, AuthGuard(header, verifier, admins).message), subs)
    ensures AuthGuard(header, verifier, admins).Admit? ==>
      h == SubAdminController.CreateSubAdmin(subs, hash, None, body, newId)
    ensures h.reply.Ok? ==> h.reply.body.createdBy == SubAdminController.UnknownCreator
    ensures ValidSubAdmins(h.store)
  {
    AuthGuardAdmitsIff(header, verifier, admins);
    match AuthGuard(header, verifier, admins)
    case Reject(status, message) => Handled(Err(status, message), subs)
    case Admit(_) => SubAdminController.CreateSubAdmin(subs, hash, None, body, newId)
  }

  /** Every sub-admin created through the route is recorded as created by
      "unknown", even though an authenticated administrator made the
      request and the guard knew who it was. */
  lemma CreateRouteLosesCreator(header: Option<string>, verifier: Verifier, admins: map<Id, Admin>,
                                subs: map<Id, SubAdmin>, hash: Hasher,
                                body: SubAdminController.CreateBody, newId: Id)
    requires AdminsKeyed(admins) && ValidSubAdmins(subs) && newId !in subs
    requires AdminTokenAccepted(header, verifier, admins)
    requires Truthy(body.email) && Truthy(body.password)
    requires forall k :: k in subs ==> subs[k].email != body.email.value
    ensures var h := CreateSubAdminRoute(header, verifier, admins, subs, hash, body, newId);
      && AuthGuard(header, verifier, admins).Admit?
      && h.reply.Ok?
      && h.store[newId].createdBy == SubAdminController.UnknownCreator
  {
    AuthGuardAdmitsIff(header, verifier, admins);
  }

  /** The identity the handler reads, built from the admin the guard
      attached. */
  function CreatorClaims(a: AdminView): (c: Claims)
    ensures c.id == Some(a.id)
  {
    Claims(Some(a.id), Some(a.id), None, Some(a.email))
  }

  /** The create route as evidently intended: the handler sees the admin
      the guard admitted, and records that admin's id as the creator. */
  function CreateSubAdminRouteAttributed(header: Option<string>, verifier: Verifier, admins: map<Id, Admin>,
                                         subs: map<Id, SubAdmin>, hash: Hasher,
                                         body: SubAdminController.CreateBody, newId: Id)
    : (h: Handled<map<Id, SubAdmin>, SubAdmin>)
    requires AdminsKeyed(admins) && ValidSubAdmins(subs) && newId !in subs
    ensures h.reply.Ok? <==>
      && AdminTokenAccepted(header, verifier, admins)
      && Truthy(body.email) && Truthy(body.password)
      && forall k :: k in subs ==> subs[k].email != body.email.value
    ensures !AdminTokenAccepted(header, verifier, admins) ==>
      h == Handled(Err(AuthGuard(header, verifier, admins).status, AuthGuard(header, verifier, admins).message), subs)
    ensures h.reply.Ok? ==>
      && h.store == subs[newId := h.reply.body]
      && h.reply.body.createdBy == verifier(BearerToken(header.value)).claims.adminId.value
    ensures AuthGuard(header, verifier, admins).Admit? ==>
      h == SubAdminController.CreateSubAdmin(subs, hash, Some(CreatorClaims(AuthGuard(header, verifier, admins).identity)),
                                             body, newId)
    ensures ValidSubAdmins(h.store)
  {
    AuthGuardAdmitsIff(header, verifier, admins);
    match AuthGuard(header, verifier, admins)
    case Reject(status, message) => Handled(Err(status, message), subs)
    case Admit(a) => SubAdminController.CreateSubAdmin(subs, hash, Some(CreatorClaims(a)), body, newId)
  }

  /** With the fix, the stored creator is the id of a stored administrator:
      the one whose token was presented. */
  lemma AttributedCreatorIsAdmin(header: Option<string>, verifier: Verifier, admins: map<Id, Admin>,
                                 subs: map<Id, SubAdmin>, hash: Hasher,
                                 body: SubAdminController.CreateBody, newId: Id)
    requires AdminsKeyed(admins) && ValidSubAdmins(subs) && newId !in subs
    requires CreateSubAdminRouteAttributed(header, verifier, admins, subs, hash, body, newId).reply.Ok?
    ensures var h := CreateSubAdminRouteAttributed(header, verifier, admins, subs, hash, body, newId);
      var creator := h.store[newId].createdBy;
      && creator in admins
      && admins[creator].id == creator
      && creator == AuthGuard(header, verifier, admins).identity.id
  {
    AuthGuardAdmitsIff(header, verifier, admins);
  }
}
