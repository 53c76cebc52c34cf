/** Sub-administrator accounts (`subAdminController`): creation with
    defaulted permission flags, login with a 7-day token, a null-coalescing
    merge of the flags, deletion, and the profile view. */
module SubAdminController {
  import opened Common
  import opened Jwt
  import opened Principals

  const MsgMissingFields := "Missing required fields"
  const MsgAlreadyExists := "SubAdmin already exists"
  const MsgInvalidCredentials := "Invalid credentials"
  const MsgNotFound := "SubAdmin not found"
  const MsgServerError := "Server error"
  const SubAdminTokenLifetime := "7d"
  const UnknownCreator := "unknown"

  // ---------------------------------------------------------------------
  // createSubAdmin

  /** The six flags of a create request; a flag the body omits takes the
      destructuring default `false`. */
  datatype FlagInputs = FlagInputs(
    enquiries: Option<bool>,
    lawyers: Option<bool>,
    services: Option<bool>,
    posts: Option<bool>,
    news: Option<bool>,
    settings: Option<bool>)

  datatype CreateBody = CreateBody(
    email: Field<string>,
    password: Field<string>,
    name: Field<string>,
    flags: FlagInputs)

  function OrFalse(o: Option<bool>): bool {
    o.Some? && o.value
  }

  /** The permission flags a new sub-admin starts with. */
  function InitialPermissions(f: FlagInputs): (p: Permissions)
    ensures f == FlagInputs(None, None, None, None, None, None) ==> p == NoPermissions
    ensures p.enquiries <==> f.enquiries == Some(true)
    ensures p.lawyers <==> f.lawyers == Some(true)
    ensures p.services <==> f.services == Some(true)
    ensures p.posts <==> f.posts == Some(true)
    ensures p.news <==> f.news == Some(true)
    ensures p.settings <==> f.settings == Some(true)
  {
    Permissions(OrFalse(f.enquiries), OrFalse(f.lawyers), OrFalse(f.services),
                OrFalse(f.posts), OrFalse(f.news), OrFalse(f.settings))
  }

  /** `req.user?.id || "unknown"`: `user` is what the role guard attached,
      if it ran. */
  function CreatedBy(user: Option<Claims>): (c: string)
    ensures user.None? ==> c == UnknownCreator
    ensures user.Some? && TruthyOpt(user.value.id) ==> c == user.value.id.value
    ensures user.Some? && !TruthyOpt(user.value.id) ==> c == UnknownCreator
    ensures c != UnknownCreator ==> user.Some? && user.value.id == Some(c)
  {
    if user.Some? && TruthyOpt(user.value.id) then user.value.id.value else UnknownCreator
  }

  /** `newId` is the id the database generates for the new row. The reply
      carries the whole stored row, password hash included. */
  function CreateSubAdmin(subs: map<Id, SubAdmin>, hash: Hasher, user: Option<Claims>,
                          body: CreateBody, newId: Id): (h: Handled<map<Id, SubAdmin>, SubAdmin>)
    requires ValidSubAdmins(subs) && newId !in subs
    ensures !Truthy(body.email) || !Truthy(body.password) ==>
      h == Handled(Err(400, MsgMissingFields), subs)
    ensures Truthy(body.email) && Truthy(body.password)
            && (exists k :: k in subs && subs[k].email == body.email.value) ==>
      h == Handled(Err(400, MsgAlreadyExists), subs)
    ensures h.reply.Ok? <==>
      Truthy(body.email) && Truthy(body.password)
      && forall k :: k in subs ==> subs[k].email != body.email.value
    ensures h.reply.Ok? ==>
      var s := h.reply.body;
      && h.reply.status == 201
      && h.store == subs[newId := s]
      && s.id == newId && s.email == body.email.value
      && s.password == hash(body.password.value, BcryptRounds)
      && s.name == ToColumn(body.name)
      && s.perms == InitialPermissions(body.flags)
      && s.createdBy == CreatedBy(user)
    ensures ValidSubAdmins(h.store)
  {
    if !Truthy(body.email) || !Truthy(body.password) then Handled(Err(400, MsgMissingFields), subs)
    else if SubAdminByEmail(subs, body.email.value).Some? then Handled(Err(400, MsgAlreadyExists), subs)
    else
      var s := SubAdmin(newId, body.email.value, hash(body.password.value, BcryptRounds),
                        ToColumn(body.name), InitialPermissions(body.flags), CreatedBy(user));
      Handled(Ok(201, s), subs[newId := s])
  }

  // ---------------------------------------------------------------------
  // loginSubAdmin

  datatype LoginBody = LoginBody(email: Field<string>, password: Field<string>)

  /** The claims and options a sub-admin token is signed with: no
      `adminId` and no permission flags. */
  function SubAdminToken(s: SubAdmin): (t: Issued)
    ensures t.claims == Claims(None, Some(s.id), Some("subadmin"), Some(s.email))
    ensures t.options == SignOptions("7d", None)
  {
    Issued(Claims(None, Some(s.id), Some("subadmin"), Some(s.email)), SignOptions(SubAdminTokenLifetime, None))
  }

  /** `loginSubAdmin` as written. Nothing checks the body first: a missing
      or null email makes the database lookup throw, and a missing or null
      password makes `bcrypt.compare` throw, but only once the email was
      found. The email is used verbatim. */
  function LoginSubAdmin(subs: map<Id, SubAdmin>, compare: Comparer, body: LoginBody): (r: Reply<Issued>)
    requires ValidSubAdmins(subs)
    ensures !body.email.Given? ==> r == Fault(500)
    ensures r.Ok? <==>
      && body.email.Given? && body.password.Given?
      && SubAdminByEmail(subs, body.email.value).Some?
      && compare(body.password.value, SubAdminByEmail(subs, body.email.value).value.password)
    ensures r.Ok? ==> r == Ok(200, SubAdminToken(SubAdminByEmail(subs, body.email.value).value))
    ensures r.Fault? <==>
      !body.email.Given? || (SubAdminByEmail(subs, body.email.value).Some? && !body.password.Given?)
    // With both fields given, an unknown email and a wrong password look alike.
    ensures body.email.Given? && body.password.Given? && !r.Ok? ==> r == Err(401, MsgInvalidCredentials)
    // An unknown email is refused before the password is looked at.
    ensures body.email.Given? && SubAdminByEmail(subs, body.email.value).None? ==> r == Err(401, MsgInvalidCredentials)
  {
    if !body.email.Given? then Fault(500)
    else
      match SubAdminByEmail(subs, body.email.value)
      case None => Err(401, MsgInvalidCredentials)
      case Some(s) =>
        if !body.password.Given? then Fault(500)
        else if !compare(body.password.value, s.password) then Err(401, MsgInvalidCredentials)
        else Ok(200, SubAdminToken(s))
  }

  /** A request without a password is answered 500 when the email belongs
      to a sub-admin and 401 when it does not, whatever the stores and
      comparers, so the answer reveals which emails are registered. */
  lemma LoginSubAdminRevealsRegisteredEmails(registered: map<Id, SubAdmin>, unregistered: map<Id, SubAdmin>,
                                             c1: Comparer, c2: Comparer, body: LoginBody)
    requires ValidSubAdmins(registered) && ValidSubAdmins(unregistered)
    requires body.email.Given? && !body.password.Given?
    requires SubAdminByEmail(registered, body.email.value).Some?
    requires SubAdminByEmail(unregistered, body.email.value).None?
    ensures LoginSubAdmin(registered, c1, body) == Fault(500)
    ensures LoginSubAdmin(unregistered, c2, body) == Err(401, MsgInvalidCredentials)
    ensures LoginSubAdmin(registered, c1, body) != LoginSubAdmin(unregistered, c2, body)
  {
  }

  /** Both situations of the lemma above occur: one registered email in a
      one-row store, and the empty store. */
  lemma RevealingStoresExist(compare: Comparer)
    ensures
      var s := SubAdmin("s1", "a@b.co", "h", None, NoPermissions, UnknownCreator);
      var body := LoginBody(Given("a@b.co"), Undefined);
      && LoginSubAdmin(map["s1" := s], compare, body) == Fault(500)
      && LoginSubAdmin(map[], compare, body) == Err(401, MsgInvalidCredentials)
  {
    var s := SubAdmin("s1", "a@b.co", "h", None, NoPermissions, UnknownCreator);
    var m := map["s1" := s];
    assert "s1" in m && m["s1"].email == "a@b.co";
    assert SubAdminByEmail(m, "a@b.co") == Some(s);
    LoginSubAdminRevealsRegisteredEmails(m, map[], compare, compare, LoginBody(Given("a@b.co"), Undefined));
  }

  /** Login with the body checked first, the way admin login and sub-admin
      creation check theirs, so that no reply depends on the store unless it
      is a success. */
  function LoginSubAdminChecked(subs: map<Id, SubAdmin>, compare: Comparer, body: LoginBody): (r: Reply<Issued>)
    requires ValidSubAdmins(subs)
    ensures !Truthy(body.email) || !Truthy(body.password) ==> r == Err(400, MsgMissingFields)
    ensures r.Ok? <==>
      && Truthy(body.email) && Truthy(body.password)
      && SubAdminByEmail(subs, body.email.value).Some?
      && compare(body.password.value, SubAdminByEmail(subs, body.email.value).value.password)
    ensures r.Ok? ==> r == Ok(200, SubAdminToken(SubAdminByEmail(subs, body.email.value).value))
    ensures !r.Fault?
  {
    if !Truthy(body.email) || !Truthy(body.password) then Err(400, MsgMissingFields)
    else LoginSubAdmin(subs, compare, body)
  }

  /** Every failed checked login gets a reply that is the same for every
      store: nothing about which emails are registered leaks. */
  lemma LoginSubAdminCheckedHidesEmails(s1: map<Id, SubAdmin>, s2: map<Id, SubAdmin>, c1: Comparer, c2: Comparer, body: LoginBody)
    requires ValidSubAdmins(s1) && ValidSubAdmins(s2)
    requires !LoginSubAdminChecked(s1, c1, body).Ok? && !LoginSubAdminChecked(s2, c2, body).Ok?
    ensures LoginSubAdminChecked(s1, c1, body) == LoginSubAdminChecked(s2, c2, body)
  {
  }

  // ---------------------------------------------------------------------
  // updateSubAdminRoles

  /** The flags of a role update as they arrive in the body. */
  datatype RoleUpdate = RoleUpdate(
    enquiries: Field<bool>,
    lawyers: Field<bool>,
    services: Field<bool>,
    posts: Field<bool>,
    news: Field<bool>,
    settings: Field<bool>)

  /** Each flag becomes `given ?? current`. */
  function MergePermissions(current: Permissions, u: RoleUpdate): Permissions {
    Permissions(Coalesce(u.enquiries, current.enquiries), Coalesce(u.lawyers, current.lawyers),
                Coalesce(u.services, current.services), Coalesce(u.posts, current.posts),
                Coalesce(u.news, current.news), Coalesce(u.settings, current.settings))
  }

  function UpdateSubAdminRoles(subs: map<Id, SubAdmin>, id: Id, u: RoleUpdate): (h: Handled<map<Id, SubAdmin>, SubAdmin>)
    requires ValidSubAdmins(subs)
    ensures id !in subs ==> h == Handled(Err(404, MsgNotFound), subs)
    ensures id in subs ==> h.reply.Ok? && h.reply.status == 200
    ensures id in subs ==>
      var s := h.reply.body;
      && h.store == subs[id := s]
      // identity, credentials, name and creator are untouched
      && s == subs[id].(perms := s.perms)
      // absent or null keeps a flag, a given value (false included) sets it
      && (u.enquiries.Given? ==> s.perms.enquiries == u.enquiries.value)
      && (!u.enquiries.Given? ==> s.perms.enquiries == subs[id].perms.enquiries)
      && (u.lawyers.Given? ==> s.perms.lawyers == u.lawyers.value)
      && (!u.lawyers.Given? ==> s.perms.lawyers == subs[id].perms.lawyers)
      && (u.services.Given? ==> s.perms.services == u.services.value)
      && (!u.services.Given? ==> s.perms.services == subs[id].perms.services)
      && (u.posts.Given? ==> s.perms.posts == u.posts.value)
      && (!u.posts.Given? ==> s.perms.posts == subs[id].perms.posts)
      && (u.news.Given? ==> s.perms.news == u.news.value)
      && (!u.news.Given? ==> s.perms.news == subs[id].perms.news)
      && (u.settings.Given? ==> s.perms.settings == u.settings.value)
      && (!u.settings.Given? ==> s.perms.settings == subs[id].perms.settings)
    ensures h.store.Keys == subs.Keys
    ensures forall k :: k in subs && k != id ==> h.store[k] == subs[k]
    ensures ValidSubAdmins(h.store)
  {
    if id !in subs then Handled(Err(404, MsgNotFound), subs)
    else
      var s := subs[id].(perms := MergePermissions(subs[id].perms, u));
      Handled(Ok(200, s), subs[id := s])
  }

  /** Sending the same role update twice leaves the store as sending it
      once does. */
  lemma UpdateSubAdminRolesIdempotent(subs: map<Id, SubAdmin>, id: Id, u: RoleUpdate)
    requires ValidSubAdmins(subs)
    ensures var once := UpdateSubAdminRoles(subs, id, u).store;
      UpdateSubAdminRoles(once, id, u).store == once
  {
  }

  /** An update whose body names no flag (or sets each to null) changes
      nothing. */
  lemma UpdateSubAdminRolesEmptyIsNoop(subs: map<Id, SubAdmin>, id: Id)
    requires ValidSubAdmins(subs)
    ensures UpdateSubAdminRoles(subs, id, RoleUpdate(Undefined, Undefined, Undefined, Undefined, Undefined, Undefined)).store == subs
    ensures UpdateSubAdminRoles(subs, id, RoleUpdate(Null, Null, Null, Null, Null, Null)).store == subs
  {
    if id in subs {
      assert subs[id := subs[id]] == subs;
    }
  }

  // ---------------------------------------------------------------------
  // deleteSubAdmin and getSubAdminProfile

  /** Deleting a missing id makes the database call throw, answered 500. */
  function DeleteSubAdmin(subs: map<Id, SubAdmin>, id: Id): (h: Handled<map<Id, SubAdmin>, Unit>)
    requires ValidSubAdmins(subs)
    ensures id !in subs ==> h == Handled(Fault(500), subs)
    ensures id in subs ==> h.reply == Ok(200, Unit) && h.store.Keys == subs.Keys - {id}
    ensures forall k :: k in h.store ==> k in subs && h.store[k] == subs[k]
    ensures ValidSubAdmins(h.store)
  {
    if id !in subs then Handled(Fault(500), subs)
    else Handled(Ok(200, Unit), subs - {id})
  }

  /** The fields the profile selects: no password hash, no creator. */
  datatype Profile = Profile(id: Id, name: Option<string>, email: string, perms: Permissions)

  /** `user` is the decoded claims the role guard attached. Claims without
      `id` make the lookup throw, answered 500 "Server error". */
  function GetSubAdminProfile(subs: map<Id, SubAdmin>, user: Claims): (r: Reply<Profile>)
    requires ValidSubAdmins(subs)
    ensures user.id.None? ==> r == Err(500, MsgServerError)
    ensures user.id.Some? && user.id.value !in subs ==> r == Err(404, MsgNotFound)
    ensures r.Ok? <==> user.id.Some? && user.id.value in subs
    ensures r.Ok? ==>
      var s := subs[user.id.value];
      r == Ok(200, Profile(s.id, s.name, s.email, s.perms))
  {
    match user.id
    case None => Err(500, MsgServerError)
    case Some(id) =>
      if id !in subs then Err(404, MsgNotFound)
      else
        var s := subs[id];
        Ok(200, Profile(s.id, s.name, s.email, s.perms))
  }
}
