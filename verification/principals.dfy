/** The two principal stores: administrators and sub-administrators, each a
    map from record id to record, with the uniqueness the database's unique
    constraints guarantee. */
module Principals {
  import opened Common

  /** An administrator row; `password` holds the bcrypt hash. */
  datatype Admin = Admin(id: Id, email: string, password: string)

  /** The six capability flags of a sub-administrator. */
  datatype Permissions = Permissions(
    enquiries: bool,
    lawyers: bool,
    services: bool,
    posts: bool,
    news: bool,
    settings: bool)

  const NoPermissions := Permissions(false, false, false, false, false, false)

  /** A sub-administrator row; `password` holds the bcrypt hash and `name`
      is nullable. */
  datatype SubAdmin = SubAdmin(
    id: Id,
    email: string,
    password: string,
    name: Option<string>,
    perms: Permissions,
    createdBy: string)

  /** What the admin guard selects and what admin login returns. */
  datatype AdminView = AdminView(id: Id, email: string)

  /** `bcrypt.hash(plain, rounds)`. */
  type Hasher = (string, nat) -> string

  /** `bcrypt.compare(plain, hash)`. */
  type Comparer = (string, string) -> bool

  const BcryptRounds: nat := 10

  // ---------------------------------------------------------------------
  // Administrator store

  ghost predicate AdminsKeyed(admins: map<Id, Admin>) {
    forall k :: k in admins ==> admins[k].id == k
  }

  ghost predicate AdminEmailsUnique(admins: map<Id, Admin>) {
    forall j, k :: j in admins && k in admins && admins[j].email == admins[k].email ==> j == k
  }

  /** The store invariant: rows are keyed by their id and emails are unique. */
  ghost predicate ValidAdmins(admins: map<Id, Admin>) {
    AdminsKeyed(admins) && AdminEmailsUnique(admins)
  }

  /** `prisma.admin.findUnique({ where: { email } })`. */
  function AdminByEmail(admins: map<Id, Admin>, email: string): (r: Option<Admin>)
    requires ValidAdmins(admins)
    ensures r.Some? <==> exists k :: k in admins && admins[k].email == email
    ensures r.Some? ==> r.value.id in admins && admins[r.value.id] == r.value && r.value.email == email
  {
    if exists k :: k in admins && admins[k].email == email then
      var k :| k in admins && admins[k].email == email;
      Some(admins[k])
    else
      None
  }

  // ---------------------------------------------------------------------
  // Sub-administrator store

  ghost predicate SubAdminsKeyed(subs: map<Id, SubAdmin>) {
    forall k :: k in subs ==> subs[k].id == k
  }

  ghost predicate SubAdminEmailsUnique(subs: map<Id, SubAdmin>) {
    forall j, k :: j in subs && k in subs && subs[j].email == subs[k].email ==> j == k
  }

  ghost predicate ValidSubAdmins(subs: map<Id, SubAdmin>) {
    SubAdminsKeyed(subs) && SubAdminEmailsUnique(subs)
  }

  /** `prisma.subAdmin.findUnique({ where: { email } })`. */
  function SubAdminByEmail(subs: map<Id, SubAdmin>, email: string): (r: Option<SubAdmin>)
    requires ValidSubAdmins(subs)
    ensures r.Some? <==> exists k :: k in subs && subs[k].email == email
    ensures r.Some? ==> r.value.id in subs && subs[r.value.id] == r.value && r.value.email == email
  {
    if exists k :: k in subs && subs[k].email == email then
      var k :| k in subs && subs[k].email == email;
      Some(subs[k])
    else
      None
  }
}
