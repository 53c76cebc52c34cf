/** The lawyer and service tables and the join table between them. Join
    rows are kept in a sequence so that "the services of a lawyer" and "the
    lawyers of a service" come out in row order, the order the handlers'
    flattening preserves. */
module Catalog {
  import opened Common
  import JsString

  datatype Lawyer = Lawyer(id: Id, name: string, title: string, bio: string, imageUrl: Option<string>)

  datatype Service = Service(id: Id, name: string, slug: string, description: string, imageUrl: Option<string>)

  /** One row of the lawyer-service join table. */
  datatype Link = Link(lawyerId: Id, serviceId: Id)

  datatype Catalog = Catalog(lawyers: map<Id, Lawyer>, services: map<Id, Service>, links: seq<Link>)

  ghost predicate Keyed(c: Catalog) {
    && (forall k :: k in c.lawyers ==> c.lawyers[k].id == k)
    && (forall k :: k in c.services ==> c.services[k].id == k)
  }

  ghost predicate ServiceSlugsUnique(services: map<Id, Service>) {
    forall j, k :: j in services && k in services && services[j].slug == services[k].slug ==> j == k
  }

  /** Every join row names an existing lawyer and an existing service. */
  ghost predicate LinksResolve(c: Catalog) {
    forall i :: 0 <= i < |c.links| ==> c.links[i].lawyerId in c.lawyers && c.links[i].serviceId in c.services
  }

  ghost predicate ValidCatalog(c: Catalog) {
    Keyed(c) && ServiceSlugsUnique(c.services) && LinksResolve(c)
  }

  predicate SlugTaken(services: map<Id, Service>, slug: string) {
    exists k :: k in services && services[k].slug == slug
  }

  /** `prisma.service.findUnique({ where: { slug } })`. */
  function ServiceBySlug(services: map<Id, Service>, slug: string): (r: Option<Service>)
    requires ServiceSlugsUnique(services)
    ensures r.Some? <==> SlugTaken(services, slug)
    ensures r.Some? ==> exists k :: k in services && services[k] == r.value && r.value.slug == slug
  {
    if SlugTaken(services, slug) then
      var k :| k in services && services[k].slug == slug;
      Some(services[k])
    else
      None
  }

  // ---------------------------------------------------------------------
  // Join rows

  /** The services of a lawyer, in join-row order. */
  function ServiceIdsOf(links: seq<Link>, lawyer: Id): seq<Id> {
    if links == [] then []
    else (if links[0].lawyerId == lawyer then [links[0].serviceId] else []) + ServiceIdsOf(links[1..], lawyer)
  }

  /** The lawyers of a service, in join-row order. */
  function LawyerIdsOf(links: seq<Link>, service: Id): seq<Id> {
    if links == [] then []
    else (if links[0].serviceId == service then [links[0].lawyerId] else []) + LawyerIdsOf(links[1..], service)
  }

  /** `deleteMany` on the join rows of one lawyer. */
  function DropLawyer(links: seq<Link>, lawyer: Id): (r: seq<Link>)
    ensures forall i :: 0 <= i < |r| ==> r[i] in links && r[i].lawyerId != lawyer
  {
    if links == [] then []
    else (if links[0].lawyerId == lawyer then [] else [links[0]]) + DropLawyer(links[1..], lawyer)
  }

  /** `deleteMany` on the join rows of one service. */
  function DropService(links: seq<Link>, service: Id): (r: seq<Link>)
    ensures forall i :: 0 <= i < |r| ==> r[i] in links && r[i].serviceId != service
  {
    if links == [] then []
    else (if links[0].serviceId == service then [] else [links[0]]) + DropService(links[1..], service)
  }

  /** The rows `serviceIds.map(id => connect)` creates for one lawyer. */
  function RowsForLawyer(lawyer: Id, serviceIds: seq<Id>): (r: seq<Link>)
    ensures |r| == |serviceIds|
    ensures forall i :: 0 <= i < |r| ==> r[i] == Link(lawyer, serviceIds[i])
  {
    if serviceIds == [] then [] else [Link(lawyer, serviceIds[0])] + RowsForLawyer(lawyer, serviceIds[1..])
  }

  /** The rows `lawyerIds.map(id => connect)` creates for one service. */
  function RowsForService(service: Id, lawyerIds: seq<Id>): (r: seq<Link>)
    ensures |r| == |lawyerIds|
    ensures forall i :: 0 <= i < |r| ==> r[i] == Link(lawyerIds[i], service)
  {
    if lawyerIds == [] then [] else [Link(lawyerIds[0], service)] + RowsForService(service, lawyerIds[1..])
  }

  lemma {:induction false} ServiceIdsOfAppend(a: seq<Link>, b: seq<Link>, lawyer: Id)
    ensures ServiceIdsOf(a + b, lawyer) == ServiceIdsOf(a, lawyer) + ServiceIdsOf(b, lawyer)
  {
    if a != [] {
      assert (a + b)[1..] == a[1..] + b;
      ServiceIdsOfAppend(a[1..], b, lawyer);
    } else {
      assert a + b == b;
    }
  }

  lemma {:induction false} LawyerIdsOfAppend(a: seq<Link>, b: seq<Link>, service: Id)
    ensures LawyerIdsOf(a + b, service) == LawyerIdsOf(a, service) + LawyerIdsOf(b, service)
  {
    if a != [] {
      assert (a + b)[1..] == a[1..] + b;
      LawyerIdsOfAppend(a[1..], b, service);
    } else {
      assert a + b == b;
    }
  }

  lemma {:induction false} DropLawyerEffect(links: seq<Link>, lawyer: Id, other: Id)
    ensures ServiceIdsOf(DropLawyer(links, lawyer), lawyer) == []
    ensures other != lawyer ==> ServiceIdsOf(DropLawyer(links, lawyer), other) == ServiceIdsOf(links, other)
  {
    if links != [] {
      DropLawyerEffect(links[1..], lawyer, other);
      var head := if links[0].lawyerId == lawyer then [] else [links[0]];
      ServiceIdsOfAppend(head, DropLawyer(links[1..], lawyer), lawyer);
      ServiceIdsOfAppend(head, DropLawyer(links[1..], lawyer), other);
    }
  }

  lemma {:induction false} DropServiceEffect(links: seq<Link>, service: Id, other: Id)
    ensures LawyerIdsOf(DropService(links, service), service) == []
    ensures other != service ==> LawyerIdsOf(DropService(links, service), other) == LawyerIdsOf(links, other)
  {
    if links != [] {
      DropServiceEffect(links[1..], service, other);
      var head := if links[0].serviceId == service then [] else [links[0]];
      LawyerIdsOfAppend(head, DropService(links[1..], service), service);
      LawyerIdsOfAppend(head, DropService(links[1..], service), other);
    }
  }

  lemma {:induction false} RowsForLawyerIds(lawyer: Id, serviceIds: seq<Id>, other: Id)
    ensures ServiceIdsOf(RowsForLawyer(lawyer, serviceIds), lawyer) == serviceIds
    ensures other != lawyer ==> ServiceIdsOf(RowsForLawyer(lawyer, serviceIds), other) == []
  {
    if serviceIds != [] {
      RowsForLawyerIds(lawyer, serviceIds[1..], other);
      var r := RowsForLawyer(lawyer, serviceIds);
      assert r[1..] == RowsForLawyer(lawyer, serviceIds[1..]);
    }
  }

  lemma {:induction false} RowsForServiceIds(service: Id, lawyerIds: seq<Id>, other: Id)
    ensures LawyerIdsOf(RowsForService(service, lawyerIds), service) == lawyerIds
    ensures other != service ==> LawyerIdsOf(RowsForService(service, lawyerIds), other) == []
  {
    if lawyerIds != [] {
      RowsForServiceIds(service, lawyerIds[1..], other);
      var r := RowsForService(service, lawyerIds);
      assert r[1..] == RowsForService(service, lawyerIds[1..]);
    }
  }

  /** Replacing a lawyer's associations: drop all of its rows, then add one
      row per requested service. */
  function RelinkLawyer(links: seq<Link>, lawyer: Id, serviceIds: seq<Id>): seq<Link> {
    DropLawyer(links, lawyer) + RowsForLawyer(lawyer, serviceIds)
  }

  /** After a replacement the lawyer's services are exactly the requested
      list, in order, and every other lawyer keeps its services. */
  lemma RelinkLawyerExact(links: seq<Link>, lawyer: Id, serviceIds: seq<Id>, other: Id)
    ensures ServiceIdsOf(RelinkLawyer(links, lawyer, serviceIds), lawyer) == serviceIds
    ensures other != lawyer ==> ServiceIdsOf(RelinkLawyer(links, lawyer, serviceIds), other) == ServiceIdsOf(links, other)
  {
    ServiceIdsOfAppend(DropLawyer(links, lawyer), RowsForLawyer(lawyer, serviceIds), lawyer);
    ServiceIdsOfAppend(DropLawyer(links, lawyer), RowsForLawyer(lawyer, serviceIds), other);
    DropLawyerEffect(links, lawyer, other);
    RowsForLawyerIds(lawyer, serviceIds, other);
  }

  function RelinkService(links: seq<Link>, service: Id, lawyerIds: seq<Id>): seq<Link> {
    DropService(links, service) + RowsForService(service, lawyerIds)
  }

  /** After a replacement the service's lawyers are exactly the requested
      list, in order, and every other service keeps its lawyers. */
  lemma RelinkServiceExact(links: seq<Link>, service: Id, lawyerIds: seq<Id>, other: Id)
    ensures LawyerIdsOf(RelinkService(links, service, lawyerIds), service) == lawyerIds
    ensures other != service ==> LawyerIdsOf(RelinkService(links, service, lawyerIds), other) == LawyerIdsOf(links, other)
  {
    LawyerIdsOfAppend(DropService(links, service), RowsForService(service, lawyerIds), service);
    LawyerIdsOfAppend(DropService(links, service), RowsForService(service, lawyerIds), other);
    DropServiceEffect(links, service, other);
    RowsForServiceIds(service, lawyerIds, other);
  }

  lemma {:induction false} ServiceIdsOfResolve(links: seq<Link>, lawyer: Id, services: set<Id>)
    requires forall i :: 0 <= i < |links| ==> links[i].serviceId in services
    ensures forall j :: 0 <= j < |ServiceIdsOf(links, lawyer)| ==> ServiceIdsOf(links, lawyer)[j] in services
  {
    if links != [] {
      ServiceIdsOfResolve(links[1..], lawyer, services);
    }
  }

  lemma {:induction false} LawyerIdsOfResolve(links: seq<Link>, service: Id, lawyers: set<Id>)
    requires forall i :: 0 <= i < |links| ==> links[i].lawyerId in lawyers
    ensures forall j :: 0 <= j < |LawyerIdsOf(links, service)| ==> LawyerIdsOf(links, service)[j] in lawyers
  {
    if links != [] {
      LawyerIdsOfResolve(links[1..], service, lawyers);
    }
  }

  /** No join row names `service`, so it has no lawyers. */
  lemma {:induction false} NoRowsNoLawyers(links: seq<Link>, service: Id)
    requires forall i :: 0 <= i < |links| ==> links[i].serviceId != service
    ensures LawyerIdsOf(links, service) == []
  {
    if links != [] {
      NoRowsNoLawyers(links[1..], service);
    }
  }

  /** No join row names `lawyer`, so it has no services. */
  lemma {:induction false} NoRowsNoServices(links: seq<Link>, lawyer: Id)
    requires forall i :: 0 <= i < |links| ==> links[i].lawyerId != lawyer
    ensures ServiceIdsOf(links, lawyer) == []
  {
    if links != [] {
      NoRowsNoServices(links[1..], lawyer);
    }
  }

  /** The id list of a `lawyerIds`/`serviceIds` body field: rows are made
      only from a given array. */
  function Requested(f: Field<seq<Id>>): seq<Id> {
    if f.Given? then f.value else []
  }

  predicate AllIn(ids: seq<Id>, keys: set<Id>) {
    forall i :: 0 <= i < |ids| ==> ids[i] in keys
  }

  // ---------------------------------------------------------------------
  // Connected lawyers merged with bio-matched lawyers

  predicate BioMatches(l: Lawyer, serviceName: string) {
    JsString.EqualsIgnoreCase(l.bio, serviceName)
  }

  ghost predicate IdUnique(ls: seq<Lawyer>) {
    forall i, j :: 0 <= i < j < |ls| ==> ls[i].id != ls[j].id
  }

  function IdSet(ls: seq<Lawyer>): (ids: set<Id>)
    ensures forall l :: l in ls ==> l.id in ids
    ensures forall id :: id in ids ==> exists i :: 0 <= i < |ls| && ls[i].id == id
  {
    set i | 0 <= i < |ls| :: ls[i].id
  }

  /** What `prisma.lawyer.findMany({ where: { bio: { equals: name,
      mode: 'insensitive' } } })` may return: every bio-matching stored
      lawyer once, nothing else, in an order the database chooses. */
  ghost predicate IsBioListing(lawyers: map<Id, Lawyer>, serviceName: string, matched: seq<Lawyer>) {
    && IdUnique(matched)
    && (forall i :: 0 <= i < |matched| ==>
          matched[i].id in lawyers && lawyers[matched[i].id] == matched[i] && BioMatches(matched[i], serviceName))
    && (forall k :: k in lawyers && BioMatches(lawyers[k], serviceName) ==> lawyers[k] in matched)
  }

  /** `matched.filter(l => !connected.some(cl => cl.id === l.id))`. */
  function NotAmong(matched: seq<Lawyer>, ids: set<Id>): (r: seq<Lawyer>)
    ensures forall l :: l in r <==> l in matched && l.id !in ids
    ensures IdUnique(matched) ==> IdUnique(r)
  {
    if matched == [] then []
    else
      var rest := NotAmong(matched[1..], ids);
      if matched[0].id in ids then rest
      else
        assert IdUnique(matched) ==> forall l :: l in rest ==> l.id != matched[0].id by {
          if IdUnique(matched) {
            forall l | l in rest ensures l.id != matched[0].id {
              var j :| 0 <= j < |matched[1..]| && matched[1..][j] == l;
              assert matched[j + 1] == l;
            }
          }
        }
        [matched[0]] + rest
  }

  /** The combined lawyer list of a service: the connected lawyers in
      order, then the bio-matched lawyers not already connected. */
  function CombineLawyers(connected: seq<Lawyer>, matched: seq<Lawyer>): (r: seq<Lawyer>)
    ensures |connected| <= |r| && r[..|connected|] == connected
    ensures forall l :: l in r <==> l in connected || (l in matched && l.id !in IdSet(connected))
    // what follows the connected lawyers comes from the bio matches, shares
    // no id with a connected lawyer, and repeats no id the matches do not
    ensures forall i :: |connected| <= i < |r| ==> r[i] in matched && r[i].id !in IdSet(connected)
    ensures IdUnique(matched) ==> IdUnique(r[|connected|..])
  {
    var extra := NotAmong(matched, IdSet(connected));
    var r := connected + extra;
    assert r[..|connected|] == connected;
    assert r[|connected|..] == extra;
    assert forall i :: |connected| <= i < |r| ==> r[i] == extra[i - |connected|];
    r
  }

  /** Every bio-matched lawyer is represented in the combined list: either
      itself or a connected lawyer with the same id. */
  lemma CombineCoversMatched(connected: seq<Lawyer>, matched: seq<Lawyer>)
    ensures forall l :: l in matched ==>
      exists i :: 0 <= i < |CombineLawyers(connected, matched)| && CombineLawyers(connected, matched)[i].id == l.id
  {
    var r := CombineLawyers(connected, matched);
    var extra := NotAmong(matched, IdSet(connected));
    assert r == connected + extra;
    forall l | l in matched
      ensures exists i :: 0 <= i < |r| && r[i].id == l.id
    {
      if l.id in IdSet(connected) {
        var i :| 0 <= i < |connected| && connected[i].id == l.id;
        assert r[i] == connected[i];
      } else {
        assert l in extra;
        var i :| 0 <= i < |extra| && extra[i] == l;
        assert r[|connected| + i] == l;
      }
    }
  }

  /** When the connected list and the bio-matched list each hold a lawyer
      at most once, so does the combined list. */
  lemma CombineIdUnique(connected: seq<Lawyer>, matched: seq<Lawyer>)
    requires IdUnique(connected) && IdUnique(matched)
    ensures IdUnique(CombineLawyers(connected, matched))
  {
    var r := CombineLawyers(connected, matched);
    var extra := NotAmong(matched, IdSet(connected));
    assert r == connected + extra;
    forall i, j | 0 <= i < j < |r|
      ensures r[i].id != r[j].id
    {
      if j >= |connected| {
        assert r[j] == extra[j - |connected|];
        assert r[j] in extra;
        if i < |connected| {
          assert r[i] == connected[i];
        } else {
          assert r[i] == extra[i - |connected|];
        }
      }
    }
  }

  /** A service with its combined lawyer list. */
  datatype ServiceView = ServiceView(service: Service, lawyers: seq<Lawyer>)

  /** The connected lawyers of a stored service, flattened from its join
      rows. */
  function ConnectedLawyers(c: Catalog, service: Id): (r: seq<Lawyer>)
    requires ValidCatalog(c)
    ensures |r| == |LawyerIdsOf(c.links, service)|
    ensures forall i :: 0 <= i < |r| ==>
      LawyerIdsOf(c.links, service)[i] in c.lawyers && r[i] == c.lawyers[LawyerIdsOf(c.links, service)[i]]
  {
    LawyerIdsOfResolve(c.links, service, c.lawyers.Keys);
    Resolve(LawyerIdsOf(c.links, service), c.lawyers)
  }

  /** The connected services of a stored lawyer, flattened from its join
      rows. */
  function ConnectedServices(c: Catalog, lawyer: Id): (r: seq<Service>)
    requires ValidCatalog(c)
    ensures |r| == |ServiceIdsOf(c.links, lawyer)|
    ensures forall i :: 0 <= i < |r| ==>
      ServiceIdsOf(c.links, lawyer)[i] in c.services && r[i] == c.services[ServiceIdsOf(c.links, lawyer)[i]]
  {
    ServiceIdsOfResolve(c.links, lawyer, c.services.Keys);
    Resolve(ServiceIdsOf(c.links, lawyer), c.services)
  }

  /** A lawyer is in the combined list of a service exactly when it is
      connected to it or its bio equals the service name ignoring case. */
  lemma CombinedMembership(c: Catalog, s: Service, matched: seq<Lawyer>, k: Id)
    requires ValidCatalog(c) && s.id in c.services
    requires IsBioListing(c.lawyers, s.name, matched)
    requires k in c.lawyers
    ensures c.lawyers[k] in CombineLawyers(ConnectedLawyers(c, s.id), matched) <==>
      (c.lawyers[k] in ConnectedLawyers(c, s.id) || BioMatches(c.lawyers[k], s.name))
  {
    var connected := ConnectedLawyers(c, s.id);
    var l := c.lawyers[k];
    if l.id in IdSet(connected) {
      var i :| 0 <= i < |connected| && connected[i].id == l.id;
      assert connected[i] == l;
    }
    if BioMatches(l, s.name) {
      assert l in matched;
    }
    if l in matched {
      var i :| 0 <= i < |matched| && matched[i] == l;
      assert BioMatches(matched[i], s.name);
    }
  }
}
