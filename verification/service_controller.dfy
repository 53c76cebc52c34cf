/** Practice-area services (`serviceController`): the public view that
    merges connected and bio-matched lawyers, and the admin create, update
    and delete handlers with their slug and association rules. */
module ServiceController {
  import opened Common
  import opened Catalog

  const MsgRequired := "Name, slug, and description are required."
  const MsgSlugExists := "A service with this slug already exists."
  const MsgSlugConflict := "Slug already exists."
  const MsgNotFound := "Service not found."

  datatype ServiceBody = ServiceBody(
    name: Field<string>,
    slug: Field<string>,
    description: Field<string>,
    imageUrl: Field<string>,
    lawyerIds: Field<seq<Id>>)

  // ---------------------------------------------------------------------
  // getAllServices / getServiceBySlug

  /** A stored service with its combined lawyer list; `matched` is what the
      bio query answers for it. */
  function CombinedView(c: Catalog, s: Service, matched: seq<Lawyer>): (v: ServiceView)
    requires ValidCatalog(c) && s.id in c.services && c.services[s.id] == s
    requires IsBioListing(c.lawyers, s.name, matched)
    ensures v.service == s
    // the connected lawyers come first, in join-row order
    ensures |ConnectedLawyers(c, s.id)| <= |v.lawyers|
    ensures v.lawyers[..|ConnectedLawyers(c, s.id)|] == ConnectedLawyers(c, s.id)
    // and a stored lawyer is listed iff it is connected or its bio is the service name
    ensures forall k :: k in c.lawyers ==>
      (c.lawyers[k] in v.lawyers <==> c.lawyers[k] in ConnectedLawyers(c, s.id) || BioMatches(c.lawyers[k], s.name))
    // every listed lawyer is a stored one
    ensures forall l :: l in v.lawyers ==> l.id in c.lawyers && c.lawyers[l.id] == l
    // the bio-matched part adds each lawyer once, and none already connected
    ensures IdUnique(v.lawyers[|ConnectedLawyers(c, s.id)|..])
    ensures forall i :: |ConnectedLawyers(c, s.id)| <= i < |v.lawyers| ==>
      v.lawyers[i].id !in IdSet(ConnectedLawyers(c, s.id))
    ensures IdUnique(ConnectedLawyers(c, s.id)) ==> IdUnique(v.lawyers)
  {
    var connected := ConnectedLawyers(c, s.id);
    var view := ServiceView(s, CombineLawyers(connected, matched));
    assert forall k :: k in c.lawyers ==>
      (c.lawyers[k] in view.lawyers <==> c.lawyers[k] in connected || BioMatches(c.lawyers[k], s.name)) by {
      forall k | k in c.lawyers
        ensures c.lawyers[k] in view.lawyers <==> c.lawyers[k] in connected || BioMatches(c.lawyers[k], s.name)
      {
        CombinedMembership(c, s, matched, k);
      }
    }
    assert forall l :: l in view.lawyers ==> l.id in c.lawyers && c.lawyers[l.id] == l by {
      forall l | l in view.lawyers
        ensures l.id in c.lawyers && c.lawyers[l.id] == l
      {
        if l in connected {
          var i :| 0 <= i < |connected| && connected[i] == l;
        } else {
          var i :| 0 <= i < |matched| && matched[i] == l;
        }
      }
    }
    assert IdUnique(connected) ==> IdUnique(view.lawyers) by {
      if IdUnique(connected) {
        CombineIdUnique(connected, matched);
      }
    }
    view
  }

  /** `order` is the database's listing of the service ids (sorted by name,
      which is not modelled); `matched(k)` is the bio query's answer for
      service `k`. Every service appears once, with its combined view. */
  function GetAllServices(c: Catalog, order: seq<Id>, matched: Id -> seq<Lawyer>): (r: Reply<seq<ServiceView>>)
    requires ValidCatalog(c)
    requires Enumerates(order, c.services.Keys)
    requires forall k :: k in c.services ==> IsBioListing(c.lawyers, c.services[k].name, matched(k))
    ensures r.Ok? && r.status == 200 && |r.body| == |order|
    ensures forall i :: 0 <= i < |order| ==>
      order[i] in c.services && r.body[i] == CombinedView(c, c.services[order[i]], matched(order[i]))
    ensures forall k :: k in c.services ==> exists i :: 0 <= i < |r.body| && r.body[i].service == c.services[k]
  {
    var views := seq(|order|, i requires 0 <= i < |order| => CombinedView(c, c.services[order[i]], matched(order[i])));
    Ok(200, views)
  }

  function GetServiceBySlug(c: Catalog, slug: string, matched: seq<Lawyer>): (r: Reply<ServiceView>)
    requires ValidCatalog(c)
    requires forall k :: k in c.services && c.services[k].slug == slug ==> IsBioListing(c.lawyers, c.services[k].name, matched)
    ensures !SlugTaken(c.services, slug) ==> r == Err(404, MsgNotFound)
    ensures r.Ok? <==> SlugTaken(c.services, slug)
    ensures r.Ok? ==>
      var s := r.body.service;
      && r.status == 200
      && s.id in c.services && c.services[s.id] == s && s.slug == slug
      && r.body == CombinedView(c, s, matched)
  {
    match ServiceBySlug(c.services, slug)
    case None => Err(404, MsgNotFound)
    case Some(s) => Ok(200, CombinedView(c, s, matched))
  }

  // ---------------------------------------------------------------------
  // createService

  /** `newId` is the id the database generates; `uploadedFile` is the
      stored file name of an uploaded image, if any. */
  function CreateService(c: Catalog, body: ServiceBody, uploadedFile: Option<string>, newId: Id): (h: Handled<Catalog, ServiceView>)
    requires ValidCatalog(c) && newId !in c.services
    ensures !Truthy(body.name) || !Truthy(body.slug) || !Truthy(body.description) ==>
      h == Handled(Err(400, MsgRequired), c)
    ensures Truthy(body.name) && Truthy(body.slug) && Truthy(body.description) && SlugTaken(c.services, body.slug.value) ==>
      h == Handled(Err(400, MsgSlugExists), c)
    ensures !h.reply.Ok? ==> h.store == c
    ensures h.reply.Ok? <==>
      Truthy(body.name) && Truthy(body.slug) && Truthy(body.description)
      && !SlugTaken(c.services, body.slug.value)
      && AllIn(Requested(body.lawyerIds), c.lawyers.Keys)
    ensures h.reply.Ok? ==>
      var s := h.reply.body.service;
      && h.reply.status == 201
      && s == Service(newId, body.name.value, body.slug.value, body.description.value,
                      ToColumn(ImageField(body.imageUrl, uploadedFile)))
      && h.store == InsertService(c, s, Requested(body.lawyerIds))
      && h.reply.body.lawyers == Resolve(Requested(body.lawyerIds), c.lawyers)
    ensures ValidCatalog(h.store)
  {
    if !Truthy(body.name) || !Truthy(body.slug) || !Truthy(body.description) then
      Handled(Err(400, MsgRequired), c)
    else if ServiceBySlug(c.services, body.slug.value).Some? then
      Handled(Err(400, MsgSlugExists), c)
    else
      var ids := Requested(body.lawyerIds);
      if !AllIn(ids, c.lawyers.Keys) then Handled(Fault(500), c)
      else
        var s := Service(newId, body.name.value, body.slug.value, body.description.value,
                         ToColumn(ImageField(body.imageUrl, uploadedFile)));
        Handled(Ok(201, ServiceView(s, Resolve(ids, c.lawyers))), InsertService(c, s, ids))
  }

  /** The write of a successful create: the new row and one join row per
      requested lawyer. */
  function InsertService(c: Catalog, s: Service, ids: seq<Id>): (c': Catalog)
    requires ValidCatalog(c) && s.id !in c.services && !SlugTaken(c.services, s.slug)
    requires AllIn(ids, c.lawyers.Keys)
    ensures c'.services == c.services[s.id := s] && c'.lawyers == c.lawyers
    ensures LawyerIdsOf(c'.links, s.id) == ids
    ensures forall o :: o != s.id ==> LawyerIdsOf(c'.links, o) == LawyerIdsOf(c.links, o)
    ensures ValidCatalog(c')
  {
    var rows := RowsForService(s.id, ids);
    var c' := Catalog(c.lawyers, c.services[s.id := s], c.links + rows);
    NoRowsNoLawyers(c.links, s.id);
    LawyerIdsOfAppend(c.links, rows, s.id);
    RowsForServiceIds(s.id, ids, s.id);
    assert forall o :: o != s.id ==> LawyerIdsOf(c'.links, o) == LawyerIdsOf(c.links, o) by {
      forall o | o != s.id
        ensures LawyerIdsOf(c'.links, o) == LawyerIdsOf(c.links, o)
      {
        LawyerIdsOfAppend(c.links, rows, o);
        RowsForServiceIds(s.id, ids, o);
      }
    }
    assert LinksResolve(c') by {
      forall i | 0 <= i < |c'.links|
        ensures c'.links[i].lawyerId in c'.lawyers && c'.links[i].serviceId in c'.services
      {
        if i >= |c.links| {
          assert c'.links[i] == rows[i - |c.links|];
        }
      }
    }
    c'
  }

  // ---------------------------------------------------------------------
  // updateService

  /** The record after an update: truthy name, slug, description and image
      replace the stored ones; everything else is kept. */
  function UpdatedService(current: Service, body: ServiceBody, uploadedFile: Option<string>): (s: Service)
    ensures s.id == current.id
    ensures Truthy(body.name) ==> s.name == body.name.value
    ensures !Truthy(body.name) ==> s.name == current.name
    ensures Truthy(body.slug) ==> s.slug == body.slug.value
    ensures !Truthy(body.slug) ==> s.slug == current.slug
    ensures Truthy(body.description) ==> s.description == body.description.value
    ensures !Truthy(body.description) ==> s.description == current.description
    ensures uploadedFile.Some? ==> s.imageUrl == Some("/upload/" + uploadedFile.value)
    ensures uploadedFile.None? && Truthy(body.imageUrl) ==> s.imageUrl == Some(body.imageUrl.value)
    ensures uploadedFile.None? && !Truthy(body.imageUrl) ==> s.imageUrl == current.imageUrl
  {
    Service(current.id, IfTruthy(body.name, current.name), IfTruthy(body.slug, current.slug),
            IfTruthy(body.description, current.description),
            IfTruthyColumn(ImageField(body.imageUrl, uploadedFile), current.imageUrl))
  }

  function UpdateService(c: Catalog, id: Id, body: ServiceBody, uploadedFile: Option<string>): (h: Handled<Catalog, ServiceView>)
    requires ValidCatalog(c)
    ensures id !in c.services ==> h == Handled(Err(404, MsgNotFound), c)
    // the slug is checked only when it changes
    ensures id in c.services && Truthy(body.slug) && body.slug.value != c.services[id].slug
            && SlugTaken(c.services, body.slug.value) ==>
      h == Handled(Err(400, MsgSlugConflict), c)
    ensures !h.reply.Ok? ==> h.store == c
    ensures h.reply.Ok? <==>
      id in c.services
      && !(Truthy(body.slug) && body.slug.value != c.services[id].slug && SlugTaken(c.services, body.slug.value))
      && AllIn(Requested(body.lawyerIds), c.lawyers.Keys)
    ensures h.reply.Ok? ==>
      && h.reply.status == 200
      && h.reply.body.service == UpdatedService(c.services[id], body, uploadedFile)
      && h.store.services == c.services[id := h.reply.body.service]
      && h.store.lawyers == c.lawyers
      // a given list replaces the associations wholesale; no list keeps them
      && (body.lawyerIds.Given? ==> LawyerIdsOf(h.store.links, id) == body.lawyerIds.value)
      && (!body.lawyerIds.Given? ==> h.store.links == c.links)
      && (forall o :: o != id ==> LawyerIdsOf(h.store.links, o) == LawyerIdsOf(c.links, o))
    ensures ValidCatalog(h.store)
    // the reply lists the service's lawyers as they stand after the write
    ensures h.reply.Ok? ==> h.reply.body.lawyers == ConnectedLawyers(h.store, id)
    ensures h.reply.Ok? && body.lawyerIds.Given? ==>
      AllIn(body.lawyerIds.value, c.lawyers.Keys) && h.reply.body.lawyers == Resolve(body.lawyerIds.value, c.lawyers)
  {
    if id !in c.services then Handled(Err(404, MsgNotFound), c)
    else
      var current := c.services[id];
      if Truthy(body.slug) && body.slug.value != current.slug && ServiceBySlug(c.services, body.slug.value).Some? then
        Handled(Err(400, MsgSlugConflict), c)
      else if !AllIn(Requested(body.lawyerIds), c.lawyers.Keys) then Handled(Fault(500), c)
      else
        var s := UpdatedService(current, body, uploadedFile);
        var links := if body.lawyerIds.Given? then RelinkService(c.links, id, body.lawyerIds.value) else c.links;
        var c' := Catalog(c.lawyers, c.services[id := s], links);
        assert forall o :: o != id ==> LawyerIdsOf(links, o) == LawyerIdsOf(c.links, o) by {
          forall o | o != id
            ensures LawyerIdsOf(links, o) == LawyerIdsOf(c.links, o)
          {
            if body.lawyerIds.Given? {
              RelinkServiceExact(c.links, id, body.lawyerIds.value, o);
            }
          }
        }
        assert body.lawyerIds.Given? ==> LawyerIdsOf(links, id) == body.lawyerIds.value by {
          if body.lawyerIds.Given? {
            RelinkServiceExact(c.links, id, body.lawyerIds.value, id);
          }
        }
        assert LinksResolve(c') by {
          if body.lawyerIds.Given? {
            var kept := DropService(c.links, id);
            var rows := RowsForService(id, body.lawyerIds.value);
            forall i | 0 <= i < |links|
              ensures links[i].lawyerId in c'.lawyers && links[i].serviceId in c'.services
            {
              if i < |kept| {
                assert links[i] == kept[i];
                assert kept[i] in c.links;
              } else {
                assert links[i] == rows[i - |kept|];
              }
            }
          }
        }
        assert ServiceSlugsUnique(c'.services);
        ServiceIdsOfResolve(links, id, c'.services.Keys);
        Handled(Ok(200, ServiceView(s, ConnectedLawyers(c', id))), c')
  }

  // ---------------------------------------------------------------------
  // deleteService

  /** The handler deletes the service row only; its join rows are the
      database's cascade, which is not part of this model. */
  function DeleteService(c: Catalog, id: Id): (h: Handled<Catalog, Unit>)
    ensures id !in c.services ==> h == Handled(Err(404, MsgNotFound), c)
    ensures id in c.services ==>
      h.reply == Ok(200, Unit) && h.store == c.(services := c.services - {id})
    // the remaining service records keep their ids and their distinct slugs
    ensures Keyed(c) ==> Keyed(h.store)
    ensures ServiceSlugsUnique(c.services) ==> ServiceSlugsUnique(h.store.services)
  {
    if id !in c.services then Handled(Err(404, MsgNotFound), c)
    else Handled(Ok(200, Unit), c.(services := c.services - {id}))
  }

  /** Deleting a service just created gives back the original service
      table, and its slug is free again. */
  lemma CreateThenDeleteService(c: Catalog, body: ServiceBody, uploadedFile: Option<string>, newId: Id)
    requires ValidCatalog(c) && newId !in c.services
    requires CreateService(c, body, uploadedFile, newId).reply.Ok?
    ensures var h := DeleteService(CreateService(c, body, uploadedFile, newId).store, newId);
      && h.reply == Ok(200, Unit)
      && h.store.services == c.services
      && !SlugTaken(h.store.services, body.slug.value)
  {
    var c1 := CreateService(c, body, uploadedFile, newId).store;
    assert c1.services - {newId} == c.services;
  }
}
