/** Lawyers (`lawyerController`): the public listings that flatten a
    lawyer's join rows into its services, and the admin create, update and
    delete handlers. */
module LawyerController {
  import opened Common
  import opened Catalog
  import ServiceController

  const MsgRequired := "Name, title, and bio are required."
  const MsgNotFound := "Lawyer not found."

  datatype LawyerBody = LawyerBody(
    name: Field<string>,
    title: Field<string>,
    bio: Field<string>,
    imageUrl: Field<string>,
    serviceIds: Field<seq<Id>>)

  /** A lawyer with its services, as the handlers answer it. */
  datatype LawyerView = LawyerView(lawyer: Lawyer, services: seq<Service>)

  /** The flattened view of a stored lawyer: its services in join-row
      order, one per join row. */
  function ViewOf(c: Catalog, id: Id): (v: LawyerView)
    requires ValidCatalog(c) && id in c.lawyers
    ensures v.lawyer == c.lawyers[id]
    ensures |v.services| == |ServiceIdsOf(c.links, id)|
    ensures forall i :: 0 <= i < |v.services| ==>
      ServiceIdsOf(c.links, id)[i] in c.services && v.services[i] == c.services[ServiceIdsOf(c.links, id)[i]]
  {
    LawyerView(c.lawyers[id], ConnectedServices(c, id))
  }

  // ---------------------------------------------------------------------
  // getAllLawyers / getLawyerById

  /** `order` is the database's listing of the lawyer ids (sorted by name,
      which is not modelled). */
  function GetAllLawyers(c: Catalog, order: seq<Id>): (r: Reply<seq<LawyerView>>)
    requires ValidCatalog(c)
    requires Enumerates(order, c.lawyers.Keys)
    ensures r.Ok? && r.status == 200 && |r.body| == |order|
    ensures forall i :: 0 <= i < |order| ==> order[i] in c.lawyers && r.body[i] == ViewOf(c, order[i])
    ensures forall k :: k in c.lawyers ==> exists i :: 0 <= i < |r.body| && r.body[i].lawyer == c.lawyers[k]
  {
    Ok(200, seq(|order|, i requires 0 <= i < |order| => ViewOf(c, order[i])))
  }

  function GetLawyerById(c: Catalog, id: Id): (r: Reply<LawyerView>)
    requires ValidCatalog(c)
    ensures id !in c.lawyers ==> r == Err(404, MsgNotFound)
    ensures id in c.lawyers ==> r.Ok? && r.status == 200 && r.body == ViewOf(c, id)
  {
    if id !in c.lawyers then Err(404, MsgNotFound) else Ok(200, ViewOf(c, id))
  }

  // ---------------------------------------------------------------------
  // createLawyer

  /** `newId` is the id the database generates; `uploadedFile` is the
      stored file name of an uploaded image, if any. A service id that does
      not exist makes the nested `connect` throw. */
  function CreateLawyer(c: Catalog, body: LawyerBody, uploadedFile: Option<string>, newId: Id): (h: Handled<Catalog, LawyerView>)
    requires ValidCatalog(c) && newId !in c.lawyers
    ensures !Truthy(body.name) || !Truthy(body.title) || !Truthy(body.bio) ==>
      h == Handled(Err(400, MsgRequired), c)
    ensures !h.reply.Ok? ==> h.store == c
    ensures h.reply.Ok? <==>
      Truthy(body.name) && Truthy(body.title) && Truthy(body.bio)
      && AllIn(Requested(body.serviceIds), c.services.Keys)
    ensures h.reply.Ok? ==>
      var l := h.reply.body.lawyer;
      && h.reply.status == 201
      && l == Lawyer(newId, body.name.value, body.title.value, body.bio.value,
                     ToColumn(ImageField(body.imageUrl, uploadedFile)))
      && h.store == InsertLawyer(c, l, Requested(body.serviceIds))
      && h.reply.body.services == Resolve(Requested(body.serviceIds), c.services)
    ensures ValidCatalog(h.store)
  {
    if !Truthy(body.name) || !Truthy(body.title) || !Truthy(body.bio) then
      Handled(Err(400, MsgRequired), c)
    else
      var ids := Requested(body.serviceIds);
      if !AllIn(ids, c.services.Keys) then Handled(Fault(500), c)
      else
        var l := Lawyer(newId, body.name.value, body.title.value, body.bio.value,
                        ToColumn(ImageField(body.imageUrl, uploadedFile)));
        Handled(Ok(201, LawyerView(l, Resolve(ids, c.services))), InsertLawyer(c, l, ids))
  }

  /** The write of a successful create: the new row and one join row per
      requested service (none for an absent or empty list). */
  function InsertLawyer(c: Catalog, l: Lawyer, ids: seq<Id>): (c': Catalog)
    requires ValidCatalog(c) && l.id !in c.lawyers
    requires AllIn(ids, c.services.Keys)
    ensures c'.lawyers == c.lawyers[l.id := l] && c'.services == c.services
    ensures ServiceIdsOf(c'.links, l.id) == ids
    ensures forall o :: o != l.id ==> ServiceIdsOf(c'.links, o) == ServiceIdsOf(c.links, o)
    ensures ids == [] ==> c'.links == c.links
    ensures ValidCatalog(c')
  {
    var rows := RowsForLawyer(l.id, ids);
    var c' := Catalog(c.lawyers[l.id := l], c.services, c.links + rows);
    NoRowsNoServices(c.links, l.id);
    ServiceIdsOfAppend(c.links, rows, l.id);
    RowsForLawyerIds(l.id, ids, l.id);
    assert forall o :: o != l.id ==> ServiceIdsOf(c'.links, o) == ServiceIdsOf(c.links, o) by {
      forall o | o != l.id
        ensures ServiceIdsOf(c'.links, o) == ServiceIdsOf(c.links, o)
      {
        ServiceIdsOfAppend(c.links, rows, o);
        RowsForLawyerIds(l.id, ids, o);
      }
    }
    assert LinksResolve(c') by {
      forall i | 0 <= i < |c'.links|
        ensures c'.links[i].lawyerId in c'.lawyers && c'.links[i].serviceId in c'.services
      {
        if i >= |c.links| {
          assert c'.links[i] == rows[i - |c.links|];
        }
      }
    }
    assert ids == [] ==> c'.links == c.links by {
      if ids == [] {
        assert rows == [];
      }
    }
    c'
  }

  // ---------------------------------------------------------------------
  // updateLawyer

  /** The record after an update: truthy name, title and bio replace the
      stored ones, while the image URL is written whenever it is defined, so
      `null` clears it and `""` is stored as given. */
  function UpdatedLawyer(current: Lawyer, body: LawyerBody, uploadedFile: Option<string>): (l: Lawyer)
    ensures l.id == current.id
    ensures Truthy(body.name) ==> l.name == body.name.value
    ensures !Truthy(body.name) ==> l.name == current.name
    ensures Truthy(body.title) ==> l.title == body.title.value
    ensures !Truthy(body.title) ==> l.title == current.title
    ensures Truthy(body.bio) ==> l.bio == body.bio.value
    ensures !Truthy(body.bio) ==> l.bio == current.bio
    ensures uploadedFile.Some? ==> l.imageUrl == Some("/upload/" + uploadedFile.value)
    ensures uploadedFile.None? && body.imageUrl.Given? ==> l.imageUrl == Some(body.imageUrl.value)
    ensures uploadedFile.None? && body.imageUrl.Null? ==> l.imageUrl == None
    ensures uploadedFile.None? && body.imageUrl.Undefined? ==> l.imageUrl == current.imageUrl
  {
    Lawyer(current.id, IfTruthy(body.name, current.name), IfTruthy(body.title, current.title),
           IfTruthy(body.bio, current.bio),
           IfDefinedColumn(ImageField(body.imageUrl, uploadedFile), current.imageUrl))
  }

  function UpdateLawyer(c: Catalog, id: Id, body: LawyerBody, uploadedFile: Option<string>): (h: Handled<Catalog, LawyerView>)
    requires ValidCatalog(c)
    ensures id !in c.lawyers ==> h == Handled(Err(404, MsgNotFound), c)
    ensures !h.reply.Ok? ==> h.store == c
    ensures h.reply.Ok? <==> id in c.lawyers && AllIn(Requested(body.serviceIds), c.services.Keys)
    ensures h.reply.Ok? ==>
      && h.reply.status == 200
      && h.store.lawyers == c.lawyers[id := UpdatedLawyer(c.lawyers[id], body, uploadedFile)]
      && h.store.services == c.services
      // a given list (even an empty one) replaces the associations; no list keeps them
      && (body.serviceIds.Given? ==> ServiceIdsOf(h.store.links, id) == body.serviceIds.value)
      && (!body.serviceIds.Given? ==> h.store.links == c.links)
      && (forall o :: o != id ==> ServiceIdsOf(h.store.links, o) == ServiceIdsOf(c.links, o))
    ensures ValidCatalog(h.store)
    ensures h.reply.Ok? ==> h.reply.body == ViewOf(h.store, id)
  {
    if id !in c.lawyers then Handled(Err(404, MsgNotFound), c)
    else if !AllIn(Requested(body.serviceIds), c.services.Keys) then Handled(Fault(500), c)
    else
      var l := UpdatedLawyer(c.lawyers[id], body, uploadedFile);
      var links := if body.serviceIds.Given? then RelinkLawyer(c.links, id, body.serviceIds.value) else c.links;
      var c' := Catalog(c.lawyers[id := l], c.services, links);
      assert forall o :: o != id ==> ServiceIdsOf(links, o) == ServiceIdsOf(c.links, o) by {
        forall o | o != id
          ensures ServiceIdsOf(links, o) == ServiceIdsOf(c.links, o)
        {
          if body.serviceIds.Given? {
            RelinkLawyerExact(c.links, id, body.serviceIds.value, o);
          }
        }
      }
      assert body.serviceIds.Given? ==> ServiceIdsOf(links, id) == body.serviceIds.value by {
        if body.serviceIds.Given? {
          RelinkLawyerExact(c.links, id, body.serviceIds.value, id);
        }
      }
      assert LinksResolve(c') by {
        if body.serviceIds.Given? {
          var kept := DropLawyer(c.links, id);
          var rows := RowsForLawyer(id, body.serviceIds.value);
          forall i | 0 <= i < |links|
            ensures links[i].lawyerId in c'.lawyers && links[i].serviceId in c'.services
          {
            if i < |kept| {
              assert links[i] == kept[i];
              assert kept[i] in c.links;
            } else {
              assert links[i] == rows[i - |kept|];
            }
          }
        }
      }
      Handled(Ok(200, ViewOf(c', id)), c')
  }

  /** The image URL rules of the two update handlers differ: an empty
      string sent for a lawyer is stored, and `null` clears the column,
      while a service keeps its image for both. */
  lemma ImageUrlRulesDiffer(lawyer: Lawyer, lawyerBody: LawyerBody, service: Service, serviceBody: ServiceController.ServiceBody)
    requires lawyerBody.imageUrl == serviceBody.imageUrl
    requires lawyerBody.imageUrl == Null || lawyerBody.imageUrl == Given("")
    ensures UpdatedLawyer(lawyer, lawyerBody, None).imageUrl == ToColumn(lawyerBody.imageUrl)
    ensures ServiceController.UpdatedService(service, serviceBody, None).imageUrl == service.imageUrl
  {
  }

  // ---------------------------------------------------------------------
  // deleteLawyer

  /** The handler deletes the lawyer row only; its join rows are the
      database's cascade, which is not part of this model. */
  function DeleteLawyer(c: Catalog, id: Id): (h: Handled<Catalog, Unit>)
    ensures id !in c.lawyers ==> h == Handled(Err(404, MsgNotFound), c)
    ensures id in c.lawyers ==>
      h.reply == Ok(200, Unit) && h.store == c.(lawyers := c.lawyers - {id})
  {
    if id !in c.lawyers then Handled(Err(404, MsgNotFound), c)
    else Handled(Ok(200, Unit), c.(lawyers := c.lawyers - {id}))
  }

  /** Deleting a lawyer just created gives back the original lawyer table. */
  lemma CreateThenDeleteLawyer(c: Catalog, body: LawyerBody, uploadedFile: Option<string>, newId: Id)
    requires ValidCatalog(c) && newId !in c.lawyers
    requires CreateLawyer(c, body, uploadedFile, newId).reply.Ok?
    ensures var h := DeleteLawyer(CreateLawyer(c, body, uploadedFile, newId).store, newId);
      h.reply == Ok(200, Unit) && h.store.lawyers == c.lawyers
  {
    var c1 := CreateLawyer(c, body, uploadedFile, newId).store;
    assert c1.lawyers - {newId} == c.lawyers;
  }
}
