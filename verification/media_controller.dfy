/** Media coverage (`mediaController`): create with required fields and a
    URL check, partial update that checks the link only when one is sent,
    and delete. `new URL(link)` is the parameter `isUrl`: it answers whether
    the URL constructor accepts the string. */
module MediaController {
  import opened Common

  const MsgRequired := "Title, description, and link are required."
  const MsgInvalidUrl := "Please provide a valid URL for the link."
  const MsgNotFound := "Media coverage not found."

  datatype Media = Media(id: Id, title: string, description: string, link: string)

  datatype MediaBody = MediaBody(title: Field<string>, description: Field<string>, link: Field<string>)

  /** Whether `new URL(s)` succeeds. */
  type UrlParser = string -> bool

  ghost predicate ValidMedia(store: map<Id, Media>) {
    forall k :: k in store ==> store[k].id == k
  }

  /** Every stored link is one the URL constructor accepts. */
  ghost predicate LinksParse(store: map<Id, Media>, isUrl: UrlParser) {
    forall k :: k in store ==> isUrl(store[k].link)
  }

  // ---------------------------------------------------------------------
  // getAllMedia

  /** `order` is the database's listing of the ids (sorted by title, which
      is not modelled). */
  function GetAllMedia(store: map<Id, Media>, order: seq<Id>): (r: Reply<seq<Media>>)
    requires Enumerates(order, store.Keys)
    ensures r.Ok? && r.status == 200 && |r.body| == |order| == |store|
    ensures forall i :: 0 <= i < |r.body| ==> order[i] in store && r.body[i] == store[order[i]]
  {
    EnumerationSize(order, store.Keys);
    Ok(200, Resolve(order, store))
  }

  // ---------------------------------------------------------------------
  // createMedia

  /** `newId` is the id the database generates. */
  function CreateMedia(store: map<Id, Media>, isUrl: UrlParser, body: MediaBody, newId: Id): (h: Handled<map<Id, Media>, Media>)
    requires ValidMedia(store) && newId !in store
    ensures !Truthy(body.title) || !Truthy(body.description) || !Truthy(body.link) ==>
      h == Handled(Err(400, MsgRequired), store)
    // the URL is checked only once all three fields are present
    ensures Truthy(body.title) && Truthy(body.description) && Truthy(body.link) && !isUrl(body.link.value) ==>
      h == Handled(Err(400, MsgInvalidUrl), store)
    ensures h.reply.Ok? <==>
      Truthy(body.title) && Truthy(body.description) && Truthy(body.link) && isUrl(body.link.value)
    ensures !h.reply.Ok? ==> h.store == store
    ensures h.reply.Ok? ==>
      && h.reply.status == 201
      && h.reply.body == Media(newId, body.title.value, body.description.value, body.link.value)
      && h.store == store[newId := h.reply.body]
    ensures ValidMedia(h.store)
    ensures LinksParse(store, isUrl) ==> LinksParse(h.store, isUrl)
  {
    if !Truthy(body.title) || !Truthy(body.description) || !Truthy(body.link) then
      Handled(Err(400, MsgRequired), store)
    else if !isUrl(body.link.value) then
      Handled(Err(400, MsgInvalidUrl), store)
    else
      var m := Media(newId, body.title.value, body.description.value, body.link.value);
      Handled(Ok(201, m), store[newId := m])
  }

  // ---------------------------------------------------------------------
  // updateMedia

  /** The record after an update: each truthy field replaces the stored
      one. */
  function UpdatedMedia(current: Media, body: MediaBody): (m: Media)
    ensures m.id == current.id
    ensures Truthy(body.title) ==> m.title == body.title.value
    ensures !Truthy(body.title) ==> m.title == current.title
    ensures Truthy(body.description) ==> m.description == body.description.value
    ensures !Truthy(body.description) ==> m.description == current.description
    ensures Truthy(body.link) ==> m.link == body.link.value
    ensures !Truthy(body.link) ==> m.link == current.link
  {
    Media(current.id, IfTruthy(body.title, current.title), IfTruthy(body.description, current.description),
          IfTruthy(body.link, current.link))
  }

  function UpdateMedia(store: map<Id, Media>, isUrl: UrlParser, id: Id, body: MediaBody): (h: Handled<map<Id, Media>, Media>)
    requires ValidMedia(store)
    // an unknown id is reported before the link is looked at
    ensures id !in store ==> h == Handled(Err(404, MsgNotFound), store)
    ensures id in store && Truthy(body.link) && !isUrl(body.link.value) ==>
      h == Handled(Err(400, MsgInvalidUrl), store)
    ensures h.reply.Ok? <==> id in store && (Truthy(body.link) ==> isUrl(body.link.value))
    ensures !h.reply.Ok? ==> h.store == store
    ensures h.reply.Ok? ==>
      && h.reply.status == 200
      && h.reply.body == UpdatedMedia(store[id], body)
      && h.store == store[id := h.reply.body]
    ensures ValidMedia(h.store)
    ensures LinksParse(store, isUrl) ==> LinksParse(h.store, isUrl)
  {
    if id !in store then Handled(Err(404, MsgNotFound), store)
    else if Truthy(body.link) && !isUrl(body.link.value) then Handled(Err(400, MsgInvalidUrl), store)
    else
      var m := UpdatedMedia(store[id], body);
      Handled(Ok(200, m), store[id := m])
  }

  /** Sending the same update twice leaves what the first one left. */
  lemma UpdateMediaIdempotent(store: map<Id, Media>, isUrl: UrlParser, id: Id, body: MediaBody)
    requires ValidMedia(store)
    requires UpdateMedia(store, isUrl, id, body).reply.Ok?
    ensures var h1 := UpdateMedia(store, isUrl, id, body);
      var h2 := UpdateMedia(h1.store, isUrl, id, body);
      h2.reply == h1.reply && h2.store == h1.store
  {
    var h1 := UpdateMedia(store, isUrl, id, body);
    assert UpdatedMedia(h1.reply.body, body) == h1.reply.body;
    assert h1.store[id := h1.reply.body] == h1.store;
  }

  // ---------------------------------------------------------------------
  // deleteMedia

  function DeleteMedia(store: map<Id, Media>, id: Id): (h: Handled<map<Id, Media>, Unit>)
    ensures id !in store ==> h == Handled(Err(404, MsgNotFound), store)
    ensures id in store ==> h.reply == Ok(200, Unit) && h.store == store - {id}
    ensures forall k :: k in h.store ==> k in store && h.store[k] == store[k]
    ensures ValidMedia(store) ==> ValidMedia(h.store)
    ensures forall isUrl: UrlParser :: LinksParse(store, isUrl) ==> LinksParse(h.store, isUrl)
  {
    if id !in store then Handled(Err(404, MsgNotFound), store)
    else Handled(Ok(200, Unit), store - {id})
  }

  /** Deleting a record just created gives back the original records. */
  lemma CreateThenDeleteMedia(store: map<Id, Media>, isUrl: UrlParser, body: MediaBody, newId: Id)
    requires ValidMedia(store) && newId !in store
    requires CreateMedia(store, isUrl, body, newId).reply.Ok?
    ensures var h := DeleteMedia(CreateMedia(store, isUrl, body, newId).store, newId);
      h.reply == Ok(200, Unit) && h.store == store
  {
    var created := CreateMedia(store, isUrl, body, newId).store;
    assert created - {newId} == store;
  }
}
