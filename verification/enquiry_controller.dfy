/** Client enquiries (`enquiryController`): the public submission with its
    required fields, email shape check and normalisation, the admin listing
    with its sort whitelist and pagination, and the admin delete. */
module EnquiryController {
  import opened Common
  import opened Pagination
  import JsString

  const EnquiriesPerPage: nat := 20
  const MsgRequired := "First name, last name, email, phone, message, and lawId are required."
  const MsgInvalidEmail := "Please provide a valid email address."
  const MsgNotFound := "Enquiry not found."

  datatype Enquiry = Enquiry(
    id: Id,
    firstName: string,
    lastName: string,
    email: string,
    phone: string,
    message: string,
    lawId: string,
    imageUrl: Option<string>)

  datatype EnquiryBody = EnquiryBody(
    firstName: Field<string>,
    lastName: Field<string>,
    email: Field<string>,
    phone: Field<string>,
    message: Field<string>,
    lawId: Field<string>,
    imageUrl: Field<string>)

  ghost predicate ValidEnquiries(store: map<Id, Enquiry>) {
    forall k :: k in store ==> store[k].id == k
  }

  lemma InsertKeyed(store: map<Id, Enquiry>, e: Enquiry)
    requires ValidEnquiries(store)
    ensures ValidEnquiries(store[e.id := e])
  {
  }

  // ---------------------------------------------------------------------
  // The email pattern ^[^\s@]+@[^\s@]+\.[^\s@]+$

  /** One `[^\s@]+` run. */
  ghost predicate Atom(s: string) {
    s != [] && JsString.NoSpace(s) && '@' !in s
  }

  /** What a match of the pattern is: the string splits at an '@' at `i`
      and a '.' at `j` into three runs without whitespace or '@'. */
  ghost predicate MatchesEmailPattern(e: string) {
    exists i, j :: 0 < i < j < |e| && e[i] == '@' && e[j] == '.'
      && Atom(e[..i]) && Atom(e[i + 1..j]) && Atom(e[j + 1..])
  }

  /** A '.' that is neither the first nor the last character. */
  predicate HasInnerDot(d: string) {
    exists k :: 0 < k < |d| - 1 && d[k] == '.'
  }

  /** `emailRegex.test(email)` as a direct computation: no whitespace, one
      '@' that is not the first character, and an inner '.' after it. */
  predicate EmailShape(e: string) {
    && JsString.NoSpace(e)
    && '@' in e
    && var i := JsString.IndexOf(e, '@');
       && i > 0
       && '@' !in e[i + 1..]
       && HasInnerDot(e[i + 1..])
  }

  /** `IndexOf` finds the first occurrence. */
  lemma {:induction false} IndexOfFirst(s: string, c: char, i: nat)
    requires i < |s| && s[i] == c && c !in s[..i]
    ensures JsString.IndexOf(s, c) == i
  {
    if i > 0 {
      assert s[..i][0] == s[0];
      assert s[1..][..i - 1] == s[..i][1..];
      IndexOfFirst(s[1..], c, i - 1);
    }
  }

  /** A slice of a string keeps what the whole string lacks. */
  lemma SliceLacks(s: string, a: nat, b: nat)
    requires a <= b <= |s|
    ensures JsString.NoSpace(s) ==> JsString.NoSpace(s[a..b])
    ensures '@' !in s ==> '@' !in s[a..b]
  {
    forall m | 0 <= m < b - a
      ensures s[a..b][m] == s[a + m]
    {
    }
  }

  lemma ShapeGivesPattern(e: string)
    requires EmailShape(e)
    ensures MatchesEmailPattern(e)
  {
    var i := JsString.IndexOf(e, '@');
    var d := e[i + 1..];
    var k :| 0 < k < |d| - 1 && d[k] == '.';
    var j := i + 1 + k;
    assert e[..i] == e[0..i];
    assert e[i + 1..j] == d[0..k];
    assert e[j + 1..] == d[k + 1..|d|];
    SliceLacks(e, 0, i);
    SliceLacks(e, i + 1, |e|);
    SliceLacks(d, 0, k);
    SliceLacks(d, k + 1, |d|);
    assert e[j] == '.';
    assert Atom(e[..i]) && Atom(e[i + 1..j]) && Atom(e[j + 1..]);
  }

  lemma NoSpaceConcat(a: string, b: string)
    requires JsString.NoSpace(a) && JsString.NoSpace(b)
    ensures JsString.NoSpace(a + b)
  {
    forall m | 0 <= m < |a + b|
      ensures !JsString.IsSpace((a + b)[m])
    {
      if m >= |a| {
        assert (a + b)[m] == b[m - |a|];
      }
    }
  }

  /** Three runs joined by '@' and '.' pass the computed check. */
  lemma ShapeOfParts(local: string, host: string, tld: string)
    requires Atom(local) && Atom(host) && Atom(tld)
    ensures EmailShape(local + "@" + host + "." + tld)
  {
    var d := host + "." + tld;
    var e := local + "@" + d;
    assert e == local + "@" + host + "." + tld;
    assert e[|local|] == '@' && e[..|local|] == local;
    IndexOfFirst(e, '@', |local|);
    assert e[|local| + 1..] == d;
    assert d[|host|] == '.';
    NoSpaceConcat(host, ".");
    NoSpaceConcat(host + ".", tld);
    NoSpaceConcat(local, "@");
    NoSpaceConcat(local + "@", d);
  }

  lemma PatternGivesShape(e: string)
    requires MatchesEmailPattern(e)
    ensures EmailShape(e)
  {
    var i, j :| 0 < i < j < |e| && e[i] == '@' && e[j] == '.'
      && Atom(e[..i]) && Atom(e[i + 1..j]) && Atom(e[j + 1..]);
    var local, host, tld := e[..i], e[i + 1..j], e[j + 1..];
    SplitAtTwo(e, i, j);
    ShapeOfParts(local, host, tld);
  }

  /** A string is its pieces around the characters at `i` and `j`. */
  lemma SplitAtTwo(e: string, i: nat, j: nat)
    requires i < j < |e| && e[i] == '@' && e[j] == '.'
    ensures e == e[..i] + "@" + e[i + 1..j] + "." + e[j + 1..]
  {
    assert e == e[..i] + [e[i]] + e[i + 1..j] + [e[j]] + e[j + 1..];
  }

  /** The computed check accepts exactly the strings the pattern matches. */
  lemma EmailShapeIsPattern(e: string)
    ensures EmailShape(e) <==> MatchesEmailPattern(e)
  {
    if EmailShape(e) {
      ShapeGivesPattern(e);
    }
    if MatchesEmailPattern(e) {
      PatternGivesShape(e);
    }
  }

  // ---------------------------------------------------------------------
  // createEnquiry

  predicate AllRequired(b: EnquiryBody) {
    Truthy(b.firstName) && Truthy(b.lastName) && Truthy(b.email)
    && Truthy(b.phone) && Truthy(b.message) && Truthy(b.lawId)
  }

  /** The row a valid submission stores: the names, phone and message
      trimmed, the email lower-cased and trimmed, and an image URL only if
      it is truthy. */
  function Normalised(id: Id, body: EnquiryBody): (e: Enquiry)
    requires AllRequired(body) && EmailShape(body.email.value)
    ensures e.id == id
  {
    Enquiry(id, JsString.Trim(body.firstName.value), JsString.Trim(body.lastName.value),
            JsString.Trim(JsString.Lower(body.email.value)), JsString.Trim(body.phone.value),
            JsString.Trim(body.message.value), body.lawId.value,
            if Truthy(body.imageUrl) then Some(body.imageUrl.value) else None)
  }

  /** An accepted email has no whitespace, so trimming it changes nothing:
      the stored email is the submitted one lower-cased, and it still passes
      the check. */
  lemma NormalisedEmail(id: Id, body: EnquiryBody)
    requires AllRequired(body) && EmailShape(body.email.value)
    ensures Normalised(id, body).email == JsString.Lower(body.email.value)
    ensures JsString.NoSpace(Normalised(id, body).email)
    ensures |Normalised(id, body).email| == |body.email.value|
  {
    JsString.LowerKeepsNoSpace(body.email.value);
    JsString.TrimNoSpace(JsString.Lower(body.email.value));
  }

  /** The stored names, phone and message are the submitted ones trimmed,
      so a second trim would change nothing; `lawId` is stored as sent, and
      the image URL is stored only when it is a non-empty string. */
  lemma NormalisedFields(id: Id, body: EnquiryBody)
    requires AllRequired(body) && EmailShape(body.email.value)
    ensures var e := Normalised(id, body);
      && e.firstName == JsString.Trim(body.firstName.value) && JsString.Trim(e.firstName) == e.firstName
      && e.lastName == JsString.Trim(body.lastName.value) && JsString.Trim(e.lastName) == e.lastName
      && e.phone == JsString.Trim(body.phone.value) && JsString.Trim(e.phone) == e.phone
      && e.message == JsString.Trim(body.message.value) && JsString.Trim(e.message) == e.message
      && e.lawId == body.lawId.value
      && (e.imageUrl.Some? <==> Truthy(body.imageUrl))
      && (e.imageUrl.Some? ==> e.imageUrl.value == body.imageUrl.value)
  {
    JsString.TrimIdempotent(body.firstName.value);
    JsString.TrimIdempotent(body.lastName.value);
    JsString.TrimIdempotent(body.phone.value);
    JsString.TrimIdempotent(body.message.value);
  }

  /** The validation outcome of a submission: the 400 message, if any. */
  function Rejection(body: EnquiryBody): (m: Option<string>)
    ensures !AllRequired(body) ==> m == Some(MsgRequired)
    ensures AllRequired(body) && !EmailShape(body.email.value) ==> m == Some(MsgInvalidEmail)
    ensures m.None? <==> AllRequired(body) && EmailShape(body.email.value)
  {
    if !AllRequired(body) then Some(MsgRequired)
    else if !EmailShape(body.email.value) then Some(MsgInvalidEmail)
    else None
  }

  /** `newId` is the id the database generates. */
  function CreateEnquiry(store: map<Id, Enquiry>, body: EnquiryBody, newId: Id): (h: Handled<map<Id, Enquiry>, Enquiry>)
    requires ValidEnquiries(store) && newId !in store
    ensures Rejection(body).Some? ==> h == Handled(Err(400, Rejection(body).value), store)
    ensures h.reply.Ok? <==> AllRequired(body) && EmailShape(body.email.value)
    ensures h.reply.Ok? ==>
      && h.reply == Ok(201, Normalised(newId, body))
      && h.store == store[newId := h.reply.body]
    ensures ValidEnquiries(h.store)
  {
    match Rejection(body)
    case Some(m) => Handled(Err(400, m), store)
    case None =>
      var e := Normalised(newId, body);
      InsertKeyed(store, e);
      Handled(Ok(201, e), store[newId := e])
  }

  // ---------------------------------------------------------------------
  // getAllEnquiries

  datatype SortField = CreatedAt | FirstName | Email
  datatype SortOrder = Asc | Desc
  datatype OrderBy = OrderBy(field: SortField, order: SortOrder)

  const SortFieldNames: seq<string> := ["createdAt", "firstName", "email"]
  const SortOrderNames: seq<string> := ["asc", "desc"]

  function FieldName(f: SortField): string {
    match f
    case CreatedAt => "createdAt"
    case FirstName => "firstName"
    case Email => "email"
  }

  function OrderName(o: SortOrder): string {
    match o
    case Asc => "asc"
    case Desc => "desc"
  }

  /** A whitelisted `sortBy` names the field; anything else, or nothing,
      sorts by creation time. */
  function ChooseField(sortBy: Option<string>): (f: SortField)
    ensures sortBy.Some? && sortBy.value in SortFieldNames ==> FieldName(f) == sortBy.value
    ensures !(sortBy.Some? && sortBy.value in SortFieldNames) ==> f == CreatedAt
  {
    if sortBy == Some("firstName") then FirstName
    else if sortBy == Some("email") then Email
    else CreatedAt
  }

  /** A whitelisted `sortOrder` is used; anything else, or nothing, sorts
      newest first. */
  function ChooseOrder(sortOrder: Option<string>): (o: SortOrder)
    ensures sortOrder.Some? && sortOrder.value in SortOrderNames ==> OrderName(o) == sortOrder.value
    ensures !(sortOrder.Some? && sortOrder.value in SortOrderNames) ==> o == Desc
  {
    if sortOrder == Some("asc") then Asc else Desc
  }

  /** Every sort the handler can use is reachable by its own name, and a
      non-default choice is made only by that exact name. */
  lemma SortChoiceByName(f: SortField, o: SortOrder, sortBy: Option<string>, sortOrder: Option<string>)
    ensures ChooseField(Some(FieldName(f))) == f && ChooseOrder(Some(OrderName(o))) == o
    ensures ChooseField(sortBy) != CreatedAt ==> sortBy == Some(FieldName(ChooseField(sortBy)))
    ensures ChooseOrder(sortOrder) != Desc ==> sortOrder == Some(OrderName(ChooseOrder(sortOrder)))
  {
  }

  /** `listing(o)` is the database's listing of the enquiry ids under the
      ordering `o` (the comparison itself is not modelled). */
  function GetAllEnquiries(store: map<Id, Enquiry>, listing: OrderBy -> seq<Id>, q: Query,
                           sortBy: Option<string>, sortOrder: Option<string>): (r: Reply<Paged<Enquiry>>)
    requires ValidEnquiries(store)
    requires forall o :: Enumerates(listing(o), store.Keys)
    ensures r.Fault? <==> OrElse(q.page, DefaultPage) == 0 && OrElse(q.limit, EnquiriesPerPage) > 0
    ensures !r.Err?
    ensures r.Ok? ==>
      var order := listing(OrderBy(ChooseField(sortBy), ChooseOrder(sortOrder)));
      var page := OrElse(q.page, DefaultPage);
      var limit := OrElse(q.limit, EnquiriesPerPage);
      var skip := Skip(page, limit);
      && r.status == 200
      && r.body.info == PageInfo(page, limit, |store|, Pages(|store|, limit))
      && Enumerates(order, store.Keys)
      // the page is the window of the chosen listing from (page - 1) * limit on
      && skip >= 0
      && r.body.data == Window(Resolve(order, store), skip, limit)
      && (forall i :: 0 <= i < |r.body.data| ==>
            skip + i < |order| && order[skip + i] in store && r.body.data[i] == store[order[skip + i]])
  {
    var order := listing(OrderBy(ChooseField(sortBy), ChooseOrder(sortOrder)));
    ResolvedPage(order, store, q, EnquiriesPerPage);
    PageOf(Resolve(order, store), q, EnquiriesPerPage)
  }

  // ---------------------------------------------------------------------
  // deleteEnquiry

  function DeleteEnquiry(store: map<Id, Enquiry>, id: Id): (h: Handled<map<Id, Enquiry>, Unit>)
    ensures id !in store ==> h == Handled(Err(404, MsgNotFound), store)
    ensures id in store ==> h.reply == Ok(200, Unit) && h.store == store - {id}
    ensures forall k :: k in h.store ==> k in store && h.store[k] == store[k]
    ensures ValidEnquiries(store) ==> ValidEnquiries(h.store)
  {
    if id !in store then Handled(Err(404, MsgNotFound), store)
    else Handled(Ok(200, Unit), store - {id})
  }

  /** Deleting an enquiry just created gives back the original enquiries. */
  lemma CreateThenDeleteEnquiry(store: map<Id, Enquiry>, body: EnquiryBody, newId: Id)
    requires ValidEnquiries(store) && newId !in store
    requires CreateEnquiry(store, body, newId).reply.Ok?
    ensures var h := DeleteEnquiry(CreateEnquiry(store, body, newId).store, newId);
      h.reply == Ok(200, Unit) && h.store == store
  {
    var h1 := CreateEnquiry(store, body, newId);
    RemoveInserted(store, newId, h1.reply.body);
  }
}
