/** The site-settings table and its two handlers (`siteSettingsRoutes`):
    GET answers the first row, or nothing; PUT updates that row if there is
    one and creates it otherwise, so the table never grows past one row. */
module SiteSettings {
  import opened Common

  datatype Settings = Settings(id: Id, showTeam: bool, showNews: bool, showServices: bool, showBlog: bool)

  /** The PUT body's four flags; `None` is a flag left out of the body. */
  datatype SettingsBody = SettingsBody(
    showTeam: Option<bool>,
    showNews: Option<bool>,
    showServices: Option<bool>,
    showBlog: Option<bool>)

  /** `findFirst()`: the first row, if any. */
  function GetSettings(rows: seq<Settings>): (r: Reply<Option<Settings>>)
    ensures r.Ok? && r.status == 200
    ensures r.body.Some? <==> |rows| > 0
    ensures r.body.Some? ==> r.body.value == rows[0]
  {
    Ok(200, if |rows| > 0 then Some(rows[0]) else None)
  }

  /** The PUT handler after the admin guard. `newId` is the id the database
      generates if a row has to be created. */
  function PutSettings(rows: seq<Settings>, body: SettingsBody, newId: Id): (h: Handled<seq<Settings>, Settings>)
    ensures h.reply.Ok? && h.reply.status == 200
    // one row at most is ever added, and only to an empty table
    ensures |h.store| == if |rows| == 0 then 1 else |rows|
    ensures h.store[0] == h.reply.body
    ensures |rows| > 0 ==>
      var s := h.reply.body;
      && h.store[1..] == rows[1..]
      && s.id == rows[0].id
      // a flag that is sent is written, false included; one left out keeps its value
      && s.showTeam == OrElse(body.showTeam, rows[0].showTeam)
      && s.showNews == OrElse(body.showNews, rows[0].showNews)
      && s.showServices == OrElse(body.showServices, rows[0].showServices)
      && s.showBlog == OrElse(body.showBlog, rows[0].showBlog)
    ensures |rows| == 0 ==>
      var s := h.reply.body;
      && s.id == newId
      // a flag left out of the body defaults to true
      && s.showTeam == OrElse(body.showTeam, true)
      && s.showNews == OrElse(body.showNews, true)
      && s.showServices == OrElse(body.showServices, true)
      && s.showBlog == OrElse(body.showBlog, true)
  {
    if |rows| > 0 then
      var current := rows[0];
      var s := Settings(current.id, OrElse(body.showTeam, current.showTeam), OrElse(body.showNews, current.showNews),
                        OrElse(body.showServices, current.showServices), OrElse(body.showBlog, current.showBlog));
      Handled(Ok(200, s), [s] + rows[1..])
    else
      var s := Settings(newId, OrElse(body.showTeam, true), OrElse(body.showNews, true),
                        OrElse(body.showServices, true), OrElse(body.showBlog, true));
      Handled(Ok(200, s), [s])
  }

  /** The table after a run of PUTs, each given `newId` in case it has to
      create the row. */
  function PutAll(rows: seq<Settings>, bodies: seq<SettingsBody>, newId: Id): seq<Settings>
    decreases |bodies|
  {
    if bodies == [] then rows else PutAll(PutSettings(rows, bodies[0], newId).store, bodies[1..], newId)
  }

  /** Any non-empty run of PUTs on a table of at most one row leaves
      exactly one row, and that row keeps the id it was first created
      with. */
  lemma {:induction false} PutsKeepOneRow(rows: seq<Settings>, bodies: seq<SettingsBody>, newId: Id)
    requires |rows| <= 1
    requires |bodies| > 0 || |rows| == 1
    ensures |PutAll(rows, bodies, newId)| == 1
    ensures |rows| == 1 ==> PutAll(rows, bodies, newId)[0].id == rows[0].id
    ensures |rows| == 0 ==> PutAll(rows, bodies, newId)[0].id == newId
    decreases |bodies|
  {
    if bodies != [] {
      var next := PutSettings(rows, bodies[0], newId).store;
      PutsKeepOneRow(next, bodies[1..], newId);
    }
  }

  /** An explicit `false` is stored as false on both paths: `??` replaces
      only a missing flag. */
  lemma ExplicitFalseIsKept(rows: seq<Settings>, body: SettingsBody, newId: Id)
    requires body.showTeam == Some(false)
    ensures !PutSettings(rows, body, newId).reply.body.showTeam
  {
  }
}
