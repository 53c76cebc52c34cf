/** The page arithmetic the listing handlers share: `skip = (page - 1) *
    limit`, `take = limit`, and `pages = Math.ceil(total / limit)`. Query
    values are already parsed integers; a missing one takes the handler's
    default. */
module Pagination {
  import opened Common

  const DefaultPage: nat := 1

  /** The query's `page` and `limit`, if given. */
  datatype Query = Query(page: Option<nat>, limit: Option<nat>)

  /** The `pagination` object of a listing reply. `pages` is `None` when
      `limit` is 0: the division then gives `Infinity` or `NaN`, which JSON
      writes as `null`. */
  datatype PageInfo = PageInfo(page: nat, limit: nat, total: nat, pages: Option<nat>)

  datatype Paged<T> = Paged(data: seq<T>, info: PageInfo)

  /** The number of rows before page `page`; negative for page 0. */
  function Skip(page: nat, limit: nat): int {
    (page - 1) * limit
  }

  /** Integer ceiling division: the least count of `d`-sized pages that
      holds `n` rows. */
  function CeilDiv(n: nat, d: nat): (q: nat)
    requires d > 0
    ensures q * d >= n
    ensures q > 0 ==> (q - 1) * d < n
    ensures n == 0 <==> q == 0
  {
    CeilDivBounds(n, d);
    (n + d - 1) / d
  }

  lemma CeilDivBounds(n: nat, d: nat)
    requires d > 0
    ensures var q := (n + d - 1) / d;
      q * d >= n && (q > 0 ==> (q - 1) * d < n) && (n == 0 <==> q == 0)
  {
    var q := (n + d - 1) / d;
    var m := (n + d - 1) % d;
    assert n + d - 1 == q * d + m && 0 <= m < d;
    if q > 0 {
      assert (q - 1) * d == q * d - d;
    }
  }

  function Pages(total: nat, limit: nat): (p: Option<nat>)
    ensures limit == 0 <==> p.None?
    ensures limit > 0 ==> p.value == CeilDiv(total, limit)
  {
    if limit == 0 then None else Some(CeilDiv(total, limit))
  }

  /** `findMany({ skip, take })` over the rows in listing order. */
  function Window<T>(rows: seq<T>, skip: nat, take: nat): (r: seq<T>)
    ensures skip >= |rows| ==> r == []
    ensures skip < |rows| ==> |r| == if skip + take <= |rows| then take else |rows| - skip
    ensures forall i :: 0 <= i < |r| ==> skip + i < |rows| && r[i] == rows[skip + i]
  {
    if skip >= |rows| then []
    else if skip + take <= |rows| then rows[skip..skip + take]
    else rows[skip..]
  }

  /** One page of `rows` (already in the handler's listing order). A page
      of 0 gives a negative `skip`, which the database client refuses, so
      the handler answers 500. */
  function PageOf<T>(rows: seq<T>, q: Query, defaultLimit: nat): (r: Reply<Paged<T>>)
    ensures var page := OrElse(q.page, DefaultPage);
      r.Fault? <==> page == 0 && OrElse(q.limit, defaultLimit) > 0
    ensures r.Fault? ==> r.status == 500
    ensures !r.Err?
    ensures r.Ok? ==>
      var page := OrElse(q.page, DefaultPage);
      var limit := OrElse(q.limit, defaultLimit);
      && r.status == 200
      && r.body.info == PageInfo(page, limit, |rows|, Pages(|rows|, limit))
      // the page is exactly the window of at most limit rows from (page - 1) * limit on
      && Skip(page, limit) >= 0
      && r.body.data == Window(rows, Skip(page, limit), limit)
      && |r.body.data| <= limit
      && (forall i :: 0 <= i < |r.body.data| ==>
            0 <= Skip(page, limit) + i < |rows| && r.body.data[i] == rows[Skip(page, limit) + i])
      && (forall j :: 0 <= Skip(page, limit) <= j < Skip(page, limit) + limit && j < |rows| ==>
            rows[j] in r.body.data)
  {
    var page := OrElse(q.page, DefaultPage);
    var limit := OrElse(q.limit, defaultLimit);
    var skip := Skip(page, limit);
    if skip < 0 then Fault(500)
    else
      var data := Window(rows, skip, limit);
      assert forall j :: skip <= j < skip + limit && j < |rows| ==> rows[j] in data by {
        forall j | skip <= j < skip + limit && j < |rows|
          ensures rows[j] in data
        {
          assert data[j - skip] == rows[j];
        }
      }
      Ok(200, Paged(data, PageInfo(page, limit, |rows|, Pages(|rows|, limit))))
  }

  /** A page of a listing resolved against its records: each row on it is
      the record the listing names at that position. */
  lemma ResolvedPage<T>(order: seq<Id>, records: map<Id, T>, q: Query, defaultLimit: nat)
    requires Enumerates(order, records.Keys)
    ensures var r := PageOf(Resolve(order, records), q, defaultLimit);
      r.Ok? ==>
        var skip := Skip(OrElse(q.page, DefaultPage), OrElse(q.limit, defaultLimit));
        && r.body.info.total == |records|
        && (forall i :: 0 <= i < |r.body.data| ==>
              skip + i < |order| && order[skip + i] in records && r.body.data[i] == records[order[skip + i]])
  {
    EnumerationSize(order, records.Keys);
  }

  /** With a positive limit every row is on exactly one page, and that page
      is within the reported page count. */
  lemma RowOnExactlyOnePage(total: nat, limit: nat, j: nat)
    requires limit > 0 && j < total
    ensures var p := j / limit + 1;
      && Skip(p, limit) <= j < Skip(p, limit) + limit
      && p <= CeilDiv(total, limit)
      && (forall q: nat :: q >= 1 && Skip(q, limit) <= j < Skip(q, limit) + limit ==> q == p)
  {
    var p := j / limit + 1;
    var r := j % limit;
    assert j == (p - 1) * limit + r;
    assert Skip(p, limit) == (p - 1) * limit;
    var c := CeilDiv(total, limit);
    if p > c {
      assert (p - 1) * limit >= c * limit by {
        MulMonotone(c, p - 1, limit);
      }
      assert false;
    }
    forall q: nat | q >= 1 && Skip(q, limit) <= j < Skip(q, limit) + limit
      ensures q == p
    {
      DivUnique(j, limit, q - 1);
    }
  }

  /** The quotient is the only multiplier whose block of `k` holds `j`. */
  lemma DivUnique(j: nat, k: int, a: nat)
    requires k > 0 && a * k <= j < a * k + k
    ensures j / k == a
  {
    var b := j / k;
    assert j == b * k + j % k;
    var x := a - b;
    assert x * k == a * k - b * k;
    assert -k < x * k < k;
    SmallMultiple(x, k);
  }

  lemma SmallMultiple(x: int, k: int)
    requires k > 0 && -k < x * k < k
    ensures x == 0
  {
  }

  lemma MulMonotone(a: nat, b: nat, k: nat)
    requires a <= b
    ensures a * k <= b * k
  {
  }
}
