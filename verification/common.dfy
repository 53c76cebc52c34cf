/** Values shared by every handler: optional values, JSON request-body
    fields with JavaScript's three-way absent/null/present distinction, and
    the replies a handler sends. */
module Common {

  /** Record identifiers are opaque strings generated by the database. */
  type Id = string

  datatype Option<+T> = None | Some(value: T)

  /** A field of a parsed JSON request body: missing (`undefined`),
      an explicit `null`, or a value. */
  datatype Field<+T> = Undefined | Null | Given(value: T)

  /** JavaScript truthiness of a string-valued field: only a non-empty
      string is truthy. */
  predicate Truthy(f: Field<string>) {
    f.Given? && f.value != ""
  }

  /** JavaScript truthiness of an optional string claim or column. */
  predicate TruthyOpt(o: Option<string>) {
    o.Some? && o.value != ""
  }

  /** `f ?? d`: the default replaces both `undefined` and `null`. */
  function Coalesce<T>(f: Field<T>, d: T): (r: T)
    ensures f.Given? ==> r == f.value
    ensures !f.Given? ==> r == d
  {
    match f
    case Given(v) => v
    case _ => d
  }

  /** Removing a key just added to a map gives the map back. */
  lemma RemoveInserted<T>(m: map<Id, T>, k: Id, v: T)
    requires k !in m
    ensures m[k := v] - {k} == m
  {
  }

  /** `o ?? d` on a value that is either present or missing. */
  function OrElse<T>(o: Option<T>, d: T): (r: T)
    ensures o.Some? ==> r == o.value
    ensures o.None? ==> r == d
  {
    if o.Some? then o.value else d
  }

  /** What a nullable column stores when the handler passes `f` to the
      database: `undefined` and `null` both leave it null. */
  function ToColumn<T>(f: Field<T>): (r: Option<T>)
    ensures r.Some? <==> f.Given?
    ensures f.Given? ==> r.value == f.value
  {
    match f
    case Given(v) => Some(v)
    case _ => None
  }

  /** `order` lists every key of a table exactly once: the shape of a
      `findMany` answer, whose sort order is the database's business. */
  ghost predicate Enumerates<K>(order: seq<K>, keys: set<K>) {
    && (forall i :: 0 <= i < |order| ==> order[i] in keys)
    && (forall k :: k in keys ==> k in order)
    && (forall i, j :: 0 <= i < j < |order| ==> order[i] != order[j])
  }

  /** A listing of every key once is as long as the key set is large. */
  lemma {:induction false} EnumerationSize<K>(order: seq<K>, keys: set<K>)
    requires Enumerates(order, keys)
    ensures |order| == |keys|
    decreases |order|
  {
    if order != [] {
      var last := order[|order| - 1];
      var rest := order[..|order| - 1];
      assert Enumerates(rest, keys - {last}) by {
        forall k | k in keys - {last}
          ensures k in rest
        {
          var i :| 0 <= i < |order| && order[i] == k;
          assert i < |order| - 1;
          assert rest[i] == k;
        }
        forall i | 0 <= i < |rest|
          ensures rest[i] in keys - {last}
        {
          assert rest[i] == order[i];
        }
      }
      EnumerationSize(rest, keys - {last});
    }
  }

  /** The answer a handler sends: a success status with a payload, a
      failure status with the handler's own message, or a 500 produced by
      the handler's catch block after a library call threw (its text is
      not modelled). */
  datatype Reply<+T> =
    | Ok(status: nat, body: T)
    | Err(status: nat, message: string)
    | Fault(status: nat)
  {
    predicate IsError() { !Ok? }
  }

  /** A handler's reply together with the store it leaves behind. */
  datatype Handled<+S, +T> = Handled(reply: Reply<T>, store: S)

  /** The end state of an access guard. */
  datatype Decision<+I> = Reject(status: nat, message: string) | Admit(identity: I)

  /** Per-handler replies that carry nothing but a confirmation message. */
  datatype Unit = Unit

  // ---------------------------------------------------------------------
  // Optional-field overrides used by the update handlers

  /** `...(f && { field: f })`: a truthy string replaces the current value. */
  function IfTruthy(f: Field<string>, current: string): (r: string)
    ensures Truthy(f) ==> r == f.value
    ensures !Truthy(f) ==> r == current
  {
    if Truthy(f) then f.value else current
  }

  /** The same for a nullable column. */
  function IfTruthyColumn(f: Field<string>, current: Option<string>): (r: Option<string>)
    ensures Truthy(f) ==> r == Some(f.value)
    ensures !Truthy(f) ==> r == current
  {
    if Truthy(f) then Some(f.value) else current
  }

  /** `...(f !== undefined && { field: f })` on a nullable column: null and
      the empty string are written too. */
  function IfDefinedColumn(f: Field<string>, current: Option<string>): (r: Option<string>)
    ensures f.Undefined? ==> r == current
    ensures f.Null? ==> r == None
    ensures f.Given? ==> r == Some(f.value)
  {
    if f.Undefined? then current else ToColumn(f)
  }

  /** The image URL a handler works with: an uploaded file wins over the
      body's `imageUrl`. */
  function ImageField(bodyImage: Field<string>, uploadedFile: Option<string>): (f: Field<string>)
    ensures uploadedFile.Some? ==> f == Given("/upload/" + uploadedFile.value) && Truthy(f)
    ensures uploadedFile.None? ==> f == bodyImage
  {
    if uploadedFile.Some? then Given("/upload/" + uploadedFile.value) else bodyImage
  }

  // ---------------------------------------------------------------------
  // Flattening related rows into records

  /** `rows.map(ls => ls.service)` (or `.lawyer`): each id replaced by its
      record. */
  function Resolve<T>(ids: seq<Id>, records: map<Id, T>): (r: seq<T>)
    requires forall i :: 0 <= i < |ids| ==> ids[i] in records
    ensures |r| == |ids|
    ensures forall i :: 0 <= i < |ids| ==> r[i] == records[ids[i]]
  {
    if ids == [] then [] else [records[ids[0]]] + Resolve(ids[1..], records)
  }
}
