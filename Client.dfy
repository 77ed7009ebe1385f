/**
 * The client object: its per-instance cache of field lists, the single-row
 * write (`add_data`) and the batch write (`add_data_batch`).
 *
 * Requests are not performed. The remote field lists are a map from table id
 * to field list (a missing table stands for a failed request); the answer to a
 * write request is a parameter, `Err` standing for a failed HTTP status; and
 * each write method returns the requests it issues, in order, so that what is
 * sent can be stated.
 */
module Client {
  import opened Values
  import opened WritePath

  /** A write request: the table, the row id for a single update, and the JSON body. */
  datatype Request =
    | CreateRow(table: int, body: Row)
    | UpdateRow(table: int, rowId: int, body: Row)
    | CreateRows(table: int, items: seq<Row>)
    | UpdateRows(table: int, items: seq<Row>)

  /** `entry.get("id") is not None`: the entry names an existing row. */
  predicate HasId(entry: Row) {
    "id" in entry && entry["id"] != Null
  }

  predicate LacksId(entry: Row) {
    !HasId(entry)
  }

  /**
   * The loop of add_data_batch: entries naming a row go to the update list,
   * all others to the create list, each list keeping the entries' order.
   */
  method Partition(entries: seq<Row>) returns (updates: seq<Row>, creates: seq<Row>)
    ensures updates == Filter(entries, HasId)
    ensures creates == Filter(entries, LacksId)
  {
    updates, creates := [], [];
    for i := 0 to |entries|
      invariant updates == Filter(entries[..i], HasId)
      invariant creates == Filter(entries[..i], LacksId)
    {
      var e := entries[i];
      assert entries[..i + 1] == entries[..i] + [e];
      FilterSnoc(entries[..i], e, HasId);
      FilterSnoc(entries[..i], e, LacksId);
      if HasId(e) {
        updates := updates + [entries[i]];
      } else {
        creates := creates + [entries[i]];
      }
    }
    assert entries[..|entries|] == entries;
  }

  /** Every entry lands in exactly one of the two lists: together they are a permutation of the entries. */
  lemma PartitionExact(entries: seq<Row>)
    ensures multiset(Filter(entries, HasId)) + multiset(Filter(entries, LacksId)) == multiset(entries)
  {
    FilterSplit(entries, HasId, LacksId);
  }

  /** The id of a created row, taken from the create response; a response without one is malformed. */
  function CreatedId(response: Value): (r: Result<Value>)
    ensures r.Ok? <==> response.Obj? && "id" in response.members
    ensures r.Ok? ==> r.value == response.members["id"]
    ensures r.Err? ==> r.error == MalformedResponse(response)
  {
    if response.Obj? && "id" in response.members then Ok(response.members["id"])
    else Err(MalformedResponse(response))
  }

  /** `[e["id"] for e in data["items"]]`: the ids of the rows in a batch response. */
  function BatchIds(response: Value): (r: Result<seq<Value>>)
    ensures !(response.Obj? && "items" in response.members) ==> r.Err?
    ensures response.Obj? && "items" in response.members && response.members["items"].List? ==>
      var items := response.members["items"].items;
      && (r.Ok? <==> forall i :: 0 <= i < |items| ==> items[i].Obj? && "id" in items[i].members)
      && (r.Ok? ==> |r.value| == |items| && forall i :: 0 <= i < |items| ==> r.value[i] == items[i].members["id"])
  {
    match Member(response, "items")
    case Err(e) => Err(e)
    case Ok(items) =>
      match IterItems(items)
      case Err(e) => Err(e)
      case Ok(xs) => MemberOfEach(xs, "id")
  }

  /** The outcome of a batch request: a failed status, or the ids read from the answer. */
  function BatchOutcome(response: Result<Value>): Result<seq<Value>> {
    match response
    case Err(e) => Err(e)
    case Ok(v) => BatchIds(v)
  }

  /** Python truthiness of the optional row id: None and 0 are false. */
  predicate IsTruthyId(rowId: Option<int>) {
    rowId.Some? && rowId.value != 0
  }

  class BaserowApi {
    var token: Option<string>
    /** The field lists fetched so far, by table id. */
    var fieldCache: map<int, seq<Field>>
    /** The table ids whose field lists were fetched, in order. */
    ghost var fetchLog: seq<int>

    /** The cache holds exactly the fetched tables, and no table was fetched twice. */
    ghost predicate Valid()
      reads this
    {
      && (forall t :: t in fieldCache <==> t in fetchLog)
      && (forall i, j :: 0 <= i < j < |fetchLog| ==> fetchLog[i] != fetchLog[j])
    }

    /**
     * `fileToken` is the token read from the token file when a truthy token
     * path is given, and None otherwise; a truthy explicit token wins.
     */
    constructor (explicitToken: Option<string>, fileToken: Option<string>)
      ensures Valid()
      ensures fieldCache == map[] && fetchLog == []
      ensures token == if explicitToken.Some? && explicitToken.value != "" then explicitToken else fileToken
    {
      token := if explicitToken.Some? && explicitToken.value != "" then explicitToken else fileToken;
      fieldCache := map[];
      fetchLog := [];
    }

    /**
     * The field list of a table: from the cache when present; otherwise
     * fetched from `schema` and cached. A failed fetch caches nothing.
     */
    method GetFields(tableId: int, schema: map<int, seq<Field>>) returns (r: Result<seq<Field>>)
      requires Valid()
      modifies this
      ensures Valid() && token == old(token)
      ensures tableId in old(fieldCache) ==>
        r == Ok(old(fieldCache)[tableId]) && fieldCache == old(fieldCache) && fetchLog == old(fetchLog)
      ensures tableId !in old(fieldCache) && tableId in schema ==>
        && r == Ok(schema[tableId])
        && fieldCache == old(fieldCache)[tableId := schema[tableId]]
        && fetchLog == old(fetchLog) + [tableId]
      ensures tableId !in old(fieldCache) && tableId !in schema ==>
        r == Err(HttpError) && fieldCache == old(fieldCache) && fetchLog == old(fetchLog)
    {
      if tableId !in fieldCache {
        if tableId !in schema {
          return Err(HttpError);
        }
        fieldCache := fieldCache[tableId := schema[tableId]];
        fetchLog := fetchLog + [tableId];
      }
      return Ok(fieldCache[tableId]);
    }

    /**
     * Writes one row: converts its select values with the table's fields,
     * then updates the given row when the row id is truthy (returning that id)
     * or creates a row (returning the id from the response).
     */
    method AddData(tableId: int, data: Row, rowId: Option<int>, schema: map<int, seq<Field>>, response: Result<Value>)
      returns (r: Result<Value>, sent: Option<Request>)
      requires Valid()
      modifies this
      ensures Valid() && token == old(token)
      ensures tableId in old(fieldCache) ==> fieldCache == old(fieldCache) && fetchLog == old(fetchLog)
      ensures tableId !in old(fieldCache) && tableId in schema ==>
        fieldCache == old(fieldCache)[tableId := schema[tableId]] && fetchLog == old(fetchLog) + [tableId]
      ensures tableId !in old(fieldCache) && tableId !in schema ==>
        && r == Err(HttpError) && sent == None
        && fieldCache == old(fieldCache) && fetchLog == old(fetchLog)
      ensures tableId in fieldCache ==>
        var conv := ConvertRow(data, fieldCache[tableId]);
        && (conv.Err? ==> r == Err(conv.error) && sent == None)
        && (conv.Ok? && IsTruthyId(rowId) ==>
              && sent == Some(UpdateRow(tableId, rowId.value, conv.value))
              && r == if response.Err? then Err(response.error) else Ok(Int(rowId.value)))
        && (conv.Ok? && !IsTruthyId(rowId) ==>
              && sent == Some(CreateRow(tableId, conv.value))
              && r == if response.Err? then Err(response.error) else CreatedId(response.value))
    {
      var fields := GetFields(tableId, schema);
      if fields.Err? {
        return Err(fields.error), None;
      }
      var conv := ConvertSelects(data, fields.value);
      if conv.Err? {
        return Err(conv.error), None;
      }
      if IsTruthyId(rowId) {
        sent := Some(UpdateRow(tableId, rowId.value, conv.value));
        if response.Err? {
          return Err(response.error), sent;
        }
        r := Ok(Int(rowId.value));
      } else {
        sent := Some(CreateRow(tableId, conv.value));
        if response.Err? {
          return Err(response.error), sent;
        }
        r := CreatedId(response.value);
      }
    }

    /**
     * Writes a batch: one create request for the entries without an id, if
     * any, then one update request for the entries with one, if any. Entries
     * are sent as given, without conversion. A failure of the create request
     * aborts before the update request.
     */
    method AddDataBatch(tableId: int, entries: seq<Row>, createResponse: Result<Value>, updateResponse: Result<Value>)
      returns (r: Result<()>, sent: seq<Request>)
      ensures var updates := Filter(entries, HasId);
        var creates := Filter(entries, LacksId);
        var createFails := creates != [] && BatchOutcome(createResponse).Err?;
        && (createFails ==> sent == [CreateRows(tableId, creates)] && r == Err(BatchOutcome(createResponse).error))
        && (!createFails ==>
              && sent == (if creates != [] then [CreateRows(tableId, creates)] else [])
                         + (if updates != [] then [UpdateRows(tableId, updates)] else [])
              && r == if updates != [] && BatchOutcome(updateResponse).Err?
                      then Err(BatchOutcome(updateResponse).error) else Ok(()))
    {
      var updates, creates := Partition(entries);
      sent := [];
      if creates != [] {
        sent := sent + [CreateRows(tableId, creates)];
        var ids := BatchOutcome(createResponse);
        if ids.Err? {
          return Err(ids.error), sent;
        }
      }
      if updates != [] {
        sent := sent + [UpdateRows(tableId, updates)];
        var ids := BatchOutcome(updateResponse);
        if ids.Err? {
          return Err(ids.error), sent;
        }
      }
      r := Ok(());
    }
  }
}
