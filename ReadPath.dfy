/**
 * The read path of the client: formatting a value of the service's wire form
 * into its plain form according to its field's type, the writable subset of a
 * table's fields, and the projection of the listed rows into a map from row id
 * to the row's writable, formatted values.
 */
module ReadPath {
  import opened Values
  import opened Pages

  /** The member each element of a list-valued field is reduced to: `id` for links, `value` for selections. */
  function ListKey(kind: FieldType): string {
    if kind.LinkRow? then "id" else "value"
  }

  /**
   * The plain form of a value read for `field`. A single select is an option
   * object (giving its `value`) or null; a multiple select or a link is a list
   * of objects (giving each one's `value` or `id`); anything else is kept.
   */
  function FormatValue(raw: Value, field: Field): (r: Result<Value>)
    ensures field.kind.OtherType? ==> r == Ok(raw)
    ensures field.kind.SingleSelect? ==>
      && (r.Ok? <==> raw.Null? || (raw.Obj? && "value" in raw.members))
      && (raw.Null? ==> r == Ok(Null))
      && (raw.Obj? && "value" in raw.members ==> r == Ok(raw.members["value"]))
      && (!raw.Null? && !raw.Obj? ==> r == Err(Malformed(SingleSelect, raw)))
    ensures (field.kind.MultipleSelect? || field.kind.LinkRow?) ==>
      && (r.Ok? <==> raw.List? && forall i :: 0 <= i < |raw.items| ==>
                       raw.items[i].Obj? && ListKey(field.kind) in raw.items[i].members)
      && (r.Ok? ==> r.value.List? && |r.value.items| == |raw.items|
                    && forall i :: 0 <= i < |raw.items| ==>
                         r.value.items[i] == raw.items[i].members[ListKey(field.kind)])
      && (!raw.List? ==> r == Err(Malformed(field.kind, raw)))
  {
    match field.kind
    case SingleSelect =>
      if raw.Obj? then Member(raw, "value")
      else if raw.Null? then Ok(Null)
      else Err(Malformed(SingleSelect, raw))
    case MultipleSelect =>
      if raw.List? then ListOf(MemberOfEach(raw.items, "value"))
      else Err(Malformed(MultipleSelect, raw))
    case LinkRow =>
      if raw.List? then ListOf(MemberOfEach(raw.items, "id"))
      else Err(Malformed(LinkRow, raw))
    case OtherType(_) => Ok(raw)
  }

  predicate IsWritable(field: Field) {
    !field.readOnly
  }

  /** The fields that are not read-only, in schema order. */
  function WritableFields(fields: seq<Field>): (r: seq<Field>)
    ensures forall f :: f in r <==> f in fields && !f.readOnly
  {
    Filter(fields, IsWritable)
  }

  /** Keeping the writable fields is order preserving: it commutes with concatenating field lists. */
  lemma WritableFieldsAppend(a: seq<Field>, b: seq<Field>)
    ensures WritableFields(a + b) == WritableFields(a) + WritableFields(b)
  {
    FilterAppend(a, b, IsWritable);
  }

  /** The dict `{f["name"]: f for f in fields}`: a later field of the same name replaces an earlier one. */
  function FieldsByName(fields: seq<Field>): (m: map<string, Field>)
    ensures forall f :: f in fields ==> f.name in m
    ensures forall k :: k in m ==> m[k] in fields && m[k].name == k
  {
    if fields == [] then map[]
    else
      var init := fields[..|fields| - 1];
      var last := fields[|fields| - 1];
      assert fields == init + [last];
      FieldsByName(init)[last.name := last]
  }

  /** The names the row map keeps are exactly the names of the writable fields. */
  lemma WritableNames(fields: seq<Field>)
    ensures FieldsByName(WritableFields(fields)).Keys == set f | f in fields && !f.readOnly :: f.name
  {
    var m := FieldsByName(WritableFields(fields));
    forall k | k in m ensures k in set f | f in fields && !f.readOnly :: f.name {
      assert m[k] in WritableFields(fields);
    }
  }

  /** The id member of a listed row, or null when the row has none. */
  function RowId(row: Value): Value {
    if row.Obj? && "id" in row.members then row.members["id"] else Null
  }

  /** Whether a value can be a dict key in Python: lists and dicts cannot. */
  predicate Hashable(v: Value) {
    !v.List? && !v.Obj?
  }

  /**
   * One entry of the row map: the row's id, and its members whose names are
   * writable field names, each formatted for its field. The id is looked up
   * first, then the values are formatted, then the id is used as a key.
   */
  function ProjectRow(row: Value, byName: map<string, Field>): (r: Result<(Value, Row)>)
    ensures r.Ok? <==>
      && row.Obj? && "id" in row.members && Hashable(row.members["id"])
      && forall k :: k in row.members && k in byName ==> FormatValue(row.members[k], byName[k]).Ok?
    ensures r.Ok? ==>
      && r.value.0 == RowId(row)
      && r.value.1.Keys == row.members.Keys * byName.Keys
      && forall k :: k in r.value.1 ==> r.value.1[k] == FormatValue(row.members[k], byName[k]).value
  {
    match row
    case Obj(m) =>
      if "id" !in m then Err(MissingKey("id"))
      else
        var id := m["id"];
        if exists k :: k in m && k in byName && FormatValue(m[k], byName[k]).Err? then Err(MalformedRow(id))
        else if !Hashable(id) then Err(Unhashable(id))
        else Ok((id, map k | k in m && k in byName :: FormatValue(m[k], byName[k]).value))
    case _ => Err(NotAnObject(row))
  }

  /** The ids of the listed rows (null for a row without one). */
  function RowIds(rows: seq<Value>): set<Value>
  {
    if rows == [] then {} else RowIds(rows[..|rows| - 1]) + {RowId(rows[|rows| - 1])}
  }

  /** Every row's id is among the row ids. */
  lemma {:induction false} RowIdsComplete(rows: seq<Value>)
    ensures forall i :: 0 <= i < |rows| ==> RowId(rows[i]) in RowIds(rows)
  {
    if rows != [] {
      var init := rows[..|rows| - 1];
      RowIdsComplete(init);
      assert forall i :: 0 <= i < |init| ==> init[i] == rows[i];
    }
  }

  /** Every row id is the id of some row. */
  lemma {:induction false} RowIdsSound(rows: seq<Value>)
    ensures forall id :: id in RowIds(rows) ==> exists i :: 0 <= i < |rows| && RowId(rows[i]) == id
  {
    if rows != [] {
      var init := rows[..|rows| - 1];
      RowIdsSound(init);
      assert forall i :: 0 <= i < |init| ==> init[i] == rows[i];
    }
  }

  /** The row ids are exactly the set of the listed rows' ids. */
  lemma RowIdsAsSet(rows: seq<Value>)
    ensures RowIds(rows) == set i | 0 <= i < |rows| :: RowId(rows[i])
  {
    RowIdsComplete(rows);
    RowIdsSound(rows);
  }

  /**
   * The dict comprehension over the listed rows: rows are taken in order, a
   * later row replacing an earlier one with the same id. It succeeds exactly
   * when every row does, and is then keyed by exactly the rows' ids.
   */
  function ProjectRows(rows: seq<Value>, byName: map<string, Field>): (r: Result<map<Value, Row>>)
    ensures r.Ok? <==> forall i :: 0 <= i < |rows| ==> ProjectRow(rows[i], byName).Ok?
    ensures r.Ok? ==> r.value.Keys == RowIds(rows)
  {
    if rows == [] then Ok(map[])
    else
      var init := rows[..|rows| - 1];
      assert forall i :: 0 <= i < |init| ==> init[i] == rows[i];
      match ProjectRows(init, byName)
      case Err(e) => Err(e)
      case Ok(acc) =>
        match ProjectRow(rows[|rows| - 1], byName)
        case Err(e) => Err(e)
        case Ok(entry) =>
          assert RowIds(rows) == RowIds(init) + {entry.0};
          Ok(acc[entry.0 := entry.1])
  }

  /** A failing projection reports the error of the first row that fails. */
  lemma {:induction false} ProjectRowsFirstError(rows: seq<Value>, byName: map<string, Field>)
    requires ProjectRows(rows, byName).Err?
    ensures exists i :: 0 <= i < |rows| && ProjectRow(rows[i], byName) == Err(ProjectRows(rows, byName).error)
                        && forall j :: 0 <= j < i ==> ProjectRow(rows[j], byName).Ok?
  {
    var init := rows[..|rows| - 1];
    assert forall i :: 0 <= i < |init| ==> init[i] == rows[i];
    if ProjectRows(init, byName).Err? {
      ProjectRowsFirstError(init, byName);
    }
  }

  /** A successful projection of a non-empty run is that of its prefix, updated with its last row's entry. */
  lemma ProjectRowsSnoc(rows: seq<Value>, byName: map<string, Field>)
    requires rows != [] && ProjectRows(rows, byName).Ok?
    ensures ProjectRows(rows[..|rows| - 1], byName).Ok? && ProjectRow(rows[|rows| - 1], byName).Ok?
    ensures ProjectRow(rows[|rows| - 1], byName).value.0 == RowId(rows[|rows| - 1])
    ensures ProjectRows(rows, byName).value
            == ProjectRows(rows[..|rows| - 1], byName).value[RowId(rows[|rows| - 1]) := ProjectRow(rows[|rows| - 1], byName).value.1]
  {
  }

  /** A dict built by inserting key/value pairs in order: a later pair replaces an earlier one with the same key. */
  function Insertions<K(==), V>(es: seq<(K, V)>): map<K, V> {
    if es == [] then map[] else Insertions(es[..|es| - 1])[es[|es| - 1].0 := es[|es| - 1].1]
  }

  /** Every inserted key is present, holding the value of its last insertion. */
  lemma {:induction false} InsertionsAt<K, V>(es: seq<(K, V)>, i: nat)
    requires i < |es|
    ensures es[i].0 in Insertions(es)
    ensures (forall j :: i < j < |es| ==> es[j].0 != es[i].0) ==> Insertions(es)[es[i].0] == es[i].1
    decreases |es|
  {
    var n := |es| - 1;
    if i < n {
      var init := es[..n];
      assert init[i] == es[i];
      InsertionsAt(init, i);
      if forall j :: i < j < |es| ==> es[j].0 != es[i].0 {
        forall j | i < j < n ensures init[j].0 != init[i].0 {
          assert init[j] == es[j];
        }
      }
    }
  }

  /** The entries the rows project to, in row order. */
  function Entries(rows: seq<Value>, byName: map<string, Field>): (es: seq<(Value, Row)>)
    requires forall i :: 0 <= i < |rows| ==> ProjectRow(rows[i], byName).Ok?
    ensures |es| == |rows|
  {
    seq(|rows|, i requires 0 <= i < |rows| => ProjectRow(rows[i], byName).value)
  }

  /** A successful row map is the dict built by inserting the rows' entries in order. */
  lemma {:induction false} ProjectRowsInsertions(rows: seq<Value>, byName: map<string, Field>)
    requires ProjectRows(rows, byName).Ok?
    ensures ProjectRows(rows, byName).value == Insertions(Entries(rows, byName))
    decreases |rows|
  {
    if rows != [] {
      var n := |rows| - 1;
      var init := rows[..n];
      ProjectRowsSnoc(rows, byName);
      ProjectRowsInsertions(init, byName);
      var es, ei := Entries(rows, byName), Entries(init, byName);
      assert es[..n] == ei by {
        forall k | 0 <= k < n ensures es[k] == ei[k] {
          assert init[k] == rows[k];
        }
      }
      assert es[n] == ProjectRow(rows[n], byName).value;
      assert Insertions(es) == Insertions(es[..n])[es[n].0 := es[n].1];
    }
  }

  /** In a successful projection every row's id is a key, holding the projection of the last row carrying it. */
  lemma ProjectRowsLastWins(rows: seq<Value>, byName: map<string, Field>)
    requires ProjectRows(rows, byName).Ok?
    ensures forall i :: 0 <= i < |rows| ==> RowId(rows[i]) in ProjectRows(rows, byName).value
    ensures forall i :: 0 <= i < |rows| && (forall j :: i < j < |rows| ==> RowId(rows[j]) != RowId(rows[i]))
              ==> ProjectRows(rows, byName).value[RowId(rows[i])] == ProjectRow(rows[i], byName).value.1
  {
    ProjectRowsInsertions(rows, byName);
    var es := Entries(rows, byName);
    forall i | 0 <= i < |rows|
      ensures RowId(rows[i]) in ProjectRows(rows, byName).value
      ensures (forall j :: i < j < |rows| ==> RowId(rows[j]) != RowId(rows[i])) ==>
                ProjectRows(rows, byName).value[RowId(rows[i])] == ProjectRow(rows[i], byName).value.1
    {
      InsertionsAt(es, i);
      assert es[i] == ProjectRow(rows[i], byName).value;
      if forall j :: i < j < |rows| ==> RowId(rows[j]) != RowId(rows[i]) {
        forall j | i < j < |es| ensures es[j].0 != es[i].0 {
          assert es[j] == ProjectRow(rows[j], byName).value;
        }
      }
    }
  }

  /**
   * The row map of a table: the writable fields by name, the listed rows
   * from `url` onwards, and the projection of each row.
   */
  function GetData(fields: seq<Field>, server: map<string, Page>, url: string, fuel: nat): Result<map<Value, Row>>
  {
    match FetchAll(server, url, fuel)
    case Err(e) => Err(e)
    case Ok(rows) => ProjectRows(rows, FieldsByName(WritableFields(fields)))
  }

  /**
   * A successful row map is built from the rows of a complete chain of pages:
   * it is keyed by those rows' ids, and each id holds the projection of the
   * last row carrying it onto the writable fields.
   */
  lemma GetDataEntries(fields: seq<Field>, server: map<string, Page>, url: string, fuel: nat)
    returns (pages: seq<Page>)
    requires GetData(fields, server, url, fuel).Ok?
    ensures IsChain(server, url, pages) && |pages| <= fuel
    ensures FetchAll(server, url, fuel) == Ok(AllResults(pages))
    ensures GetData(fields, server, url, fuel).value.Keys == RowIds(AllResults(pages))
    ensures forall i :: 0 <= i < |AllResults(pages)| ==> RowId(AllResults(pages)[i]) in GetData(fields, server, url, fuel).value
    ensures forall i :: 0 <= i < |AllResults(pages)|
              && (forall j :: i < j < |AllResults(pages)| ==> RowId(AllResults(pages)[j]) != RowId(AllResults(pages)[i]))
              ==> GetData(fields, server, url, fuel).value[RowId(AllResults(pages)[i])]
                  == ProjectRow(AllResults(pages)[i], FieldsByName(WritableFields(fields))).value.1
  {
    pages := FetchAllIsChain(server, url, fuel);
    ProjectRowsLastWins(AllResults(pages), FieldsByName(WritableFields(fields)));
  }
}
