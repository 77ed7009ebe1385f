/**
 * The write path of the client: translating the values of select fields in a
 * row to write from their display text into the option ids the service
 * accepts. The functions specify the conversion; `ConvertOption` and
 * `ConvertSelects` are the loops the client runs, proved against them.
 */
module WritePath {
  import opened Values

  /** `isinstance(v, int)`: a value taken to be an option id already (Python counts a bool as an int). */
  predicate IsId(v: Value) {
    v.Int? || v.Bool?
  }

  /** The index of the first option whose text equals `v`, if any. */
  function FirstMatch(v: Value, options: seq<SelectOption>): (r: Option<nat>)
    ensures r.Some? ==>
      && r.value < |options| && Str(options[r.value].value) == v
      && forall j :: 0 <= j < r.value ==> Str(options[j].value) != v
    ensures r.None? ==> forall j :: 0 <= j < |options| ==> Str(options[j].value) != v
  {
    if options == [] then None
    else if Str(options[0].value) == v then Some(0)
    else
      match FirstMatch(v, options[1..])
      case None => None
      case Some(i) => Some(i + 1)
  }

  /**
   * What converting one select value means: an id is kept; otherwise the id
   * of the first option showing `v`; no such option is an error naming `v`
   * and the options.
   */
  function LookupOption(v: Value, options: seq<SelectOption>): (r: Result<Value>)
    ensures IsId(v) ==> r == Ok(v)
    ensures !IsId(v) ==> (r.Ok? <==> exists j :: 0 <= j < |options| && Str(options[j].value) == v)
    ensures r.Ok? ==> IsId(r.value)
    ensures r.Err? ==> r.error == UnknownOption(v, options)
  {
    if IsId(v) then Ok(v)
    else
      match FirstMatch(v, options)
      case Some(i) => Ok(Int(options[i].id))
      case None => Err(UnknownOption(v, options))
  }

  /** A display text converts to the id of the first option showing it, whatever later options show. */
  lemma LookupOptionFirst(v: Value, options: seq<SelectOption>, i: nat)
    requires !IsId(v) && i < |options| && Str(options[i].value) == v
    requires forall j :: 0 <= j < i ==> Str(options[j].value) != v
    ensures LookupOption(v, options) == Ok(Int(options[i].id))
  {
    var m := FirstMatch(v, options);
    assert m.Some?;
    assert !(m.value < i) && !(i < m.value);
  }

  /** Converting an already converted value changes nothing. */
  lemma LookupOptionIdempotent(v: Value, options: seq<SelectOption>)
    requires LookupOption(v, options).Ok?
    ensures LookupOption(LookupOption(v, options).value, options) == LookupOption(v, options)
  {
  }

  /** The client's convert_option: a scan of the options for the first one showing `v`. */
  method ConvertOption(v: Value, options: seq<SelectOption>) returns (r: Result<Value>)
    ensures r == LookupOption(v, options)
  {
    if IsId(v) {
      return Ok(v);
    }
    for i := 0 to |options|
      invariant forall j :: 0 <= j < i ==> Str(options[j].value) != v
    {
      if Str(options[i].value) == v {
        LookupOptionFirst(v, options, i);
        return Ok(Int(options[i].id));
      }
    }
    return Err(UnknownOption(v, options));
  }

  /**
   * Converting the elements of a multiple select value: the same number of
   * elements, each converted on its own; the first element that fails to
   * convert decides the error.
   */
  function ConvertItems(items: seq<Value>, options: seq<SelectOption>): (r: Result<seq<Value>>)
    ensures r.Ok? <==> forall i :: 0 <= i < |items| ==> LookupOption(items[i], options).Ok?
    ensures r.Ok? ==> |r.value| == |items| && forall i :: 0 <= i < |items| ==> r.value[i] == LookupOption(items[i], options).value
    ensures r.Err? ==>
      exists i :: 0 <= i < |items| && LookupOption(items[i], options) == Err(r.error)
                  && forall j :: 0 <= j < i ==> LookupOption(items[j], options).Ok?
  {
    if items == [] then Ok([])
    else
      var init := items[..|items| - 1];
      assert forall i :: 0 <= i < |init| ==> init[i] == items[i];
      match ConvertItems(init, options)
      case Err(e) => Err(e)
      case Ok(done) =>
        match LookupOption(items[|items| - 1], options)
        case Err(e) => Err(e)
        case Ok(x) => Ok(done + [x])
  }

  /** The field types whose values the client converts. */
  predicate IsSelect(kind: FieldType) {
    kind.SingleSelect? || kind.MultipleSelect?
  }

  /**
   * The converted value of a writable field: null and the empty list are
   * kept (they clear the field), a single select value is looked up, each
   * element of a multiple select value is looked up, and values of every other
   * type are kept.
   */
  function NewValue(v: Value, field: Field): (r: Result<Value>)
    ensures v == Null || v == List([]) || !IsSelect(field.kind) ==> r == Ok(v)
    ensures field.kind.SingleSelect? && v != Null && v != List([]) ==> r == LookupOption(v, field.options)
    ensures field.kind.MultipleSelect? && v != Null && v != List([]) && r.Ok? ==>
      && r.value.List?
      && IterItems(v).Ok? && |r.value.items| == |IterItems(v).value|
      && forall i :: 0 <= i < |r.value.items| ==>
           LookupOption(IterItems(v).value[i], field.options).Ok?
           && r.value.items[i] == LookupOption(IterItems(v).value[i], field.options).value
    ensures field.kind.MultipleSelect? && v != Null && v != List([]) ==>
      (r.Ok? <==> IterItems(v).Ok? && forall i :: 0 <= i < |IterItems(v).value| ==>
                    LookupOption(IterItems(v).value[i], field.options).Ok?)
    ensures field.kind.MultipleSelect? && v != Null && v != List([]) && IterItems(v).Err? ==>
      r == Err(NotIterable(v))
    ensures field.kind.MultipleSelect? && v != Null && v != List([]) && IterItems(v).Ok? && r.Err? ==>
      exists i :: 0 <= i < |IterItems(v).value|
        && r.error == UnknownOption(IterItems(v).value[i], field.options)
        && forall j :: 0 <= j < i ==> LookupOption(IterItems(v).value[j], field.options).Ok?
  {
    if v == Null || v == List([]) then Ok(v)
    else
      match field.kind
      case SingleSelect => LookupOption(v, field.options)
      case MultipleSelect =>
        (match IterItems(v)
         case Err(e) => Err(e)
         case Ok(items) => ListOf(ConvertItems(items, field.options)))
      case _ => Ok(v)
  }

  /** One turn of the conversion loop: rewrite the field's entry when it is writable and present. */
  function ConvertField(data: Row, field: Field): Result<Row>
  {
    if field.readOnly || field.name !in data then Ok(data)
    else
      match NewValue(data[field.name], field)
      case Err(e) => Err(e)
      case Ok(x) => Ok(data[field.name := x])
  }

  /**
   * The conversion of a row: the fields are taken in schema order, each
   * rewriting its own entry of the row as converted so far; the first failure
   * aborts. The converted row has the same keys as the input.
   */
  function ConvertRow(data: Row, fields: seq<Field>): (r: Result<Row>)
    ensures r.Ok? ==> r.value.Keys == data.Keys
  {
    if fields == [] then Ok(data)
    else
      match ConvertRow(data, fields[..|fields| - 1])
      case Err(e) => Err(e)
      case Ok(d) => ConvertField(d, fields[|fields| - 1])
  }

  /** Once the conversion fails on some prefix of the fields, the whole conversion fails with that error. */
  lemma {:induction false} ConvertRowPrefixErr(data: Row, fields: seq<Field>, k: nat)
    requires k <= |fields|
    requires ConvertRow(data, fields[..k]).Err?
    ensures ConvertRow(data, fields) == ConvertRow(data, fields[..k])
    decreases |fields|
  {
    if k < |fields| {
      var init := fields[..|fields| - 1];
      assert init[..k] == fields[..k];
      ConvertRowPrefixErr(data, init, k);
    } else {
      assert fields[..k] == fields;
    }
  }

  /** The inner loop of _convert_selects: the list of ids of a multiple select value, built by appending. */
  method ConvertList(items: seq<Value>, options: seq<SelectOption>) returns (r: Result<seq<Value>>)
    ensures r == ConvertItems(items, options)
  {
    var newValue := [];
    for j := 0 to |items|
      invariant ConvertItems(items[..j], options) == Ok(newValue)
    {
      assert items[..j + 1][..j] == items[..j];
      var c := ConvertOption(items[j], options);
      if c.Err? {
        assert forall t :: 0 <= t < j ==> items[..j][t] == items[t];
        return Err(c.error);
      }
      newValue := newValue + [c.value];
    }
    assert items[..|items|] == items;
    return Ok(newValue);
  }

  /**
   * The client's _convert_selects: a loop over the fields rewriting the
   * entries of a copy of the row. The row passed in is a value and is never
   * changed.
   */
  method ConvertSelects(data: Row, fields: seq<Field>) returns (r: Result<Row>)
    ensures r == ConvertRow(data, fields)
  {
    var conv := data;
    for i := 0 to |fields|
      invariant ConvertRow(data, fields[..i]) == Ok(conv)
    {
      assert fields[..i + 1][..i] == fields[..i];
      assert ConvertRow(data, fields[..i + 1]) == ConvertField(conv, fields[i]);
      var field := fields[i];
      if !field.readOnly && field.name in conv {
        var cur := conv[field.name];
        assert conv[field.name := cur] == conv;
        if cur == Null || cur == List([]) {
          continue;
        }
        if field.kind.SingleSelect? {
          var c := ConvertOption(cur, field.options);
          if c.Err? {
            ConvertRowPrefixErr(data, fields, i + 1);
            return Err(c.error);
          }
          conv := conv[field.name := c.value];
        } else if field.kind.MultipleSelect? {
          var items := IterItems(cur);
          if items.Err? {
            ConvertRowPrefixErr(data, fields, i + 1);
            return Err(items.error);
          }
          var newValue := ConvertList(items.value, field.options);
          assert NewValue(cur, field) == ListOf(newValue);
          if newValue.Err? {
            ConvertRowPrefixErr(data, fields, i + 1);
            return Err(newValue.error);
          }
          conv := conv[field.name := List(newValue.value)];
        }
      }
    }
    assert fields[..|fields|] == fields;
    return Ok(conv);
  }

  /** Whether the conversion rewrites values of this field at all. */
  predicate Converts(field: Field) {
    !field.readOnly && IsSelect(field.kind)
  }

  /**
   * A successful conversion keeps every value that is null or the empty list,
   * and every value whose key names no writable select field: read-only
   * fields, fields of other types and keys the fields do not mention.
   */
  lemma {:induction false} ConvertRowKeeps(data: Row, fields: seq<Field>)
    requires ConvertRow(data, fields).Ok?
    ensures forall k :: k in data && (data[k] == Null || data[k] == List([])) ==> ConvertRow(data, fields).value[k] == data[k]
    ensures forall k :: k in data && (forall i :: 0 <= i < |fields| && fields[i].name == k ==> !Converts(fields[i]))
              ==> ConvertRow(data, fields).value[k] == data[k]
  {
    if fields != [] {
      var n := |fields| - 1;
      var init := fields[..n];
      assert forall i :: 0 <= i < n ==> init[i] == fields[i];
      ConvertRowKeeps(data, init);
    }
  }

  /** No two fields share a name, as in a table's schema. */
  predicate UniqueNames(fields: seq<Field>) {
    forall i, j :: 0 <= i < j < |fields| ==> fields[i].name != fields[j].name
  }

  /** The value the row's entry for `field` ends up with, computed from the row as given. */
  function FieldResult(data: Row, field: Field): Result<Value>
    requires field.name in data
  {
    if field.readOnly then Ok(data[field.name]) else NewValue(data[field.name], field)
  }

  /** One turn of the loop on a row whose entry for the field is still the original one. */
  lemma ConvertFieldStep(d: Row, data: Row, f: Field)
    requires d.Keys == data.Keys
    requires f.name in data ==> d[f.name] == data[f.name]
    ensures ConvertField(d, f).Ok? <==> (f.name in data ==> FieldResult(data, f).Ok?)
    ensures ConvertField(d, f).Ok? ==>
      ConvertField(d, f).value == if f.name in data then d[f.name := FieldResult(data, f).value] else d
  {
  }

  /** An entry no field names is kept by a successful conversion. */
  lemma {:induction false} ConvertRowOther(data: Row, fields: seq<Field>, k: string)
    requires k in data && forall i :: 0 <= i < |fields| ==> fields[i].name != k
    ensures ConvertRow(data, fields).Ok? ==> ConvertRow(data, fields).value[k] == data[k]
  {
    if fields != [] {
      var n := |fields| - 1;
      var init := fields[..n];
      assert forall i :: 0 <= i < n ==> init[i] == fields[i];
      ConvertRowOther(data, init, k);
    }
  }

  /** With unique field names, a present field's entry ends up holding its own converted value. */
  lemma {:induction false} ConvertRowAt(data: Row, fields: seq<Field>, i: nat)
    requires UniqueNames(fields) && i < |fields| && fields[i].name in data
    ensures ConvertRow(data, fields).Ok? ==>
      && FieldResult(data, fields[i]).Ok?
      && ConvertRow(data, fields).value[fields[i].name] == FieldResult(data, fields[i]).value
  {
    var n := |fields| - 1;
    var init := fields[..n];
    var f := fields[n];
    assert forall j :: 0 <= j < n ==> init[j] == fields[j];
    if ConvertRow(data, init).Ok? {
      var d := ConvertRow(data, init).value;
      if i == n {
        ConvertRowOther(data, init, f.name);
      } else {
        ConvertRowAt(data, init, i);
        if f.name in data {
          ConvertRowOther(data, init, f.name);
        }
      }
      ConvertFieldStep(d, data, f);
    }
  }

  /** With unique field names, the conversion succeeds exactly when every present field's value converts. */
  lemma {:induction false} ConvertRowOkIff(data: Row, fields: seq<Field>)
    requires UniqueNames(fields)
    ensures ConvertRow(data, fields).Ok? <==>
      forall i :: 0 <= i < |fields| && fields[i].name in data ==> FieldResult(data, fields[i]).Ok?
  {
    if fields != [] {
      var n := |fields| - 1;
      var init := fields[..n];
      var f := fields[n];
      assert forall j :: 0 <= j < n ==> init[j] == fields[j];
      ConvertRowOkIff(data, init);
      if ConvertRow(data, init).Ok? {
        if f.name in data {
          ConvertRowOther(data, init, f.name);
        }
        ConvertFieldStep(ConvertRow(data, init).value, data, f);
      }
    }
  }

  /**
   * With unique field names, a failed conversion reports the error of the
   * first present field, in schema order, whose value fails to convert.
   */
  lemma {:induction false} ConvertRowFirstError(data: Row, fields: seq<Field>)
    requires UniqueNames(fields) && ConvertRow(data, fields).Err?
    ensures
      exists i :: 0 <= i < |fields| && fields[i].name in data
        && FieldResult(data, fields[i]) == Err(ConvertRow(data, fields).error)
        && forall j :: 0 <= j < i && fields[j].name in data ==> FieldResult(data, fields[j]).Ok?
  {
    var n := |fields| - 1;
    var init := fields[..n];
    var f := fields[n];
    assert forall j :: 0 <= j < n ==> init[j] == fields[j];
    if ConvertRow(data, init).Err? {
      ConvertRowFirstError(data, init);
      var i :| 0 <= i < n && init[i].name in data
        && FieldResult(data, init[i]) == Err(ConvertRow(data, init).error)
        && forall j :: 0 <= j < i && init[j].name in data ==> FieldResult(data, init[j]).Ok?;
      assert fields[i] == init[i];
    } else {
      ConvertRowOkIff(data, init);
      var d := ConvertRow(data, init).value;
      if f.name in data {
        ConvertRowOther(data, init, f.name);
      }
      ConvertFieldStep(d, data, f);
      assert f.name in data;
      assert FieldResult(data, fields[n]) == Err(ConvertRow(data, fields).error);
    }
  }

  /**
   * With unique field names the conversion is pointwise: it succeeds exactly
   * when every present field's value converts, each such entry then holds its
   * own converted value, and every other entry is kept.
   */
  lemma ConvertRowPointwise(data: Row, fields: seq<Field>)
    requires UniqueNames(fields)
    ensures ConvertRow(data, fields).Ok? <==>
      forall i :: 0 <= i < |fields| && fields[i].name in data ==> FieldResult(data, fields[i]).Ok?
    ensures ConvertRow(data, fields).Ok? ==>
      forall i :: 0 <= i < |fields| && fields[i].name in data ==>
        ConvertRow(data, fields).value[fields[i].name] == FieldResult(data, fields[i]).value
    ensures ConvertRow(data, fields).Ok? ==>
      forall k :: k in data && (forall i :: 0 <= i < |fields| ==> fields[i].name != k) ==>
        ConvertRow(data, fields).value[k] == data[k]
  {
    ConvertRowOkIff(data, fields);
    forall i | 0 <= i < |fields| && fields[i].name in data
      ensures ConvertRow(data, fields).Ok? ==>
        && FieldResult(data, fields[i]).Ok?
        && ConvertRow(data, fields).value[fields[i].name] == FieldResult(data, fields[i]).value
    {
      ConvertRowAt(data, fields, i);
    }
    forall k | k in data && (forall i :: 0 <= i < |fields| ==> fields[i].name != k)
      ensures ConvertRow(data, fields).Ok? ==> ConvertRow(data, fields).value[k] == data[k]
    {
      ConvertRowOther(data, fields, k);
    }
  }

  /** Converting a converted value again changes nothing: every converted select value is made of ids. */
  lemma NewValueIdempotent(v: Value, field: Field)
    requires NewValue(v, field).Ok?
    ensures NewValue(NewValue(v, field).value, field) == NewValue(v, field)
  {
    var w := NewValue(v, field).value;
    if field.kind.MultipleSelect? && v != Null && v != List([]) && w != List([]) {
      var c := ConvertItems(w.items, field.options);
      assert c.Ok?;
      assert c.value == w.items;
    }
  }

  /** With unique field names, converting a converted row again gives the same row. */
  lemma ConvertRowIdempotent(data: Row, fields: seq<Field>)
    requires UniqueNames(fields)
    requires ConvertRow(data, fields).Ok?
    ensures ConvertRow(ConvertRow(data, fields).value, fields) == ConvertRow(data, fields)
  {
    var r := ConvertRow(data, fields).value;
    ConvertRowPointwise(data, fields);
    forall i | 0 <= i < |fields| && fields[i].name in r
      ensures FieldResult(r, fields[i]) == Ok(r[fields[i].name])
    {
      if !fields[i].readOnly {
        NewValueIdempotent(data[fields[i].name], fields[i]);
      }
    }
    ConvertRowPointwise(r, fields);
    var r2 := ConvertRow(r, fields).value;
    forall k | k in r
      ensures r2[k] == r[k]
    {
      if exists i :: 0 <= i < |fields| && fields[i].name == k {
        var i :| 0 <= i < |fields| && fields[i].name == k;
      }
    }
    assert r2 == r;
  }
}
