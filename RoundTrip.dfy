/**
 * How the read path and the write path fit together: a select value read from
 * the service and formatted to its display text converts back, on writing, to
 * the option id it was read with, provided the field's option texts are
 * distinct (otherwise the first option showing the text wins).
 */
module RoundTrip {
  import opened Values
  import opened ReadPath
  import opened WritePath

  /** An option in the wire form the service sends for a select value. */
  function WireOption(o: SelectOption): Value {
    Obj(map["id" := Int(o.id), "value" := Str(o.value)])
  }

  function WireOptions(chosen: seq<SelectOption>): seq<Value> {
    seq(|chosen|, i requires 0 <= i < |chosen| => WireOption(chosen[i]))
  }

  function Texts(chosen: seq<SelectOption>): seq<Value> {
    seq(|chosen|, i requires 0 <= i < |chosen| => Str(chosen[i].value))
  }

  function Ids(chosen: seq<SelectOption>): seq<Value> {
    seq(|chosen|, i requires 0 <= i < |chosen| => Int(chosen[i].id))
  }

  /** No two options of the field show the same text. */
  predicate DistinctTexts(options: seq<SelectOption>) {
    forall i, j :: 0 <= i < j < |options| ==> options[i].value != options[j].value
  }

  /** Under distinct texts, the text of an option of the field converts back to that option's id. */
  lemma TextConvertsToId(options: seq<SelectOption>, o: SelectOption)
    requires o in options && DistinctTexts(options)
    ensures LookupOption(Str(o.value), options) == Ok(Int(o.id))
  {
    var i :| 0 <= i < |options| && options[i] == o;
    LookupOptionFirst(Str(o.value), options, i);
  }

  /** A single select option read from the service formats to its text, and writing that text sends its id. */
  lemma SingleSelectRoundTrip(field: Field, o: SelectOption)
    requires field.kind == SingleSelect && !field.readOnly
    requires o in field.options && DistinctTexts(field.options)
    ensures FormatValue(WireOption(o), field) == Ok(Str(o.value))
    ensures NewValue(FormatValue(WireOption(o), field).value, field) == Ok(Int(o.id))
  {
    TextConvertsToId(field.options, o);
  }

  /** A list of wire options formats, for a multiple select field, to the list of their texts. */
  lemma FormatWireOptions(field: Field, chosen: seq<SelectOption>)
    requires field.kind == MultipleSelect
    ensures FormatValue(List(WireOptions(chosen)), field) == Ok(List(Texts(chosen)))
  {
    var w := WireOptions(chosen);
    forall i | 0 <= i < |w|
      ensures w[i].Obj? && "value" in w[i].members && w[i].members["value"] == Texts(chosen)[i]
    {
    }
    var r := FormatValue(List(w), field);
    assert r.value.items == Texts(chosen);
  }

  /** Under distinct texts, the texts of chosen options convert back to their ids, in order. */
  lemma TextsConvertToIds(field: Field, chosen: seq<SelectOption>)
    requires field.kind == MultipleSelect && !field.readOnly
    requires forall o :: o in chosen ==> o in field.options
    requires DistinctTexts(field.options)
    ensures NewValue(List(Texts(chosen)), field) == Ok(List(Ids(chosen)))
  {
    if chosen != [] {
      forall i | 0 <= i < |chosen|
        ensures LookupOption(Texts(chosen)[i], field.options) == Ok(Int(chosen[i].id))
      {
        TextConvertsToId(field.options, chosen[i]);
      }
      var c := ConvertItems(Texts(chosen), field.options);
      assert c.value == Ids(chosen);
      assert List(Texts(chosen)) != List([]) by {
        assert |Texts(chosen)| > 0;
      }
      assert NewValue(List(Texts(chosen)), field) == ListOf(c);
    }
  }

  /**
   * A multiple select value read from the service formats to the list of its
   * options' texts, and writing that list sends the list of their ids, in the
   * same order.
   */
  lemma MultipleSelectRoundTrip(field: Field, chosen: seq<SelectOption>)
    requires field.kind == MultipleSelect && !field.readOnly
    requires forall o :: o in chosen ==> o in field.options
    requires DistinctTexts(field.options)
    ensures FormatValue(List(WireOptions(chosen)), field) == Ok(List(Texts(chosen)))
    ensures NewValue(FormatValue(List(WireOptions(chosen)), field).value, field) == Ok(List(Ids(chosen)))
  {
    FormatWireOptions(field, chosen);
    TextsConvertToIds(field, chosen);
  }

  /**
   * A link value reads as the list of its objects' `id` members, whatever else
   * each object carries, and the write path passes that list through untouched.
   */
  lemma LinkRowRoundTrip(field: Field, links: seq<Value>)
    requires field.kind == LinkRow
    requires forall i :: 0 <= i < |links| ==> links[i].Obj? && "id" in links[i].members
    ensures FormatValue(List(links), field)
            == Ok(List(seq(|links|, i requires 0 <= i < |links| => links[i].members["id"])))
    ensures NewValue(List(seq(|links|, i requires 0 <= i < |links| => links[i].members["id"])), field)
            == Ok(List(seq(|links|, i requires 0 <= i < |links| => links[i].members["id"])))
  {
    var ids := seq(|links|, i requires 0 <= i < |links| => links[i].members["id"]);
    var r := FormatValue(List(links), field);
    assert r.value.items == ids;
  }
}
