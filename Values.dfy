/**
 * The value domain shared by the read and write paths of the Baserow client:
 * JSON values as the service sends and accepts them, field descriptors of a
 * table's schema, the errors the client raises, and the few pieces of Python
 * evaluation (subscripting, iteration, list comprehension, filtering) that the
 * client's value logic is built from.
 */
module Values {

  datatype Option<+T> = None | Some(value: T)

  /** A decoded JSON value. */
  datatype Value =
    | Null
    | Bool(b: bool)
    | Int(i: int)
    | Str(s: string)
    | List(items: seq<Value>)
    | Obj(members: map<string, Value>)

  /** A row payload: field name to value. */
  type Row = map<string, Value>

  /** One choice of a select field: the id the service stores and the text it shows. */
  datatype SelectOption = SelectOption(id: int, value: string)

  /**
   * The `type` member of a field descriptor. Every type the client does not
   * inspect is OtherType; its name is never one of the three inspected type
   * names (`single_select`, `multiple_select`, `link_row`), which always decode
   * to their own constructors.
   */
  datatype FieldType = SingleSelect | MultipleSelect | LinkRow | OtherType(name: string)

  /** The field type a descriptor's `type` string denotes: the three inspected names and everything else. */
  function FieldTypeOf(name: string): (t: FieldType)
    ensures t == SingleSelect <==> name == "single_select"
    ensures t == MultipleSelect <==> name == "multiple_select"
    ensures t == LinkRow <==> name == "link_row"
    ensures t.OtherType? ==> t.name == name
  {
    if name == "single_select" then SingleSelect
    else if name == "multiple_select" then MultipleSelect
    else if name == "link_row" then LinkRow
    else OtherType(name)
  }

  /**
   * A field descriptor. `options` stands for `select_options`; it is only
   * consulted for the two select types.
   */
  datatype Field = Field(name: string, kind: FieldType, readOnly: bool, options: seq<SelectOption>)

  /** The exceptions the client raises, one constructor per cause. */
  datatype Error =
    | UnknownOption(value: Value, options: seq<SelectOption>)  // no select option matches a value to write
    | NotIterable(value: Value)                                // a multiple_select value that is not a sequence
    | Malformed(kind: FieldType, raw: Value)                   // a read value of the wrong shape for its field type
    | NotAnObject(value: Value)                                // subscripting something that is not a dict
    | MissingKey(key: string)                                  // subscripting a dict without that key
    | Unhashable(value: Value)                                 // a list or dict used as a row id
    | MalformedRow(id: Value)                                  // some kept value of the row with this id failed to format
    | MissingResults(url: string)                              // a listing page without `results`
    | TooManyPages(url: string)                                // the interpreter's recursion limit, reached at this page
    | HttpError                                                // a failed request
    | MalformedResponse(response: Value)                       // a create response without `id`

  datatype Result<+T> = Ok(value: T) | Err(error: Error)

  /** Wraps a successful sequence into a JSON list, passing an error through. */
  function ListOf(r: Result<seq<Value>>): (l: Result<Value>)
    ensures l.Ok? <==> r.Ok?
    ensures r.Ok? ==> l.value == List(r.value)
    ensures r.Err? ==> l.error == r.error
  {
    match r
    case Ok(xs) => Ok(List(xs))
    case Err(e) => Err(e)
  }

  /** Python's `v[key]`: defined on a dict holding `key` only. */
  function Member(v: Value, key: string): (r: Result<Value>)
    ensures r.Ok? <==> v.Obj? && key in v.members
    ensures r.Ok? ==> r.value == v.members[key]
    ensures v.Obj? && key !in v.members ==> r == Err(MissingKey(key))
    ensures !v.Obj? ==> r == Err(NotAnObject(v))
  {
    match v
    case Obj(m) => if key in m then Ok(m[key]) else Err(MissingKey(key))
    case _ => Err(NotAnObject(v))
  }

  /**
   * The comprehension `[e[key] for e in items]`: the same number of elements,
   * each the `key` member of its counterpart; the first element that lacks the
   * member decides the error.
   */
  function MemberOfEach(items: seq<Value>, key: string): (r: Result<seq<Value>>)
    ensures r.Ok? <==> forall i :: 0 <= i < |items| ==> items[i].Obj? && key in items[i].members
    ensures r.Ok? ==> |r.value| == |items| && forall i :: 0 <= i < |items| ==> r.value[i] == items[i].members[key]
    ensures r.Err? ==>
      exists i :: 0 <= i < |items| && Member(items[i], key) == Err(r.error)
                  && forall j :: 0 <= j < i ==> Member(items[j], key).Ok?
  {
    if items == [] then Ok([])
    else
      match Member(items[0], key)
      case Err(e) => Err(e)
      case Ok(x) =>
        match MemberOfEach(items[1..], key)
        case Err(e) => Err(e)
        case Ok(rest) => Ok([x] + rest)
  }

  /**
   * Python's `for x in v`: a list yields its elements, a string its
   * one-character strings, an empty dict nothing. A non-empty dict would yield
   * its keys in insertion order, which objects here do not record, so it is
   * reported as not iterable.
   */
  function IterItems(v: Value): (r: Result<seq<Value>>)
    ensures v.List? ==> r == Ok(v.items)
    ensures v.Str? ==> r.Ok? && |r.value| == |v.s| && forall i :: 0 <= i < |v.s| ==> r.value[i] == Str([v.s[i]])
    ensures v == Obj(map[]) ==> r == Ok([])
    ensures !v.List? && !v.Str? && v != Obj(map[]) ==> r == Err(NotIterable(v))
  {
    match v
    case List(xs) => Ok(xs)
    case Str(s) => Ok(seq(|s|, i requires 0 <= i < |s| => Str([s[i]])))
    case Obj(m) => if m == map[] then Ok([]) else Err(NotIterable(v))
    case _ => Err(NotIterable(v))
  }

  /** The order-preserving filter `[x for x in s if p(x)]`. */
  function Filter<T(!new)>(s: seq<T>, p: T -> bool): (r: seq<T>)
    ensures |r| <= |s|
    ensures forall x :: x in r <==> x in s && p(x)
  {
    if s == [] then [] else (if p(s[0]) then [s[0]] else []) + Filter(s[1..], p)
  }

  /** Filtering a concatenation filters each part and keeps them in order. */
  lemma {:induction false} FilterAppend<T(!new)>(a: seq<T>, b: seq<T>, p: T -> bool)
    ensures Filter(a + b, p) == Filter(a, p) + Filter(b, p)
  {
    if a == [] {
      assert a + b == b;
    } else {
      assert (a + b)[0] == a[0];
      assert (a + b)[1..] == a[1..] + b;
      FilterAppend(a[1..], b, p);
    }
  }

  /** Filtering a sequence extended by one element extends the filter by that element exactly when it passes. */
  lemma FilterSnoc<T(!new)>(s: seq<T>, x: T, p: T -> bool)
    ensures Filter(s + [x], p) == Filter(s, p) + if p(x) then [x] else []
  {
    FilterAppend(s, [x], p);
    assert [x][1..] == [];
  }

  /** A filter and the filter by the opposite predicate split a sequence: every element lands in exactly one. */
  lemma {:induction false} FilterSplit<T(!new)>(s: seq<T>, p: T -> bool, q: T -> bool)
    requires forall x :: q(x) == !p(x)
    ensures multiset(Filter(s, p)) + multiset(Filter(s, q)) == multiset(s)
  {
    if s != [] {
      var x, rest := s[0], s[1..];
      FilterSplit(rest, p, q);
      assert s == [x] + rest;
      assert Filter(s, p) == (if p(x) then [x] else []) + Filter(rest, p);
      assert Filter(s, q) == (if q(x) then [x] else []) + Filter(rest, q);
      assert multiset(if p(x) then [x] else []) + multiset(if q(x) then [x] else []) == multiset{x};
    }
  }
}
