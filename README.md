# A verified model of the python-baserow-simple client

`python_baserow_simple` is a small client for the REST API of a Baserow
database. It reads a table as a map from row id to the row's writable
values, each value formatted by its field's type, following the listing's
`next` links page by page. It writes one row (`add_data`) or a batch of rows
(`add_data_batch`). Before a single-row write, the display text of select
fields is turned into option ids. The client object caches each table's field
list.

This project models that logic in Dafny and proves what it promises:

- `Values.dfy`: the JSON values the service exchanges, the field and
  select-option records, one error constructor per exception the client can
  raise, and the Python primitives the client leans on. These are a member
  lookup `d[k]`, the comprehension `[e[k] for e in xs]`, iteration over a
  value, and an order-keeping filter.
- `Pages.dfy`: `_get_data`, the recursive walk along `next` links, over an
  abstract server (a map from URL to page).
- `ReadPath.dfy`: `format_value`, `get_writable_fields` and the row map of
  `get_data`.
- `WritePath.dfy`: `convert_option` and `_convert_selects`. Each is a
  specification function plus the loop the client runs, proved equal to it.
- `RoundTrip.dfy`: how reading and writing fit together. A select value read
  from the service and formatted to its text is written back as the id it was
  read with, when the field's option texts are distinct; otherwise the first
  option showing the text wins.
- `Client.dfy`: the `BaserowApi` class with its field cache, `add_data`,
  `add_data_batch` and the partition loop of the latter. The methods take the
  server's answers as parameters and return the requests they issue.

JSON numbers are modelled as integers and JSON objects as maps. A failed
request is an `Err(HttpError)`. Python's recursion limit becomes a `fuel`
bound on the number of pages.

Some behaviour of the code worth noting:

- `add_data_batch` does not catch a failing batch request. The failure ends
  the call, and a failed create request means the update request is never
  sent.
- `get_data` fetches the field list afresh. It does not use the client's
  cache.
- In `add_data`, a row id of `0` is falsy, so the row is created. In
  `add_data_batch`, an entry whose `id` is `0` counts as an update, because
  only `None` is tested there.
- `convert_option` keeps any `int` unchanged, and in Python that includes
  `True` and `False`.
- A string given for a multiple select is iterated character by character.

## Model

| member | source | states |
|---|---|---|
| Values.FieldTypeOf | python_baserow_simple/__init__.py:176-186 | the three type names the client inspects denote the single select, multiple select and link types, and every other name is a plain type carrying that name |
| Values.Member | python_baserow_simple/__init__.py:178 | `d[k]` succeeds exactly on an object holding the key and yields its value; otherwise a missing-key or not-an-object error |
| Values.MemberOfEach | python_baserow_simple/__init__.py:184 | `[v[k] for v in xs]` succeeds exactly when every element is an object holding the key; then same length and element-wise values; otherwise it reports the first failing element's lookup error |
| Values.IterItems | python_baserow_simple/__init__.py:105 | iterating a list yields its elements, iterating a string yields its one-character strings, an empty dict yields nothing, anything else is not iterable |
| Values.Filter | python_baserow_simple/__init__.py:157-159 | an order-keeping filter keeps exactly the elements satisfying the predicate and is no longer than its input |
| Values.FilterAppend | python_baserow_simple/__init__.py:127-131 | filtering a concatenation is the concatenation of the filtered parts |
| Values.FilterSnoc | python_baserow_simple/__init__.py:127-131 | one more element extends the filter by that element exactly when it passes |
| Values.FilterSplit | python_baserow_simple/__init__.py:127-131 | a filter and the filter by the negated predicate together form a permutation of the input |
| Pages.FetchAll | python_baserow_simple/__init__.py:163-172 | has no contract of its own: what it returns is stated by Pages.FetchAllChain, Pages.FetchAllIsChain and Pages.FetchAllMissingResults |
| Pages.FetchAllChain | python_baserow_simple/__init__.py:163-172 | following a complete chain of pages, each with `results`, the last with a falsy `next`, yields exactly the concatenated results in link order |
| Pages.FetchAllIsChain | python_baserow_simple/__init__.py:163-172 | conversely, every successful fetch walked such a chain, within the recursion budget, and returned its rows |
| Pages.FetchAllMissingResults | python_baserow_simple/__init__.py:167-168 | a page without `results` reached along the links makes the whole fetch fail, naming that page |
| ReadPath.FormatValue | python_baserow_simple/__init__.py:175-191 | single select: null or the option's `value`, error on anything but an object or null; multiple select and link: the list of each element's `value` or `id`, error on a non-list; other types unchanged |
| ReadPath.WritableFields | python_baserow_simple/__init__.py:156-160 | keeps exactly the fields that are not read-only |
| ReadPath.WritableFieldsAppend | python_baserow_simple/__init__.py:157-159 | the writable fields are kept in schema order |
| ReadPath.FieldsByName | python_baserow_simple/__init__.py:197 | every field's name is a key, and each key maps to a field of that name |
| ReadPath.WritableNames | python_baserow_simple/__init__.py:196-197 | the names kept by `get_data` are exactly the names of the writable fields |
| ReadPath.ProjectRow | python_baserow_simple/__init__.py:204-208 | a row projects exactly when it is an object with a hashable `id` and all its writable members format; the entry is keyed by the row's id and holds exactly the members named by writable fields, each formatted for its field |
| ReadPath.RowIdsComplete | python_baserow_simple/__init__.py:203-210 | every listed row's id is among the row ids |
| ReadPath.RowIdsSound | python_baserow_simple/__init__.py:203-210 | every row id is the id of a listed row |
| ReadPath.RowIdsAsSet | python_baserow_simple/__init__.py:203-210 | the row ids are exactly the set of the listed rows' ids |
| ReadPath.ProjectRows | python_baserow_simple/__init__.py:203-210 | the row map is built exactly when every row projects, and is then keyed by exactly the rows' ids |
| ReadPath.ProjectRowsSnoc | python_baserow_simple/__init__.py:203-210 | a successful row map of a non-empty run is that of its prefix with the last row's id set to its projection |
| ReadPath.InsertionsAt | python_baserow_simple/__init__.py:203-210 | in a dict built by inserting pairs in order, every inserted key is present and holds the value of its last insertion |
| ReadPath.Entries | python_baserow_simple/__init__.py:203-210 | defines the entries as each row's projection, in row order; there is one entry per row |
| ReadPath.ProjectRowsInsertions | python_baserow_simple/__init__.py:203-210 | a successful row map is the dict built by inserting the rows' entries in order |
| ReadPath.ProjectRowsFirstError | python_baserow_simple/__init__.py:203-210 | a failing row map reports the error of the first row that fails |
| ReadPath.ProjectRowsLastWins | python_baserow_simple/__init__.py:203-210 | every row's id is a key, and an id holds the projection of the last row carrying it |
| ReadPath.GetData | python_baserow_simple/__init__.py:194-212 | has no contract of its own: what it returns is stated by ReadPath.GetDataEntries |
| ReadPath.GetDataEntries | python_baserow_simple/__init__.py:194-212 | a successful `get_data` walked a complete chain of pages and is keyed by the ids of its rows, each id holding the projection of the last row carrying it onto the writable fields |
| WritePath.FirstMatch | python_baserow_simple/__init__.py:86-88 | finds the first option whose text equals the value, or reports that none does |
| WritePath.LookupOption | python_baserow_simple/__init__.py:82-89 | an int (or bool) is kept; otherwise it succeeds exactly when some option shows the value; a success is always an id; a failure names the value and the options |
| WritePath.LookupOptionFirst | python_baserow_simple/__init__.py:86-88 | a text converts to the id of the first option showing it |
| WritePath.LookupOptionIdempotent | python_baserow_simple/__init__.py:83-84 | converting a converted value again changes nothing |
| WritePath.ConvertOption | python_baserow_simple/__init__.py:82-89 | the option scan returns exactly the specified lookup |
| WritePath.ConvertItems | python_baserow_simple/__init__.py:104-110 | converting a list succeeds exactly when each element converts; same length and element-wise ids; the first failing element decides the error |
| WritePath.NewValue | python_baserow_simple/__init__.py:83-110 | null, the empty list and values of non-select fields are kept; a single select value is looked up; a multiple select value succeeds exactly when it is iterable and every item converts, then becomes the list of its items' ids; a non-iterable one fails as not iterable, and otherwise the error names the first item that matches no option |
| WritePath.ConvertRow | python_baserow_simple/__init__.py:91-111 | a successful conversion keeps the row's keys |
| WritePath.ConvertRowPrefixErr | python_baserow_simple/__init__.py:91-111 | the first failing field aborts the whole conversion with its error |
| WritePath.ConvertList | python_baserow_simple/__init__.py:104-110 | the element loop returns exactly the specified list conversion |
| WritePath.ConvertSelects | python_baserow_simple/__init__.py:79-111 | the loop over the fields returns exactly the specified row conversion, the input row unchanged |
| WritePath.ConvertRowKeeps | python_baserow_simple/__init__.py:92-96 | null and empty-list values are kept, and so are values whose key names no writable select field |
| WritePath.ConvertFieldStep | python_baserow_simple/__init__.py:92-110 | one turn of the loop succeeds exactly when the field is absent or its value converts, and then rewrites only that field's entry, to its converted value |
| WritePath.ConvertRowOther | python_baserow_simple/__init__.py:91-111 | an entry that no field names is kept by a successful conversion |
| WritePath.ConvertRowAt | python_baserow_simple/__init__.py:91-110 | with unique field names, a present field's value converts and its entry ends up holding the converted value |
| WritePath.ConvertRowOkIff | python_baserow_simple/__init__.py:91-110 | with unique field names, the conversion succeeds exactly when every present field's value converts |
| WritePath.ConvertRowFirstError | python_baserow_simple/__init__.py:91-111 | with unique field names, a failed conversion reports the error of the first present field, in schema order, whose value fails to convert |
| WritePath.ConvertRowPointwise | python_baserow_simple/__init__.py:91-110 | with unique field names, the conversion succeeds exactly when every present field converts, each entry holds its own converted value, and other entries are kept |
| WritePath.NewValueIdempotent | python_baserow_simple/__init__.py:93-110 | converting a converted value again changes nothing |
| WritePath.ConvertRowIdempotent | python_baserow_simple/__init__.py:79-111 | with unique field names, converting a converted row again gives the same row |
| RoundTrip.TextConvertsToId | python_baserow_simple/__init__.py:86-88 | with distinct option texts, an option's text converts to that option's id |
| RoundTrip.SingleSelectRoundTrip | python_baserow_simple/__init__.py:176-178 | a single select option read from the service formats to its text, and writing that text sends its id, when the field's option texts are distinct; otherwise the first option showing the text wins |
| RoundTrip.FormatWireOptions | python_baserow_simple/__init__.py:182-184 | a list of wire options formats, for a multiple select field, to the list of their texts |
| RoundTrip.TextsConvertToIds | python_baserow_simple/__init__.py:103-110 | with distinct option texts, writing the texts of chosen options sends their ids in the same order |
| RoundTrip.MultipleSelectRoundTrip | python_baserow_simple/__init__.py:182-184 | a multiple select value formats to its options' texts, and writing them sends their ids in the same order, when the field's option texts are distinct; otherwise the first option showing each text wins |
| RoundTrip.LinkRowRoundTrip | python_baserow_simple/__init__.py:186-188 | a list of link objects, each holding an `id` member and anything else, reads as the list of those ids, which writing passes through unchanged |
| Client.Partition | python_baserow_simple/__init__.py:125-131 | entries whose `id` is present and not null go to the update list, all others to the create list, each in input order |
| Client.PartitionExact | python_baserow_simple/__init__.py:127-131 | every entry lands in exactly one of the two lists |
| Client.CreatedId | python_baserow_simple/__init__.py:33-36 | the created row's id is the response's `id`; a response without one is malformed |
| Client.BatchIds | python_baserow_simple/__init__.py:60-62 | a batch response yields its items' ids in order, and fails when `items` is missing or an item lacks an id |
| Client.BaserowApi.constructor | python_baserow_simple/__init__.py:7-12 | a truthy explicit token wins over the token file; the cache starts empty |
| Client.BaserowApi.GetFields | python_baserow_simple/__init__.py:14-17 | a cached table is answered from the cache with no fetch; an uncached table is fetched once and cached; a failed fetch caches nothing; the cache holds exactly the fetched tables |
| Client.BaserowApi.AddData | python_baserow_simple/__init__.py:113-121 | converts the row with the table's fields; with a truthy row id it sends one update and returns that id, otherwise one create and returns the created id; a conversion error sends nothing |
| Client.BaserowApi.AddDataBatch | python_baserow_simple/__init__.py:123-136 | sends one create request for the entries without id if there are any, then one update request for the rest if there are any; a failed create stops before the update; an empty batch sends nothing |

## Left out

- HTTP, URLs, headers and JSON decoding are not modelled. A request's answer is a parameter, or an entry of an abstract server map, and a failed request is `HttpError`. `_get_data` does not check the status, so a failed listing request shows up as a missing-`results` error or as a decoding failure; both are approximated by the server map.
- `load_token` (file reading) is left out. The constructor takes the token read from the file, or None when no token path is given.
- When neither a token nor a token path is given, Python leaves the token unset and fails only on first use. The model stores None instead.
- JSON floating-point numbers are not modelled; numbers are integers. Python's equality `1 == True` is not modelled either.
- Values.IterItems: iterating a non-empty dict (a multiple select value, or a batch response's `items`) yields its keys in insertion order in Python. The model's objects have no order, so it reports such a value as not iterable. An empty dict yields nothing, as in Python.
- ReadPath.ProjectRow: when several members of a row fail to format, Python raises the error of the first one in the row's key order. The model has no key order, so it reports the row as malformed, with its id.
- ReadPath.ProjectRow: Python treats `1` and `True` as the same dict key; the model's keys are distinct values.
- Pages.FetchAll: a page without a `next` member raises a KeyError in Python. Pages always carry `next` in the model, null being None.
- Pages.FetchAll: a page's `results` is always a list in the model; a non-list `results` (which Python would concatenate or reject) is not modelled.
- Pages.FetchAll: Python's recursion limit is modelled as the `fuel` bound on the number of pages.
- Values.FieldType: a field's `kind` is taken to be decoded by `Values.FieldTypeOf`, so a plain type never carries one of the three inspected names. The datatype itself does not exclude a hand-built `OtherType("single_select")`, which the model would treat as a plain type.
- A field whose `select_options`, `name`, `type` or `read_only` member is missing raises a KeyError in Python. Fields are records in the model.
- ReadPath.GetData: the field list is a parameter, because `get_data` fetches it afresh without the cache. The `BaserowApi.get_data` wrapper only passes the token along.
- Client.BaserowApi.AddDataBatch: the ids read from the batch responses are checked, and a malformed response is an error, but they are not returned, just as the client drops them. The batch entries are sent without select conversion, as the client does.
- The client has no single-row read and no hydration of linked rows; neither is modelled.
- The ghost field `fetchLog` of `BaserowApi` records fetches in order; the client has no such list.
