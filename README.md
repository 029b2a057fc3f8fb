# Zabbix item API binding — a Dafny model

This project models `item.go` of a Go client for the Zabbix 2.0 JSON-RPC
API. The file covers the `item.*` methods: the item enumerations and their
wire codes, the `Item` record, indexing a list of items by key, and the
wrappers for `item.get`, `item.create` and `item.delete`. The model keeps the
logic those wrappers add on top of the transport:

- `item.get` adds `output = "extend"` to the request parameters when the caller
  left `output` out.
- `item.create` writes the server-assigned ids back onto the caller's items by
  position.
- `item.delete` sends the items' ids in order. It clears them only when the
  delete call returns no error.
- Deleting by ids compares the number of ids the server acknowledges with the
  number requested. Any difference is reported as `ExpectedMore(requested,
  acknowledged)`, whether the acknowledgement arrives as a JSON array or as a
  JSON object.

Layout:

- `wire.dfy` (module `Wire`): `Option`/`Result`, the decoded JSON value
  (`Value`), the errors, and the outcome of a call. `Outcome.Panic` stands for
  a Go run-time panic, such as a failed type assertion or an index out of
  range.
- `codes.dfy` (module `Codes`): `ItemType`, `ValueType`, `DataType` and
  `DeltaType`, each with a code function and a decoder, proved inverse to each
  other.
- `items.dfy` (module `Items`): the `Item` record, `ByKey`, and the
  specification functions for the id write-backs (`ItemIds`, `AssignIds`,
  `ClearIds`).
- `api.dfy` (module `ItemApi`): the wrappers. The caller's parameter map is a
  class (`Params`), because `item.get` changes it in place. The caller's item
  slice is an `array<Item>`, because create and delete write into it. The
  JSON-RPC call is a function-typed parameter from the method name and payload
  to the call's outcome, so each contract can say what was sent.

Behaviour of `item.go` worth noting:

- `ItemsGet` never looks at the envelope's JSON-RPC `error` member. It returns
  the decoded `result` and the decoder's own error (item.go:104-107). A server
  error therefore does not become the operation's error.
- `ItemsCreate` is not all-or-nothing. A reply whose `itemids` holds a
  non-string, or more ids than there are items, panics partway through the
  write-back loop. The ids before that point have already been written
  (item.go:124-126). The model states exactly which items were changed before
  the panic.
- `ItemsCreate` does not require the items' ids to be empty beforehand. It
  accepts fewer ids than items without complaint, and the extra items keep
  their ids.
- The `Item.ValueType` field is a string on the wire (item.go:59), not the
  `ValueType` enumeration, so the model keeps it as a string.
- `ItemType`, `DataType` and `DeltaType` are plain Go `int` types
  (item.go:9-12). A decoded item's `Type`, `DataType` and `Delta` fields
  (item.go:58,61,62) can therefore hold any integer, not only a named
  constant. The model's `Item` keeps them as `int`. The `Codes` decoders
  say which integers are named constants.
- `ItemsGet` writes the default `output` into the caller's map. Called with a
  nil map, the lookup finds nothing and the write panics before anything is
  sent (item.go:96-97). The model's parameter map is an `Option`, with `None`
  standing for nil, and `ItemsGet` ends in `GetPanic` then.

## Model

| member | source | states |
|---|---|---|
| `Codes.ItemTypeCode` | item.go:16-32 | every item type has a code in 0..16 |
| `Codes.ItemTypeOf` | item.go:16-32 | a code names an item type exactly when it lies in 0..16 |
| `Codes.ItemTypeCodeBijective` | item.go:16-32 | the decoder gives `t` for code `c` if and only if `t`'s code is `c` (no two types share a code, and no code is skipped) |
| `Codes.ValueTypeCode` | item.go:34-38 | every value type has a code in 0..4 |
| `Codes.ValueTypeOf` | item.go:34-38 | a code names a value type exactly when it lies in 0..4 |
| `Codes.ValueTypeCodeBijective` | item.go:34-38 | value-type codes and value types correspond one to one |
| `Codes.DataTypeCode` | item.go:40-43 | every data type has a code in 0..3 |
| `Codes.DataTypeOf` | item.go:40-43 | a code names a data type exactly when it lies in 0..3 |
| `Codes.DataTypeCodeBijective` | item.go:40-43 | data-type codes and data types correspond one to one |
| `Codes.DeltaTypeCode` | item.go:45-47 | every delta type has a code in 0..2 |
| `Codes.DeltaTypeOf` | item.go:45-47 | a code names a delta type exactly when it lies in 0..2 |
| `Codes.DeltaTypeCodeBijective` | item.go:45-47 | delta-type codes and delta types correspond one to one |
| `Items.ByKey` | item.go:82-91 | succeeds if and only if all keys are distinct; on success the index's key set is the items' key set, it has exactly one entry per item, and each key maps to its item; on failure it reports the key of the first item whose key occurred earlier |
| `Items.DistinctKeysCount` | item.go:83-90 | n items with pairwise distinct keys carry exactly n keys, so the index has as many entries as the list has items |
| `Items.SharedKeyBreaksDistinct` | item.go:85-88 | two items with the same key make the list non-distinct, whatever their other fields, so `ByKey` fails on it |
| `Items.ItemIds` | item.go:133-136 | the ids sent by a delete are the items' ids, one per item, in list order |
| `Items.AssignIds` | item.go:122-126 | after the write-back, item i carries id i for every i below the number of ids; later items are untouched; no field other than the id changes |
| `Items.ClearIds` | item.go:139-143 | after a successful delete, every id is empty and no other field changes |
| `Items.DeleteSendsCreatedIds` | item.go:116-145 | when every item received an id on create, a later delete sends exactly the ids the server returned, in order |
| `Items.CreateThenDeleteRestores` | item.go:116-145 | creating items without ids and then deleting them gives back the caller's items unchanged |
| `ItemApi.WithDefaultOutput` | item.go:96-98 | an existing `output` entry passes through with the map unchanged; a missing one becomes `"extend"`; every other entry keeps its value |
| `ItemApi.DefaultOutputIdempotent` | item.go:96-98 | defaulting the parameters twice equals defaulting them once |
| `ItemApi.ItemsGet` | item.go:95-107 | a nil parameter map panics before anything is sent; otherwise the caller's parameters are defaulted in place and those defaulted parameters are what gets sent; a transport error gives no items and that error; otherwise the decoded result and the decoder's error are returned, whatever the envelope's `error` member holds |
| `ItemApi.CreatedIds` | item.go:122-123 | the reply yields an id list exactly when it is an object whose `itemids` member is an array, and that list is the array's elements; otherwise the type assertions panic |
| `ItemApi.LeadingStrings` | item.go:124-125 | the result is the longest run of string values at the head of the list: every element in it is a string, and the element right after it is not |
| `ItemApi.WrittenIds` | item.go:124-126 | the ids written before the loop ends or panics: at most one per item, all strings, and the loop stops early only at the end of the items or at a non-string |
| `ItemApi.WriteBackIds` | item.go:124-126 | the items become `AssignIds` of the written ids; the loop completes exactly when there are no more ids than items and every id is a string, and then item i carries id i |
| `ItemApi.ItemsCreate` | item.go:116-128 | a transport error is returned and no item changes; a reply of the wrong shape panics and no item changes; otherwise ids are written back by position and the call returns no error exactly when all ids were strings and fitted onto the items, panicking otherwise |
| `ItemApi.AckCount` | item.go:154-161 | a delete reply yields a count exactly when its `itemids` member is an array or an object; the count is the number of elements either way |
| `ItemApi.ItemsDeleteByIds` | item.go:148-165 | a transport error is returned as is; a wrongly shaped reply panics; otherwise the result is no error exactly when the acknowledged count equals the requested count, and `ExpectedMore(requested, acknowledged)` for every other count, above or below |
| `ItemApi.ArrayAndObjectAcksAgree` | item.go:155-161 | an acknowledgement given as an array and one given as an object of the same size lead to the same outcome |
| `ItemApi.CollectIds` | item.go:133-136 | the id buffer has one entry per item, holding that item's id, in order |
| `ItemApi.ItemsDelete` | item.go:132-145 | the delete sends the items' ids in order and returns what deleting by those ids returns; only when that is no error are all ids cleared, and otherwise, including a panic, the items stay unchanged |

## Left out

- The transport (`callBytes`, `CallWithError`) is defined outside `item.go` and does network I/O. Its outcome is a function-typed parameter of each wrapper.
- Authentication and request ids are part of that transport and are not modelled either.
- `json.Unmarshal` and the struct field tags, including the `omitempty` rules, are the JSON library's work. The decoded reply of `item.get` is a parameter (`unmarshal`), and create and delete replies arrive already decoded as `Value`.
- JSON numbers are `real` in `Value`. The float64 rounding of Go's decoder is not modelled, and no operation here looks at numbers.
- The `Applications` field's type is not part of this model. It is an opaque type.
- The `Error`, `Params` and `API` types are not part of this model. Errors are the `Error` datatype, and the parameter map is `map<string, string>` where Go has `map[string]interface{}`.
- `ItemsGetByApplicationId` (item.go:111-113) is a one-line wrapper that calls `ItemsGet` with `{"applicationids": id}`. It adds no logic of its own.
- Go panics are outcomes (`Outcome.Panic`, and the `Failure` of `ByKey`). The unwinding itself is not modelled, and neither is the text of the panic message beyond the duplicate key.
- Go's `int` fields (`Delay`, `History`, `Trends`) and slice lengths are unbounded integers. No operation does arithmetic on them.
- Concurrent use of one item slice by two calls is not modelled.
