/**
  The item.get, item.create and item.delete wrappers. The JSON-RPC
  transport is a parameter: a function from the method name and the
  payload to what the call gives back, so that every contract can say
  what was sent and what came of the reply.
 */
module ItemApi {
  import opened Wire
  import opened Items

  /** The response envelope of item.get, as the JSON decoder fills it in. */
  datatype ItemResponse = ItemResponse(jsonrpc: string, error: Option<ApiError>, result: seq<Item>, id: int32)

  /** What decoding the reply bytes gave: the (possibly partly filled) envelope and the decoder's error. */
  datatype Decoded = Decoded(response: ItemResponse, error: Option<Error>)

  /**
    A request's parameter map; `None` is a nil map. The caller's map is
    shared, so `ItemsGet` changes it in place.
   */
  class Params {
    var entries: Option<map<string, string>>

    constructor (entries: Option<map<string, string>>)
      ensures this.entries == entries
    {
      this.entries := entries;
    }
  }

  /** How item.get ends: with the decoded items and an error, or in a panic. */
  datatype GetOutcome = Returned(items: seq<Item>, err: Option<Error>) | GetPanic

  /**
    The parameters item.get sends: full field expansion ("output" =
    "extend") unless the caller chose an output already, in which case
    the map passes through untouched.
   */
  function WithDefaultOutput(p: map<string, string>): (r: map<string, string>)
    ensures "output" in p ==> r == p
    ensures "output" !in p ==> "output" in r && r["output"] == "extend"
    ensures r.Keys == p.Keys + {"output"}
    ensures forall k | k in p && k != "output" :: r[k] == p[k]
  {
    if "output" in p then p else p["output" := "extend"]
  }

  /** Defaulting twice is defaulting once. */
  lemma DefaultOutputIdempotent(p: map<string, string>)
    ensures WithDefaultOutput(WithDefaultOutput(p)) == WithDefaultOutput(p)
  {
  }

  /**
    item.get: defaults the caller's parameters, calls the server and
    decodes the reply. The envelope's JSON-RPC `error` member is never
    looked at: the decoded result and the decoder's error are returned
    as they are. A nil parameter map has no "output" entry, and writing
    the default into it panics before anything is sent.
   */
  method ItemsGet(
    params: Params,
    callBytes: (string, map<string, string>) -> Result<seq<uint8>, Error>,
    unmarshal: seq<uint8> -> Decoded)
    returns (r: GetOutcome)
    modifies params
    ensures old(params.entries).None? ==> r == GetPanic && params.entries == None
    ensures old(params.entries).Some? ==>
      && params.entries == Some(WithDefaultOutput(old(params.entries).value))
      && var reply := callBytes("item.get", params.entries.value);
         && (reply.Failure? ==> r == Returned([], Some(reply.error)))
         && (reply.Success? ==>
               var decoded := unmarshal(reply.value);
               r == Returned(decoded.response.result, decoded.error))
  {
    if params.entries.None? {
      return GetPanic;
    }
    if "output" !in params.entries.value {
      params.entries := Some(params.entries.value["output" := "extend"]);
    }
    var reply := callBytes("item.get", params.entries.value);
    if reply.Failure? {
      return Returned([], Some(reply.error));
    }
    var decoded := unmarshal(reply.value);
    r := Returned(decoded.response.result, decoded.error);
  }

  /**
    The `itemids` list of an item.create reply. Anything but an object
    whose `itemids` member is an array fails the source's type assertions.
   */
  function CreatedIds(result: Value): (ids: Option<seq<Value>>)
    ensures ids.Some? <==> result.Object? && "itemids" in result.fields && result.fields["itemids"].Array?
    ensures ids.Some? ==> ids.value == result.fields["itemids"].elems
  {
    if result.Object? && "itemids" in result.fields && result.fields["itemids"].Array?
    then Some(result.fields["itemids"].elems)
    else None
  }

  /** The longest run of strings at the head of `vs`: how far the per-id string assertions get. */
  function LeadingStrings(vs: seq<Value>): (ids: seq<string>)
    ensures |ids| <= |vs|
    ensures forall i | 0 <= i < |ids| :: vs[i] == Str(ids[i])
    ensures |ids| < |vs| ==> !vs[|ids|].Str?
  {
    if vs == [] || !vs[0].Str? then [] else [vs[0].text] + LeadingStrings(vs[1..])
  }

  /** The ids a create reply gets written back onto `n` items before the loop ends or panics. */
  function WrittenIds(vs: seq<Value>, n: nat): (ids: seq<string>)
    ensures |ids| <= n && |ids| <= |vs|
    ensures forall i | 0 <= i < |ids| :: vs[i] == Str(ids[i])
    ensures |ids| < |vs| ==> |ids| == n || !vs[|ids|].Str?
  {
    var run := LeadingStrings(vs);
    if |run| <= n then run else run[..n]
  }

  /** Items that carry the first `k` ids of `run`, and are untouched after them, are `AssignIds(before, run[..k])`. */
  lemma WrittenPrefix(before: seq<Item>, now: seq<Item>, run: seq<string>, k: nat)
    requires k <= |run| && k <= |before| == |now|
    requires forall j | 0 <= j < k :: now[j] == before[j].(itemId := run[j])
    requires forall j | k <= j < |now| :: now[j] == before[j]
    ensures now == AssignIds(before, run[..k])
  {
  }

  /**
    The write-back loop of item.create: the i-th id goes onto the i-th
    item, in order, until the ids run out (`completed`), or an id is not a
    string or has no item to go to (the source panics there, keeping the
    ids it already wrote).
   */
  method WriteBackIds(items: array<Item>, ids: seq<Value>) returns (completed: bool)
    modifies items
    ensures items[..] == AssignIds(old(items[..]), WrittenIds(ids, items.Length))
    ensures completed <==> |ids| <= items.Length && forall i | 0 <= i < |ids| :: ids[i].Str?
    ensures completed ==> forall i | 0 <= i < |ids| :: ids[i] == Str(items[i].itemId)
  {
    ghost var before := items[..];
    ghost var run := LeadingStrings(ids);
    var i := 0;
    while i < |ids| && i < items.Length && ids[i].Str?
      invariant 0 <= i <= |ids| && i <= items.Length && i <= |run|
      invariant forall j | 0 <= j < i :: items[j] == before[j].(itemId := run[j])
      invariant forall j | i <= j < items.Length :: items[j] == before[j]
    {
      items[i] := items[i].(itemId := ids[i].text);
      i := i + 1;
    }
    // the loop ran out of ids, or stops (panics) at position i
    WrittenPrefix(before, items[..], run, i);
    assert i < |ids| && i < items.Length ==> |run| == i;
    assert WrittenIds(ids, items.Length) == run[..i];
    completed := i == |ids|;
  }

  /**
    item.create: sends the items, then writes the i-th returned id onto
    the i-th item. A transport error or a reply of the wrong shape leaves
    the items alone; a non-string id, or more ids than items, panics after
    the ids before it were written.
   */
  method ItemsCreate(items: array<Item>, call: (string, seq<Item>) -> CallOutcome) returns (r: Outcome)
    modifies items
    ensures var reply := call("item.create", old(items[..]));
      reply.Failed? ==> r == Err(reply.error) && items[..] == old(items[..])
    ensures var reply := call("item.create", old(items[..]));
      reply.Replied? && CreatedIds(reply.result).None? ==> r == Panic && items[..] == old(items[..])
    ensures var reply := call("item.create", old(items[..]));
      reply.Replied? && CreatedIds(reply.result).Some? ==>
        var ids := CreatedIds(reply.result).value;
        && items[..] == AssignIds(old(items[..]), WrittenIds(ids, items.Length))
        && (r.Ok? <==> |ids| <= items.Length && forall i | 0 <= i < |ids| :: ids[i].Str?)
        && (!r.Ok? ==> r == Panic)
        && (r.Ok? ==> forall i | 0 <= i < |ids| :: ids[i] == Str(items[i].itemId))
  {
    var reply := call("item.create", items[..]);
    if reply.Failed? {
      return Err(reply.error);
    }
    var created := CreatedIds(reply.result);
    if created.None? {
      return Panic;
    }
    var completed := WriteBackIds(items, created.value);
    r := if completed then Ok else Panic;
  }

  /**
    The number of ids an item.delete reply acknowledges. Its `itemids`
    member is an array, or an object on some server versions; anything
    else (a missing member included) fails the type assertions.
   */
  function AckCount(result: Value): (n: Option<nat>)
    ensures n.Some? <==>
      result.Object? && "itemids" in result.fields
      && (result.fields["itemids"].Array? || result.fields["itemids"].Object?)
    ensures n.Some? && result.fields["itemids"].Array? ==> n.value == |result.fields["itemids"].elems|
    ensures n.Some? && result.fields["itemids"].Object? ==> n.value == |result.fields["itemids"].fields|
  {
    if !result.Object? then None
    else
      var ids := if "itemids" in result.fields then result.fields["itemids"] else Null;
      match ids
      case Array(elems) => Some(|elems|)
      case Object(fields) => Some(|fields|)
      case _ => None
  }

  /**
    item.delete by ids: the call succeeds only when the server
    acknowledges exactly as many ids as were sent; any difference, in
    either direction, is reported as ExpectedMore(requested, acknowledged).
   */
  function ItemsDeleteByIds(ids: seq<string>, call: (string, seq<string>) -> CallOutcome): (r: Outcome)
    ensures call("item.delete", ids).Failed? ==> r == Err(call("item.delete", ids).error)
    ensures r == Panic <==>
      call("item.delete", ids).Replied? && AckCount(call("item.delete", ids).result).None?
    ensures r == Ok <==>
      call("item.delete", ids).Replied? && AckCount(call("item.delete", ids).result) == Some(|ids|)
    ensures call("item.delete", ids).Replied? && AckCount(call("item.delete", ids).result).Some? ==>
      var acknowledged := AckCount(call("item.delete", ids).result).value;
      acknowledged != |ids| ==> r == Err(ExpectedMore(|ids|, acknowledged))
  {
    match call("item.delete", ids)
    case Failed(e) => Err(e)
    case Replied(result) =>
      match AckCount(result)
      case None => Panic
      case Some(acknowledged) =>
        if |ids| != acknowledged then Err(ExpectedMore(|ids|, acknowledged)) else Ok
  }

  /** A reply listing the ids as an array and one listing them as an object of the same size end alike. */
  lemma ArrayAndObjectAcksAgree(ids: seq<string>, elems: seq<Value>, fields: map<string, Value>)
    requires |elems| == |fields|
    ensures ItemsDeleteByIds(ids, (_, _) => Replied(Object(map["itemids" := Array(elems)])))
         == ItemsDeleteByIds(ids, (_, _) => Replied(Object(map["itemids" := Object(fields)])))
  {
  }

  /** The ids of the items, gathered in order into a buffer of the same length. */
  method CollectIds(items: array<Item>) returns (ids: seq<string>)
    ensures |ids| == items.Length
    ensures forall i | 0 <= i < items.Length :: ids[i] == items[i].itemId
  {
    var buffer := new string[items.Length];
    for i := 0 to items.Length
      invariant forall j | 0 <= j < i :: buffer[j] == items[j].itemId
    {
      buffer[i] := items[i].itemId;
    }
    ids := buffer[..];
  }

  /** Items whose ids are all cleared, and nothing else changed, are `ClearIds(before)`. */
  lemma ClearedAll(before: seq<Item>, now: seq<Item>)
    requires |before| == |now|
    requires forall j | 0 <= j < |now| :: now[j] == before[j].(itemId := "")
    ensures now == ClearIds(before)
  {
  }

  /**
    item.delete: sends the items' ids in order and, only when that call
    returns no error, clears every item's id. On an error or a panic the
    items stay as they were.
   */
  method ItemsDelete(items: array<Item>, call: (string, seq<string>) -> CallOutcome) returns (r: Outcome)
    modifies items
    ensures r == ItemsDeleteByIds(ItemIds(old(items[..])), call)
    ensures r.Ok? ==> items[..] == ClearIds(old(items[..]))
    ensures !r.Ok? ==> items[..] == old(items[..])
  {
    ghost var before := items[..];
    var ids := CollectIds(items);
    assert ids == ItemIds(before);
    r := ItemsDeleteByIds(ids, call);
    if r.Ok? {
      for i := 0 to items.Length
        invariant forall j | 0 <= j < i :: items[j] == before[j].(itemId := "")
        invariant forall j | i <= j < items.Length :: items[j] == before[j]
      {
        items[i] := items[i].(itemId := "");
      }
      ClearedAll(before, items[..]);
    }
  }
}
